/**
 * The SMS service of src/services/SMSService.ts as a class. Its four fields
 * stand for the in-memory server URL and the three storage keys the service
 * owns; every storage access of the source is a whole-list read, change and
 * write, which here becomes a read and a reassignment of the field.
 */
module Service {
  import opened Optional
  import opened Text
  import opened Ledger

  class SMSService {
    /** The in-memory server URL. */
    var serverUrl: string
    /** Storage key `server_url`. */
    var storedUrl: Option<string>
    /** Storage key `sms_messages`, newest first. */
    var messages: seq<SMSMessage>
    /** Storage key `upload_logs`, newest first. */
    var logs: seq<LogEntry>

    /** The singleton, created over whatever the storage already holds. */
    constructor (storedUrl: Option<string>, messages: seq<SMSMessage>, logs: seq<LogEntry>)
      ensures this.serverUrl == DefaultServerUrl
      ensures this.storedUrl == storedUrl && this.messages == messages && this.logs == logs
    {
      this.serverUrl := DefaultServerUrl;
      this.storedUrl := storedUrl;
      this.messages := messages;
      this.logs := logs;
    }

    /** Holds the URL in memory and stores it. */
    method SetServerUrl(url: string)
      modifies this`serverUrl, this`storedUrl
      ensures serverUrl == url && storedUrl == Some(url)
      ensures ResolveUrl(storedUrl, serverUrl) == url
    {
      serverUrl := url;
      storedUrl := Some(url);
    }

    /** A stored non-empty URL replaces the in-memory one, which is then returned. */
    method GetServerUrl() returns (url: string)
      modifies this`serverUrl
      ensures url == ResolveUrl(storedUrl, old(serverUrl)) && serverUrl == url
    {
      match storedUrl {
        case Some(u) =>
          if u != "" {
            serverUrl := u;
          }
        case None =>
      }
      url := serverUrl;
    }

    /** Puts the record at the head and keeps at most MaxMessages records. */
    method SaveMessage(message: SMSMessage)
      modifies this`messages
      ensures messages == PrependCapped(message, old(messages), MaxMessages)
      ensures |messages| <= MaxMessages && messages[0] == message
    {
      var list := GetMessages();
      list := [message] + list;
      if |list| > MaxMessages {
        list := list[..MaxMessages];
      }
      messages := list;
    }

    /** The stored list, newest first. */
    method GetMessages() returns (list: seq<SMSMessage>)
      ensures list == messages
    {
      list := messages;
    }

    /**
     * Sends one record. On an ok response the record, marked uploaded, is
     * written over the stored record with its id; every call, whatever the
     * outcome, prepends exactly one log entry that carries the returned
     * success flag and error. `sent` is the caller's record after the call
     * (the source marks it uploaded in place) and `request` what was sent.
     */
    method UploadMessage(message: SMSMessage, outcome: UploadOutcome, now: int)
      returns (result: UploadResult, sent: SMSMessage, request: UploadRequest)
      modifies this`serverUrl, this`messages, this`logs
      ensures serverUrl == ResolveUrl(storedUrl, old(serverUrl))
      ensures request == RequestFor(message, serverUrl)
      ensures result == ResultOf(outcome)
      ensures sent == if result.success then message.(uploaded := true) else message
      ensures messages == AfterUpload(old(messages), message, outcome)
      ensures logs == PrependCapped(LogFor(message, result, now), old(logs), MaxLogs)
    {
      var url := GetServerUrl();
      request := RequestFor(message, url);
      sent := message;
      match outcome {
        case Response(status, text) =>
          if 200 <= status <= 299 {
            sent := sent.(uploaded := true);
            UpdateMessage(sent);
            LogUpload(sent, true, None, now);
            result := UploadResult(true, None);
          } else {
            LogUpload(sent, false, Some(HttpError(status, text)), now);
            result := UploadResult(false, Some(HttpError(status, text)));
          }
        case Thrown(isError, msg) =>
          var errorMessage := if isError then msg else "Unknown error";
          LogUpload(sent, false, Some(errorMessage), now);
          result := UploadResult(false, Some(errorMessage));
      }
    }

    /** Writes the record over the first stored record with its id, if any. */
    method UpdateMessage(updated: SMSMessage)
      modifies this`messages
      ensures messages == Replace(old(messages), updated)
    {
      var list := GetMessages();
      var index := IndexOfId(list, updated.id);
      if index.Some? {
        list := list[index.value := updated];
        messages := list;
      }
    }

    /**
     * Retries, one at a time and in stored order, every record that was not
     * uploaded when the sweep started; the `k`-th attempt meets outcome(k) at
     * time clock(k). Returns how many succeeded. A failed attempt writes the
     * record back with one more attempt counted.
     */
    method RetryFailedUploads(outcome: nat -> UploadOutcome, clock: nat -> int)
      returns (successCount: nat)
      modifies this`serverUrl, this`messages, this`logs
      ensures successCount == SweepCount(old(messages), outcome)
      ensures messages == Swept(old(messages), outcome)
      ensures logs == SweepLogs(old(messages), old(logs), outcome, clock)
      ensures serverUrl == SweepUrl(old(messages), storedUrl, old(serverUrl))
      ensures successCount <= |Pending(old(messages))|
    {
      var snapshot := GetMessages();
      var pending := Pending(snapshot);
      ghost var logs0, url0 := logs, serverUrl;
      assert PushAll(logs, SweepEntries(pending, outcome, clock, 0), MaxLogs) == logs;
      successCount := 0;
      var i := 0;
      while i < |pending|
        invariant 0 <= i <= |pending|
        invariant successCount == SuccessCount(outcome, i)
        invariant messages == SweepMessages(snapshot, pending, outcome, i)
        invariant logs == PushAll(logs0, SweepEntries(pending, outcome, clock, i), MaxLogs)
        invariant serverUrl == (if i == 0 then url0 else ResolveUrl(storedUrl, url0))
        invariant storedUrl == old(storedUrl)
      {
        var message := pending[i];
        ResolveUrlIdempotent(storedUrl, url0);
        SweepLogStep(logs0, pending, outcome, clock, i);
        var result, sent, _ := UploadMessage(message, outcome(i), clock(i));
        if result.success {
          assert message.(uploaded := true) == Retried(message, outcome(i));
          successCount := successCount + 1;
        } else {
          sent := sent.(uploadAttempts := sent.uploadAttempts + 1);
          assert sent == Retried(message, outcome(i));
          UpdateMessage(sent);
        }
        i := i + 1;
      }
    }

    /** Prepends one log entry and keeps at most MaxLogs entries. */
    method LogUpload(message: SMSMessage, success: bool, error: Option<string>, now: int)
      modifies this`logs
      ensures logs == PrependCapped(LogFor(message, UploadResult(success, error), now), old(logs), MaxLogs)
      ensures |logs| <= MaxLogs
    {
      var entries := GetUploadLogs();
      var entry := LogFor(message, UploadResult(success, error), now);
      entries := [entry] + entries;
      if |entries| > MaxLogs {
        entries := entries[..MaxLogs];
      }
      logs := entries;
    }

    /** The stored upload log, newest first. */
    method GetUploadLogs() returns (entries: seq<LogEntry>)
      ensures entries == logs
    {
      entries := logs;
    }

    /** Removes the messages and the logs; the URL, stored or in memory, stays. */
    method ClearData()
      modifies this`messages, this`logs
      ensures messages == [] && logs == []
    {
      messages := [];
      logs := [];
    }
  }
}
