/**
 * The message hook `useSMSMessages` of src/hooks/useSMS.ts: it builds a
 * record for every incoming SMS, saves it through the service, shows it in
 * the React list, uploads it at once and records the outcome, both in
 * storage and in the list shown. The React state is the `messages` field of
 * a class; the service is the singleton the hook holds.
 */
module Ingestion {
  import opened Optional
  import opened Text
  import opened Ledger
  import opened Whitelist
  import opened Service

  /** One row of the native inbox query `readRecentSMS` resolves with. */
  datatype RawSms = RawSms(sender: string, body: string, timestamp: int)

  /** What the native module offers `readRecentSMS`. */
  datatype NativeReader =
    | Unavailable                    // not Android, or no native module
    | NoReadRecent                   // the module has no `readRecentSMS`
    | Rejected                       // its promise rejects (no permission, no cursor)
    | Returned(rows: seq<RawSms>)    // `result.messages`

  /** The rows the hook iterates over; every other case returns early or is caught. */
  function RowsOf(reader: NativeReader): seq<RawSms> {
    if reader.Returned? then reader.rows else []
  }

  // ---------------------------------------------------------------------------
  // The new record
  // ---------------------------------------------------------------------------

  /** `${timestamp}_${suffix}`, where `suffix` stands for the random base-36 part. */
  function NewId(timestamp: int, suffix: string): string {
    IntToString(timestamp) + "_" + suffix
  }

  /** The record addMessage builds: not uploaded, no attempt yet. */
  function NewRecord(sender: string, body: string, timestamp: int, suffix: string): (m: SMSMessage)
    ensures m.sender == sender && m.body == body && m.timestamp == timestamp
    ensures !m.uploaded && m.uploadAttempts == 0
  {
    SMSMessage(NewId(timestamp, suffix), sender, body, timestamp, false, 0)
  }

  /** The part of a new id before its first underscore is the timestamp. */
  lemma IdStartsWithTimestamp(timestamp: int, suffix: string)
    ensures var t := IntToString(timestamp);
      NewId(timestamp, suffix)[..|t| + 1] == t + "_"
    ensures Split(NewId(timestamp, suffix), '_')[0] == IntToString(timestamp)
  {
    var t := IntToString(timestamp);
    assert forall i :: 0 <= i < |t| ==> t[i] != '_';
    assert NewId(timestamp, suffix) == t + ['_'] + suffix;
    SplitHead(t, '_', suffix);
  }

  /** Records built for different timestamps never share an id, whatever the random parts. */
  lemma IdsOfDistinctTimestampsDiffer(t1: int, s1: string, t2: int, s2: string)
    requires t1 != t2
    ensures NewId(t1, s1) != NewId(t2, s2)
  {
    IdStartsWithTimestamp(t1, s1);
    IdStartsWithTimestamp(t2, s2);
    if NewId(t1, s1) == NewId(t2, s2) {
      IntToStringInjective(t1, t2);
    }
  }

  // ---------------------------------------------------------------------------
  // addMessage, as storage and the shown list see it
  // ---------------------------------------------------------------------------

  /** The stored list after addMessage: saved at the head, uploaded, then settled on failure. */
  function StoredAfterAdd(list: seq<SMSMessage>, m: SMSMessage, o: UploadOutcome): seq<SMSMessage> {
    var uploaded := AfterUpload(PrependCapped(m, list, MaxMessages), m, o);
    if Succeeded(o) then uploaded else Replace(uploaded, m.(uploadAttempts := 1))
  }

  /** What the shown list's update does to a record with the new id. */
  function Settle(m: SMSMessage, ok: bool): SMSMessage {
    if ok then m.(uploaded := true) else m.(uploadAttempts := 1)
  }

  /** `prev.map(msg => msg.id === id ? settled : msg)`. */
  function MarkShown(list: seq<SMSMessage>, id: string, ok: bool): seq<SMSMessage> {
    seq(|list|, j requires 0 <= j < |list| => if list[j].id == id then Settle(list[j], ok) else list[j])
  }

  /** The shown list after addMessage: prepended (uncapped), then updated by id. */
  function ShownAfterAdd(shown: seq<SMSMessage>, m: SMSMessage, o: UploadOutcome): seq<SMSMessage> {
    MarkShown([m] + shown, m.id, Succeeded(o))
  }

  /**
   * In storage, adding a message amounts to prepending it already settled as
   * a retry would settle it: uploaded on success, one attempt counted on
   * failure; the list keeps its cap.
   */
  lemma AddSettlesHead(list: seq<SMSMessage>, sender: string, body: string, timestamp: int,
                       suffix: string, o: UploadOutcome)
    ensures var m := NewRecord(sender, body, timestamp, suffix);
      StoredAfterAdd(list, m, o) == PrependCapped(Retried(m, o), list, MaxMessages)
  {
    var m := NewRecord(sender, body, timestamp, suffix);
    var saved := PrependCapped(m, list, MaxMessages);
    assert IndexOfId(saved, m.id) == Some(0);
    var uploaded := AfterUpload(saved, m, o);
    var want := PrependCapped(Retried(m, o), list, MaxMessages);
    if Succeeded(o) {
      assert uploaded == saved[0 := Retried(m, o)];
    } else {
      assert uploaded == saved;
      assert Replace(uploaded, m.(uploadAttempts := 1)) == saved[0 := Retried(m, o)];
    }
    assert saved[0 := Retried(m, o)] == want;
  }

  /**
   * In the shown list, the new record heads the list settled as in storage,
   * a record with another id is untouched, and any older record that shares
   * the new id is settled too.
   */
  lemma ShownAfterAddSettles(shown: seq<SMSMessage>, sender: string, body: string, timestamp: int,
                             suffix: string, o: UploadOutcome)
    ensures var m := NewRecord(sender, body, timestamp, suffix);
      var r := ShownAfterAdd(shown, m, o);
      |r| == |shown| + 1 && r[0] == Retried(m, o)
      && (forall j :: 0 <= j < |shown| && shown[j].id != m.id ==> r[j + 1] == shown[j])
      && (forall j :: 0 <= j < |shown| && shown[j].id == m.id ==> r[j + 1] == Settle(shown[j], Succeeded(o)))
  {
    var m := NewRecord(sender, body, timestamp, suffix);
    var r := ShownAfterAdd(shown, m, o);
    assert ([m] + shown)[0] == m;
    forall j | 0 <= j < |shown| ensures r[j + 1] == (if shown[j].id == m.id then Settle(shown[j], Succeeded(o)) else shown[j]) {
      assert ([m] + shown)[j + 1] == shown[j];
    }
  }

  /** With a fresh id, the shown list is the settled record followed by the old list. */
  lemma ShownAfterAddFresh(shown: seq<SMSMessage>, sender: string, body: string, timestamp: int,
                           suffix: string, o: UploadOutcome)
    requires forall j :: 0 <= j < |shown| ==> shown[j].id != NewId(timestamp, suffix)
    ensures var m := NewRecord(sender, body, timestamp, suffix);
      ShownAfterAdd(shown, m, o) == [Retried(m, o)] + shown
  {
    ShownAfterAddSettles(shown, sender, body, timestamp, suffix, o);
  }

  // ---------------------------------------------------------------------------
  // readRecentSMS, over a whole batch
  // ---------------------------------------------------------------------------

  /** The record the `k`-th row would be stored as, once settled. */
  function Ingest(row: RawSms, suffix: string, o: UploadOutcome): SMSMessage {
    Retried(NewRecord(row.sender, row.body, row.timestamp, suffix), o)
  }

  /**
   * The settled records of the rows `accept` takes (the hook passes its
   * whitelist test), in row order; row `k` meets suffix(k) and outcome(k).
   */
  function Ingested(rows: seq<RawSms>, accept: string -> bool, suffix: nat -> string, outcome: nat -> UploadOutcome): (r: seq<SMSMessage>)
    ensures |r| <= |rows|
  {
    if rows == [] then []
    else
      var n := |rows| - 1;
      Ingested(rows[..n], accept, suffix, outcome)
      + (if accept(rows[n].sender) then [Ingest(rows[n], suffix(n), outcome(n))] else [])
  }

  /**
   * Only accepted rows are stored, each stored not yet uploaded with one
   * attempt counted or uploaded with none, its fields taken from its row.
   */
  lemma {:induction false} IngestedAccepted(rows: seq<RawSms>, accept: string -> bool, suffix: nat -> string,
                                            outcome: nat -> UploadOutcome, k: nat)
    requires k < |Ingested(rows, accept, suffix, outcome)|
    ensures var m := Ingested(rows, accept, suffix, outcome)[k];
      accept(m.sender)
      && (exists j :: 0 <= j < |rows| && rows[j].sender == m.sender && rows[j].body == m.body
                      && rows[j].timestamp == m.timestamp)
      && (m.uploaded <==> m.uploadAttempts == 0)
  {
    var n := |rows| - 1;
    var front := Ingested(rows[..n], accept, suffix, outcome);
    if k < |front| {
      IngestedAccepted(rows[..n], accept, suffix, outcome, k);
      var m := front[k];
      var j :| 0 <= j < n && rows[..n][j].sender == m.sender && rows[..n][j].body == m.body
               && rows[..n][j].timestamp == m.timestamp;
      assert rows[j] == rows[..n][j];
    }
  }

  /** The log entries the whitelisted rows' uploads write, in row order. */
  function IngestedLogs(rows: seq<RawSms>, accept: string -> bool, suffix: nat -> string, outcome: nat -> UploadOutcome,
                        clock: nat -> int): (r: seq<LogEntry>)
    ensures |r| == |Ingested(rows, accept, suffix, outcome)|
  {
    if rows == [] then []
    else
      var n := |rows| - 1;
      var m := NewRecord(rows[n].sender, rows[n].body, rows[n].timestamp, suffix(n));
      IngestedLogs(rows[..n], accept, suffix, outcome, clock)
      + (if accept(rows[n].sender) then [LogFor(m, ResultOf(outcome(n)), clock(n))] else [])
  }

  /** The shown list after adding every whitelisted row in turn. */
  function ShownAfterRows(shown: seq<SMSMessage>, rows: seq<RawSms>, accept: string -> bool, suffix: nat -> string,
                          outcome: nat -> UploadOutcome): seq<SMSMessage>
  {
    if rows == [] then shown
    else
      var n := |rows| - 1;
      var before := ShownAfterRows(shown, rows[..n], accept, suffix, outcome);
      if accept(rows[n].sender)
      then ShownAfterAdd(before, NewRecord(rows[n].sender, rows[n].body, rows[n].timestamp, suffix(n)), outcome(n))
      else before
  }

  /** A batch stores something exactly when one of its rows has a whitelisted sender. */
  lemma {:induction false} IngestedEmptyIff(rows: seq<RawSms>, accept: string -> bool, suffix: nat -> string, outcome: nat -> UploadOutcome)
    ensures Ingested(rows, accept, suffix, outcome) == [] <==>
      forall k :: 0 <= k < |rows| ==> !accept(rows[k].sender)
  {
    if rows != [] {
      var n := |rows| - 1;
      var front := rows[..n];
      IngestedEmptyIff(front, accept, suffix, outcome);
      var last := accept(rows[n].sender);
      var none := forall k :: 0 <= k < |rows| ==> !accept(rows[k].sender);
      var noneBefore := forall k :: 0 <= k < |front| ==> !accept(front[k].sender);
      assert none <==> noneBefore && !last by {
        if none {
          forall k | 0 <= k < |front| ensures !accept(front[k].sender) {
            assert front[k] == rows[k];
          }
        }
        if noneBefore && !last {
          forall k | 0 <= k < |rows| ensures !accept(rows[k].sender) {
            if k < n {
              assert front[k] == rows[k];
            }
          }
        }
      }
    }
  }

  /**
   * After a batch the stored list holds the batch's whitelisted rows, the
   * last row first, ahead of what was stored, cut to MaxMessages records.
   */
  lemma StoredAfterBatch(list: seq<SMSMessage>, rows: seq<RawSms>, accept: string -> bool, suffix: nat -> string,
                         outcome: nat -> UploadOutcome)
    requires Ingested(rows, accept, suffix, outcome) != []
    ensures var added := Ingested(rows, accept, suffix, outcome);
      PushAll(list, added, MaxMessages) == Take(Reverse(added) + list, MaxMessages)
      && PushAll(list, added, MaxMessages)[0] == added[|added| - 1]
  {
    var added := Ingested(rows, accept, suffix, outcome);
    PushAllNewestFirst(list, added, MaxMessages);
    PushAllBounded(list, added, MaxMessages);
  }

  /** What `addMessage` and `readRecentSMS` change: stored list, stored log, shown list and the service's URL. */
  datatype HookState = HookState(stored: seq<SMSMessage>, logs: seq<LogEntry>, shown: seq<SMSMessage>, url: string)

  /** The state after one `addMessage` of `m` meeting outcome `o` at time `now`. */
  function AfterAdd(st: HookState, storedUrl: Option<string>, m: SMSMessage, o: UploadOutcome, now: int): HookState {
    HookState(StoredAfterAdd(st.stored, m, o),
              PrependCapped(LogFor(m, ResultOf(o), now), st.logs, MaxLogs),
              ShownAfterAdd(st.shown, m, o),
              ResolveUrl(storedUrl, st.url))
  }

  /** The state after the first `n` rows of a batch, from `start`. */
  function AfterRows(start: HookState, storedUrl: Option<string>, rows: seq<RawSms>, n: nat, accept: string -> bool,
                     suffix: nat -> string, outcome: nat -> UploadOutcome, clock: nat -> int): HookState
    requires n <= |rows|
  {
    var added := Ingested(rows[..n], accept, suffix, outcome);
    HookState(PushAll(start.stored, added, MaxMessages),
              PushAll(start.logs, IngestedLogs(rows[..n], accept, suffix, outcome, clock), MaxLogs),
              ShownAfterRows(start.shown, rows[..n], accept, suffix, outcome),
              if added == [] then start.url else ResolveUrl(storedUrl, start.url))
  }

  /** An accepted row: the batch's effects grow by exactly one addMessage. */
  lemma AcceptedRowStep(start: HookState, storedUrl: Option<string>, rows: seq<RawSms>, i: nat, accept: string -> bool,
                        suffix: nat -> string, outcome: nat -> UploadOutcome, clock: nat -> int)
    requires i < |rows| && accept(rows[i].sender)
    ensures var row := rows[i];
      AfterAdd(AfterRows(start, storedUrl, rows, i, accept, suffix, outcome, clock), storedUrl,
               NewRecord(row.sender, row.body, row.timestamp, suffix(i)), outcome(i), clock(i))
        == AfterRows(start, storedUrl, rows, i + 1, accept, suffix, outcome, clock)
  {
    var row := rows[i];
    assert rows[..i + 1][..i] == rows[..i];
    var xs := Ingested(rows[..i + 1], accept, suffix, outcome);
    var es := IngestedLogs(rows[..i + 1], accept, suffix, outcome, clock);
    assert xs[..|xs| - 1] == Ingested(rows[..i], accept, suffix, outcome);
    assert es[..|es| - 1] == IngestedLogs(rows[..i], accept, suffix, outcome, clock);
    AddSettlesHead(PushAll(start.stored, Ingested(rows[..i], accept, suffix, outcome), MaxMessages),
                   row.sender, row.body, row.timestamp, suffix(i), outcome(i));
    ResolveUrlIdempotent(storedUrl, start.url);
  }

  /** A rejected row changes none of the batch's effects. */
  lemma RejectedRowStep(start: HookState, storedUrl: Option<string>, rows: seq<RawSms>, i: nat, accept: string -> bool,
                        suffix: nat -> string, outcome: nat -> UploadOutcome, clock: nat -> int)
    requires i < |rows| && !accept(rows[i].sender)
    ensures AfterRows(start, storedUrl, rows, i + 1, accept, suffix, outcome, clock)
      == AfterRows(start, storedUrl, rows, i, accept, suffix, outcome, clock)
  {
    assert rows[..i + 1][..i] == rows[..i];
    assert Ingested(rows[..i + 1], accept, suffix, outcome) == Ingested(rows[..i], accept, suffix, outcome);
    assert IngestedLogs(rows[..i + 1], accept, suffix, outcome, clock) == IngestedLogs(rows[..i], accept, suffix, outcome, clock);
    assert ShownAfterRows(start.shown, rows[..i + 1], accept, suffix, outcome) == ShownAfterRows(start.shown, rows[..i], accept, suffix, outcome);
  }

  // ---------------------------------------------------------------------------
  // The hook
  // ---------------------------------------------------------------------------

  class SMSMessagesHook {
    /** The `messages` state, newest first. */
    var messages: seq<SMSMessage>
    /** The `isLoading` state. */
    var isLoading: bool
    /** `SMSService.getInstance()`. */
    const service: SMSService
    /** The hook's `isWhitelistedSender` closure. */
    const isWhitelisted: string -> bool

    constructor (service: SMSService)
      ensures this.service == service && messages == [] && isLoading
      ensures isWhitelisted == IsWhitelistedSender
    {
      this.service := service;
      isWhitelisted := IsWhitelistedSender;
      messages := [];
      isLoading := true;
    }

    /** The part of the hook and its service that adding messages changes. */
    ghost function State(): HookState
      reads this, service
    {
      HookState(service.messages, service.logs, messages, service.serverUrl)
    }

    /** Shows the stored list. */
    method LoadMessages()
      modifies this`messages, this`isLoading
      ensures messages == service.messages && !isLoading
    {
      isLoading := true;
      messages := service.GetMessages();
      isLoading := false;
    }

    /**
     * `addMessage`: saves the new record, shows it, uploads it at once and
     * records the outcome in storage and in the shown list. `result` is the
     * local `uploadResult` the function branches on; `addMessage` itself
     * resolves to nothing, and no caller reads a result.
     */
    method AddMessage(sender: string, body: string, timestamp: int, suffix: string,
                      outcome: UploadOutcome, now: int) returns (result: UploadResult)
      modifies this`messages, service`serverUrl, service`messages, service`logs
      ensures var m := NewRecord(sender, body, timestamp, suffix);
        result == ResultOf(outcome)
        && service.messages == StoredAfterAdd(old(service.messages), m, outcome)
        && service.logs == PrependCapped(LogFor(m, result, now), old(service.logs), MaxLogs)
        && service.serverUrl == ResolveUrl(service.storedUrl, old(service.serverUrl))
        && messages == ShownAfterAdd(old(messages), m, outcome)
      ensures State() == AfterAdd(old(State()), service.storedUrl, NewRecord(sender, body, timestamp, suffix), outcome, now)
    {
      var newMessage := NewRecord(sender, body, timestamp, suffix);
      service.SaveMessage(newMessage);
      messages := [newMessage] + messages;
      var sent, request;
      result, sent, request := service.UploadMessage(newMessage, outcome, now);
      if result.success {
        messages := MarkShown(messages, newMessage.id, true);
      } else {
        newMessage := newMessage.(uploadAttempts := 1);
        service.UpdateMessage(newMessage);
        messages := MarkShown(messages, newMessage.id, false);
      }
    }

    /**
     * The `onSMSReceived` listener: adds the event's message. The JavaScript
     * side does not check the whitelist again; the receiver already did.
     */
    method OnSMSReceived(sender: string, body: string, timestamp: int, suffix: string,
                         outcome: UploadOutcome, now: int)
      modifies this`messages, service`serverUrl, service`messages, service`logs
      ensures var m := NewRecord(sender, body, timestamp, suffix);
        service.messages == StoredAfterAdd(old(service.messages), m, outcome)
        && service.logs == PrependCapped(LogFor(m, ResultOf(outcome), now), old(service.logs), MaxLogs)
        && service.serverUrl == ResolveUrl(service.storedUrl, old(service.serverUrl))
        && messages == ShownAfterAdd(old(messages), m, outcome)
    {
      var _ := AddMessage(sender, body, timestamp, suffix, outcome, now);
    }

    /**
     * `readRecentSMS`: adds, in the order the native module returns them,
     * the rows whose sender passes the hook's whitelist closure; row `k` meets
     * suffix(k), outcome(k) and clock(k). Nothing happens when the module or
     * its method is missing or the native call rejects.
     */
    method ReadRecentSMS(reader: NativeReader, suffix: nat -> string, outcome: nat -> UploadOutcome,
                         clock: nat -> int)
      modifies this`messages, service`serverUrl, service`messages, service`logs
      ensures var rows := RowsOf(reader);
        var added := Ingested(rows, isWhitelisted, suffix, outcome);
        service.messages == PushAll(old(service.messages), added, MaxMessages)
        && service.logs == PushAll(old(service.logs), IngestedLogs(rows, isWhitelisted, suffix, outcome, clock), MaxLogs)
        && messages == ShownAfterRows(old(messages), rows, isWhitelisted, suffix, outcome)
        && service.serverUrl == (if added == [] then old(service.serverUrl)
                                 else ResolveUrl(service.storedUrl, old(service.serverUrl)))
    {
      if !reader.Returned? {
        return;
      }
      var rows := reader.rows;
      ghost var start := State();
      var i := 0;
      while i < |rows|
        invariant 0 <= i <= |rows|
        invariant service.storedUrl == old(service.storedUrl)
        invariant State() == AfterRows(start, service.storedUrl, rows, i, isWhitelisted, suffix, outcome, clock)
      {
        var sms := rows[i];
        if isWhitelisted(sms.sender) {
          AcceptedRowStep(start, service.storedUrl, rows, i, isWhitelisted, suffix, outcome, clock);
          var _ := AddMessage(sms.sender, sms.body, sms.timestamp, suffix(i), outcome(i), clock(i));
        } else {
          RejectedRowStep(start, service.storedUrl, rows, i, isWhitelisted, suffix, outcome, clock);
        }
        i := i + 1;
      }
      assert rows[..|rows|] == rows;
    }

    /**
     * The hook's `retryFailedUploads`: the service's sweep, then the list is
     * reloaded. The sweep's count goes only to a toast; the hook itself
     * returns nothing.
     */
    method RetryFailedUploads(outcome: nat -> UploadOutcome, clock: nat -> int)
      modifies this`messages, this`isLoading, service`serverUrl, service`messages, service`logs
      ensures service.messages == Swept(old(service.messages), outcome)
      ensures service.logs == SweepLogs(old(service.messages), old(service.logs), outcome, clock)
      ensures service.serverUrl == SweepUrl(old(service.messages), service.storedUrl, old(service.serverUrl))
      ensures messages == service.messages && !isLoading
    {
      var _ := service.RetryFailedUploads(outcome, clock);
      LoadMessages();
    }
  }
}
