/**
 * The values and the pure rules behind the SMS service
 * (src/services/SMSService.ts): the message record, the upload result, the
 * upload-log entry, the capped newest-first lists, update by id, the outcome
 * of one upload and the bookkeeping of a retry sweep.
 *
 * The class that holds this state and changes it step by step is in
 * service.dfy. Its methods that save, upload, update, log and retry are
 * specified by the functions here; the constructor, the two getters and
 * `clearData` are specified directly on its fields.
 */
module Ledger {
  import opened Optional
  import opened Text

  /** Capacity of the stored message list. */
  const MaxMessages: nat := 100
  /** Capacity of the stored upload log. */
  const MaxLogs: nat := 10
  /** The server URL used until one is stored. */
  const DefaultServerUrl: string := "http://192.168.1.100:8000"
  /** Path appended to the server URL for every upload. */
  const UploadPath: string := "/upload-sms"

  /** One SMS as stored, newest first, by the service. */
  datatype SMSMessage = SMSMessage(
    id: string,
    sender: string,
    body: string,
    timestamp: int,
    uploaded: bool,
    uploadAttempts: nat)

  /** What `uploadMessage` returns. */
  datatype UploadResult = UploadResult(success: bool, error: Option<string>)

  /** One entry of the upload log. */
  datatype LogEntry = LogEntry(
    id: string,
    messageId: string,
    sender: string,
    timestamp: int,
    success: bool,
    error: Option<string>)

  /**
   * What the network did with one upload request: either an HTTP response
   * (status and the text of its body), or an exception thrown on the way
   * (`isError` tells whether the thrown value is an `Error` with a message).
   */
  datatype UploadOutcome =
    | Response(status: int, text: string)
    | Thrown(isError: bool, message: string)

  /** The request `uploadMessage` sends: its URL and its JSON fields. */
  datatype UploadRequest = UploadRequest(url: string, sender: string, body: string, timestamp: int)

  // ---------------------------------------------------------------------------
  // Server URL
  // ---------------------------------------------------------------------------

  /** A stored, non-empty URL overrides the one held in memory. */
  function ResolveUrl(stored: Option<string>, current: string): (url: string)
    ensures stored.Some? && stored.value != "" ==> url == stored.value
    ensures stored.None? || stored.value == "" ==> url == current
  {
    match stored
    case Some(u) => if u != "" then u else current
    case None => current
  }

  /** Resolving twice is resolving once: repeated reads of the URL agree. */
  lemma ResolveUrlIdempotent(stored: Option<string>, current: string)
    ensures ResolveUrl(stored, ResolveUrl(stored, current)) == ResolveUrl(stored, current)
  {
  }

  /** Setting the URL stores it and holds it in memory, so reading it back gives it. */
  lemma SetThenGetUrl(url: string)
    ensures ResolveUrl(Some(url), url) == url
  {
  }

  // ---------------------------------------------------------------------------
  // Capped newest-first lists
  // ---------------------------------------------------------------------------

  /**
   * `list.unshift(x)` followed by `if (list.length > cap) list.splice(cap)`:
   * `x` goes to the head and the oldest entries beyond `cap` are dropped.
   */
  function PrependCapped<T>(x: T, s: seq<T>, cap: nat): (r: seq<T>)
    ensures |r| == if |s| + 1 <= cap then |s| + 1 else cap
    ensures |r| > 0 ==> r[0] == x
    ensures forall i :: 0 < i < |r| ==> r[i] == s[i - 1]
  {
    var grown := [x] + s;
    if |grown| > cap then grown[..cap] else grown
  }

  function Reverse<T>(s: seq<T>): (r: seq<T>)
    ensures |r| == |s|
    ensures forall i :: 0 <= i < |s| ==> r[i] == s[|s| - 1 - i]
  {
    if s == [] then [] else Reverse(s[1..]) + [s[0]]
  }

  /** The list after prepending every element of `xs`, in order, each time capped. */
  function PushAll<T>(s: seq<T>, xs: seq<T>, cap: nat): seq<T> {
    if xs == [] then s
    else PrependCapped(xs[|xs| - 1], PushAll(s, xs[..|xs| - 1], cap), cap)
  }

  /**
   * Capacity law: after prepending `xs` one by one, the list holds the `cap`
   * most recent entries, newest first, followed by as much of the old list as
   * fits.
   */
  lemma {:induction false} PushAllNewestFirst<T>(s: seq<T>, xs: seq<T>, cap: nat)
    requires xs != []
    ensures PushAll(s, xs, cap) == Take(Reverse(xs) + s, cap)
  {
    var init := xs[..|xs| - 1];
    var x := xs[|xs| - 1];
    var prev := if init == [] then s else Take(Reverse(init) + s, cap);
    if init != [] {
      PushAllNewestFirst(s, init, cap);
    }
    assert PushAll(s, init, cap) == prev;
    var r := PrependCapped(x, prev, cap);
    var want := Take(Reverse(xs) + s, cap);
    assert Reverse(xs) == [x] + Reverse(init);
    assert |r| == |want|;
    forall i | 0 <= i < |r| ensures r[i] == want[i] {
      if i > 0 {
        assert r[i] == prev[i - 1] == (Reverse(init) + s)[i - 1];
        assert want[i] == (Reverse(xs) + s)[i] == ([x] + (Reverse(init) + s))[i];
      }
    }
    assert r == want;
  }

  /** The stored list never exceeds its capacity, whatever its prior length. */
  lemma {:induction false} PushAllBounded<T>(s: seq<T>, xs: seq<T>, cap: nat)
    requires xs != []
    ensures |PushAll(s, xs, cap)| <= cap
    ensures cap > 0 ==> PushAll(s, xs, cap)[0] == xs[|xs| - 1]
  {
  }

  // ---------------------------------------------------------------------------
  // Update by id
  // ---------------------------------------------------------------------------

  /** `findIndex(m => m.id === id)`: the first position holding that id. */
  function IndexOfId(list: seq<SMSMessage>, id: string): (r: Option<nat>)
    ensures r.Some? ==> r.value < |list| && list[r.value].id == id
    ensures r.Some? ==> forall j :: 0 <= j < r.value ==> list[j].id != id
    ensures r.None? ==> forall j :: 0 <= j < |list| ==> list[j].id != id
  {
    if list == [] then None
    else if list[0].id == id then Some(0)
    else match IndexOfId(list[1..], id)
      case Some(k) => Some(k + 1)
      case None => None
  }

  /**
   * `updateMessage`: the first record with the same id is replaced, the rest
   * of the list is untouched, and nothing changes when no id matches.
   */
  function Replace(list: seq<SMSMessage>, m: SMSMessage): (r: seq<SMSMessage>)
    ensures |r| == |list|
    ensures IndexOfId(list, m.id).None? ==> r == list
    ensures IndexOfId(list, m.id).Some? ==>
      var k := IndexOfId(list, m.id).value;
      r[k] == m && forall j :: 0 <= j < |list| && j != k ==> r[j] == list[j]
  {
    match IndexOfId(list, m.id)
    case Some(k) => list[k := m]
    case None => list
  }

  /** Replace, read at one position, once the matching position is known. */
  lemma ReplaceAt(list: seq<SMSMessage>, m: SMSMessage, k: nat, j: nat)
    requires IndexOfId(list, m.id) == Some(k) && j < |list|
    ensures Replace(list, m)[j] == if j == k then m else list[j]
  {
  }

  /** Replacing by a record that keeps the id keeps every id in place. */
  lemma ReplaceKeepsIds(list: seq<SMSMessage>, m: SMSMessage, j: int)
    requires 0 <= j < |list|
    ensures Replace(list, m)[j].id == list[j].id
  {
  }

  // ---------------------------------------------------------------------------
  // One upload
  // ---------------------------------------------------------------------------

  /** `response.ok`: the status is in the 2xx range. */
  predicate Succeeded(o: UploadOutcome) {
    o.Response? && 200 <= o.status <= 299
  }

  /** The error text for a non-ok response: `HTTP <status>: <text>`. */
  function HttpError(status: int, text: string): string {
    "HTTP " + IntToString(status) + ": " + text
  }

  /** What `uploadMessage` returns for each outcome. */
  function ResultOf(o: UploadOutcome): (r: UploadResult)
    ensures r.success <==> Succeeded(o)
    ensures r.success <==> r.error.None?
    ensures o.Response? && !r.success ==> r.error == Some(HttpError(o.status, o.text))
    ensures o.Thrown? ==> r.error == Some(if o.isError then o.message else "Unknown error")
  {
    match o
    case Response(status, text) =>
      if 200 <= status <= 299 then UploadResult(true, None)
      else UploadResult(false, Some(HttpError(status, text)))
    case Thrown(isError, message) =>
      UploadResult(false, Some(if isError then message else "Unknown error"))
  }

  /** The request built from a record and the server URL. */
  function RequestFor(m: SMSMessage, serverUrl: string): UploadRequest {
    UploadRequest(serverUrl + UploadPath, m.sender, m.body, m.timestamp)
  }

  /** The log entry `logUpload` writes; `now` stands for `Date.now()`. */
  function LogFor(m: SMSMessage, r: UploadResult, now: int): (e: LogEntry)
    ensures e.messageId == m.id && e.sender == m.sender
    ensures e.success == r.success && e.error == r.error
  {
    LogEntry(IntToString(now), m.id, m.sender, now, r.success, r.error)
  }

  /** The stored list after one upload: the record is marked uploaded on success. */
  function AfterUpload(list: seq<SMSMessage>, m: SMSMessage, o: UploadOutcome): (r: seq<SMSMessage>)
    ensures !Succeeded(o) ==> r == list
  {
    if Succeeded(o) then Replace(list, m.(uploaded := true)) else list
  }

  /**
   * On success the stored record with that id (when there is one) ends up
   * uploaded, with its attempt count as the caller's record had it; on
   * failure nothing is stored.
   */
  lemma UploadMarksRecord(list: seq<SMSMessage>, m: SMSMessage, o: UploadOutcome)
    requires Succeeded(o)
    requires IndexOfId(list, m.id).Some?
    ensures var k := IndexOfId(list, m.id).value;
      var r := AfterUpload(list, m, o);
      |r| == |list| && r[k].uploaded && r[k].uploadAttempts == m.uploadAttempts
      && r[k].id == m.id
  {
  }

  // ---------------------------------------------------------------------------
  // The retry sweep
  // ---------------------------------------------------------------------------

  /** `messages.filter(m => !m.uploaded)`, in stored order. */
  function Pending(list: seq<SMSMessage>): (p: seq<SMSMessage>)
    ensures |p| <= |list|
    ensures forall k :: 0 <= k < |p| ==> !p[k].uploaded
  {
    if list == [] then []
    else Pending(list[..|list| - 1]) + (if list[|list| - 1].uploaded then [] else [list[|list| - 1]])
  }

  /** How many pending records come before position `j`. */
  function Rank(list: seq<SMSMessage>, j: nat): nat
    requires j <= |list|
  {
    |Pending(list[..j])|
  }

  /** A retried record after its attempt: uploaded on success, one more attempt counted on failure. */
  function Retried(m: SMSMessage, o: UploadOutcome): (r: SMSMessage)
    ensures r.id == m.id && r.sender == m.sender && r.body == m.body && r.timestamp == m.timestamp
    ensures Succeeded(o) ==> r.uploaded && r.uploadAttempts == m.uploadAttempts
    ensures !Succeeded(o) ==> r.uploaded == m.uploaded && r.uploadAttempts == m.uploadAttempts + 1
  {
    if Succeeded(o) then m.(uploaded := true) else m.(uploadAttempts := m.uploadAttempts + 1)
  }

  /** The stored list after the first `n` retries of the sweep over `pending`. */
  function SweepMessages(list: seq<SMSMessage>, pending: seq<SMSMessage>, outcome: nat -> UploadOutcome, n: nat): seq<SMSMessage>
    requires n <= |pending|
  {
    if n == 0 then list
    else Replace(SweepMessages(list, pending, outcome, n - 1), Retried(pending[n - 1], outcome(n - 1)))
  }

  /** The log entries written by the first `n` retries, oldest first. */
  function SweepEntries(pending: seq<SMSMessage>, outcome: nat -> UploadOutcome, clock: nat -> int, n: nat): (es: seq<LogEntry>)
    requires n <= |pending|
    ensures |es| == n
  {
    if n == 0 then []
    else SweepEntries(pending, outcome, clock, n - 1)
         + [LogFor(pending[n - 1], ResultOf(outcome(n - 1)), clock(n - 1))]
  }

  /** One more retry prepends its entry to the log. */
  lemma SweepLogStep(logs: seq<LogEntry>, pending: seq<SMSMessage>, outcome: nat -> UploadOutcome, clock: nat -> int, i: nat)
    requires i < |pending|
    ensures PushAll(logs, SweepEntries(pending, outcome, clock, i + 1), MaxLogs)
         == PrependCapped(LogFor(pending[i], ResultOf(outcome(i)), clock(i)),
                          PushAll(logs, SweepEntries(pending, outcome, clock, i), MaxLogs), MaxLogs)
  {
    var entries := SweepEntries(pending, outcome, clock, i + 1);
    assert entries[..i] == SweepEntries(pending, outcome, clock, i);
  }

  /** Number of successful retries among the first `n`. */
  function SuccessCount(outcome: nat -> UploadOutcome, n: nat): (c: nat)
    ensures c <= n
  {
    if n == 0 then 0
    else SuccessCount(outcome, n - 1) + (if Succeeded(outcome(n - 1)) then 1 else 0)
  }

  /** The count `retryFailedUploads` returns for a stored list. */
  function SweepCount(list: seq<SMSMessage>, outcome: nat -> UploadOutcome): nat {
    SuccessCount(outcome, |Pending(list)|)
  }

  /** The stored list after a whole retry sweep. */
  function Swept(list: seq<SMSMessage>, outcome: nat -> UploadOutcome): seq<SMSMessage> {
    SweepMessages(list, Pending(list), outcome, |Pending(list)|)
  }

  /** The upload log after a whole retry sweep: one entry per attempt. */
  function SweepLogs(list: seq<SMSMessage>, logs: seq<LogEntry>, outcome: nat -> UploadOutcome, clock: nat -> int): seq<LogEntry> {
    PushAll(logs, SweepEntries(Pending(list), outcome, clock, |Pending(list)|), MaxLogs)
  }

  /** The in-memory URL after a whole retry sweep: resolved once per attempt, if any. */
  function SweepUrl(list: seq<SMSMessage>, stored: Option<string>, current: string): string {
    if |Pending(list)| == 0 then current else ResolveUrl(stored, current)
  }

  /** No two records share an id. */
  predicate UniqueIds(list: seq<SMSMessage>) {
    forall i, j :: 0 <= i < j < |list| ==> list[i].id != list[j].id
  }

  lemma PendingPrefix(list: seq<SMSMessage>, j: nat)
    requires j < |list|
    ensures Pending(list[..j + 1])
         == Pending(list[..j]) + (if list[j].uploaded then [] else [list[j]])
  {
    assert list[..j + 1][..j] == list[..j];
  }

  /** Rank never decreases along the list and grows past every pending record. */
  lemma {:induction false} RankGrows(list: seq<SMSMessage>, i: nat, j: nat)
    requires i < j <= |list|
    ensures Rank(list, i) <= Rank(list, j)
    ensures !list[i].uploaded ==> Rank(list, i) < Rank(list, j)
  {
    PendingPrefix(list, j - 1);
    if i < j - 1 {
      RankGrows(list, i, j - 1);
    }
  }

  /** The `k`-th pending record sits at a position of rank `k` in the list. */
  lemma {:induction false} PendingAt(list: seq<SMSMessage>, k: nat) returns (j: nat)
    requires k < |Pending(list)|
    ensures j < |list| && !list[j].uploaded && Rank(list, j) == k
    ensures Pending(list)[k] == list[j]
  {
    var init := list[..|list| - 1];
    assert list[..|list|] == list;
    PendingPrefix(list, |list| - 1);
    if k < |Pending(init)| {
      j := PendingAt(init, k);
      assert init[..j] == list[..j];
    } else {
      j := |list| - 1;
    }
  }

  /** Equal ids hold at each position after a sweep (it only replaces records by same-id records). */
  lemma {:induction false} SweepKeepsIds(list: seq<SMSMessage>, pending: seq<SMSMessage>, outcome: nat -> UploadOutcome, n: nat)
    requires n <= |pending|
    ensures |SweepMessages(list, pending, outcome, n)| == |list|
    ensures forall j :: 0 <= j < |list| ==> SweepMessages(list, pending, outcome, n)[j].id == list[j].id
  {
    if n > 0 {
      SweepKeepsIds(list, pending, outcome, n - 1);
      var prev := SweepMessages(list, pending, outcome, n - 1);
      forall j | 0 <= j < |list| ensures SweepMessages(list, pending, outcome, n)[j].id == list[j].id {
        ReplaceKeepsIds(prev, Retried(pending[n - 1], outcome(n - 1)), j);
      }
    }
  }

  /** Record `j` of the list once the first `n` pending records have been retried. */
  function SweptAt(list: seq<SMSMessage>, outcome: nat -> UploadOutcome, n: nat, j: nat): SMSMessage
    requires j < |list|
  {
    if !list[j].uploaded && Rank(list, j) < n then Retried(list[j], outcome(Rank(list, j))) else list[j]
  }

  /** With unique ids, the first position holding an id is its only position. */
  lemma FindsOnlyPosition(prev: seq<SMSMessage>, list: seq<SMSMessage>, star: nat)
    requires |prev| == |list| && UniqueIds(list) && star < |list|
    requires forall j :: 0 <= j < |list| ==> prev[j].id == list[j].id
    ensures IndexOfId(prev, list[star].id) == Some(star)
  {
    var id := list[star].id;
    assert prev[star].id == id;
    match IndexOfId(prev, id)
    case Some(k) =>
      assert list[k].id == id;
    case None =>
  }

  /** Only the record of rank `k` changes between `k` and `k + 1` retries. */
  lemma SweptAtStep(list: seq<SMSMessage>, outcome: nat -> UploadOutcome, k: nat, n: nat, star: nat, j: nat)
    requires n == k + 1
    requires star < |list| && !list[star].uploaded && Rank(list, star) == k
    requires j < |list|
    ensures j != star ==> SweptAt(list, outcome, n, j) == SweptAt(list, outcome, k, j)
    ensures j == star ==> SweptAt(list, outcome, n, j) == Retried(list[star], outcome(k))
  {
    if j != star && !list[j].uploaded {
      if j < star {
        RankGrows(list, j, star);
      } else {
        RankGrows(list, star, j);
      }
    }
  }

  /** One step of the sweep, given what the previous steps did. */
  lemma SweepStep(list: seq<SMSMessage>, pending: seq<SMSMessage>, outcome: nat -> UploadOutcome, k: nat, n: nat)
    requires UniqueIds(list) && pending == Pending(list)
    requires n == k + 1 <= |pending|
    requires |SweepMessages(list, pending, outcome, k)| == |list|
    requires forall j :: 0 <= j < |list| ==>
      SweepMessages(list, pending, outcome, k)[j] == SweptAt(list, outcome, k, j)
    ensures |SweepMessages(list, pending, outcome, n)| == |list|
    ensures forall j :: 0 <= j < |list| ==>
      SweepMessages(list, pending, outcome, n)[j] == SweptAt(list, outcome, n, j)
  {
    var prev := SweepMessages(list, pending, outcome, k);
    var star := PendingAt(list, k);
    var m := Retried(pending[k], outcome(k));
    SweepKeepsIds(list, pending, outcome, k);
    FindsOnlyPosition(prev, list, star);
    assert m.id == list[star].id;
    assert SweepMessages(list, pending, outcome, n) == Replace(prev, m);
    forall j | 0 <= j < |list|
      ensures SweepMessages(list, pending, outcome, n)[j] == SweptAt(list, outcome, n, j)
    {
      SweptAtStep(list, outcome, k, n, star, j);
      ReplaceAt(prev, m, star, j);
    }
  }

  /**
   * What the retry sweep does to the stored list, record by record, when ids
   * are unique: every record that was uploaded is untouched; the pending
   * record of rank `r` has been retried with the `r`-th outcome once `r` is
   * below `n`, and is untouched before that.
   */
  lemma {:induction false} SweepSettlesPending(list: seq<SMSMessage>, outcome: nat -> UploadOutcome, n: nat)
    requires UniqueIds(list)
    requires n <= |Pending(list)|
    ensures |SweepMessages(list, Pending(list), outcome, n)| == |list|
    ensures forall j :: 0 <= j < |list| ==>
      SweepMessages(list, Pending(list), outcome, n)[j] == SweptAt(list, outcome, n, j)
  {
    if n > 0 {
      SweepSettlesPending(list, outcome, n - 1);
      SweepStep(list, Pending(list), outcome, n - 1, n);
    }
  }

  /** With nothing pending, a sweep uploads nothing, logs nothing, changes nothing and counts nothing. */
  lemma NothingPending(list: seq<SMSMessage>, logs: seq<LogEntry>, outcome: nat -> UploadOutcome,
                       clock: nat -> int, stored: Option<string>, current: string)
    requires Pending(list) == []
    ensures Swept(list, outcome) == list
    ensures SweepLogs(list, logs, outcome, clock) == logs
    ensures SweepCount(list, outcome) == 0
    ensures SweepUrl(list, stored, current) == current
  {
  }

  /**
   * The sweep logs one entry per pending record, in stored order, each with
   * that record's id and sender and the success of its own attempt.
   */
  lemma {:induction false} SweepLogsEachAttempt(pending: seq<SMSMessage>, outcome: nat -> UploadOutcome,
                                                clock: nat -> int, n: nat)
    requires n <= |pending|
    ensures var es := SweepEntries(pending, outcome, clock, n);
      forall k :: 0 <= k < n ==>
        es[k].messageId == pending[k].id && es[k].sender == pending[k].sender
        && (es[k].success <==> Succeeded(outcome(k))) && es[k].timestamp == clock(k)
  {
    if n > 0 {
      SweepLogsEachAttempt(pending, outcome, clock, n - 1);
      var es := SweepEntries(pending, outcome, clock, n);
      assert es[..n - 1] == SweepEntries(pending, outcome, clock, n - 1);
      forall k | 0 <= k < n - 1 ensures es[k] == es[..n - 1][k] {
      }
    }
  }

  /** The count the sweep returns is the number of attempts that met a 2xx response. */
  lemma {:induction false} SuccessCountCounts(outcome: nat -> UploadOutcome, n: nat)
    ensures SuccessCount(outcome, n) == |set k | 0 <= k < n && Succeeded(outcome(k))|
  {
    if n > 0 {
      SuccessCountCounts(outcome, n - 1);
      var before := set k | 0 <= k < n - 1 && Succeeded(outcome(k));
      var after := set k | 0 <= k < n && Succeeded(outcome(k));
      if Succeeded(outcome(n - 1)) {
        assert after == before + {n - 1};
      } else {
        assert after == before;
      }
    }
  }
}
