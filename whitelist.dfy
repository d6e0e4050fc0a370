/**
 * The sender whitelist, as the hook (src/hooks/useSMS.ts) and the native
 * receiver (android/.../SMSReceiver.java) each write it: the same fourteen
 * entries, matched case-insensitively as substrings of the trimmed sender.
 */
module Whitelist {
  import opened Optional
  import opened Text

  /** The hook's list, in its order. */
  const HookSenders: seq<string> := [
    "M-PESA", "MPESA", "Safaricom", "IM-BANK", "EQUITY", "KCB", "COOP BANK",
    "STANCHART", "ABSA", "DTB", "I&M BANK", "FAMILY BANK", "SID", "TALA"
  ]

  /** The receiver's `WHITELISTED_SENDERS`, in its order. */
  const ReceiverSenders: seq<string> := [
    "M-PESA", "MPESA", "Safaricom", "IM-BANK", "EQUITY", "KCB", "COOP BANK",
    "STANCHART", "ABSA", "DTB", "I&M BANK", "FAMILY BANK", "SID", "TALA"
  ]

  /** The upper-cased entry occurs in the normalized sender. */
  predicate MatchesEntry(normalized: string, entry: string) {
    Contains(normalized, ToUpper(entry))
  }

  /** Some entry of the list matches. */
  predicate MatchesAny(normalized: string, entries: seq<string>) {
    exists i :: 0 <= i < |entries| && MatchesEntry(normalized, entries[i])
  }

  /**
   * The hook's `isWhitelistedSender`: false for the empty sender, otherwise
   * `entries.some(e => normalized.includes(e.toUpperCase()))`.
   */
  predicate IsWhitelistedSender(sender: string)
    ensures sender == "" ==> !IsWhitelistedSender(sender)
  {
    sender != "" && MatchesAny(Trim(ToUpper(sender), IsJsWhitespace), HookSenders)
  }

  /** What the receiver's `isWhitelistedSender` decides, for a nullable sender. */
  predicate NativeWhitelisted(sender: Option<string>) {
    sender.Some? && NativeAccepts(sender.value)
  }

  /** The receiver's test on a sender that is not null. */
  predicate NativeAccepts(sender: string) {
    MatchesAny(Trim(ToUpper(sender), IsJavaTrimmable), ReceiverSenders)
  }

  /** The receiver's `isWhitelistedSender`; null is rejected before the loop. */
  method IsWhitelistedSenderNative(sender: Option<string>) returns (b: bool)
    ensures b <==> NativeWhitelisted(sender)
  {
    if sender.None? {
      return false;
    }
    var normalized := Trim(ToUpper(sender.value), IsJavaTrimmable);
    b := ScanEntries(normalized, ReceiverSenders);
  }

  /** The receiver's loop over its list, returning at the first entry that matches. */
  method ScanEntries(normalized: string, entries: seq<string>) returns (b: bool)
    ensures b <==> MatchesAny(normalized, entries)
  {
    var i := 0;
    while i < |entries|
      invariant 0 <= i <= |entries|
      invariant forall j :: 0 <= j < i ==> !MatchesEntry(normalized, entries[j])
    {
      if Contains(normalized, ToUpper(entries[i])) {
        return true;
      }
      i := i + 1;
    }
    return false;
  }

  /** The order of the entries does not matter, only which entries there are. */
  lemma MatchOrderFree(normalized: string, a: seq<string>, b: seq<string>)
    requires forall e :: e in a <==> e in b
    ensures MatchesAny(normalized, a) <==> MatchesAny(normalized, b)
  {
    if MatchesAny(normalized, a) {
      var i :| 0 <= i < |a| && MatchesEntry(normalized, a[i]);
      assert a[i] in b;
      var j :| 0 <= j < |b| && b[j] == a[i];
      assert MatchesEntry(normalized, b[j]);
    }
    if MatchesAny(normalized, b) {
      var j :| 0 <= j < |b| && MatchesEntry(normalized, b[j]);
      assert b[j] in a;
      var i :| 0 <= i < |a| && a[i] == b[j];
      assert MatchesEntry(normalized, a[i]);
    }
  }

  /** Every upper-cased entry is non-empty and starts and ends with a letter. */
  predicate LetterEnds(entry: string) {
    var u := ToUpper(entry);
    u != [] && 'A' <= u[0] <= 'Z' && 'A' <= u[|u| - 1] <= 'Z'
  }

  lemma EntriesHaveLetterEnds()
    ensures forall i :: 0 <= i < |HookSenders| ==> LetterEnds(HookSenders[i])
  {
    forall i | 0 <= i < |HookSenders| ensures LetterEnds(HookSenders[i]) {
      var e := HookSenders[i];
      var u := ToUpper(e);
      assert u[0] == UpperChar(e[0]) && u[|u| - 1] == UpperChar(e[|e| - 1]);
    }
  }

  /** Trimming, JavaScript's or Java's, never changes which entries match. */
  lemma TrimDoesNotMatter(upper: string, ws: char -> bool, entries: seq<string>)
    requires forall c :: 'A' <= c <= 'Z' ==> !ws(c)
    requires forall i :: 0 <= i < |entries| ==> LetterEnds(entries[i])
    ensures MatchesAny(Trim(upper, ws), entries) <==> MatchesAny(upper, entries)
  {
    forall i | 0 <= i < |entries|
      ensures MatchesEntry(Trim(upper, ws), entries[i]) <==> MatchesEntry(upper, entries[i])
    {
      assert LetterEnds(entries[i]);
      ContainsTrim(upper, ToUpper(entries[i]), ws);
    }
  }

  /**
   * The native receiver and the hook decide alike for every sender string:
   * both lists hold the same entries, trimming never matters, and the empty
   * sender matches no entry.
   */
  lemma NativeAgreesWithHook(sender: string)
    ensures NativeWhitelisted(Some(sender)) <==> IsWhitelistedSender(sender)
  {
    assert HookSenders == ReceiverSenders;
    EntriesHaveLetterEnds();
    var upper := ToUpper(sender);
    TrimDoesNotMatter(upper, IsJsWhitespace, HookSenders);
    TrimDoesNotMatter(upper, IsJavaTrimmable, HookSenders);
    if sender == "" {
      forall i | 0 <= i < |HookSenders| ensures !MatchesEntry(upper, HookSenders[i]) {
        assert LetterEnds(HookSenders[i]);
        NotContainedInEmpty(ToUpper(HookSenders[i]));
      }
    }
  }

  /** A null sender is never whitelisted by the receiver. */
  lemma NullSenderRejected()
    ensures !NativeWhitelisted(None)
  {
  }
}
