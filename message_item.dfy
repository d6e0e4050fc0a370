/**
 * The display helpers of src/components/MessageItem.tsx: the transaction
 * type, the status badge, the relative time and the one-line description
 * shown for a stored SMS. `now` stands for the clock the component reads.
 */
module MessageItem {
  import opened Text

  // ---------------------------------------------------------------------------
  // Transaction type
  // ---------------------------------------------------------------------------

  datatype TransactionType = Sent | Received | Other

  predicate MentionsDebit(lower: string) {
    Contains(lower, "sent") || Contains(lower, "paid") || Contains(lower, "debit")
  }

  predicate MentionsCredit(lower: string) {
    Contains(lower, "received") || Contains(lower, "credited") || Contains(lower, "credit")
  }

  /**
   * `getTransactionType`: a debit word wins over any credit word; a credit
   * word alone means received; anything else is other.
   */
  function GetTransactionType(body: string): (t: TransactionType)
    ensures t == Sent <==> MentionsDebit(ToLower(body))
    ensures t == Received <==> !MentionsDebit(ToLower(body)) && MentionsCredit(ToLower(body))
    ensures t == Other <==> !MentionsDebit(ToLower(body)) && !MentionsCredit(ToLower(body))
  {
    var lowerBody := ToLower(body);
    if MentionsDebit(lowerBody) then Sent
    else if MentionsCredit(lowerBody) then Received
    else Other
  }

  /** The `credited` test is subsumed by the `credit` test: only two words decide "received". */
  lemma CreditedIsRedundant(body: string)
    ensures GetTransactionType(body) == Received <==>
      !MentionsDebit(ToLower(body))
      && (Contains(ToLower(body), "received") || Contains(ToLower(body), "credit"))
  {
    var lower := ToLower(body);
    if Contains(lower, "credited") {
      assert OccursAt("credited", "credit", 0);
      ContainsTransitive(lower, "credited", "credit");
    }
  }

  // ---------------------------------------------------------------------------
  // Status badge
  // ---------------------------------------------------------------------------

  datatype Badge = Badge(text: string, color: string)

  const ParsedBadge: Badge := Badge("Parsed", "#4CAF50")
  const PendingBadge: Badge := Badge("Pending", "#FF9800")

  /** `getStatusBadge`: Parsed for an uploaded record, Pending otherwise. */
  function GetStatusBadge(uploaded: bool): (b: Badge)
    ensures b == ParsedBadge <==> uploaded
    ensures b == PendingBadge <==> !uploaded
  {
    if uploaded then ParsedBadge else PendingBadge
  }

  // ---------------------------------------------------------------------------
  // Relative time
  // ---------------------------------------------------------------------------

  /** The three buckets of the relative time, each with its count. */
  datatype Age = Minutes(count: int) | Hours(count: int) | Days(count: int)

  const MinutesPerHour: int := 60
  const MinutesPerDay: int := 1440
  const MillisPerMinute: int := 60000

  /** `Math.floor((now - timestamp) / 60000)`: whole minutes elapsed, rounded down. */
  function ElapsedMinutes(now: int, timestamp: int): (d: int)
    ensures d * MillisPerMinute <= now - timestamp < (d + 1) * MillisPerMinute
  {
    (now - timestamp) / MillisPerMinute
  }

  /**
   * The bucket: minutes below an hour (negative for a future timestamp),
   * whole hours below a day, whole days beyond.
   */
  function AgeOf(now: int, timestamp: int): (a: Age)
    ensures var d := ElapsedMinutes(now, timestamp);
      (a.Minutes? <==> d < MinutesPerHour)
      && (a.Minutes? ==> a.count == d)
      && (a.Hours? <==> MinutesPerHour <= d < MinutesPerDay)
      && (a.Hours? ==> 1 <= a.count < 24
                       && a.count * MinutesPerHour <= d < (a.count + 1) * MinutesPerHour)
      && (a.Days? ==> 1 <= a.count
                      && a.count * MinutesPerDay <= d < (a.count + 1) * MinutesPerDay)
  {
    var diffInMinutes := ElapsedMinutes(now, timestamp);
    if diffInMinutes < MinutesPerHour then Minutes(diffInMinutes)
    else if diffInMinutes < MinutesPerDay then Hours(diffInMinutes / MinutesPerHour)
    else Days(diffInMinutes / MinutesPerDay)
  }

  /** `${n}m ago`, `${n}h ago` or `${n}d ago`. */
  function RenderAge(a: Age): string {
    match a
    case Minutes(n) => IntToString(n) + "m ago"
    case Hours(n) => IntToString(n) + "h ago"
    case Days(n) => IntToString(n) + "d ago"
  }

  /** `formatTimestamp`: a count, the bucket's unit letter and ` ago`. */
  function FormatTimestamp(now: int, timestamp: int): (r: string)
    ensures |r| >= 6 && r[|r| - 4..] == " ago"
    ensures r[|r| - 5] == UnitOf(AgeOf(now, timestamp))
    ensures var d := ElapsedMinutes(now, timestamp);
      (d < MinutesPerHour ==> r == IntToString(d) + "m ago")
      && (MinutesPerHour <= d < MinutesPerDay ==> r == IntToString(d / MinutesPerHour) + "h ago")
      && (MinutesPerDay <= d ==> r == IntToString(d / MinutesPerDay) + "d ago")
  {
    var a := AgeOf(now, timestamp);
    assert RenderAge(a) == IntToString(a.count) + [UnitOf(a)] + " ago";
    RenderAge(a)
  }

  /** Unit letter of a rendered age. */
  function UnitOf(a: Age): char {
    match a
    case Minutes(_) => 'm'
    case Hours(_) => 'h'
    case Days(_) => 'd'
  }

  /** The rendered text determines the bucket and the count: no two ages read alike. */
  lemma RenderAgeInjective(a: Age, b: Age)
    requires RenderAge(a) == RenderAge(b)
    ensures a == b
  {
    var sa, sb := IntToString(a.count), IntToString(b.count);
    assert RenderAge(a) == sa + [UnitOf(a)] + " ago";
    assert RenderAge(b) == sb + [UnitOf(b)] + " ago";
    var n := |RenderAge(a)|;
    assert RenderAge(a)[..n - 4] == sa + [UnitOf(a)];
    assert RenderAge(b)[..n - 4] == sb + [UnitOf(b)];
    assert sa + [UnitOf(a)] == sb + [UnitOf(b)];
    assert sa == (sa + [UnitOf(a)])[..|sa|];
    assert sb == (sb + [UnitOf(b)])[..|sb|];
    assert UnitOf(a) == UnitOf(b);
    IntToStringInjective(a.count, b.count);
  }

  // ---------------------------------------------------------------------------
  // Description
  // ---------------------------------------------------------------------------

  /** The filter's test `line.trim()`: some character of the line is not whitespace. */
  predicate NonBlank(line: string) {
    exists k :: 0 <= k < |line| && !IsJsWhitespace(line[k])
  }

  /** The filter's test holds exactly when the trimmed line is non-empty. */
  lemma NonBlankIffTrimmed(line: string)
    ensures NonBlank(line) <==> Trim(line, IsJsWhitespace) != ""
  {
    TrimEmptyIffBlank(line, IsJsWhitespace);
  }

  /** `lines.filter(line => line.trim())`, in order. */
  function FilterNonBlank(lines: seq<string>): (r: seq<string>)
    ensures |r| <= |lines|
    ensures forall k :: 0 <= k < |r| ==> NonBlank(r[k])
    ensures forall x :: x in r <==> x in lines && NonBlank(x)
  {
    if lines == [] then []
    else if NonBlank(lines[0]) then [lines[0]] + FilterNonBlank(lines[1..])
    else FilterNonBlank(lines[1..])
  }

  /** The filter keeps order: filtering a concatenation filters each part in turn. */
  lemma {:induction false} FilterNonBlankAppend(a: seq<string>, b: seq<string>)
    ensures FilterNonBlank(a + b) == FilterNonBlank(a) + FilterNonBlank(b)
  {
    if a != [] {
      assert (a + b)[0] == a[0] && (a + b)[1..] == a[1..] + b;
      FilterNonBlankAppend(a[1..], b);
    } else {
      assert a + b == b;
    }
  }

  /** The first line the filter keeps is the first non-blank line. */
  lemma {:induction false} FilterNonBlankFirst(lines: seq<string>, j: nat)
    requires j < |lines| && NonBlank(lines[j])
    requires forall i :: 0 <= i < j ==> !NonBlank(lines[i])
    ensures FilterNonBlank(lines) != [] && FilterNonBlank(lines)[0] == lines[j]
  {
    if j > 0 {
      FilterNonBlankFirst(lines[1..], j - 1);
    }
  }

  /** `body.split('\n').filter(line => line.trim())`. */
  function NonBlankLines(body: string): seq<string> {
    FilterNonBlank(Split(body, '\n'))
  }

  /** A line that names a counterparty: `to `, `from ` or `at ` in its lower-cased text. */
  predicate Descriptive(line: string) {
    var lower := ToLower(line);
    Contains(lower, "to ") || Contains(lower, "from ") || Contains(lower, "at ")
  }

  /** What follows the line search: the first line, or the body's first 50 characters and an ellipsis. */
  function Fallback(body: string, lines: seq<string>): string {
    if lines != [] then Trim(lines[0], IsJsWhitespace) else Take(body, 50) + "..."
  }

  /**
   * `getTransactionDescription`: the first non-blank line that names a
   * counterparty, trimmed; failing that the first non-blank line, trimmed;
   * and only for a blank body its first 50 characters and `...`.
   */
  method GetTransactionDescription(body: string) returns (description: string)
    ensures var lines := NonBlankLines(body);
      (exists k :: 0 <= k < |lines| && Descriptive(lines[k])) ==>
        exists k :: 0 <= k < |lines| && Descriptive(lines[k])
          && (forall j :: 0 <= j < k ==> !Descriptive(lines[j]))
          && description == Trim(lines[k], IsJsWhitespace)
    ensures var lines := NonBlankLines(body);
      (forall k :: 0 <= k < |lines| ==> !Descriptive(lines[k])) ==> description == Fallback(body, lines)
    ensures description != ""
  {
    var lines := NonBlankLines(body);
    var i := 0;
    while i < |lines|
      invariant 0 <= i <= |lines|
      invariant forall j :: 0 <= j < i ==> !Descriptive(lines[j])
    {
      var line := lines[i];
      var lower := ToLower(line);
      if Contains(lower, "to ") || Contains(lower, "from ") || Contains(lower, "at ") {
        NonBlankIffTrimmed(line);
        description := Trim(line, IsJsWhitespace);
        return;
      }
      i := i + 1;
    }
    if lines != [] {
      NonBlankIffTrimmed(lines[0]);
    }
    description := Fallback(body, lines);
  }

  /** The filter leaves nothing exactly when every line is blank. */
  lemma {:induction false} NoLinesIffBlank(lines: seq<string>)
    ensures FilterNonBlank(lines) == [] <==> forall k :: 0 <= k < |lines| ==> !NonBlank(lines[k])
  {
    if lines != [] {
      NoLinesIffBlank(lines[1..]);
      assert forall k :: 1 <= k < |lines| ==> lines[k] == lines[1..][k - 1];
    }
  }
}
