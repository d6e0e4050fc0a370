/**
 * String helpers shared by the model: ASCII case mapping, trimming by a
 * whitespace predicate, substring search, decimal rendering of integers and
 * splitting on a separator character.
 */
module Text {

  // ---------------------------------------------------------------------------
  // Case mapping (ASCII only)
  // ---------------------------------------------------------------------------

  function UpperChar(c: char): char {
    if 'a' <= c <= 'z' then (c as int - 32) as char else c
  }

  function LowerChar(c: char): char {
    if 'A' <= c <= 'Z' then (c as int + 32) as char else c
  }

  /** `toUpperCase()` restricted to ASCII letters. */
  function ToUpper(s: string): string {
    seq(|s|, i requires 0 <= i < |s| => UpperChar(s[i]))
  }

  /** `toLowerCase()` restricted to ASCII letters. */
  function ToLower(s: string): string {
    seq(|s|, i requires 0 <= i < |s| => LowerChar(s[i]))
  }

  // ---------------------------------------------------------------------------
  // Whitespace and trimming
  // ---------------------------------------------------------------------------

  /** The characters JavaScript's `String.prototype.trim` removes. */
  predicate IsJsWhitespace(c: char) {
    var n := c as int;
    (9 <= n <= 13) || n == 0x20 || n == 0xA0 || n == 0x1680 ||
    (0x2000 <= n <= 0x200A) || n == 0x2028 || n == 0x2029 ||
    n == 0x202F || n == 0x205F || n == 0x3000 || n == 0xFEFF
  }

  /** The characters Java's `String.trim` removes: every code point up to U+0020. */
  predicate IsJavaTrimmable(c: char) {
    c as int <= 0x20
  }

  /** Drops the leading characters that satisfy `ws`. */
  function TrimStart(s: string, ws: char -> bool): (r: string)
    ensures |r| <= |s| && r == s[|s| - |r|..]
    ensures forall k :: 0 <= k < |s| - |r| ==> ws(s[k])
    ensures r != [] ==> !ws(r[0])
  {
    if s != [] && ws(s[0]) then TrimStart(s[1..], ws) else s
  }

  /** Drops the trailing characters that satisfy `ws`. */
  function TrimEnd(s: string, ws: char -> bool): (r: string)
    ensures |r| <= |s| && r == s[..|r|]
    ensures forall k :: |r| <= k < |s| ==> ws(s[k])
    ensures r != [] ==> !ws(r[|r| - 1])
  {
    if s != [] && ws(s[|s| - 1]) then TrimEnd(s[..|s| - 1], ws) else s
  }

  /** Drops the characters satisfying `ws` at both ends. */
  function Trim(s: string, ws: char -> bool): (r: string)
    ensures |r| <= |s|
    ensures r != [] ==> !ws(r[0]) && !ws(r[|r| - 1])
  {
    var t := TrimStart(s, ws);
    assert t == [] || !ws(t[0]);
    TrimEnd(t, ws)
  }

  /** Trimming leaves nothing exactly when every character is trimmed. */
  lemma TrimEmptyIffBlank(s: string, ws: char -> bool)
    ensures Trim(s, ws) == [] <==> IsBlank(s, ws)
  {
    var t := TrimStart(s, ws);
    if Trim(s, ws) == [] {
      assert t == [];
    }
  }

  /** Every character satisfies `ws` (the empty string included). */
  predicate IsBlank(s: string, ws: char -> bool) {
    forall k :: 0 <= k < |s| ==> ws(s[k])
  }

  // ---------------------------------------------------------------------------
  // Substring search
  // ---------------------------------------------------------------------------

  predicate OccursAt(s: string, w: string, i: int) {
    0 <= i && i + |w| <= |s| && s[i..i + |w|] == w
  }

  /** `s.includes(w)` / `s.contains(w)`. */
  predicate Contains(s: string, w: string) {
    exists i :: 0 <= i <= |s| - |w| && OccursAt(s, w, i)
  }

  /** An occurrence inside a suffix is an occurrence in the whole string. */
  lemma OccursInSuffix(s: string, w: string, d: nat, i: int)
    requires d <= |s| && OccursAt(s[d..], w, i)
    ensures OccursAt(s, w, d + i)
  {
    assert s[d + i..d + i + |w|] == s[d..][i..i + |w|];
  }

  /** An occurrence inside a prefix is an occurrence in the whole string. */
  lemma OccursInPrefix(s: string, w: string, e: nat, i: int)
    requires e <= |s| && OccursAt(s[..e], w, i)
    ensures OccursAt(s, w, i)
  {
    assert s[i..i + |w|] == s[..e][i..i + |w|];
  }

  lemma ContainsTrimStart(s: string, w: string, ws: char -> bool)
    requires w != [] && !ws(w[0])
    ensures Contains(TrimStart(s, ws), w) <==> Contains(s, w)
  {
    var r := TrimStart(s, ws);
    var d := |s| - |r|;
    assert r == s[d..];
    if Contains(r, w) {
      var i :| 0 <= i <= |r| - |w| && OccursAt(r, w, i);
      OccursInSuffix(s, w, d, i);
    }
    if Contains(s, w) {
      var i :| 0 <= i <= |s| - |w| && OccursAt(s, w, i);
      assert s[i] == s[i..i + |w|][0] == w[0];
      assert i >= d;
      assert s[d..][i - d..i - d + |w|] == s[i..i + |w|];
      assert OccursAt(r, w, i - d);
    }
  }

  lemma ContainsTrimEnd(s: string, w: string, ws: char -> bool)
    requires w != [] && !ws(w[|w| - 1])
    ensures Contains(TrimEnd(s, ws), w) <==> Contains(s, w)
  {
    var r := TrimEnd(s, ws);
    var e := |r|;
    assert r == s[..e];
    if Contains(r, w) {
      var i :| 0 <= i <= |r| - |w| && OccursAt(r, w, i);
      OccursInPrefix(s, w, e, i);
    }
    if Contains(s, w) {
      var i :| 0 <= i <= |s| - |w| && OccursAt(s, w, i);
      assert s[i + |w| - 1] == s[i..i + |w|][|w| - 1] == w[|w| - 1];
      assert i + |w| <= e;
      assert r[i..i + |w|] == s[i..i + |w|];
      assert OccursAt(r, w, i);
    }
  }

  /**
   * Trimming the haystack never changes whether a needle occurs in it, as
   * long as the needle itself neither starts nor ends with trimmed characters.
   */
  lemma ContainsTrim(s: string, w: string, ws: char -> bool)
    requires w != [] && !ws(w[0]) && !ws(w[|w| - 1])
    ensures Contains(Trim(s, ws), w) <==> Contains(s, w)
  {
    ContainsTrimStart(s, w, ws);
    ContainsTrimEnd(TrimStart(s, ws), w, ws);
  }

  /** Nothing non-empty occurs in the empty string. */
  lemma NotContainedInEmpty(w: string)
    requires w != []
    ensures !Contains([], w)
  {
  }

  /** A needle occurring in a longer needle's haystack: containment is transitive. */
  lemma ContainsTransitive(s: string, w: string, v: string)
    requires Contains(s, w) && Contains(w, v)
    ensures Contains(s, v)
  {
    var i :| 0 <= i <= |s| - |w| && OccursAt(s, w, i);
    var j :| 0 <= j <= |w| - |v| && OccursAt(w, v, j);
    forall k | 0 <= k < |v| ensures s[i + j + k] == v[k] {
      assert v[k] == w[j..j + |v|][k] == w[j + k];
      assert w[j + k] == s[i..i + |w|][j + k] == s[i + j + k];
    }
    assert s[i + j..i + j + |v|] == v;
    assert OccursAt(s, v, i + j);
  }

  // ---------------------------------------------------------------------------
  // Decimal rendering of integers (JavaScript template literals, Java `+`)
  // ---------------------------------------------------------------------------

  predicate IsDigit(c: char) {
    '0' <= c <= '9'
  }

  function DigitChar(d: int): (c: char)
    requires 0 <= d < 10
    ensures IsDigit(c) && c as int - '0' as int == d
  {
    ('0' as int + d) as char
  }

  /** Decimal digits of `n`, most significant first, without leading zeros. */
  function NatToString(n: nat): (r: string)
    ensures r != []
    ensures forall i :: 0 <= i < |r| ==> IsDigit(r[i])
    ensures r[0] == '0' ==> n == 0 && r == "0"
  {
    if n < 10 then [DigitChar(n)] else NatToString(n / 10) + [DigitChar(n % 10)]
  }

  /** Decimal value of a string of digits: the partner of NatToString. */
  function DigitsValue(r: string): nat
    requires forall i :: 0 <= i < |r| ==> IsDigit(r[i])
  {
    if r == [] then 0
    else
      assert IsDigit(r[|r| - 1]);
      DigitsValue(r[..|r| - 1]) * 10 + (r[|r| - 1] as int - '0' as int)
  }

  lemma {:induction false} DigitsValueOfNatToString(n: nat)
    ensures DigitsValue(NatToString(n)) == n
  {
    var r := NatToString(n);
    if n >= 10 {
      DigitsValueOfNatToString(n / 10);
      assert r[..|r| - 1] == NatToString(n / 10);
    }
  }

  /** `${n}` for an integer-valued number. */
  function IntToString(n: int): (r: string)
    ensures r != [] && (forall i :: 0 <= i < |r| ==> IsDigit(r[i]) || r[i] == '-')
    ensures n < 0 <==> r[0] == '-'
  {
    if n < 0 then "-" + NatToString(-n) else NatToString(n)
  }

  /** Distinct integers render differently. */
  lemma IntToStringInjective(a: int, b: int)
    requires IntToString(a) == IntToString(b)
    ensures a == b
  {
    if a < 0 {
      assert NatToString(-a) == IntToString(a)[1..] == IntToString(b)[1..] == NatToString(-b);
      DigitsValueOfNatToString(-a);
      DigitsValueOfNatToString(-b);
    } else {
      DigitsValueOfNatToString(a);
      DigitsValueOfNatToString(b);
    }
  }

  // ---------------------------------------------------------------------------
  // Splitting on a separator character and joining back
  // ---------------------------------------------------------------------------

  /** `s.split(sep)` for a one-character separator: always at least one piece. */
  function Split(s: string, sep: char): (parts: seq<string>)
    ensures |parts| >= 1
    ensures forall i :: 0 <= i < |parts| ==> sep !in parts[i]
  {
    if s == [] then [""]
    else
      var rest := Split(s[1..], sep);
      if s[0] == sep then [""] + rest else [[s[0]] + rest[0]] + rest[1..]
  }

  /** The first piece of a split is everything before the first separator. */
  lemma {:induction false} SplitHead(a: string, sep: char, b: string)
    requires sep !in a
    ensures Split(a + [sep] + b, sep)[0] == a
  {
    var s := a + [sep] + b;
    if a != [] {
      assert s[0] == a[0] && s[1..] == a[1..] + [sep] + b;
      SplitHead(a[1..], sep, b);
      assert [a[0]] + a[1..] == a;
    }
  }

  /** `parts.join(sep)`. */
  function Join(parts: seq<string>, sep: char): string {
    if parts == [] then ""
    else if |parts| == 1 then parts[0]
    else parts[0] + [sep] + Join(parts[1..], sep)
  }

  /** Joining the pieces of a split restores the original string. */
  lemma {:induction false} JoinSplit(s: string, sep: char)
    ensures Join(Split(s, sep), sep) == s
  {
    if s != [] {
      var rest := Split(s[1..], sep);
      JoinSplit(s[1..], sep);
      if s[0] != sep {
        JoinConsHead(s[0], rest[0], rest[1..], sep);
        assert [rest[0]] + rest[1..] == rest;
      }
    }
  }

  lemma JoinConsHead(c: char, p: string, ps: seq<string>, sep: char)
    ensures Join([[c] + p] + ps, sep) == [c] + Join([p] + ps, sep)
  {
    assert ([[c] + p] + ps)[1..] == ps;
    assert ([p] + ps)[1..] == ps;
  }

  /** `xs.slice(0, n)`. */
  function Take<T>(xs: seq<T>, n: nat): (r: seq<T>)
    ensures |r| == if n < |xs| then n else |xs|
    ensures r == xs[..|r|]
  {
    if n < |xs| then xs[..n] else xs
  }

  /** Number of occurrences of `c` in `s`. */
  function Count(s: string, c: char): nat {
    if s == [] then 0 else (if s[0] == c then 1 else 0) + Count(s[1..], c)
  }

  /**
   * The prefix of `s` that stops just before the `n`-th occurrence of `sep`,
   * or all of `s` when `sep` occurs fewer than `n` times.
   */
  function PrefixBeforeNth(s: string, sep: char, n: nat): (r: string)
    requires n >= 1
    ensures |r| <= |s| && r == s[..|r|]
    ensures Count(r, sep) < n
    ensures |r| < |s| ==> s[|r|] == sep && Count(r, sep) == n - 1
  {
    if s == [] then []
    else if s[0] == sep then
      (if n == 1 then [] else [sep] + PrefixBeforeNth(s[1..], sep, n - 1))
    else [s[0]] + PrefixBeforeNth(s[1..], sep, n)
  }

  /**
   * `s.split(sep).slice(0, n).join(sep)` is the prefix of `s` before the
   * `n`-th separator.
   */
  lemma {:induction false} JoinTakeSplit(s: string, sep: char, n: nat)
    requires n >= 1
    ensures Join(Take(Split(s, sep), n), sep) == PrefixBeforeNth(s, sep, n)
  {
    if s != [] {
      if s[0] == sep {
        if n > 1 {
          JoinTakeSplit(s[1..], sep, n - 1);
          JoinTakeSplitSep(s, sep, n);
        }
      } else {
        JoinTakeSplit(s[1..], sep, n);
        JoinTakeSplitOther(s, sep, n);
      }
    }
  }

  /** The step of JoinTakeSplit when `s` starts with the separator. */
  lemma JoinTakeSplitSep(s: string, sep: char, n: nat)
    requires s != [] && s[0] == sep && n > 1
    ensures Join(Take(Split(s, sep), n), sep)
         == [sep] + Join(Take(Split(s[1..], sep), n - 1), sep)
  {
    var rest := Split(s[1..], sep);
    var t := Take(rest, n - 1);
    assert Split(s, sep) == [""] + rest;
    assert Take(Split(s, sep), n) == [""] + t;
    assert ([""] + t)[1..] == t;
  }

  /** The step of JoinTakeSplit when `s` starts with another character. */
  lemma JoinTakeSplitOther(s: string, sep: char, n: nat)
    requires s != [] && s[0] != sep && n >= 1
    ensures Join(Take(Split(s, sep), n), sep)
         == [s[0]] + Join(Take(Split(s[1..], sep), n), sep)
  {
    var rest := Split(s[1..], sep);
    var t := Take(rest, n);
    assert Split(s, sep) == [[s[0]] + rest[0]] + rest[1..];
    assert Take(Split(s, sep), n) == [[s[0]] + t[0]] + t[1..];
    JoinConsHead(s[0], t[0], t[1..], sep);
    assert [t[0]] + t[1..] == t;
  }
}
