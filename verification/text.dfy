/**
 The string primitives the roster converter relies on, written out with the
 semantics of the Python built-ins they stand for: substring search (`in`),
 `str.strip`, `str.lower() == "nan"`, `str.isdigit` over ASCII digits,
 `str.replace`, and the `{:d}` / `{:02d}` integer formats.
 */
module Text {

  /* ---------------------------------------------------------------------
     Substring search (Python's `sub in s`)
     --------------------------------------------------------------------- */

  predicate StartsWith(s: string, p: string) {
    |p| <= |s| && s[..|p|] == p
  }

  /** `p in s`: p occurs somewhere in s (the empty string occurs everywhere). */
  predicate Contains(s: string, p: string)
    decreases |s|
  {
    StartsWith(s, p) || (|s| > 0 && Contains(s[1..], p))
  }

  /** Positional reading of an occurrence. */
  predicate OccursAt(s: string, p: string, i: int) {
    0 <= i && i + |p| <= |s| && s[i..i + |p|] == p
  }

  /** The recursive search finds exactly the positional occurrences. */
  lemma {:induction false} ContainsIffOccurs(s: string, p: string)
    ensures Contains(s, p) <==> exists i :: OccursAt(s, p, i)
    decreases |s|
  {
    if StartsWith(s, p) {
      assert OccursAt(s, p, 0);
    } else if |s| == 0 {
      assert forall i :: !OccursAt(s, p, i);
    } else {
      forall i | OccursAt(s, p, i) && i > 0
        ensures OccursAt(s[1..], p, i - 1)
      {
        OccursInTail(s, p, i);
      }
      ContainsIffOccurs(s[1..], p);
      if Contains(s[1..], p) {
        var j :| OccursAt(s[1..], p, j);
        assert s[1..][j..j + |p|] == s[j + 1..j + 1 + |p|];
        assert OccursAt(s, p, j + 1);
      }
    }
  }

  /** An occurrence past the first character is one in the tail. */
  lemma OccursInTail(s: string, p: string, i: int)
    requires OccursAt(s, p, i) && i > 0
    ensures OccursAt(s[1..], p, i - 1)
  {
    assert s[1..][i - 1..i - 1 + |p|] == s[i..i + |p|];
  }

  /** If one character of p never appears in s, p does not occur in s. */
  lemma {:induction false} AbsentCharNotContained(s: string, p: string, c: char)
    requires c in p && c !in s
    ensures !Contains(s, p)
    decreases |s|
  {
    if |s| > 0 {
      AbsentCharNotContained(s[1..], p, c);
    }
  }

  /** A string containing q contains every substring of q. */
  lemma {:induction false} ContainsTransitive(s: string, q: string, p: string)
    requires Contains(s, q) && Contains(q, p)
    ensures Contains(s, p)
  {
    ContainsIffOccurs(s, q);
    ContainsIffOccurs(q, p);
    var i :| OccursAt(s, q, i);
    var j :| OccursAt(q, p, j);
    assert forall t :: 0 <= t < |p| ==> p[t] == q[j + t] == s[i + j + t];
    assert OccursAt(s, p, i + j);
    ContainsIffOccurs(s, p);
  }

  /* ---------------------------------------------------------------------
     Whitespace, `str.strip` and `str.lower() == "nan"`
     --------------------------------------------------------------------- */

  /** The characters Python's `str.isspace` accepts. */
  predicate IsSpace(c: char) {
    || c == ' ' || c == '\t' || c == '\n' || c == '\r'
    || c == '\U{000B}' || c == '\U{000C}'
    || ('\U{001C}' <= c <= '\U{001F}')
    || c == '\U{0085}' || c == '\U{00A0}' || c == '\U{1680}'
    || ('\U{2000}' <= c <= '\U{200A}')
    || c == '\U{2028}' || c == '\U{2029}' || c == '\U{202F}' || c == '\U{205F}'
    || c == '\U{3000}'
  }

  /** r sits at offset i of s with only whitespace around it. */
  ghost predicate StrippedAt(s: string, r: string, i: int) {
    && 0 <= i <= i + |r| <= |s| && r == s[i..i + |r|]
    && (forall k :: 0 <= k < i ==> IsSpace(s[k]))
    && (forall k :: i + |r| <= k < |s| ==> IsSpace(s[k]))
  }

  /** Leading whitespace removed: a suffix of s. The rest of what it
      guarantees is stated by TrimStartSpec, so that unfolding it stays cheap. */
  function TrimStart(s: string): (r: string)
    ensures |r| <= |s|
    decreases |s|
  {
    if |s| > 0 && IsSpace(s[0]) then TrimStart(s[1..]) else s
  }

  /** Trailing whitespace removed: a prefix of s. */
  function TrimEnd(s: string): (r: string)
    ensures |r| <= |s|
    decreases |s|
  {
    if |s| > 0 && IsSpace(s[|s| - 1]) then TrimEnd(s[..|s| - 1]) else s
  }

  lemma {:induction false} TrimStartSpec(s: string)
    ensures var r := TrimStart(s);
      && r == s[|s| - |r|..]
      && (forall i :: 0 <= i < |s| - |r| ==> IsSpace(s[i]))
      && (|r| > 0 ==> !IsSpace(r[0]))
    decreases |s|
  {
    if |s| > 0 && IsSpace(s[0]) {
      TrimStartSpec(s[1..]);
      var r := TrimStart(s);
      assert s[1..][|s| - 1 - |r|..] == s[|s| - |r|..];
    }
  }

  lemma {:induction false} TrimEndSpec(s: string)
    ensures var r := TrimEnd(s);
      && r == s[..|r|]
      && (forall i :: |r| <= i < |s| ==> IsSpace(s[i]))
      && (|r| > 0 ==> !IsSpace(r[|r| - 1]))
    decreases |s|
  {
    if |s| > 0 && IsSpace(s[|s| - 1]) {
      TrimEndSpec(s[..|s| - 1]);
      var r := TrimEnd(s);
      assert s[..|s| - 1][..|r|] == s[..|r|];
    }
  }

  /** `str.strip()`. */
  function Strip(s: string): (r: string)
    ensures |r| <= |s|
  {
    TrimEnd(TrimStart(s))
  }

  /** What `str.strip()` returns: a contiguous slice of s whose ends are not
      whitespace, and outside of which s holds only whitespace. */
  lemma StripSpec(s: string)
    ensures exists i :: StrippedAt(s, Strip(s), i)
    ensures |Strip(s)| > 0 ==> !IsSpace(Strip(s)[0]) && !IsSpace(Strip(s)[|Strip(s)| - 1])
  {
    var t := TrimStart(s);
    var r := TrimEnd(t);
    TrimStartSpec(s);
    TrimEndSpec(t);
    var i := |s| - |t|;
    assert t == s[i..] && r == t[..|r|];
    assert r == s[i..i + |r|];
    assert forall k :: 0 <= k < i ==> IsSpace(s[k]);
    forall k | i + |r| <= k < |s|
      ensures IsSpace(s[k])
    {
      assert s[k] == t[k - i];
    }
    assert Strip(s) == r;
    assert StrippedAt(s, Strip(s), i);
  }

  /** Stripping twice is stripping once. */
  lemma StripIdempotent(s: string)
    ensures Strip(Strip(s)) == Strip(s)
  {
    var r := Strip(s);
    StripSpec(s);
    assert TrimStart(r) == r;
    assert TrimEnd(r) == r;
  }

  /** "nan", the text of a missing cell, has no surrounding whitespace. */
  lemma StripNan()
    ensures Strip("nan") == "nan"
  {
    assert !IsSpace("nan"[0]) && TrimStart("nan") == "nan";
    assert !IsSpace("nan"[2]) && TrimEnd("nan") == "nan";
  }

  /** Text that starts and ends with a non-space character is its own strip. */
  lemma StripKeepsClean(s: string)
    requires |s| > 0 && !IsSpace(s[0]) && !IsSpace(s[|s| - 1])
    ensures Strip(s) == s
  {
    assert TrimStart(s) == s;
    assert TrimEnd(s) == s;
  }

  /** `s.lower() == "nan"`: only N/n, A/a, N/n lower-case to those letters. */
  predicate IsNanWord(s: string) {
    |s| == 3 && (s[0] == 'n' || s[0] == 'N') && (s[1] == 'a' || s[1] == 'A')
    && (s[2] == 'n' || s[2] == 'N')
  }

  /* ---------------------------------------------------------------------
     Digits, `str.isdigit`, `int(...)`, `{:d}` and `{:02d}`
     --------------------------------------------------------------------- */

  predicate IsDigit(c: char) {
    '0' <= c <= '9'
  }

  predicate DigitsOnly(s: string) {
    forall i :: 0 <= i < |s| ==> IsDigit(s[i])
  }

  /** `s.isdigit()`: non-empty and all (ASCII) digits. */
  predicate IsDigitString(s: string) {
    |s| > 0 && DigitsOnly(s)
  }

  function DigitValue(c: char): (d: nat)
    requires IsDigit(c)
    ensures d < 10
  {
    (c as int) - ('0' as int)
  }

  function DigitChar(d: nat): (c: char)
    requires d < 10
    ensures IsDigit(c) && DigitValue(c) == d
  {
    (('0' as int) + d) as char
  }

  /** `int(s)` for a string of decimal digits. */
  function DigitsValue(s: string): nat
    requires DigitsOnly(s)
  {
    if |s| == 0 then 0 else 10 * DigitsValue(s[..|s| - 1]) + DigitValue(s[|s| - 1])
  }

  /** `f"{n}"`: the shortest decimal numeral of n. */
  function Decimal(n: nat): (r: string)
    ensures IsDigitString(r) && DigitsValue(r) == n
    ensures |r| == 1 || r[0] != '0'
    ensures n < 10 <==> |r| == 1
    ensures 10 <= n < 100 <==> |r| == 2
    ensures 100 <= n < 1000 <==> |r| == 3
  {
    if n < 10 then [DigitChar(n)]
    else
      var r := Decimal(n / 10) + [DigitChar(n % 10)];
      assert r[..|r| - 1] == Decimal(n / 10);
      r
  }

  /** `f"{n:02d}"`: zero-padded to at least two digits. */
  function Pad2(n: nat): (r: string)
    ensures IsDigitString(r) && DigitsValue(r) == n
    ensures n < 100 <==> |r| == 2
    ensures |r| > 2 ==> r == Decimal(n)
  {
    if n < 10 then
      var r := ['0', DigitChar(n)];
      assert r[..1] == "0" && "0"[..0] == "";
      assert DigitsValue(r[..1]) == 0;
      r
    else Decimal(n)
  }

  /* ---------------------------------------------------------------------
     `str.replace(old, new)`
     --------------------------------------------------------------------- */

  /** `s.replace("", v)`: v before every character and once at the end. */
  function Interleave(s: string, v: string): (r: string)
    ensures |r| == |s| + (|s| + 1) * |v|
  {
    if |s| == 0 then v else v + [s[0]] + Interleave(s[1..], v)
  }

  /** `s.replace(k, v)`: every non-overlapping occurrence of k, taken left
      to right, becomes v; an empty k inserts v between all characters. */
  function ReplaceAll(s: string, k: string, v: string): string
    decreases |s|
  {
    if |k| == 0 then Interleave(s, v)
    else if StartsWith(s, k) then v + ReplaceAll(s[|k|..], k, v)
    else if |s| == 0 then ""
    else [s[0]] + ReplaceAll(s[1..], k, v)
  }

  /** `s.split(k)` for a non-empty k: the pieces between the left-to-right
      non-overlapping occurrences of k. */
  function Split(s: string, k: string): (parts: seq<string>)
    requires |k| > 0
    ensures |parts| > 0
    decreases |s|
  {
    if StartsWith(s, k) then [""] + Split(s[|k|..], k)
    else if |s| == 0 then [""]
    else
      var rest := Split(s[1..], k);
      [[s[0]] + rest[0]] + rest[1..]
  }

  /** `v.join(parts)`. */
  function Join(parts: seq<string>, v: string): string
    requires |parts| > 0
  {
    if |parts| == 1 then parts[0] else parts[0] + v + Join(parts[1..], v)
  }

  lemma JoinConsHead(c: char, parts: seq<string>, v: string)
    requires |parts| > 0
    ensures Join([[c] + parts[0]] + parts[1..], v) == [c] + Join(parts, v)
  {
    var ps := [[c] + parts[0]] + parts[1..];
    if |parts| > 1 {
      assert ps[1..] == parts[1..];
    }
  }

  /** `s.replace(k, v) == v.join(s.split(k))` for every non-empty k: the
      scanning definition agrees with the split/join reading of Python's
      documentation. */
  lemma {:induction false} ReplaceIsSplitJoin(s: string, k: string, v: string)
    requires |k| > 0
    ensures ReplaceAll(s, k, v) == Join(Split(s, k), v)
    decreases |s|
  {
    if StartsWith(s, k) {
      ReplaceIsSplitJoin(s[|k|..], k, v);
      var parts := [""] + Split(s[|k|..], k);
      assert parts[1..] == Split(s[|k|..], k);
    } else if |s| > 0 {
      ReplaceIsSplitJoin(s[1..], k, v);
      JoinConsHead(s[0], Split(s[1..], k), v);
    }
  }

  /** Splitting on k and joining with k gives the original string back. */
  lemma {:induction false} SplitJoinRoundTrip(s: string, k: string)
    requires |k| > 0
    ensures Join(Split(s, k), k) == s
    decreases |s|
  {
    if StartsWith(s, k) {
      SplitJoinRoundTrip(s[|k|..], k);
      var parts := [""] + Split(s[|k|..], k);
      assert parts[1..] == Split(s[|k|..], k);
      assert s == k + s[|k|..];
    } else if |s| > 0 {
      SplitJoinRoundTrip(s[1..], k);
      JoinConsHead(s[0], Split(s[1..], k), k);
      assert s == [s[0]] + s[1..];
    }
  }

  /** A replacement whose key does not occur leaves the string unchanged. */
  lemma {:induction false} ReplaceAbsent(s: string, k: string, v: string)
    requires |k| > 0 && !Contains(s, k)
    ensures ReplaceAll(s, k, v) == s
    decreases |s|
  {
    if |s| > 0 {
      ReplaceAbsent(s[1..], k, v);
      assert s == [s[0]] + s[1..];
    }
  }
}
