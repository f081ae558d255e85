/** The operations of Python's `str` type that the triage service relies on:
    lower-casing, `strip()`, the `in` test, `split` and `join`. */
module Text {
  import opened Wrappers

  // ---------------------------------------------------------------------------
  // Lower-casing

  /** Lower-casing of one character, restricted to ASCII letters. */
  function LowerChar(c: char): (r: char)
    ensures 'A' <= c <= 'Z' ==> 'a' <= r <= 'z'
    ensures !('A' <= c <= 'Z') ==> r == c
  {
    if 'A' <= c <= 'Z' then (c as int + 32) as char else c
  }

  /** `s.lower()` */
  function Lower(s: string): (r: string)
    ensures |r| == |s|
    ensures forall i :: 0 <= i < |s| ==> r[i] == LowerChar(s[i])
    ensures IsLowerCase(r)
    ensures IsLowerCase(s) ==> r == s
  {
    seq(|s|, i requires 0 <= i < |s| => LowerChar(s[i]))
  }

  /** `[s.lower() for s in xs]` */
  function LowerAll(xs: seq<string>): (r: seq<string>)
    ensures |r| == |xs|
    ensures forall c :: c in r <==> exists x :: x in xs && Lower(x) == c
  {
    var r := seq(|xs|, i requires 0 <= i < |xs| => Lower(xs[i]));
    LoweredMembers(xs, r);
    r
  }

  /** The members of a pointwise lower-cased list are the lower-cased members. */
  lemma LoweredMembers(xs: seq<string>, r: seq<string>)
    requires |r| == |xs| && forall i :: 0 <= i < |xs| ==> r[i] == Lower(xs[i])
    ensures forall c :: c in r <==> exists x :: x in xs && Lower(x) == c
  {
    forall c ensures c in r <==> exists x :: x in xs && Lower(x) == c {
      if c in r {
        var i :| 0 <= i < |r| && r[i] == c;
        assert xs[i] in xs && Lower(xs[i]) == c;
      }
      if exists x :: x in xs && Lower(x) == c {
        var x :| x in xs && Lower(x) == c;
        var i :| 0 <= i < |xs| && xs[i] == x;
        assert r[i] == c;
      }
    }
  }

  predicate IsLowerCase(s: string) {
    forall i :: 0 <= i < |s| ==> !('A' <= s[i] <= 'Z')
  }

  /** Lower-casing twice is lower-casing once. */
  lemma LowerIdempotent(s: string)
    ensures Lower(Lower(s)) == Lower(s)
  {
  }

  // ---------------------------------------------------------------------------
  // Decimal rendering of a count: `f"{n}"`

  predicate IsDigits(s: string) {
    forall i :: 0 <= i < |s| ==> '0' <= s[i] <= '9'
  }

  function DigitChar(d: nat): (c: char)
    requires d < 10
    ensures '0' <= c <= '9'
  {
    (48 + d) as char
  }

  /** The value of a string of decimal digits. */
  function DigitsValue(s: string): (n: nat)
    requires IsDigits(s)
  {
    if s == [] then 0 else 10 * DigitsValue(s[..|s| - 1]) + ((s[|s| - 1] as int) - 48)
  }

  /** `str(n)` for a natural number: decimal digits, no leading zero. */
  function NatText(n: nat): (r: string)
    ensures r != [] && IsDigits(r)
    ensures |r| > 1 ==> r[0] != '0'
    ensures DigitsValue(r) == n
  {
    if n < 10 then [DigitChar(n)]
    else
      var r := NatText(n / 10) + [DigitChar(n % 10)];
      assert r[..|r| - 1] == NatText(n / 10);
      r
  }

  // ---------------------------------------------------------------------------
  // Whitespace and strip()

  /** The characters `str.isspace()` accepts, which `str.strip()` removes. */
  predicate IsSpace(c: char) {
    ('\t' <= c <= '\r') || ('\U{1C}' <= c <= '\U{1F}') || c == ' ' || c == '\U{85}'
    || c == '\U{A0}' || c == '\U{1680}' || ('\U{2000}' <= c <= '\U{200A}')
    || c == '\U{2028}' || c == '\U{2029}' || c == '\U{202F}' || c == '\U{205F}' || c == '\U{3000}'
  }

  predicate AllSpace(s: string) {
    forall i :: 0 <= i < |s| ==> IsSpace(s[i])
  }

  /** Index of the first non-space character of `s`, or `|s|`. */
  function TextStart(s: string): (i: nat)
    ensures i <= |s|
    ensures AllSpace(s[..i])
    ensures i < |s| ==> !IsSpace(s[i])
    decreases |s|
  {
    if |s| > 0 && IsSpace(s[0]) then
      var k := TextStart(s[1..]);
      assert s[1..][..k] == s[1..k + 1];
      1 + k
    else 0
  }

  /** Index just past the last non-space character of `s`, at or after `from`. */
  function TextEnd(s: string, from: nat): (j: nat)
    requires from <= |s|
    ensures from <= j <= |s|
    ensures AllSpace(s[j..])
    ensures j > from ==> !IsSpace(s[j - 1])
    decreases |s|
  {
    if |s| > from && IsSpace(s[|s| - 1]) then
      var j := TextEnd(s[..|s| - 1], from);
      assert s[j..] == s[..|s| - 1][j..] + [s[|s| - 1]];
      j
    else |s|
  }

  /** `s.strip()` */
  function Strip(s: string): (r: string)
    ensures TextStart(s) + |r| <= |s| && r == s[TextStart(s)..TextStart(s) + |r|]
    ensures AllSpace(s[..TextStart(s)]) && AllSpace(s[TextStart(s) + |r|..])
    ensures r != [] ==> !IsSpace(r[0]) && !IsSpace(r[|r| - 1])
  {
    var i := TextStart(s);
    s[i..TextEnd(s, i)]
  }

  /** Stripping twice is stripping once. */
  lemma StripIdempotent(s: string)
    ensures Strip(Strip(s)) == Strip(s)
  {
  }

  // ---------------------------------------------------------------------------
  // Substring search: the `in` test and the first occurrence

  /** `p` occurs in `s` starting at index `j`. */
  predicate OccursAt(s: string, p: string, j: int) {
    0 <= j && j + |p| <= |s| && s[j..j + |p|] == p
  }

  /** Python's `p in s`. */
  predicate Contains(s: string, p: string) {
    exists j | 0 <= j <= |s| :: OccursAt(s, p, j)
  }

  /** An occurrence inside a slice is an occurrence in the whole string, shifted. */
  lemma OccursInSlice(s: string, a: nat, b: nat, p: string, j: int)
    requires a <= b <= |s|
    ensures OccursAt(s[a..b], p, j) <==> (0 <= j && a + j + |p| <= b && OccursAt(s, p, a + j))
  {
    if 0 <= j && a + j + |p| <= b {
      var u, v := s[a..b][j..j + |p|], s[a + j..a + j + |p|];
      assert forall k :: 0 <= k < |p| ==> u[k] == v[k];
      assert u == v;
    }
  }

  /** Index of the first occurrence of `p` in `s` (`s.find(p)`, with None for -1). */
  function IndexOf(s: string, p: string): (r: Option<nat>)
    ensures r.Some? ==> OccursAt(s, p, r.value)
    ensures r.Some? ==> forall j :: 0 <= j < r.value ==> !OccursAt(s, p, j)
    ensures r.None? <==> !Contains(s, p)
    decreases |s|
  {
    if |s| < |p| then None
    else if s[..|p|] == p then Some(0)
    else
      assert !OccursAt(s, p, 0) by { assert s[0..|p|] == s[..|p|]; }
      var rest := IndexOf(s[1..], p);
      ShiftOccurrences(s, p);
      match rest
      case None => None
      case Some(k) => Some(k + 1)
  }

  /** The occurrences in `s[1..]` are those of `s` after index 0, moved one place left. */
  lemma ShiftOccurrences(s: string, p: string)
    requires |s| > 0
    ensures forall j :: 1 <= j ==> (OccursAt(s, p, j) <==> OccursAt(s[1..], p, j - 1))
  {
  }

  /** An occurrence of `p + q` is an occurrence of `p` at the same place. */
  lemma OccursPrefixOfPattern(s: string, p: string, q: string, j: int)
    requires OccursAt(s, p + q, j)
    ensures OccursAt(s, p, j)
  {
    assert s[j..j + |p|] == s[j..j + |p + q|][..|p|];
  }

  /** The first occurrence is the one `IndexOf` finds. */
  lemma IndexOfFirst(s: string, p: string, m: nat)
    requires OccursAt(s, p, m)
    requires forall j :: 0 <= j < m ==> !OccursAt(s, p, j)
    ensures IndexOf(s, p) == Some(m)
  {
  }

  /** The text before the first occurrence of `p`, or all of `s` (`s.split(p)[0]`). */
  function Cut(s: string, p: string): (r: string)
    ensures |r| <= |s| && r == s[..|r|]
    ensures !Contains(s, p) ==> r == s
    ensures Contains(s, p) ==> OccursAt(s, p, |r|)
    ensures |p| > 0 ==> !Contains(r, p)
  {
    match IndexOf(s, p)
    case None => s
    case Some(i) =>
      if |p| > 0 then
        NoOccurrenceInPrefix(s, p, i);
        s[..i]
      else s[..i]
  }

  /** Before the first occurrence of `p` there is none. */
  lemma NoOccurrenceInPrefix(s: string, p: string, i: nat)
    requires i <= |s|
    requires forall j :: 0 <= j < i ==> !OccursAt(s, p, j)
    requires |p| > 0
    ensures !Contains(s[..i], p)
  {
    if Contains(s[..i], p) {
      var j :| OccursAt(s[..i], p, j);
      OccursInSlice(s, 0, i, p, j);
      assert false;
    }
  }

  /** The text after the first occurrence of `p`. */
  function After(s: string, p: string): (r: string)
    requires Contains(s, p)
    ensures |r| <= |s| && r == s[|s| - |r|..]
  {
    s[IndexOf(s, p).value + |p|..]
  }

  /** A search string that neither starts nor ends with whitespace occurs in `s`
      exactly when it occurs in `s.strip()`. */
  lemma ContainsStripped(s: string, p: string)
    requires |p| > 0 && !IsSpace(p[0]) && !IsSpace(p[|p| - 1])
    ensures Contains(Strip(s), p) <==> Contains(s, p)
  {
    var i := TextStart(s);
    var j := TextEnd(s, i);
    assert Strip(s) == s[i..j];
    if Contains(s[i..j], p) {
      var m :| 0 <= m <= j - i && OccursAt(s[i..j], p, m);
      OccursInSlice(s, i, j, p, m);
    }
    if Contains(s, p) {
      var k :| 0 <= k <= |s| && OccursAt(s, p, k);
      OccurrenceInsideText(s, p, k, i, j);
      OccursInSlice(s, i, j, p, k - i);
    }
  }

  /** An occurrence of a string with non-space ends lies between the leading and the
      trailing whitespace. */
  lemma OccurrenceInsideText(s: string, p: string, k: int, i: nat, j: nat)
    requires |p| > 0 && !IsSpace(p[0]) && !IsSpace(p[|p| - 1])
    requires OccursAt(s, p, k)
    requires i <= j <= |s| && AllSpace(s[..i]) && AllSpace(s[j..])
    ensures i <= k && k + |p| <= j
  {
  }

  // ---------------------------------------------------------------------------
  // split and join

  /** `s.split(sep)`; Python refuses an empty separator. */
  function Split(s: string, sep: string): (r: seq<string>)
    requires |sep| > 0
    ensures |r| >= 1 && r[0] == Cut(s, sep)
    ensures |r| >= 2 <==> Contains(s, sep)
    ensures forall k :: 0 <= k < |r| ==> !Contains(r[k], sep)
    decreases |s|
  {
    match IndexOf(s, sep)
    case None => [s]
    case Some(i) => [s[..i]] + Split(s[i + |sep|..], sep)
  }

  /** The second piece of a split is the text between the first and second occurrence. */
  lemma SplitSecond(s: string, sep: string)
    requires |sep| > 0 && Contains(s, sep)
    ensures Split(s, sep)[1] == Cut(After(s, sep), sep)
  {
  }

  /** Total length of the items. */
  function TotalLength(xs: seq<string>): nat {
    if xs == [] then 0 else |xs[0]| + TotalLength(xs[1..])
  }

  /** `sep.join(xs)`: the items and one separator between each two of them. */
  function Join(xs: seq<string>, sep: string): (r: string)
    ensures xs != [] ==> |r| == TotalLength(xs) + (|xs| - 1) * |sep|
    ensures xs != [] ==> r[..|xs[0]|] == xs[0]
    ensures |xs| > 1 ==> r[|xs[0]|..|xs[0]| + |sep|] == sep
  {
    if xs == [] then ""
    else if |xs| == 1 then xs[0]
    else xs[0] + sep + Join(xs[1..], sep)
  }

  /** A piece free of ", " followed by ", " has its first ", " exactly at that separator. */
  lemma FirstCommaSpace(x: string, rest: string)
    requires !Contains(x, ", ")
    ensures IndexOf(x + ", " + rest, ", ") == Some(|x|)
  {
    var s := x + ", " + rest;
    assert OccursAt(s, ", ", |x|) by { assert s[|x|..|x| + 2] == ", "; }
    forall j | 0 <= j < |x|
      ensures !OccursAt(s, ", ", j)
    {
      if j + 2 <= |x| {
        if OccursAt(s, ", ", j) {
          assert s[j..j + 2] == x[j..j + 2];
          assert OccursAt(x, ", ", j);
        }
      } else {
        assert s[j + 1] == ',';
      }
    }
  }

  /** Splitting a ", "-joined list whose items do not contain ", " gives the list back. */
  lemma {:induction false} SplitJoin(xs: seq<string>)
    requires xs != []
    requires forall k :: 0 <= k < |xs| ==> !Contains(xs[k], ", ")
    ensures Split(Join(xs, ", "), ", ") == xs
  {
    if |xs| == 1 {
    } else {
      var rest := Join(xs[1..], ", ");
      FirstCommaSpace(xs[0], rest);
      var s := xs[0] + ", " + rest;
      assert s[..|xs[0]|] == xs[0];
      assert s[|xs[0]| + 2..] == rest;
      SplitJoin(xs[1..]);
    }
  }
}
