/**
 * String operations of the JavaScript and Python runtimes that the extension and the
 * backend rely on: `startsWith`, `includes`, `replace` with a string pattern, a global
 * `replace` with a literal pattern, `trim`/`trimStart`, Python's `lstrip`, and decimal
 * rendering of a number inside a template string.
 *
 * A `string` is a sequence of Unicode scalar values; JavaScript's UTF-16 code units are not
 * modelled, so lengths and offsets agree with the source only below U+10000.
 */
module Text {

  /** `s` starts with `p` (JavaScript `startsWith`, Python `startswith`). */
  predicate StartsWith(s: string, p: string) {
    |p| <= |s| && s[..|p|] == p
  }

  /** `s` ends with `p`. */
  predicate EndsWith(s: string, p: string) {
    |p| <= |s| && s[|s| - |p|..] == p
  }

  /** `pat` occurs in `s` starting at index `i`. */
  predicate OccursAt(s: string, pat: string, i: int) {
    0 <= i && i + |pat| <= |s| && s[i..i + |pat|] == pat
  }

  /** Index of the first occurrence of `pat` in `s` at or after `from`, or -1. */
  function IndexOfFrom(s: string, pat: string, from: nat): (r: int)
    requires from <= |s|
    ensures r == -1 || (from <= r <= |s| && OccursAt(s, pat, r))
    ensures r == -1 ==> forall i :: from <= i <= |s| ==> !OccursAt(s, pat, i)
    ensures r != -1 ==> forall i :: from <= i < r ==> !OccursAt(s, pat, i)
    decreases |s| - from
  {
    if OccursAt(s, pat, from) then from
    else if from == |s| then -1
    else IndexOfFrom(s, pat, from + 1)
  }

  /** JavaScript `indexOf`: the first occurrence of `pat` in `s`, or -1. */
  function IndexOf(s: string, pat: string): int {
    IndexOfFrom(s, pat, 0)
  }

  /** JavaScript `includes`. */
  predicate Contains(s: string, pat: string) {
    IndexOf(s, pat) >= 0
  }

  lemma ContainsIff(s: string, pat: string)
    ensures Contains(s, pat) <==> exists i :: 0 <= i <= |s| && OccursAt(s, pat, i)
  {
    if Contains(s, pat) {
      assert OccursAt(s, pat, IndexOf(s, pat));
    }
  }

  lemma OccursAtContains(s: string, pat: string, i: int)
    requires OccursAt(s, pat, i)
    ensures Contains(s, pat) && IndexOf(s, pat) <= i
  {
    ContainsIff(s, pat);
  }

  /** JavaScript `s.replace(pat, rep)` with a string pattern: only the first occurrence is replaced. */
  function ReplaceFirst(s: string, pat: string, rep: string): (r: string)
    ensures !Contains(s, pat) ==> r == s
    ensures Contains(s, pat) ==>
      var i := IndexOf(s, pat);
      && OccursAt(s, pat, i) && (forall k :: 0 <= k < i ==> !OccursAt(s, pat, k))
      && r == s[..i] + rep + s[i + |pat|..]
  {
    var i := IndexOf(s, pat);
    if i < 0 then s else s[..i] + rep + s[i + |pat|..]
  }

  /**
   * A global replacement of a literal, non-empty pattern (`s.replace(/pat/g, rep)`): the
   * string is scanned from the left and each occurrence that does not overlap an earlier
   * replaced one is replaced.
   */
  function ReplaceAll(s: string, pat: string, rep: string): string
    requires |pat| > 0
    decreases |s|
  {
    if |s| < |pat| then s
    else if s[..|pat|] == pat then rep + ReplaceAll(s[|pat|..], pat, rep)
    else [s[0]] + ReplaceAll(s[1..], pat, rep)
  }

  /** A prefix without the pattern's first character passes through any global replacement unchanged. */
  lemma {:induction false} ReplaceAllPassThrough(x: string, y: string, pat: string, rep: string)
    requires |pat| > 0
    requires forall i :: 0 <= i < |x| ==> x[i] != pat[0]
    ensures ReplaceAll(x + y, pat, rep) == x + ReplaceAll(y, pat, rep)
    decreases |x|
  {
    if x == [] {
      assert x + y == y;
    } else {
      var s := x + y;
      if |s| < |pat| {
        assert ReplaceAll(y, pat, rep) == y;
      } else {
        assert s[..|pat|][0] == x[0] != pat[0];
        assert s[1..] == x[1..] + y;
        ReplaceAllPassThrough(x[1..], y, pat, rep);
        calc {
          ReplaceAll(s, pat, rep);
          [x[0]] + ReplaceAll(x[1..] + y, pat, rep);
          [x[0]] + (x[1..] + ReplaceAll(y, pat, rep));
          { assert [x[0]] + x[1..] == x; }
          x + ReplaceAll(y, pat, rep);
        }
      }
    }
  }

  /** An occurrence at the front is replaced and the scan resumes after it. */
  lemma ReplaceAllHit(y: string, pat: string, rep: string)
    requires |pat| > 0
    ensures ReplaceAll(pat + y, pat, rep) == rep + ReplaceAll(y, pat, rep)
  {
    var s := pat + y;
    assert s[..|pat|] == pat;
    assert s[|pat|..] == y;
  }

  /**
   * A unit that starts with the pattern's first character, does not start with the whole
   * pattern and has no other occurrence of that character passes through unchanged.
   */
  lemma ReplaceAllMiss(x: string, y: string, pat: string, rep: string)
    requires |pat| > 0 && |x| >= |pat| && x[..|pat|] != pat
    requires forall i :: 1 <= i < |x| ==> x[i] != pat[0]
    ensures ReplaceAll(x + y, pat, rep) == x + ReplaceAll(y, pat, rep)
  {
    var s := x + y;
    assert s[..|pat|] == x[..|pat|];
    assert s[0] == x[0];
    assert s[1..] == x[1..] + y;
    assert ReplaceAll(s, pat, rep) == [x[0]] + ReplaceAll(x[1..] + y, pat, rep);
    ReplaceAllPassThrough(x[1..], y, pat, rep);
    HeadTail(x, ReplaceAll(y, pat, rep));
  }

  /** Putting the head of a non-empty string back in front of its tail. */
  lemma HeadTail(x: string, t: string)
    requires x != []
    ensures [x[0]] + (x[1..] + t) == x + t
  {
    assert [x[0]] + x[1..] == x;
  }

  /** A global replacement of a one-character pattern distributes over concatenation. */
  lemma {:induction false} ReplaceAllCharAppend(x: string, y: string, c: char, rep: string)
    ensures ReplaceAll(x + y, [c], rep) == ReplaceAll(x, [c], rep) + ReplaceAll(y, [c], rep)
    decreases |x|
  {
    if x == [] {
      assert x + y == y;
    } else {
      var s := x + y;
      assert s[..1] == x[..1];
      assert s[1..] == x[1..] + y;
      ReplaceAllCharAppend(x[1..], y, c, rep);
      var head := if x[..1] == [c] then rep else [x[0]];
      assert ReplaceAll(s, [c], rep) == head + ReplaceAll(x[1..] + y, [c], rep);
      assert ReplaceAll(x, [c], rep) == head + ReplaceAll(x[1..], [c], rep);
    }
  }

  /** The characters JavaScript's `trim` family removes: WhiteSpace and LineTerminator. */
  predicate IsJsSpace(c: char) {
    c == '\t' || c == '\n' || c == '\U{000B}' || c == '\U{000C}' || c == '\r' || c == ' '
    || c == '\U{00A0}' || c == '\U{1680}' || ('\U{2000}' <= c <= '\U{200A}')
    || c == '\U{2028}' || c == '\U{2029}' || c == '\U{202F}' || c == '\U{205F}'
    || c == '\U{3000}' || c == '\U{FEFF}'
  }

  /** The characters Python's `str.isspace` accepts, which `lstrip()` removes. */
  predicate IsPySpace(c: char) {
    ('\t' <= c <= '\r') || ('\U{001C}' <= c <= '\U{001F}') || c == ' ' || c == '\U{0085}'
    || c == '\U{00A0}' || c == '\U{1680}' || ('\U{2000}' <= c <= '\U{200A}')
    || c == '\U{2028}' || c == '\U{2029}' || c == '\U{202F}' || c == '\U{205F}'
    || c == '\U{3000}'
  }

  /** Every character of `s` is JavaScript whitespace. */
  predicate IsJsBlank(s: string) {
    forall i :: 0 <= i < |s| ==> IsJsSpace(s[i])
  }

  /** JavaScript `trimStart`: `s` is some whitespace followed by the result. */
  function TrimStart(s: string): (r: string)
    ensures |r| <= |s| && r == s[|s| - |r|..]
    ensures IsJsBlank(s[..|s| - |r|])
    ensures r == [] || !IsJsSpace(r[0])
  {
    if s != [] && IsJsSpace(s[0]) then TrimStart(s[1..]) else s
  }

  /** JavaScript `trimEnd`: the result followed by some whitespace is `s`. */
  function TrimEnd(s: string): (r: string)
    ensures |r| <= |s| && r == s[..|r|]
    ensures IsJsBlank(s[|r|..])
    ensures r == [] || !IsJsSpace(r[|r| - 1])
  {
    if s != [] && IsJsSpace(s[|s| - 1]) then
      var r := TrimEnd(s[..|s| - 1]);
      SuffixThroughLast(s, |r|);
      r
    else s
  }

  /** The suffix of `s` from `k` is the suffix of `s` without its last character, then that character. */
  lemma SuffixThroughLast(s: string, k: nat)
    requires k < |s|
    ensures s[k..] == s[..|s| - 1][k..] + [s[|s| - 1]]
  {
  }

  /** JavaScript `trim`. */
  function Trim(s: string): string {
    TrimEnd(TrimStart(s))
  }

  /** `trim` keeps a window of the input whose two sides are all whitespace. */
  lemma TrimWindow(s: string) returns (i: nat)
    ensures i + |Trim(s)| <= |s| && s[i..i + |Trim(s)|] == Trim(s)
    ensures IsJsBlank(s[..i]) && IsJsBlank(s[i + |Trim(s)|..])
    ensures Trim(s) == [] || (!IsJsSpace(Trim(s)[0]) && !IsJsSpace(Trim(s)[|Trim(s)| - 1]))
  {
    i := TrimParts(s, TrimStart(s), Trim(s));
  }

  /** The two halves of `trim`, put together: `t` drops leading and `r` trailing whitespace. */
  lemma TrimParts(s: string, t: string, r: string) returns (i: nat)
    requires |t| <= |s| && t == s[|s| - |t|..] && IsJsBlank(s[..|s| - |t|])
    requires t == [] || !IsJsSpace(t[0])
    requires |r| <= |t| && r == t[..|r|] && IsJsBlank(t[|r|..])
    requires r == [] || !IsJsSpace(r[|r| - 1])
    ensures i + |r| <= |s| && s[i..i + |r|] == r
    ensures IsJsBlank(s[..i]) && IsJsBlank(s[i + |r|..])
    ensures r == [] || (!IsJsSpace(r[0]) && !IsJsSpace(r[|r| - 1]))
  {
    i := |s| - |t|;
    WindowOf(s, t, r, i);
    NonSpaceEnds(t, r);
  }

  /** A prefix of `t` that ends in a non-space starts where `t` does. */
  lemma NonSpaceEnds(t: string, r: string)
    requires t == [] || !IsJsSpace(t[0])
    requires |r| <= |t| && r == t[..|r|]
    requires r == [] || !IsJsSpace(r[|r| - 1])
    ensures r == [] || (!IsJsSpace(r[0]) && !IsJsSpace(r[|r| - 1]))
  {
    if r != [] {
      assert r[0] == t[0];
    }
  }

  /** A prefix `r` of the suffix `t == s[i..]` is the window of `s` at `i`. */
  lemma WindowOf(s: string, t: string, r: string, i: nat)
    requires i <= |s| && t == s[i..] && |r| <= |t| && r == t[..|r|]
    ensures i + |r| <= |s| && s[i..i + |r|] == r && s[i + |r|..] == t[|r|..]
  {
  }

  /** A string trims to `""` exactly when it consists of whitespace only. */
  lemma TrimEmptyIff(s: string)
    ensures Trim(s) == [] <==> IsJsBlank(s)
  {
    var t := TrimStart(s);
    if Trim(s) == [] {
      assert IsJsBlank(t[0..]);
      assert t[0..] == t;
      assert |t| == 0;
      forall i | 0 <= i < |s| ensures IsJsSpace(s[i]) {
        assert s[i] == s[..|s| - |t|][i];
      }
    } else if t != [] {
      assert !IsJsSpace(t[0]);
      assert s[|s| - |t|] == t[0];
    }
  }

  /** Python `str.lstrip()` with no argument. */
  function PyLstrip(s: string): (r: string)
    ensures |r| <= |s| && r == s[|s| - |r|..]
    ensures forall i :: 0 <= i < |s| - |r| ==> IsPySpace(s[i])
    ensures r == [] || !IsPySpace(r[0])
  {
    if s != [] && IsPySpace(s[0]) then PyLstrip(s[1..]) else s
  }

  /** The decimal digit for `d`. */
  function Digit(d: nat): char
    requires d < 10
  {
    "0123456789"[d]
  }

  /** The value of a decimal digit character. */
  function DigitValue(c: char): nat {
    if '0' <= c <= '9' then (c as int - '0' as int) as nat else 0
  }

  /** How a number appears in a JavaScript template string: its decimal digits. */
  function DecimalString(n: nat): (r: string)
    ensures |r| > 0
    ensures forall i :: 0 <= i < |r| ==> '0' <= r[i] <= '9'
  {
    if n < 10 then [Digit(n)] else DecimalString(n / 10) + [Digit(n % 10)]
  }

  /** Reads a string of decimal digits back as a number. */
  function DecimalValue(s: string): nat {
    if s == [] then 0 else DecimalValue(s[..|s| - 1]) * 10 + DigitValue(s[|s| - 1])
  }

  /** The decimal rendering of a number can be read back. */
  lemma {:induction false} DecimalRoundTrip(n: nat)
    ensures DecimalValue(DecimalString(n)) == n
  {
    if n >= 10 {
      DecimalRoundTrip(n / 10);
      var s := DecimalString(n);
      assert s[..|s| - 1] == DecimalString(n / 10);
    }
  }
}
