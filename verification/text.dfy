/** The Python string primitives the agent leans on (`strip`, `lstrip`,
    `lower`, `startswith`, `in`, `replace(p, "")`, `split()`), each stated by
    what it keeps and what it removes. */
module Text {

  /** Python's whitespace (`str.isspace`), by code point: the set `strip()` and
      `split()` use when called without arguments. */
  predicate IsSpace(c: char) {
    var n := c as int;
    || n == 32
    || 9 <= n <= 13
    || 28 <= n <= 31
    || n == 0x85
    || n == 0xA0
    || n == 0x1680
    || 0x2000 <= n <= 0x200A
    || n == 0x2028
    || n == 0x2029
    || n == 0x202F
    || n == 0x205F
    || n == 0x3000
  }

  predicate IsBlank(s: string) {
    forall i :: 0 <= i < |s| ==> IsSpace(s[i])
  }

  predicate NoSpace(s: string) {
    forall i :: 0 <= i < |s| ==> !IsSpace(s[i])
  }

  /** `p` starts `s` (`s.startswith(p)` on strings). */
  predicate IsPrefix<T(==)>(p: seq<T>, s: seq<T>) {
    |p| <= |s| && s[..|p|] == p
  }

  /** `t` ends `s` (`s.endswith(t)` on strings). */
  predicate IsSuffix<T(==)>(t: seq<T>, s: seq<T>) {
    |t| <= |s| && s[|s| - |t|..] == t
  }

  lemma SuffixTransitive<T>(a: seq<T>, b: seq<T>, c: seq<T>)
    requires IsSuffix(a, b) && IsSuffix(b, c)
    ensures IsSuffix(a, c)
  {
    assert c[|c| - |a|..] == c[|c| - |b|..][|b| - |a|..];
  }

  /** `s.lstrip()`: drops the leading whitespace and nothing else. */
  function LStrip(s: string): (r: string)
    ensures IsSuffix(r, s)
    ensures IsBlank(s[..|s| - |r|])
    ensures r == [] || !IsSpace(r[0])
  {
    if |s| > 0 && IsSpace(s[0]) then
      var r := LStrip(s[1..]);
      assert s[..|s| - |r|] == [s[0]] + s[1..][..|s| - 1 - |r|];
      r
    else s
  }

  /** `s.rstrip()`: drops the trailing whitespace and nothing else. */
  function RStrip(s: string): (r: string)
    ensures IsPrefix(r, s)
    ensures IsBlank(s[|r|..])
    ensures r == [] || !IsSpace(r[|r| - 1])
  {
    if |s| > 0 && IsSpace(s[|s| - 1]) then
      var r := RStrip(s[..|s| - 1]);
      assert s[|r|..] == s[..|s| - 1][|r|..] + [s[|s| - 1]];
      r
    else s
  }

  /** `s.strip()`: the text between the leading and the trailing whitespace. */
  function Strip(s: string): (r: string)
    ensures |r| <= |s|
    ensures r == [] <==> IsBlank(s)
    ensures r == [] || (!IsSpace(r[0]) && !IsSpace(r[|r| - 1]))
    ensures s == [] || (!IsSpace(s[0]) && !IsSpace(s[|s| - 1])) ==> r == s
  {
    var l := LStrip(s);
    var r := RStrip(l);
    assert l == [] ==> s[..|s| - |l|] == s;
    r
  }

  lemma StripIsBoth(s: string)
    ensures Strip(s) == RStrip(LStrip(s))
  {
  }

  lemma StripOfTrimmed(s: string)
    requires |s| > 0 && !IsSpace(s[0]) && !IsSpace(s[|s| - 1])
    ensures Strip(s) == s
  {
  }

  /** `lstrip` stops at the first non-space character, so it never reaches
      past `a` when `b` starts with one. */
  lemma {:induction false} LStripConcat(a: string, b: string)
    requires b != [] && !IsSpace(b[0])
    ensures LStrip(a + b) == LStrip(a) + b
    decreases |a|
  {
    if a != [] && IsSpace(a[0]) {
      assert (a + b)[1..] == a[1..] + b;
      LStripConcat(a[1..], b);
    } else if a == [] {
      assert a + b == b;
    }
  }

  /** `rstrip` stops at the last non-space character, so it never reaches
      before `b` when `a` ends with one. */
  lemma {:induction false} RStripConcat(a: string, b: string)
    requires a != [] && !IsSpace(a[|a| - 1])
    ensures RStrip(a + b) == a + RStrip(b)
    decreases |b|
  {
    if b != [] && IsSpace(b[|b| - 1]) {
      assert (a + b)[..|a + b| - 1] == a + b[..|b| - 1];
      RStripConcat(a, b[..|b| - 1]);
    } else if b == [] {
      assert a + b == a;
    }
  }

  lemma RStripOfBlank(s: string)
    requires IsBlank(s)
    ensures RStrip(s) == []
  {
  }

  lemma LStripOfBlank(s: string)
    requires IsBlank(s)
    ensures LStrip(s) == []
  {
  }

  /** `lstrip` never reaches past a non-space character of `a`. */
  lemma {:induction false} LStripBeforeRest(a: string, b: string)
    requires !IsBlank(a)
    ensures LStrip(a + b) == LStrip(a) + b
    decreases |a|
  {
    if IsSpace(a[0]) {
      assert (a + b)[1..] == a[1..] + b;
      LStripBeforeRest(a[1..], b);
    }
  }

  /** A trailing space does not change what `strip` keeps. */
  lemma StripDropsLastSpace(a: string, c: char)
    requires IsSpace(c)
    ensures Strip(a + [c]) == Strip(a)
  {
    if IsBlank(a) {
      assert IsBlank(a + [c]);
    } else {
      LStripBeforeRest(a, [c]);
      var l := LStrip(a);
      assert (l + [c])[..|l|] == l;
    }
  }

  /** Stripping after `rstrip` is stripping: the trailing whitespace `rstrip`
      removes is removed by `strip` anyway. */
  lemma {:induction false} StripOfRStrip(s: string)
    ensures Strip(RStrip(s)) == Strip(s)
    decreases |s|
  {
    if |s| > 0 && IsSpace(s[|s| - 1]) {
      var s', c := s[..|s| - 1], s[|s| - 1];
      assert s == s' + [c];
      StripOfRStrip(s');
      StripDropsLastSpace(s', c);
    }
  }

  /** `s.lstrip(c)` for a single character `c`. */
  function LStripChar(s: string, c: char): (r: string)
    ensures IsSuffix(r, s)
    ensures r == [] || r[0] != c
    ensures forall i :: 0 <= i < |s| - |r| ==> s[i] == c
  {
    if |s| > 0 && s[0] == c then LStripChar(s[1..], c) else s
  }

  predicate IsUpper(c: char) {
    'A' <= c <= 'Z'
  }

  predicate NoUpper(s: string) {
    forall i :: 0 <= i < |s| ==> !IsUpper(s[i])
  }

  function LowerChar(c: char): (d: char)
    ensures !IsUpper(d)
    ensures !IsUpper(c) ==> d == c
  {
    if IsUpper(c) then (c as int + 32) as char else c
  }

  /** `s.lower()`, restricted to ASCII letters. */
  function Lower(s: string): (r: string)
    ensures |r| == |s| && NoUpper(r)
    ensures forall i :: 0 <= i < |s| ==> r[i] == LowerChar(s[i])
  {
    seq(|s|, i requires 0 <= i < |s| => LowerChar(s[i]))
  }

  lemma LowerOfLower(s: string)
    requires NoUpper(s)
    ensures Lower(s) == s
  {
  }

  /** Whether `p` occurs somewhere in `s` (the substring test). */
  predicate Contains(s: string, p: string)
    decreases |s|
  {
    IsPrefix(p, s) || (|s| > 0 && Contains(s[1..], p))
  }

  /** `s.replace(p, "")`: every occurrence of `p`, found left to right without
      overlap, is removed. */
  function RemoveAll(s: string, p: string): (r: string)
    requires |p| > 0
    ensures |r| <= |s|
    ensures !Contains(s, p) ==> r == s
    ensures Contains(s, p) ==> |r| <= |s| - |p|
    ensures forall i :: 0 <= i < |r| ==> r[i] in s
    decreases |s|
  {
    if |s| == 0 then s
    else if IsPrefix(p, s) then RemoveAll(s[|p|..], p)
    else [s[0]] + RemoveAll(s[1..], p)
  }

  /** A pattern that occurs in `x + p` only as its tail is removed exactly
      once, leaving `x`. */
  lemma {:induction false} RemoveAllAtEnd(x: string, p: string)
    requires |p| > 0
    requires forall k :: 0 <= k < |x| ==> !IsPrefix(p, (x + p)[k..])
    ensures RemoveAll(x + p, p) == x
    decreases |x|
  {
    var s := x + p;
    if x == [] {
      assert s == p && s[|p|..] == [];
    } else {
      assert s[0..] == s && !IsPrefix(p, s);
      var t := x[1..];
      assert s[1..] == t + p;
      forall k | 0 <= k < |t|
        ensures !IsPrefix(p, (t + p)[k..])
      {
        assert (t + p)[k..] == s[k + 1..];
      }
      RemoveAllAtEnd(t, p);
      assert [x[0]] + t == x;
    }
  }

  /** Lower-casing works character by character, so it distributes over
      concatenation. */
  lemma LowerConcat(a: string, b: string)
    ensures Lower(a + b) == Lower(a) + Lower(b)
  {
  }

  /** The longest prefix of `t` free of whitespace. */
  function TakeWord(t: string): (w: string)
    ensures IsPrefix(w, t) && NoSpace(w)
    ensures |w| == |t| || IsSpace(t[|w|])
  {
    if |t| == 0 || IsSpace(t[0]) then [] else [t[0]] + TakeWord(t[1..])
  }

  /** `s.split()`: the maximal whitespace-free pieces of `s`, in order. */
  function Words(s: string): (ws: seq<string>)
    ensures forall i :: 0 <= i < |ws| ==> ws[i] != [] && NoSpace(ws[i])
    decreases |s|
  {
    var t := LStrip(s);
    if t == [] then []
    else
      var w := TakeWord(t);
      [w] + Words(t[|w|..])
  }
}
