/** `_slug`: lower-case the text, turn every maximal run of characters outside
    `[a-z0-9]` into a single `_`, keep the first 45 characters. */
module Slugs {
  import opened Text

  const MaxSlugLength: nat := 45

  predicate IsSlugAlnum(c: char) {
    'a' <= c <= 'z' || '0' <= c <= '9'
  }

  predicate IsSlugChar(c: char) {
    IsSlugAlnum(c) || c == '_'
  }

  predicate NoDoubleUnderscore(s: string) {
    forall i :: 0 <= i < |s| - 1 ==> s[i] != '_' || s[i + 1] != '_'
  }

  /** The shape every slug has: only `[a-z0-9_]`, never `__`. */
  predicate IsSlugShaped(s: string) {
    (forall i :: 0 <= i < |s| ==> IsSlugChar(s[i])) && NoDoubleUnderscore(s)
  }

  /** The characters of `s` that the pattern `[^a-z0-9]+` does not touch. */
  function Alnums(s: string): (r: string)
    ensures |r| <= |s|
  {
    if s == [] then []
    else if IsSlugAlnum(s[0]) then [s[0]] + Alnums(s[1..])
    else Alnums(s[1..])
  }

  /** Drops the run of characters outside `[a-z0-9]` that starts `s`. */
  function DropRun(s: string): (r: string)
    ensures IsSuffix(r, s)
    ensures r == [] || IsSlugAlnum(r[0])
    ensures Alnums(r) == Alnums(s)
  {
    if |s| > 0 && !IsSlugAlnum(s[0]) then DropRun(s[1..]) else s
  }

  /** Every maximal run of characters other than lower-case ASCII letters
      and digits becomes a single underscore. */
  function Collapse(s: string): (r: string)
    ensures |r| <= |s|
    ensures r == [] <==> s == []
    ensures s != [] ==> (r[0] == '_' <==> !IsSlugAlnum(s[0]))
    ensures IsSlugShaped(r)
    decreases |s|
  {
    if s == [] then []
    else if IsSlugAlnum(s[0]) then [s[0]] + Collapse(s[1..])
    else "_" + Collapse(DropRun(s))
  }

  function Slug(s: string): (r: string)
    ensures |r| <= MaxSlugLength
    ensures IsSlugShaped(r)
    ensures r == [] <==> s == []
    ensures IsPrefix(r, Collapse(Lower(s)))
    ensures |r| == if |Collapse(Lower(s))| <= MaxSlugLength then |Collapse(Lower(s))| else MaxSlugLength
  {
    var c := Collapse(Lower(s));
    if |c| <= MaxSlugLength then c else c[..MaxSlugLength]
  }

  /** The pattern keeps every letter and digit, in order, and nothing else. */
  lemma {:induction false} CollapseKeepsAlnums(s: string)
    ensures Alnums(Collapse(s)) == Alnums(s)
    decreases |s|
  {
    if s != [] {
      if IsSlugAlnum(s[0]) {
        CollapseKeepsAlnums(s[1..]);
        assert ([s[0]] + Collapse(s[1..]))[1..] == Collapse(s[1..]);
      } else {
        var d := DropRun(s);
        CollapseKeepsAlnums(d);
        assert ("_" + Collapse(d))[1..] == Collapse(d);
      }
    }
  }

  /** A string already in slug shape is a fixed point of the substitution. */
  lemma {:induction false} CollapseOfShaped(s: string)
    requires IsSlugShaped(s)
    ensures Collapse(s) == s
    decreases |s|
  {
    if s != [] {
      assert IsSlugShaped(s[1..]);
      if IsSlugAlnum(s[0]) {
        CollapseOfShaped(s[1..]);
      } else {
        assert DropRun(s) == s[1..] by {
          if |s| > 1 {
            assert s[1] != '_';
            assert DropRun(s) == DropRun(s[1..]);
          }
        }
        CollapseOfShaped(s[1..]);
      }
    }
  }

  /** Slugging a slug changes nothing. */
  lemma SlugIdempotent(s: string)
    ensures Slug(Slug(s)) == Slug(s)
  {
    var r := Slug(s);
    LowerOfLower(r);
    CollapseOfShaped(r);
  }

  /** When the substituted text fits in 45 characters, the slug keeps exactly the
      letters and digits of the lower-cased input. */
  lemma SlugKeepsAlnums(s: string)
    requires |Collapse(Lower(s))| <= MaxSlugLength
    ensures Alnums(Slug(s)) == Alnums(Lower(s))
  {
    CollapseKeepsAlnums(Lower(s));
  }
}
