/** How a task gets its folder and its screenshots their file names: the app
    mention is dropped from the question, the rest is slugged, a numeric suffix
    makes the folder new, and every frame carries the next sequence number. */
module Naming {
  import opened Text
  import opened Numerals
  import opened Slugs

  /** The prepositions after which an app mention is removed, in the order tried. */
  const Prepositions: seq<string> := [" in ", " to ", " on ", " using ", " from ", " at ", " with "]

  function Patterns(app: string): (ps: seq<string>)
    ensures |ps| == |Prepositions|
    ensures forall i :: 0 <= i < |ps| ==> |ps[i]| > 0
  {
    seq(|Prepositions|, i requires 0 <= i < |Prepositions| => Prepositions[i] + app)
  }

  /** Each pattern in turn, every occurrence removed when it occurs at all. */
  function RemoveEach(s: string, pats: seq<string>): (r: string)
    requires forall i :: 0 <= i < |pats| ==> |pats[i]| > 0
    ensures |r| <= |s|
    ensures forall i :: 0 <= i < |r| ==> r[i] in s
    ensures (forall i :: 0 <= i < |pats| ==> !Contains(s, pats[i])) ==> r == s
    decreases |pats|
  {
    if pats == [] then s
    else
      var s' := if Contains(s, pats[0]) then RemoveAll(s, pats[0]) else s;
      var r := RemoveEach(s', pats[1..]);
      assert forall i :: 0 <= i < |r| ==> r[i] in s by {
        forall i | 0 <= i < |r|
          ensures r[i] in s
        {
          var k :| 0 <= k < |s'| && s'[k] == r[i];
        }
      }
      r
  }

  /** A bare trailing " <app>" is cut off, with the whitespace before it.
      Python's `cleaned[:-0]` is empty, so an empty app name cuts everything. */
  function DropTrailingApp(cleaned: string, app: string): (r: string)
    ensures |r| <= |cleaned|
    ensures forall i :: 0 <= i < |r| ==> r[i] in cleaned
    ensures !IsSuffix(" " + app, cleaned) ==> r == cleaned
  {
    if IsSuffix(" " + app, cleaned) then
      var cut := if |app| == 0 then [] else cleaned[..|cleaned| - |app|];
      var r := RStrip(cut);
      assert forall i :: 0 <= i < |r| ==> r[i] == cut[i];
      r
    else cleaned
  }

  /** The question without its prepositional app mentions, lower-cased and
      stripped; the original question when nothing would be left. */
  function RemoveAppName(question: string, app: string): (r: string)
    ensures r == [] <==> question == []
    ensures r != question ==> NoUpper(r) && r == Strip(r) && |r| <= |question|
  {
    var q := Lower(question);
    var a := Lower(app);
    var cleaned := DropTrailingApp(RemoveEach(q, Patterns(a)), a);
    var s := Strip(cleaned);
    assert NoUpper(s) by {
      forall i | 0 <= i < |s|
        ensures !IsUpper(s[i])
      {
        var k :| 0 <= k < |q| && q[k] == s[i];
      }
    }
    if s == [] then question else s
  }

  /** The lower-cased question mentions the app in none of the recognised
      ways, and is not blank. */
  predicate MentionFree(question: string, app: string) {
    && (forall i :: 0 <= i < |Prepositions| ==> !Contains(Lower(question), Prepositions[i] + Lower(app)))
    && !IsSuffix(" " + Lower(app), Lower(question))
    && !IsBlank(question)
  }

  /** Lower-casing keeps a non-blank string non-blank. */
  lemma LowerNotBlank(s: string)
    requires !IsBlank(s)
    ensures !IsBlank(Lower(s))
  {
    var k :| 0 <= k < |s| && !IsSpace(s[k]);
    assert Lower(s)[k] == LowerChar(s[k]);
  }

  /** When the question mentions the app in none of the recognised ways, only
      lower-casing and stripping happen. */
  lemma NoMentionOnlyNormalizes(question: string, app: string)
    requires MentionFree(question, app)
    ensures RemoveAppName(question, app) == Strip(Lower(question))
  {
    var q := Lower(question);
    var pats := Patterns(Lower(app));
    assert forall i :: 0 <= i < |pats| ==> !Contains(q, pats[i]) by {
      forall i | 0 <= i < |pats|
        ensures !Contains(q, pats[i])
      {
        assert pats[i] == Prepositions[i] + Lower(app);
      }
    }
    LowerNotBlank(question);
  }

  /** `RemoveEach` removes the one pattern that occurs, when it occurs only as
      the tail, and leaves the rest alone. */
  lemma {:induction false} RemoveEachOne(x: string, pats: seq<string>, i: nat)
    requires forall j :: 0 <= j < |pats| ==> |pats[j]| > 0
    requires i < |pats|
    requires forall j :: 0 <= j < i ==> !Contains(x + pats[i], pats[j])
    requires forall k :: 0 <= k < |x| ==> !IsPrefix(pats[i], (x + pats[i])[k..])
    requires forall j :: i < j < |pats| ==> !Contains(x, pats[j])
    ensures RemoveEach(x + pats[i], pats) == x
    decreases i
  {
    var s := x + pats[i];
    var rest := pats[1..];
    if i == 0 {
      RemoveAllAtEnd(x, pats[0]);
      assert forall j :: 0 <= j < |rest| ==> !Contains(x, rest[j]) by {
        forall j | 0 <= j < |rest|
          ensures !Contains(x, rest[j])
        {
          assert rest[j] == pats[j + 1];
        }
      }
    } else {
      assert !Contains(s, pats[0]);
      assert rest[i - 1] == pats[i];
      forall j | 0 <= j < i - 1
        ensures !Contains(x + rest[i - 1], rest[j])
      {
        assert rest[j] == pats[j + 1];
      }
      forall j | i - 1 < j < |rest|
        ensures !Contains(x, rest[j])
      {
        assert rest[j] == pats[j + 1];
      }
      RemoveEachOne(x, rest, i - 1);
    }
  }

  /** The app named after the `i`-th preposition at the very end of a
      question that otherwise never mentions it is removed, and what is left
      is the rest of the question, lower-cased and stripped. */
  lemma MentionRemoved(p: string, app: string, i: nat)
    requires i < |Prepositions|
    requires MentionFree(p, app)
    requires forall j :: 0 <= j < i ==> !Contains(Lower(p) + Prepositions[i] + Lower(app), Prepositions[j] + Lower(app))
    requires forall k :: 0 <= k < |p| ==>
      !IsPrefix(Prepositions[i] + Lower(app), (Lower(p) + Prepositions[i] + Lower(app))[k..])
    ensures RemoveAppName(p + Prepositions[i] + app, app) == Strip(Lower(p))
  {
    var a := Lower(app);
    var x := Lower(p);
    var pats := Patterns(a);
    var prep := Prepositions[i];
    LowerConcat(p + prep, app);
    LowerConcat(p, prep);
    assert Lower(prep) == prep;
    assert Lower(p + prep + app) == x + pats[i];
    forall j | 0 <= j < i
      ensures !Contains(x + pats[i], pats[j])
    {
      assert pats[j] == Prepositions[j] + a;
    }
    forall j | i < j < |pats|
      ensures !Contains(x, pats[j])
    {
      assert pats[j] == Prepositions[j] + a;
    }
    RemoveEachOne(x, pats, i);
    LowerNotBlank(p);
  }

  /** A question that ends in a bare ` <app>` and otherwise never mentions
      the app after a preposition loses that ending: what is left is the
      rest of the question, lower-cased and stripped. */
  lemma TrailingAppRemoved(p: string, app: string)
    requires app != [] && !IsBlank(p)
    requires forall i :: 0 <= i < |Prepositions| ==> !Contains(Lower(p + " " + app), Prepositions[i] + Lower(app))
    ensures RemoveAppName(p + " " + app, app) == Strip(Lower(p))
  {
    var a := Lower(app);
    var x := Lower(p);
    var q := x + " " + a;
    LowerConcat(p + " ", app);
    LowerConcat(p, " ");
    assert Lower(" ") == " ";
    assert Lower(p + " " + app) == q;
    var pats := Patterns(a);
    forall i | 0 <= i < |pats|
      ensures !Contains(q, pats[i])
    {
      assert pats[i] == Prepositions[i] + a;
    }
    assert RemoveEach(q, pats) == q;
    assert q[|q| - |" " + a|..] == " " + a;
    assert q[..|q| - |a|] == x + " ";
    assert DropTrailingApp(q, a) == RStrip(x + " ");
    assert (x + " ")[..|x|] == x;
    assert RStrip(x + " ") == RStrip(x);
    StripOfRStrip(x);
    LowerNotBlank(p);
  }

  /** The folder name of a task: the slug of the question without its app
      mention, or `task` when that slug is empty. */
  function TaskSlug(question: string, app: string): (r: string)
    ensures r != [] && |r| <= MaxSlugLength && IsSlugShaped(r)
    ensures question == [] ==> r == "task"
    ensures question != [] ==> r == Slug(RemoveAppName(question, app))
  {
    var s := Slug(RemoveAppName(question, app));
    if s == [] then "task" else s
  }

  /** The `i`-th alternative folder name: the base, an underscore and `i`
      in decimal. */
  function Suffixed(base: string, i: nat): string {
    base + "_" + NatToString(i)
  }

  lemma SuffixedInjective(base: string, i: nat, j: nat)
    requires Suffixed(base, i) == Suffixed(base, j)
    ensures i == j
  {
    assert Suffixed(base, i)[|base| + 1..] == NatToString(i);
    assert Suffixed(base, j)[|base| + 1..] == NatToString(j);
    NatToStringInjective(i, j);
  }

  /** The task folder: `base` itself when it is free, otherwise `base_i` for the
      least `i >= 1` that is free. Finiteness of the existing folders is what
      makes the search stop. */
  method UniqueFolder(existing: set<string>, base: string) returns (name: string)
    ensures name !in existing
    ensures base !in existing ==> name == base
    ensures base in existing ==>
      exists i :: i >= 1 && name == Suffixed(base, i)
        && forall j :: 1 <= j < i ==> Suffixed(base, j) in existing
  {
    if base !in existing {
      return base;
    }
    var i := 1;
    ghost var seen: set<string> := {};
    while Suffixed(base, i) in existing
      invariant i >= 1
      invariant seen <= existing
      invariant |seen| == i - 1
      invariant forall j :: 1 <= j < i ==> Suffixed(base, j) in existing
      invariant forall x :: x in seen ==> exists j :: 1 <= j < i && x == Suffixed(base, j)
      decreases existing - seen
    {
      var next := Suffixed(base, i);
      assert next !in seen by {
        if next in seen {
          var j :| 1 <= j < i && next == Suffixed(base, j);
          SuffixedInjective(base, i, j);
        }
      }
      seen := seen + {next};
      i := i + 1;
    }
    name := Suffixed(base, i);
  }

  /** The file name of screenshot number `n`: the number padded to at least
      two digits, an underscore, the label and `.png`. */
  function SnapName(n: nat, frameLabel: string): string {
    Pad2(n) + ("_" + frameLabel + ".png")
  }

  lemma SeparatorAt(d: string, r: string, k: int)
    requires AllDigits(d) && r != [] && r[0] == '_' && 0 <= k <= |d|
    ensures (d + r)[k] == '_' <==> k == |d|
  {
  }

  /** In a digit string followed by `_`, the `_` marks where the digits end. */
  lemma DigitsBeforeSeparator(d1: string, r1: string, d2: string, r2: string)
    requires AllDigits(d1) && AllDigits(d2)
    requires r1 != [] && r1[0] == '_' && r2 != [] && r2[0] == '_'
    requires d1 + r1 == d2 + r2
    ensures d1 == d2
  {
    var s := d1 + r1;
    if |d1| < |d2| {
      SeparatorAt(d1, r1, |d1|);
      SeparatorAt(d2, r2, |d1|);
      assert false;
    } else if |d2| < |d1| {
      SeparatorAt(d1, r1, |d2|);
      SeparatorAt(d2, r2, |d2|);
      assert false;
    }
    assert d1 == s[..|d1|];
  }

  /** The label sits between the separator and the extension. */
  lemma LabelOfName(d: string, l: string)
    ensures var s := d + ("_" + l + ".png"); |d| + 1 <= |s| - 4 && s[|d| + 1..|s| - 4] == l
  {
    var s := d + ("_" + l + ".png");
    assert s[|d| + 1..|s| - 4] == ("_" + l + ".png")[1..|l| + 1];
  }

  /** A frame's file name gives back its sequence number and its label, so
      frames with distinct numbers never overwrite each other. */
  lemma SnapNameInjective(a: nat, la: string, b: nat, lb: string)
    requires SnapName(a, la) == SnapName(b, lb)
    ensures a == b && la == lb
  {
    var da, db := Pad2(a), Pad2(b);
    var ra, rb := "_" + la + ".png", "_" + lb + ".png";
    assert ra[0] == '_' && rb[0] == '_';
    DigitsBeforeSeparator(da, ra, db, rb);
    assert a == b by {
      assert StringToNat(da) == a && StringToNat(db) == b;
    }
    LabelOfName(da, la);
    LabelOfName(db, lb);
  }
}
