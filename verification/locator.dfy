/** Turning an action's locator into a page query (`_do_action`, before the
    per-type branches). The page is abstract: a match count and a visibility
    flag per query. */
module Locators {
  import opened Wrappers
  import opened Text

  /** The queries the resolution can build. */
  datatype Query =
    | RoleNamed(role: string, name: string, exact: bool)  // get_by_role(role, name=..., exact=...)
    | RoleWithText(role: string, word: string)            // get_by_role(role).filter(has_text=word).first
    | RoleAny(role: string)                               // get_by_role(role)
    | Css(selector: string)                               // page.locator(selector)
    | Label(text: string)                                 // get_by_label(text)
    | Placeholder(text: string)                           // get_by_placeholder(text)
    | TextMatch(text: string)                             // get_by_text(text)
    | ClickableIn(row: Query)                             // first link or button inside a row
    | Nth(base: Query, index: nat)                        // base.nth(index)
    | FirstOf(base: Query)                                // base.first
    | BlankEditables                                      // editable elements without text (the fill fallback)

  /** What the resolution may ask of the page. `count` is not bound to 1 on
      a query that picks one element (`.first`, `.nth`); where more than one
      match matters, `Matches` caps it as Playwright does, and elsewhere such
      a count is only tested against 0. */
  datatype Page = Page(count: Query -> nat, visible: Query -> bool)

  /** The locator keys the branches test. */
  datatype Key = RoleKey | AriaLabelKey | PlaceholderKey | IdKey | NameKey | TextKey | SelectorKey {
    function Name(): string {
      match this
      case RoleKey => "role"
      case AriaLabelKey => "aria-label"
      case PlaceholderKey => "placeholder"
      case IdKey => "id"
      case NameKey => "name"
      case TextKey => "text"
      case SelectorKey => "selector"
    }

    /** Keys whose branch also needs a truthy value; the others need presence only. */
    predicate NeedsValue() {
      AriaLabelKey? || PlaceholderKey? || IdKey? || NameKey?
    }
  }

  /** The keys in the order the branches test them. */
  const PriorityKeys: seq<Key> := [RoleKey, AriaLabelKey, PlaceholderKey, IdKey, NameKey, TextKey, SelectorKey]

  predicate Applies(loc: map<string, string>, k: Key) {
    k.Name() in loc && (k.NeedsValue() ==> loc[k.Name()] != [])
  }

  /** The branch taken, with the value it hands on. */
  datatype Strategy =
    | ByRole(role: string)
    | ByLabel(labelText: string)
    | ByPlaceholder(placeholder: string)
    | ById(id: string)
    | ByName(name: string)
    | ByText(text: string)
    | BySelector(selector: string)
    | Unknown

  /** The position in `PriorityKeys` of the key a strategy comes from. */
  function Rank(s: Strategy): (n: nat)
    requires !s.Unknown?
    ensures n < |PriorityKeys|
  {
    match s
    case ByRole(_) => 0
    case ByLabel(_) => 1
    case ByPlaceholder(_) => 2
    case ById(_) => 3
    case ByName(_) => 4
    case ByText(_) => 5
    case BySelector(_) => 6
  }

  function Payload(s: Strategy): string
    requires !s.Unknown?
  {
    match s
    case ByRole(v) => v
    case ByLabel(v) => v
    case ByPlaceholder(v) => v
    case ById(v) => v
    case ByName(v) => v
    case ByText(v) => v
    case BySelector(v) => v
  }

  /** The if-chain of `_do_action`. */
  function SelectStrategy(loc: map<string, string>): (s: Strategy)
    ensures s.Unknown? ==> "role" !in loc && "text" !in loc && "selector" !in loc
    ensures s.ByRole? <==> "role" in loc
  {
    if "role" in loc then ByRole(loc["role"])
    else if "aria-label" in loc && loc["aria-label"] != [] then ByLabel(Strip(loc["aria-label"]))
    else if "placeholder" in loc && loc["placeholder"] != [] then ByPlaceholder(Strip(loc["placeholder"]))
    else if "id" in loc && loc["id"] != [] then ById(Strip(loc["id"]))
    else if "name" in loc && loc["name"] != [] then ByName(Strip(loc["name"]))
    else if "text" in loc then ByText(loc["text"])
    else if "selector" in loc then BySelector(loc["selector"])
    else Unknown
  }

  /** The reference reading of the priority table: the index of the first key
      that applies. */
  function FirstApplicable(loc: map<string, string>, keys: seq<Key>): (r: Option<nat>)
    ensures r.None? <==> forall i :: 0 <= i < |keys| ==> !Applies(loc, keys[i])
    ensures r.Some? ==> r.value < |keys| && Applies(loc, keys[r.value])
    ensures r.Some? ==> forall i :: 0 <= i < r.value ==> !Applies(loc, keys[i])
  {
    if keys == [] then None
    else if Applies(loc, keys[0]) then Some(0)
    else match FirstApplicable(loc, keys[1..])
      case None => None
      case Some(i) => Some(i + 1)
  }

  /** The value a key's branch hands on: stripped for the truthy-valued keys,
      as given for the others. */
  function KeyValue(loc: map<string, string>, k: Key): string
    requires k.Name() in loc
  {
    if k.NeedsValue() then Strip(loc[k.Name()]) else loc[k.Name()]
  }

  /** The branch the if-chain takes is the one the priority table names: the
      first key that applies decides it and hands on its value; a locator none
      of whose keys apply is unknown. */
  ghost predicate ChosenByPriority(loc: map<string, string>) {
    var s := SelectStrategy(loc);
    && (s.Unknown? <==> FirstApplicable(loc, PriorityKeys).None?)
    && (!s.Unknown? ==>
        && FirstApplicable(loc, PriorityKeys) == Some(Rank(s))
        && Payload(s) == KeyValue(loc, PriorityKeys[Rank(s)]))
  }

  /** The if-chain is the priority table: the first key that applies decides
      the branch and hands on its value. A locator none of whose keys apply
      (one holding only `css`, say) is unknown. */
  lemma SelectStrategyFollowsPriority(loc: map<string, string>)
    ensures SelectStrategy(loc).Unknown? <==> FirstApplicable(loc, PriorityKeys).None?
    ensures var s := SelectStrategy(loc);
      !s.Unknown? ==>
        && FirstApplicable(loc, PriorityKeys) == Some(Rank(s))
        && Payload(s) == KeyValue(loc, PriorityKeys[Rank(s)])
  {
    if "role" in loc {
      RoleChosen(loc);
    } else if "aria-label" in loc && loc["aria-label"] != [] {
      AriaLabelChosen(loc);
    } else if "placeholder" in loc && loc["placeholder"] != [] {
      PlaceholderChosen(loc);
    } else if "id" in loc && loc["id"] != [] {
      IdChosen(loc);
    } else if "name" in loc && loc["name"] != [] {
      NameChosen(loc);
    } else if "text" in loc {
      TextChosen(loc);
    } else if "selector" in loc {
      SelectorChosen(loc);
    } else {
      NoneChosen(loc);
    }
  }

  lemma RoleChosen(loc: map<string, string>)
    requires "role" in loc
    ensures ChosenByPriority(loc)
  {
    var ks := PriorityKeys;
    FirstApplicableAt(loc, ks, 0);
    assert SelectStrategy(loc) == ByRole(loc["role"]);
    assert RoleKey.Name() == "role";
    assert KeyValue(loc, RoleKey) == loc["role"];
  }

  lemma AriaLabelChosen(loc: map<string, string>)
    requires !("role" in loc)
    requires "aria-label" in loc && loc["aria-label"] != []
    ensures ChosenByPriority(loc)
  {
    var ks := PriorityKeys;
    assert ks[0] == RoleKey && !Applies(loc, RoleKey);
    FirstApplicableAt(loc, ks, 1);
    assert SelectStrategy(loc) == ByLabel(Strip(loc["aria-label"]));
    assert AriaLabelKey.Name() == "aria-label";
    assert KeyValue(loc, AriaLabelKey) == Strip(loc["aria-label"]);
  }

  lemma PlaceholderChosen(loc: map<string, string>)
    requires !("role" in loc)
    requires !("aria-label" in loc && loc["aria-label"] != [])
    requires "placeholder" in loc && loc["placeholder"] != []
    ensures ChosenByPriority(loc)
  {
    var ks := PriorityKeys;
    assert ks[0] == RoleKey && !Applies(loc, RoleKey);
    assert ks[1] == AriaLabelKey && !Applies(loc, AriaLabelKey);
    FirstApplicableAt(loc, ks, 2);
    assert SelectStrategy(loc) == ByPlaceholder(Strip(loc["placeholder"]));
    assert PlaceholderKey.Name() == "placeholder";
    assert KeyValue(loc, PlaceholderKey) == Strip(loc["placeholder"]);
  }

  lemma IdChosen(loc: map<string, string>)
    requires !("role" in loc)
    requires !("aria-label" in loc && loc["aria-label"] != [])
    requires !("placeholder" in loc && loc["placeholder"] != [])
    requires "id" in loc && loc["id"] != []
    ensures ChosenByPriority(loc)
  {
    var ks := PriorityKeys;
    assert ks[0] == RoleKey && !Applies(loc, RoleKey);
    assert ks[1] == AriaLabelKey && !Applies(loc, AriaLabelKey);
    assert ks[2] == PlaceholderKey && !Applies(loc, PlaceholderKey);
    FirstApplicableAt(loc, ks, 3);
    assert SelectStrategy(loc) == ById(Strip(loc["id"]));
    assert IdKey.Name() == "id";
    assert KeyValue(loc, IdKey) == Strip(loc["id"]);
  }

  lemma NameChosen(loc: map<string, string>)
    requires !("role" in loc)
    requires !("aria-label" in loc && loc["aria-label"] != [])
    requires !("placeholder" in loc && loc["placeholder"] != [])
    requires !("id" in loc && loc["id"] != [])
    requires "name" in loc && loc["name"] != []
    ensures ChosenByPriority(loc)
  {
    var ks := PriorityKeys;
    assert ks[0] == RoleKey && !Applies(loc, RoleKey);
    assert ks[1] == AriaLabelKey && !Applies(loc, AriaLabelKey);
    assert ks[2] == PlaceholderKey && !Applies(loc, PlaceholderKey);
    assert ks[3] == IdKey && !Applies(loc, IdKey);
    FirstApplicableAt(loc, ks, 4);
    assert SelectStrategy(loc) == ByName(Strip(loc["name"]));
    assert NameKey.Name() == "name";
    assert KeyValue(loc, NameKey) == Strip(loc["name"]);
  }

  lemma TextChosen(loc: map<string, string>)
    requires !("role" in loc)
    requires !("aria-label" in loc && loc["aria-label"] != [])
    requires !("placeholder" in loc && loc["placeholder"] != [])
    requires !("id" in loc && loc["id"] != [])
    requires !("name" in loc && loc["name"] != [])
    requires "text" in loc
    ensures ChosenByPriority(loc)
  {
    var ks := PriorityKeys;
    assert ks[0] == RoleKey && !Applies(loc, RoleKey);
    assert ks[1] == AriaLabelKey && !Applies(loc, AriaLabelKey);
    assert ks[2] == PlaceholderKey && !Applies(loc, PlaceholderKey);
    assert ks[3] == IdKey && !Applies(loc, IdKey);
    assert ks[4] == NameKey && !Applies(loc, NameKey);
    FirstApplicableAt(loc, ks, 5);
    assert SelectStrategy(loc) == ByText(loc["text"]);
    assert TextKey.Name() == "text";
    assert KeyValue(loc, TextKey) == loc["text"];
  }

  lemma SelectorChosen(loc: map<string, string>)
    requires !("role" in loc)
    requires !("aria-label" in loc && loc["aria-label"] != [])
    requires !("placeholder" in loc && loc["placeholder"] != [])
    requires !("id" in loc && loc["id"] != [])
    requires !("name" in loc && loc["name"] != [])
    requires !("text" in loc)
    requires "selector" in loc
    ensures ChosenByPriority(loc)
  {
    var ks := PriorityKeys;
    assert ks[0] == RoleKey && !Applies(loc, RoleKey);
    assert ks[1] == AriaLabelKey && !Applies(loc, AriaLabelKey);
    assert ks[2] == PlaceholderKey && !Applies(loc, PlaceholderKey);
    assert ks[3] == IdKey && !Applies(loc, IdKey);
    assert ks[4] == NameKey && !Applies(loc, NameKey);
    assert ks[5] == TextKey && !Applies(loc, TextKey);
    FirstApplicableAt(loc, ks, 6);
    assert SelectStrategy(loc) == BySelector(loc["selector"]);
    assert SelectorKey.Name() == "selector";
    assert KeyValue(loc, SelectorKey) == loc["selector"];
  }

  lemma NoneChosen(loc: map<string, string>)
    requires !("role" in loc)
    requires !("aria-label" in loc && loc["aria-label"] != [])
    requires !("placeholder" in loc && loc["placeholder"] != [])
    requires !("id" in loc && loc["id"] != [])
    requires !("name" in loc && loc["name"] != [])
    requires !("text" in loc)
    requires !("selector" in loc)
    ensures ChosenByPriority(loc)
  {
    var ks := PriorityKeys;
    assert ks[0] == RoleKey && !Applies(loc, RoleKey);
    assert ks[1] == AriaLabelKey && !Applies(loc, AriaLabelKey);
    assert ks[2] == PlaceholderKey && !Applies(loc, PlaceholderKey);
    assert ks[3] == IdKey && !Applies(loc, IdKey);
    assert ks[4] == NameKey && !Applies(loc, NameKey);
    assert ks[5] == TextKey && !Applies(loc, TextKey);
    assert ks[6] == SelectorKey && !Applies(loc, SelectorKey);
    assert forall i :: 0 <= i < |ks| ==> !Applies(loc, ks[i]);
  }

  /** A key that applies, with none before it applying, is the first. */
  lemma FirstApplicableAt(loc: map<string, string>, keys: seq<Key>, r: nat)
    requires r < |keys| && Applies(loc, keys[r])
    requires forall i :: 0 <= i < r ==> !Applies(loc, keys[i])
    ensures FirstApplicable(loc, keys) == Some(r)
  {
  }

  /** Keys outside the priority list (`css`, `label`, ...) never choose a branch. */
  lemma OtherKeysIgnored(loc: map<string, string>, k: string, v: string)
    requires forall key: Key :: key.Name() != k
    ensures SelectStrategy(loc[k := v]) == SelectStrategy(loc)
  {
    var l := loc[k := v];
    assert RoleKey.Name() != k && AriaLabelKey.Name() != k && PlaceholderKey.Name() != k;
    assert IdKey.Name() != k && NameKey.Name() != k && TextKey.Name() != k && SelectorKey.Name() != k;
    forall c | c in ["role", "aria-label", "placeholder", "id", "name", "text", "selector"]
      ensures (c in l <==> c in loc) && (c in loc ==> l[c] == loc[c])
    {
    }
  }

  /** `name or text or aria-label or label`: the first truthy one. */
  function NameCandidate(loc: map<string, string>): (r: Option<string>)
    ensures r.Some? ==> r.value != []
    ensures r.None? <==> forall k :: k in {"name", "text", "aria-label", "label"} && k in loc ==> loc[k] == []
    ensures "name" in loc && loc["name"] != [] ==> r == Some(loc["name"])
  {
    if "name" in loc && loc["name"] != [] then Some(loc["name"])
    else if "text" in loc && loc["text"] != [] then Some(loc["text"])
    else if "aria-label" in loc && loc["aria-label"] != [] then Some(loc["aria-label"])
    else if "label" in loc && loc["label"] != [] then Some(loc["label"])
    else None
  }

  /** The partial-match queries, one per word longer than three characters. */
  function WordQueries(role: string, ws: seq<string>): (qs: seq<Query>)
    ensures |qs| <= |ws|
    ensures forall i :: 0 <= i < |qs| ==> qs[i].RoleWithText? && qs[i].role == role && |qs[i].word| > 3
  {
    if ws == [] then []
    else
      var last := ws[|ws| - 1];
      WordQueries(role, ws[..|ws| - 1]) + (if |last| > 3 then [RoleWithText(role, last)] else [])
  }

  lemma {:induction false} WordQueriesPrefix(role: string, ws: seq<string>, j: nat)
    requires j <= |ws|
    ensures IsPrefix(WordQueries(role, ws[..j]), WordQueries(role, ws))
    decreases |ws|
  {
    if j < |ws| {
      var init := ws[..|ws| - 1];
      assert init[..j] == ws[..j];
      WordQueriesPrefix(role, init, j);
    } else {
      assert ws[..j] == ws;
    }
  }

  /** The name-based candidates in the order they are tried: exact name,
      loose name, then one partial match per long word. */
  function Candidates(role: string, name: string): (qs: seq<Query>)
    ensures |qs| >= 2
    ensures forall i :: 0 <= i < |qs| ==> !qs[i].Css?
  {
    [RoleNamed(role, name, true), RoleNamed(role, name, false)] + WordQueries(role, Words(name))
  }

  /** The index of the first query with a match. */
  function FirstHit(count: Query -> nat, qs: seq<Query>): (r: Option<nat>)
    ensures r.None? <==> forall i :: 0 <= i < |qs| ==> count(qs[i]) == 0
    ensures r.Some? ==> r.value < |qs| && count(qs[r.value]) > 0
    ensures r.Some? ==> forall i :: 0 <= i < r.value ==> count(qs[i]) == 0
  {
    if qs == [] then None
    else if count(qs[0]) > 0 then Some(0)
    else match FirstHit(count, qs[1..])
      case None => None
      case Some(i) => Some(i + 1)
  }

  /** The attribute-substring query used when no named candidate matches. */
  function AriaQuery(role: string, aria: string): Query {
    if role == "div" then Css("div[aria-label*=\"" + aria + "\"]")
    else Css("[role=\"" + role + "\"][aria-label*=\"" + aria + "\"]")
  }

  /** The role-and-name chain, stated declaratively: the first candidate with
      a match; otherwise the aria-label query when one was given; otherwise the
      last candidate tried. */
  function RoleChain(count: Query -> nat, role: string, name: string, aria: string): Query {
    var cands := Candidates(role, name);
    match FirstHit(count, cands)
    case Some(i) => cands[i]
    case None => if aria != [] then AriaQuery(role, aria) else cands[|cands| - 1]
  }

  lemma ChainStopsAtHit(count: Query -> nat, role: string, name: string, aria: string, tried: seq<Query>)
    requires 0 < |tried| && IsPrefix(tried, Candidates(role, name))
    requires NoHits(count, tried[..|tried| - 1])
    requires count(tried[|tried| - 1]) > 0
    ensures RoleChain(count, role, name, aria) == tried[|tried| - 1]
  {
    var cands := Candidates(role, name);
    var r := |tried| - 1;
    assert cands[..r] == tried[..r];
    FirstHitAt(count, cands, r);
  }

  /** A query with a match, with none before it matching, is the first hit. */
  lemma FirstHitAt(count: Query -> nat, qs: seq<Query>, r: nat)
    requires r < |qs| && count(qs[r]) > 0 && NoHits(count, qs[..r])
    ensures FirstHit(count, qs) == Some(r)
  {
    assert forall i :: 0 <= i < r ==> qs[..r][i] == qs[i];
  }

  lemma ChainWithoutHit(count: Query -> nat, role: string, name: string, aria: string)
    requires NoHits(count, Candidates(role, name))
    ensures RoleChain(count, role, name, aria) ==
      if aria != [] then AriaQuery(role, aria) else Candidates(role, name)[|Candidates(role, name)| - 1]
  {
  }

  /** No query in `qs` has a match. */
  predicate NoHits(count: Query -> nat, qs: seq<Query>) {
    forall j :: 0 <= j < |qs| ==> count(qs[j]) == 0
  }

  lemma NoHitsExtend(count: Query -> nat, qs: seq<Query>, q: Query)
    requires NoHits(count, qs) && count(q) == 0
    ensures NoHits(count, qs + [q])
  {
  }

  /** One more word adds its query exactly when it is longer than three. */
  lemma WordQueriesSnoc(role: string, words: seq<string>, i: nat)
    requires i < |words|
    ensures WordQueries(role, words[..i + 1]) ==
      WordQueries(role, words[..i]) + (if |words[i]| > 3 then [RoleWithText(role, words[i])] else [])
  {
    assert words[..i + 1][..i] == words[..i];
  }

  lemma PrefixAfterBase(base: seq<Query>, p: seq<Query>, s: seq<Query>)
    requires IsPrefix(p, s)
    ensures IsPrefix(base + p, base + s)
  {
    assert (base + s)[..|base + p|] == base + s[..|p|];
  }

  /** The partial-match loop: one `get_by_role(role).filter(has_text=word)`
      per long word, stopping at the first with a match. */
  method TryWords(count: Query -> nat, role: string, words: seq<string>, base: seq<Query>)
    returns (q: Query, tried: seq<Query>)
    requires base != [] && NoHits(count, base)
    ensures |base| <= |tried| && IsPrefix(tried, base + WordQueries(role, words))
    ensures q == tried[|tried| - 1]
    ensures NoHits(count, tried[..|tried| - 1])
    ensures count(q) > 0 || tried == base + WordQueries(role, words)
  {
    q := base[|base| - 1];
    tried := base;
    var i := 0;
    while i < |words|
      invariant 0 <= i <= |words|
      invariant tried == base + WordQueries(role, words[..i])
      invariant q == tried[|tried| - 1]
      invariant NoHits(count, tried)
      decreases |words| - i
    {
      if |words[i]| > 3 {
        q := RoleWithText(role, words[i]);
        if count(q) > 0 {
          WordHitEnds(count, role, words, base, i, tried);
          tried := tried + [q];
          return;
        }
      }
      tried := WordMiss(count, role, words, base, i, tried);
      i := i + 1;
    }
    WordsExhausted(count, role, words, base, tried);
  }

  /** A word without a match adds its query, if any, to what was tried. */
  lemma WordMissStep(count: Query -> nat, role: string, words: seq<string>, base: seq<Query>, i: nat, tried: seq<Query>)
    requires i < |words| && tried == base + WordQueries(role, words[..i]) && NoHits(count, tried)
    requires |words[i]| > 3 ==> count(RoleWithText(role, words[i])) == 0
    ensures var t := if |words[i]| > 3 then tried + [RoleWithText(role, words[i])] else tried;
      t == base + WordQueries(role, words[..i + 1]) && NoHits(count, t)
  {
    WordQueriesSnoc(role, words, i);
    if |words[i]| > 3 {
      NoHitsExtend(count, tried, RoleWithText(role, words[i]));
    }
  }

  /** What was tried after a word without a match. */
  function WordMiss(count: Query -> nat, role: string, words: seq<string>, base: seq<Query>, i: nat, tried: seq<Query>)
    : (t: seq<Query>)
    requires i < |words| && tried == base + WordQueries(role, words[..i]) && NoHits(count, tried)
    requires |words[i]| > 3 ==> count(RoleWithText(role, words[i])) == 0
    ensures t == base + WordQueries(role, words[..i + 1]) && NoHits(count, t)
    ensures |words[i]| > 3 ==> t == tried + [RoleWithText(role, words[i])]
    ensures |words[i]| <= 3 ==> t == tried
  {
    WordMissStep(count, role, words, base, i, tried);
    if |words[i]| > 3 then tried + [RoleWithText(role, words[i])] else tried
  }

  /** The loop's exit on a word with a match. */
  lemma WordHitEnds(count: Query -> nat, role: string, words: seq<string>, base: seq<Query>, i: nat, prev: seq<Query>)
    requires i < |words| && |words[i]| > 3
    requires prev == base + WordQueries(role, words[..i]) && NoHits(count, prev)
    ensures var tried := prev + [RoleWithText(role, words[i])];
      && |base| <= |tried| && IsPrefix(tried, base + WordQueries(role, words))
      && NoHits(count, tried[..|tried| - 1])
  {
    WordQueriesSnoc(role, words, i);
    WordHit(role, words, base, i, prev);
  }

  /** The loop's exit once every word was tried. */
  lemma WordsExhausted(count: Query -> nat, role: string, words: seq<string>, base: seq<Query>, tried: seq<Query>)
    requires base != [] && tried == base + WordQueries(role, words[..|words|]) && NoHits(count, tried)
    ensures |base| <= |tried| && IsPrefix(tried, base + WordQueries(role, words))
    ensures tried == base + WordQueries(role, words)
    ensures NoHits(count, tried[..|tried| - 1])
  {
    assert words[..|words|] == words;
  }

  /** A match on the word at `i` stops the loop with a prefix of all the
      queries it could have tried. */
  lemma WordHit(role: string, words: seq<string>, base: seq<Query>, i: nat, prev: seq<Query>)
    requires i < |words| && |words[i]| > 3
    requires prev == base + WordQueries(role, words[..i])
    requires WordQueries(role, words[..i + 1]) == WordQueries(role, words[..i]) + [RoleWithText(role, words[i])]
    ensures IsPrefix(prev + [RoleWithText(role, words[i])], base + WordQueries(role, words))
    ensures (prev + [RoleWithText(role, words[i])])[..|prev|] == prev
  {
    WordQueriesPrefix(role, words, i + 1);
    PrefixAfterBase(base, WordQueries(role, words[..i + 1]), WordQueries(role, words));
    assert prev + [RoleWithText(role, words[i])] == base + WordQueries(role, words[..i + 1]);
  }

  /** The named candidates in order, up to the first one that matches. */
  method TryCandidates(count: Query -> nat, role: string, name: string) returns (q: Query, tried: seq<Query>)
    ensures 0 < |tried| && IsPrefix(tried, Candidates(role, name))
    ensures q == tried[|tried| - 1]
    ensures NoHits(count, tried[..|tried| - 1])
    ensures count(q) > 0 || tried == Candidates(role, name)
  {
    var exact, loose := RoleNamed(role, name, true), RoleNamed(role, name, false);
    CandidatesStart(role, name);
    q, tried := exact, [exact];
    if count(exact) == 0 {
      q, tried := loose, [exact, loose];
      if count(loose) == 0 {
        q, tried := TryWords(count, role, Words(name), [exact, loose]);
      }
    }
  }

  /** The chain as the source runs it, one count at a time. `tried` lists the
      candidates whose count was asked, in order: it is the shortest prefix of
      the candidates that ends in a match, or all of them. */
  method ResolveRoleChain(count: Query -> nat, role: string, name: string, aria: string)
    returns (q: Query, tried: seq<Query>)
    ensures q == RoleChain(count, role, name, aria)
    ensures 0 < |tried| && IsPrefix(tried, Candidates(role, name))
    ensures NoHits(count, tried[..|tried| - 1])
    ensures count(tried[|tried| - 1]) > 0 || tried == Candidates(role, name)
  {
    q, tried := TryCandidates(count, role, name);
    if count(q) > 0 {
      ChainStopsAtHit(count, role, name, aria, tried);
    } else {
      NoHitsWhole(count, tried);
      ChainWithoutHit(count, role, name, aria);
      if aria != [] {
        q := AriaQuery(role, aria);
      }
    }
  }

  /** The exact and the loose name queries open the candidate list. */
  lemma CandidatesStart(role: string, name: string)
    ensures Candidates(role, name) == [RoleNamed(role, name, true), RoleNamed(role, name, false)] + WordQueries(role, Words(name))
    ensures IsPrefix([RoleNamed(role, name, true)], Candidates(role, name))
    ensures IsPrefix([RoleNamed(role, name, true), RoleNamed(role, name, false)], Candidates(role, name))
  {
  }

  lemma NoHitsWhole(count: Query -> nat, qs: seq<Query>)
    requires qs != [] && NoHits(count, qs[..|qs| - 1]) && count(qs[|qs| - 1]) == 0
    ensures NoHits(count, qs)
  {
  }

  /** The row special case: a matched row is replaced by its first link or
      button when it has one. */
  function RowDescent(page: Page, role: string, q: Query): (r: Query)
    ensures r == q || (role == "row" && r == ClickableIn(q) && page.count(q) > 0 && page.count(r) > 0)
    ensures role != "row" ==> r == q
  {
    if role == "row" && page.count(q) > 0 && page.count(ClickableIn(q)) > 0 then ClickableIn(q) else q
  }

  /** The first visible match at position `i` or later, else `first`. */
  function FirstVisibleFrom(page: Page, q: Query, i: nat): (r: Query)
    ensures r == FirstOf(q) ==> forall j :: i <= j < page.count(q) ==> !page.visible(Nth(q, j))
    ensures r != FirstOf(q) ==>
      r.Nth? && r.base == q && i <= r.index < page.count(q) && page.visible(r)
      && forall j :: i <= j < r.index ==> !page.visible(Nth(q, j))
    decreases page.count(q) - i
  {
    if i >= page.count(q) then FirstOf(q)
    else if page.visible(Nth(q, i)) then Nth(q, i)
    else FirstVisibleFrom(page, q, i + 1)
  }

  /** Queries that pick a single element: `.first` and `.nth(i)`. */
  predicate PicksOne(q: Query) {
    q.FirstOf? || q.Nth? || q.RoleWithText? || q.ClickableIn?
  }

  /** `count()` on the query: a query that picks one element matches at
      most once. */
  function Matches(page: Page, q: Query): (n: nat)
    ensures n > 0 <==> page.count(q) > 0
    ensures PicksOne(q) ==> n <= 1
    ensures !PicksOne(q) ==> n == page.count(q)
  {
    if PicksOne(q) && page.count(q) > 1 then 1 else page.count(q)
  }

  /** Several matches are narrowed to the first visible one, or to the first;
      a query that picks one element is kept. */
  function Narrow(page: Page, q: Query): (r: Query)
    ensures Matches(page, q) <= 1 ==> r == q
    ensures PicksOne(q) ==> r == q
    ensures Matches(page, q) > 1 ==> r == FirstVisibleFrom(page, q, 0) && page.count(q) > 1
  {
    if Matches(page, q) > 1 then FirstVisibleFrom(page, q, 0) else q
  }

  function AriaText(loc: map<string, string>): string {
    if "aria-label" in loc then loc["aria-label"] else []
  }

  /** The role branch before narrowing: the role-and-name chain with the row
      special case, or every element of the role when there is no name. */
  function RoleQuery(page: Page, loc: map<string, string>, role: string): Query {
    match NameCandidate(loc)
    case Some(name) => RowDescent(page, role, RoleChain(page.count, role, name, AriaText(loc)))
    case None => RoleAny(role)
  }

  /** The query `_do_action` acts on, `None` for an unknown locator format. */
  function Resolve(page: Page, loc: map<string, string>): (r: Option<Query>)
    ensures r.None? <==> SelectStrategy(loc).Unknown?
    ensures SelectStrategy(loc).ById? ==> r == Some(Css("#" + SelectStrategy(loc).id))
    ensures SelectStrategy(loc).ByName? ==> r == Some(Css("[name=\"" + SelectStrategy(loc).name + "\"]"))
  {
    var s := SelectStrategy(loc);
    if s.Unknown? then None
    else if s.ByRole? then Some(Narrow(page, RoleQuery(page, loc, s.role)))
    else Some(StrategyQuery(s))
  }

  /** The query of a branch other than `role`, built from the value it hands on. */
  function StrategyQuery(s: Strategy): Query
    requires !s.Unknown? && !s.ByRole?
  {
    match s
    case ByLabel(al) => Label(al)
    case ByPlaceholder(ph) => Placeholder(ph)
    case ById(id) => Css("#" + id)
    case ByName(n) => Css("[name=\"" + n + "\"]")
    case ByText(t) => TextMatch(t)
    case BySelector(sel) => Css(sel)
  }

  /** The query each non-role key's branch builds from the value it hands on. */
  function KeyQuery(k: Key, v: string): Query
    requires !k.RoleKey?
  {
    match k
    case AriaLabelKey => Label(v)
    case PlaceholderKey => Placeholder(v)
    case IdKey => Css("#" + v)
    case NameKey => Css("[name=\"" + v + "\"]")
    case TextKey => TextMatch(v)
    case SelectorKey => Css(v)
  }

  /** Resolution follows the priority table: when the first key that applies
      is not `role`, the query is that key's query on that key's value. */
  lemma ResolveFollowsPriority(page: Page, loc: map<string, string>, i: nat)
    requires FirstApplicable(loc, PriorityKeys) == Some(i) && i > 0
    ensures i < |PriorityKeys| && !PriorityKeys[i].RoleKey? && PriorityKeys[i].Name() in loc
    ensures Resolve(page, loc) == Some(KeyQuery(PriorityKeys[i], KeyValue(loc, PriorityKeys[i])))
  {
    SelectStrategyFollowsPriority(loc);
    var s := SelectStrategy(loc);
    assert !s.Unknown? && Rank(s) == i;
    ResolveByKey(page, loc, s);
  }

  /** A branch other than `role` resolves to its key's query on its value. */
  lemma ResolveByKey(page: Page, loc: map<string, string>, s: Strategy)
    requires s == SelectStrategy(loc) && !s.Unknown? && !s.ByRole?
    ensures !PriorityKeys[Rank(s)].RoleKey?
    ensures Resolve(page, loc) == Some(KeyQuery(PriorityKeys[Rank(s)], Payload(s)))
  {
    KeyQueryOfStrategy(s);
  }

  /** Each branch's query is its key's query on the value it hands on. */
  lemma KeyQueryOfStrategy(s: Strategy)
    requires !s.Unknown? && !s.ByRole?
    ensures !PriorityKeys[Rank(s)].RoleKey?
    ensures KeyQuery(PriorityKeys[Rank(s)], Payload(s)) == StrategyQuery(s)
  {
    var ks := PriorityKeys;
    match s
    case ByLabel(v) => assert ks[1] == AriaLabelKey;
    case ByPlaceholder(v) => assert ks[2] == PlaceholderKey;
    case ById(v) => assert ks[3] == IdKey;
    case ByName(v) => assert ks[4] == NameKey;
    case ByText(v) => assert ks[5] == TextKey;
    case BySelector(v) => assert ks[6] == SelectorKey;
  }

  /** An exact accessible-name match wins outright. */
  lemma ExactNameWins(count: Query -> nat, role: string, name: string, aria: string)
    requires count(RoleNamed(role, name, true)) > 0
    ensures RoleChain(count, role, name, aria) == RoleNamed(role, name, true)
  {
  }

  /** The aria-label query is used only after every named candidate had no
      match. */
  lemma AriaFallbackIsLast(count: Query -> nat, role: string, name: string, aria: string)
    requires RoleChain(count, role, name, aria).Css?
    ensures aria != []
    ensures forall i :: 0 <= i < |Candidates(role, name)| ==> count(Candidates(role, name)[i]) == 0
  {
  }
}
