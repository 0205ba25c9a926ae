/** `_do_action`: what one decided action does to the page, given the query its
    locator resolves to. The page's answers (match counts, visibility, the
    reads made on a field) are parameters; the effect is returned as data. */
module Executor {
  import opened Wrappers
  import opened Text
  import opened Elements
  import opened Fields
  import opened Actions
  import opened Locators
  import opened JsonValues

  /** The reads `_normalize_fill_text` and `_should_fill` make on a field. */
  datatype FieldReads = FieldReads(valueRead: Option<string>, textRead: Option<string>, placeholder: AttrRead)

  /** What a fill finds on the page: the reads made on each field (`readsOf`), and whether
      typing into it raises (for the resolved target, that both `fill` and
      click-then-type raised). */
  datatype FieldPage = FieldPage(readsOf: Query -> FieldReads, typingFails: Query -> bool)

  datatype Effect =
    | NoEffect                                        // returned without acting
    | Raised                                          // `_do_action` raised: the step is recorded as failed
    | Navigate(url: string)                           // page.goto(url)
    | ClickOn(target: Query, option: Option<string>)  // click, then pick `option` from the opened menu
    | ClickRemap(search: string)                      // the hint-based retarget of an unmatched click
    | SkipFill(target: Query)                         // the field already holds text
    | TypeInto(target: Query, text: string)           // fill, or click and type
    | ChooseOption(target: Query, choice: string)     // native select or custom dropdown
    | Scroll(dy: int)                                 // mouse wheel
    | Pause(ms: nat)                                  // wait_for_timeout

  const ScrollStep: int := 800
  const WaitMillis: nat := 1500

  /** Whether the key test `name in locator` holds on a locator that is not an
      object; on `null`, a number or a boolean the test itself raises. */
  predicate KeyTested(raw: Json, name: string) {
    match raw
    case JString(s) => Contains(s, name)
    case JArray(items) => JString(name) in items
    case JObject(_) => false
    case _ => true
  }

  /** Whether some branch's key test holds among `keys`. */
  predicate AnyKeyTested(raw: Json, keys: seq<Key>)
    decreases |keys|
  {
    keys != [] && (KeyTested(raw, keys[0].Name()) || AnyKeyTested(raw, keys[1..]))
  }

  /** A locator that is not an object: every branch whose key test holds goes
      on to index it or call `.get` on it, which raises; when no test holds it
      is an unknown format. */
  function OtherLocatorEffect(raw: Json): (r: Effect)
    ensures r == Raised || r == NoEffect
    ensures raw.JNull? ==> r == Raised
    ensures r == Raised <==> exists i :: 0 <= i < |PriorityKeys| && KeyTested(raw, PriorityKeys[i].Name())
  {
    AnyKeyTestedAt(raw, PriorityKeys);
    assert PriorityKeys[0].Name() == "role";
    if AnyKeyTested(raw, PriorityKeys) then Raised else NoEffect
  }

  lemma {:induction false} AnyKeyTestedAt(raw: Json, keys: seq<Key>)
    ensures AnyKeyTested(raw, keys) <==> exists i :: 0 <= i < |keys| && KeyTested(raw, keys[i].Name())
    decreases |keys|
  {
    if keys != [] {
      AnyKeyTestedAt(raw, keys[1..]);
      if KeyTested(raw, keys[0].Name()) {
      } else if exists i :: 0 <= i < |keys| && KeyTested(raw, keys[i].Name()) {
        var i :| 0 <= i < |keys| && KeyTested(raw, keys[i].Name());
        assert keys[1..][i - 1] == keys[i];
      }
    }
  }

  /** Action types that never use the resolved target. */
  predicate LocatorFree(a: Action) {
    a.kind == Some("goto") || a.kind == Some("scroll") || a.kind == Some("wait")
  }

  /** goto, scroll and wait. */
  function PageEffect(a: Action): (r: Effect)
    requires LocatorFree(a)
    ensures a.kind == Some("goto") ==> (r.Navigate? <==> a.url.Some? && a.url.value != [])
    ensures a.kind == Some("goto") && !r.Navigate? ==> r == NoEffect
    ensures a.kind == Some("scroll") ==> r == Scroll(if ScrollsDown(a) then ScrollStep else -ScrollStep)
    ensures a.kind == Some("wait") ==> r == Pause(WaitMillis)
  {
    if a.kind == Some("goto") then
      if a.url.Some? && a.url.value != [] then Navigate(a.url.value) else NoEffect
    else if a.kind == Some("scroll") then Scroll(if ScrollsDown(a) then ScrollStep else -ScrollStep)
    else Pause(WaitMillis)
  }

  /** `name or text or aria-label`: the text a failed click searches for. */
  function SearchText(loc: map<string, string>): (r: Option<string>)
    ensures r.Some? ==> r.value != []
    ensures r.Some? ==> exists k :: k in {"name", "text", "aria-label"} && k in loc && loc[k] == r.value
    ensures r.None? <==> forall k :: k in {"name", "text", "aria-label"} && k in loc ==> loc[k] == []
  {
    if "name" in loc && loc["name"] != [] then Some(loc["name"])
    else if "text" in loc && loc["text"] != [] then Some(loc["text"])
    else if "aria-label" in loc && loc["aria-label"] != [] then Some(loc["aria-label"])
    else None
  }

  /** The option a click picks from the menu it opens: a non-empty `value`. */
  function MenuOption(a: Action): (r: Option<string>)
    ensures r.Some? <==> a.value.Some? && a.value.value != []
    ensures r.Some? ==> r == a.value
  {
    if a.value.Some? && a.value.value != [] then a.value else None
  }

  /** A click clicks the resolved target when it matches. Otherwise it takes
      the first text match of the search text and clicks it when that one
      match is visible, else hands over to the hint-based remap. With nothing
      to search for it does nothing. */
  function ClickEffect(page: Page, a: Action, loc: map<string, string>, q: Query): (r: Effect)
    ensures r.ClickOn? ==> page.count(r.target) > 0
    ensures r.ClickOn? ==> r.option == MenuOption(a)
    ensures page.count(q) > 0 ==> r.ClickOn? && r.target == q
    ensures page.count(q) == 0 && SearchText(loc).None? ==> r == NoEffect
    ensures r.ClickRemap? ==> Some(r.search) == SearchText(loc)
    ensures page.count(q) == 0 && SearchText(loc).Some? ==>
      var f := FirstOf(TextMatch(SearchText(loc).value));
      r == if page.count(f) > 0 && page.visible(f) then ClickOn(f, MenuOption(a)) else ClickRemap(SearchText(loc).value)
  {
    var option := MenuOption(a);
    if page.count(q) > 0 then ClickOn(q, option)
    else match SearchText(loc)
      case None => NoEffect
      case Some(t) =>
        var fallback := FirstOf(TextMatch(t));
        if page.count(fallback) > 0 && page.visible(fallback) then ClickOn(fallback, option)
        else ClickRemap(t)
  }

  /** The first editable element without text, which a fill falls back to. */
  const BlankEditable: Query := FirstOf(BlankEditables)

  /** The fallback of a fill whose target could not be typed into: the first
      blank editable element gets the text exactly as given, unnormalised. */
  function FallbackFill(page: Page, fp: FieldPage, txt: string): (e: Effect)
    ensures e.TypeInto? || e.SkipFill? || e == NoEffect || e == Raised
    ensures page.count(BlankEditable) == 0 ==> e == NoEffect
    ensures e.TypeInto? ==> e.target == BlankEditable && e.text == txt
    ensures e.TypeInto? || e.SkipFill? ==> e.target == BlankEditable && page.count(BlankEditable) > 0
    ensures e.TypeInto? <==>
      page.count(BlankEditable) > 0 && ShouldFill(fp.readsOf(BlankEditable).valueRead, fp.readsOf(BlankEditable).textRead)
      && !fp.typingFails(BlankEditable)
  {
    var r := fp.readsOf(BlankEditable);
    if page.count(BlankEditable) == 0 then NoEffect
    else if !ShouldFill(r.valueRead, r.textRead) then SkipFill(BlankEditable)
    else if fp.typingFails(BlankEditable) then Raised
    else TypeInto(BlankEditable, txt)
  }

  /** A fill types the normalised text into its target only when the target
      reads blank and typing into it works; a target that already holds text
      is skipped; when typing fails the fill falls back to a blank editable
      element. */
  function FillEffect(page: Page, fp: FieldPage, q: Query, txt: string): (e: Effect)
    ensures e.TypeInto? || e.SkipFill? || e == NoEffect || e == Raised
    ensures !ShouldFill(fp.readsOf(q).valueRead, fp.readsOf(q).textRead) ==> e == SkipFill(q)
    ensures e == TypeInto(q, NormalizeFillText(txt, fp.readsOf(q).valueRead, fp.readsOf(q).placeholder)) <==>
      ShouldFill(fp.readsOf(q).valueRead, fp.readsOf(q).textRead) && !fp.typingFails(q)
    ensures ShouldFill(fp.readsOf(q).valueRead, fp.readsOf(q).textRead) && fp.typingFails(q) ==>
      e == FallbackFill(page, fp, txt)
  {
    var r := fp.readsOf(q);
    if !ShouldFill(r.valueRead, r.textRead) then SkipFill(q)
    else if !fp.typingFails(q) then TypeInto(q, NormalizeFillText(txt, r.valueRead, r.placeholder))
    else
      var e := FallbackFill(page, fp, txt);
      assert e.TypeInto? ==> e.target == BlankEditable && !fp.typingFails(e.target);
      e
  }

  /** click, fill/type and select, acting on the resolved target. */
  function TargetEffect(page: Page, fp: FieldPage, a: Action, loc: map<string, string>, q: Query): (r: Effect)
    requires !LocatorFree(a)
    ensures (r.TypeInto? || r.SkipFill?) ==> IsFillKind(a) && TextOrValue(a).Some?
    ensures IsFillKind(a) && TextOrValue(a).Some? ==> r == FillEffect(page, fp, q, TextOrValue(a).value)
    ensures r.ChooseOption? <==> a.kind == Some("select") && TextOrValue(a).Some?
    ensures r.ChooseOption? ==> r == ChooseOption(q, TextOrValue(a).value)
    ensures a.kind == Some("click") ==> r == ClickEffect(page, a, loc, q)
    ensures r.ClickOn? || r.ClickRemap? ==> a.kind == Some("click")
    ensures !(r.Scroll? || r.Navigate? || r.Pause?)
    ensures a.kind !in {Some("click"), Some("fill"), Some("type"), Some("select")} ==> r == NoEffect
  {
    if a.kind == Some("click") then ClickEffect(page, a, loc, q)
    else if IsFillKind(a) && TextOrValue(a).Some? then FillEffect(page, fp, q, TextOrValue(a).value)
    else if a.kind == Some("select") && TextOrValue(a).Some? then ChooseOption(q, TextOrValue(a).value)
    else NoEffect
  }

  /** `_do_action` on an object locator: the locator is resolved first, and
      an unknown locator format returns before the action type is even looked
      at. */
  function ObjectDispatch(page: Page, fp: FieldPage, a: Action, loc: map<string, string>): (r: Effect)
    ensures Resolve(page, loc).None? ==> r == NoEffect
    ensures r.TypeInto? ==>
      && IsFillKind(a) && TextOrValue(a).Some?
      && ShouldFill(fp.readsOf(r.target).valueRead, fp.readsOf(r.target).textRead)
      && !fp.typingFails(r.target)
      && (IsSuffix(r.text, Strip(TextOrValue(a).value)) || (r.target == BlankEditable && r.text == TextOrValue(a).value))
    ensures r.SkipFill? ==> !ShouldFill(fp.readsOf(r.target).valueRead, fp.readsOf(r.target).textRead)
    ensures r.Scroll? ==> a.kind == Some("scroll") && r.dy == (if ScrollsDown(a) then ScrollStep else -ScrollStep)
    ensures r.Navigate? ==> a.kind == Some("goto") && a.url == Some(r.url) && r.url != []
    ensures r.ClickOn? ==> a.kind == Some("click") && page.count(r.target) > 0
  {
    match Resolve(page, loc)
    case None => NoEffect
    case Some(q) => ActOn(page, fp, a, loc, q)
  }

  /** The per-type branches, acting on the resolved query `q`. */
  function ActOn(page: Page, fp: FieldPage, a: Action, loc: map<string, string>, q: Query): (r: Effect)
    ensures r.TypeInto? ==>
      && IsFillKind(a) && TextOrValue(a).Some?
      && ShouldFill(fp.readsOf(r.target).valueRead, fp.readsOf(r.target).textRead)
      && !fp.typingFails(r.target)
      && (IsSuffix(r.text, Strip(TextOrValue(a).value)) || (r.target == BlankEditable && r.text == TextOrValue(a).value))
    ensures r.SkipFill? ==> !ShouldFill(fp.readsOf(r.target).valueRead, fp.readsOf(r.target).textRead)
    ensures r.Scroll? ==> a.kind == Some("scroll") && r.dy == (if ScrollsDown(a) then ScrollStep else -ScrollStep)
    ensures r.Navigate? ==> a.kind == Some("goto") && a.url == Some(r.url) && r.url != []
    ensures r.ClickOn? ==> a.kind == Some("click") && page.count(r.target) > 0
  {
    if LocatorFree(a) then PageEffect(a)
    else if IsFillKind(a) && TextOrValue(a).Some? then
      FillTyped(page, fp, q, TextOrValue(a).value);
      TargetEffect(page, fp, a, loc, q)
    else TargetEffect(page, fp, a, loc, q)
  }

  /** `_do_action` as written. A locator that is not an object fails or falls
      through the key tests; an object locator is resolved first. */
  function Dispatch(page: Page, fp: FieldPage, a: Action): (r: Effect)
    ensures a.locator.LocOther? ==> r == OtherLocatorEffect(a.locator.raw)
    ensures a.locator.LocObject? && Resolve(page, a.locator.entries).None? ==> r == NoEffect
    ensures r.TypeInto? ==>
      && IsFillKind(a) && TextOrValue(a).Some?
      && ShouldFill(fp.readsOf(r.target).valueRead, fp.readsOf(r.target).textRead)
      && !fp.typingFails(r.target)
      && (IsSuffix(r.text, Strip(TextOrValue(a).value)) || (r.target == BlankEditable && r.text == TextOrValue(a).value))
    ensures r.SkipFill? ==> !ShouldFill(fp.readsOf(r.target).valueRead, fp.readsOf(r.target).textRead)
    ensures r.Scroll? ==> a.kind == Some("scroll") && r.dy == (if ScrollsDown(a) then ScrollStep else -ScrollStep)
    ensures r.Navigate? ==> a.kind == Some("goto") && a.url == Some(r.url) && r.url != []
    ensures r.ClickOn? ==> a.kind == Some("click") && page.count(r.target) > 0
  {
    match a.locator
    case LocOther(raw) => OtherLocatorEffect(raw)
    case LocObject(loc) => ObjectDispatch(page, fp, a, loc)
  }

  /** A fill types only into a field that reads blank and takes typing, and
      what it types is either a suffix of the stripped text (the normalised
      text) or, in the fallback, the text exactly as given. */
  lemma FillTyped(page: Page, fp: FieldPage, q: Query, txt: string)
    ensures var e := FillEffect(page, fp, q, txt);
      e.TypeInto? ==>
        && ShouldFill(fp.readsOf(e.target).valueRead, fp.readsOf(e.target).textRead)
        && !fp.typingFails(e.target)
        && (IsSuffix(e.text, Strip(txt)) || (e.target == BlankEditable && e.text == txt))
  {
  }

  /** `_do_action` with the three locator-free branches taken before the
      locator is resolved: goto reads only its `url`, scroll only its
      `direction` and wait nothing, so they act whatever the locator says. */
  function DispatchIntended(page: Page, fp: FieldPage, a: Action): (r: Effect)
    ensures LocatorFree(a) ==> r == PageEffect(a)
    ensures !LocatorFree(a) ==> r == Dispatch(page, fp, a)
  {
    if LocatorFree(a) then PageEffect(a) else Dispatch(page, fp, a)
  }

  /** As written, an action whose locator matches no branch does nothing. */
  lemma UnknownLocatorDoesNothing(page: Page, fp: FieldPage, a: Action)
    requires a.locator.LocObject? && SelectStrategy(a.locator.entries).Unknown?
    ensures Dispatch(page, fp, a) == NoEffect
  {
  }

  /** A `null` locator makes `_do_action` raise whatever the action type. */
  lemma NullLocatorRaises(page: Page, fp: FieldPage, a: Action)
    requires a.locator == LocOther(JNull)
    ensures Dispatch(page, fp, a) == Raised
  {
  }

  /** The discrepancy: a scroll with no locator, which reads as `{}`, is
      silently dropped, where the corrected dispatch scrolls. */
  lemma LocatorlessScrollIsDropped(page: Page, fp: FieldPage, a: Action)
    requires a.kind == Some("scroll") && a.locator == LocObject(map[])
    ensures Dispatch(page, fp, a) == NoEffect
    ensures DispatchIntended(page, fp, a) == Scroll(if ScrollsDown(a) then ScrollStep else -ScrollStep)
  {
    assert SelectStrategy(a.locator.entries).Unknown?;
  }

  /** The corrected dispatch navigates, scrolls and waits without a locator. */
  lemma IntendedActsWithoutLocator(page: Page, fp: FieldPage, a: Action)
    requires LocatorFree(a)
    requires a.kind == Some("goto") ==> a.url.Some? && a.url.value != []
    ensures DispatchIntended(page, fp, a) != NoEffect
    ensures DispatchIntended(page, fp, a) != Raised
  {
  }

  /** The correction changes nothing else: wherever the locator resolves, and
      for every action that needs a target, both dispatches agree. */
  lemma IntendedAgreesElsewhere(page: Page, fp: FieldPage, a: Action)
    requires !LocatorFree(a) || (a.locator.LocObject? && Resolve(page, a.locator.entries).Some?)
    ensures DispatchIntended(page, fp, a) == Dispatch(page, fp, a)
  {
  }
}
