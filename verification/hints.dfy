/** `_collect_dom_hints`: per-element reads turned into the bounded summary the
    decision step sees. A failing read becomes the empty string; a failing
    query ends the whole scan, keeping only the categories already gathered. */
module Hints {
  import opened Wrappers
  import opened Text
  import opened Elements
  import opened Fields

  /** The reads made on one text-entry element. `tag` is `None` when the
      tag-name evaluation threw; `valueRead`/`textRead` are `None` when
      `input_value()`/`inner_text()` threw. */
  datatype InputElement = InputElement(
    ariaLabel: AttrRead, name: AttrRead, id: AttrRead, placeholder: AttrRead,
    tag: Option<string>, valueRead: Option<string>, textRead: Option<string>)

  datatype InputHint = InputHint(
    ariaLabel: string, name: string, id: string, placeholder: string,
    tag: string, value: string, empty: bool)

  /** The reads made on one clickable element; `visible` is `None` when
      `is_visible()` threw. */
  datatype ButtonElement = ButtonElement(
    textRead: Option<string>, ariaLabel: AttrRead, title: AttrRead, id: AttrRead,
    name: AttrRead, role: AttrRead, tagRead: Option<string>, visible: Option<bool>)

  /** `icon` stands for the hint's `"type": "icon"` entry. */
  datatype ButtonHint = ButtonHint(
    text: string, ariaLabel: string, title: string, id: string, name: string,
    role: string, icon: bool)

  datatype AlertHint = AlertHint(text: string)

  datatype DomHints = DomHints(inputs: seq<InputHint>, buttons: seq<ButtonHint>, alerts: seq<AlertHint>)

  /** The three element queries; `None` when `query_selector_all` threw. An
      alert element is represented by its `inner_text()` read. */
  datatype PageScan = PageScan(
    inputs: Option<seq<InputElement>>,
    buttons: Option<seq<ButtonElement>>,
    alerts: Option<seq<Option<string>>>)

  const ButtonRoles: set<string> := {"button", "link", "a"}

  predicate IsTrimmed(s: string) {
    s == [] || (!IsSpace(s[0]) && !IsSpace(s[|s| - 1]))
  }

  function InputHintOf(e: InputElement): (h: InputHint)
    ensures h.empty <==> h.value == []
    ensures h.empty == ShouldFill(e.valueRead, e.textRead)
    ensures IsTrimmed(h.ariaLabel) && IsTrimmed(h.placeholder) && IsTrimmed(h.value)
    ensures h.ariaLabel == AttrText(e.ariaLabel) && h.name == AttrText(e.name) && h.id == AttrText(e.id)
    ensures h.placeholder == AttrText(e.placeholder) && h.tag == e.tag.GetOr([])
    ensures h.value == CurrentValue(e.valueRead, e.textRead)
  {
    var value := CurrentValue(e.valueRead, e.textRead);
    HintEmptinessMatchesFillGate(e.valueRead, e.textRead);
    var aria := AttrText(e.ariaLabel);
    var placeholder := AttrText(e.placeholder);
    assert IsTrimmed(aria) && IsTrimmed(placeholder) && IsTrimmed(value);
    InputHint(aria, AttrText(e.name), AttrText(e.id), placeholder, e.tag.GetOr([]), value, value == [])
  }

  /** `(get_attribute("role") or tag name).strip()`, `""` when either throws. */
  function RawRole(e: ButtonElement): string {
    match e.role
    case Threw => []
    case Present(r) => if r != [] then Strip(r) else Strip(e.tagRead.GetOr([]))
    case Absent => Strip(e.tagRead.GetOr([]))
  }

  /** What a kept button hint promises: it names the control somehow, never
      repeats the aria-label next to visible text, has a role the decision
      step understands, and is an icon exactly when it has no visible text. */
  predicate WellFormedButton(h: ButtonHint) {
    && (h.text != [] || h.ariaLabel != [] || h.title != [])
    && (h.text != [] ==> h.ariaLabel == [])
    && h.role in ButtonRoles
    && (h.icon <==> h.text == [])
  }

  /** The hint for a button that names itself somehow: the aria-label only
      stands in for missing text, an unknown role reads as `button`. */
  function NamedButtonHint(text: string, aria: string, title: string, id: string, name: string, role: string)
    : (h: ButtonHint)
    requires text != [] || aria != [] || title != []
    ensures WellFormedButton(h)
    ensures h.text == text && h.title == title && h.id == id && h.name == name
    ensures h.ariaLabel == (if text == [] then aria else [])
    ensures role in ButtonRoles ==> h.role == role
    ensures role !in ButtonRoles ==> h.role == "button"
  {
    ButtonHint(
      text,
      if text == [] then aria else [],
      title,
      id,
      name,
      if role in ButtonRoles then role else "button",
      text == [] && (aria != [] || title != []))
  }

  /** One button: kept only when visible and carrying text, an aria-label or a
      title. */
  function ButtonHintOf(e: ButtonElement): (r: Option<ButtonHint>)
    ensures r.Some? <==>
      e.visible == Some(true)
      && (Strip(e.textRead.GetOr([])) != [] || AttrText(e.ariaLabel) != [] || AttrText(e.title) != [])
    ensures r.Some? ==> WellFormedButton(r.value)
    ensures r.Some? ==> r.value.text == Strip(e.textRead.GetOr([])) && r.value.title == AttrText(e.title)
    ensures r.Some? ==> r.value.ariaLabel == (if r.value.text == [] then AttrText(e.ariaLabel) else [])
    ensures r.Some? ==> r.value.id == AttrText(e.id) && r.value.name == AttrText(e.name)
    ensures r.Some? ==> r.value.role == (if RawRole(e) in ButtonRoles then RawRole(e) else "button")
  {
    var text := Strip(e.textRead.GetOr([]));
    var aria := AttrText(e.ariaLabel);
    var title := AttrText(e.title);
    if e.visible == Some(true) && (text != [] || aria != [] || title != []) then
      Some(NamedButtonHint(text, aria, title, AttrText(e.id), AttrText(e.name), RawRole(e)))
    else None
  }

  function ScanInputs(es: seq<InputElement>): (hs: seq<InputHint>)
    ensures |hs| == |es|
    ensures forall i :: 0 <= i < |es| ==> hs[i] == InputHintOf(es[i])
  {
    seq(|es|, i requires 0 <= i < |es| => InputHintOf(es[i]))
  }

  /** Prepending a well-formed hint keeps every hint well formed. */
  function Cons(h: ButtonHint, rest: seq<ButtonHint>): (hs: seq<ButtonHint>)
    requires WellFormedButton(h) && forall i :: 0 <= i < |rest| ==> WellFormedButton(rest[i])
    ensures hs == [h] + rest
    ensures forall i :: 0 <= i < |hs| ==> WellFormedButton(hs[i])
  {
    var hs := [h] + rest;
    assert forall i :: 1 <= i < |hs| ==> hs[i] == rest[i - 1];
    hs
  }

  /** The kept buttons, in document order. */
  function ScanButtons(es: seq<ButtonElement>): (hs: seq<ButtonHint>)
    ensures |hs| <= |es|
    ensures forall i :: 0 <= i < |hs| ==> WellFormedButton(hs[i])
  {
    if es == [] then []
    else
      var rest := ScanButtons(es[1..]);
      match ButtonHintOf(es[0])
      case Some(h) => Cons(h, rest)
      case None => rest
  }

  /** Each button is judged on its own and order is kept: scanning two runs of
      elements is scanning each and joining the results. */
  lemma {:induction false} ScanButtonsAppend(a: seq<ButtonElement>, b: seq<ButtonElement>)
    ensures ScanButtons(a + b) == ScanButtons(a) + ScanButtons(b)
    decreases |a|
  {
    if a != [] {
      assert (a + b)[0] == a[0];
      assert (a + b)[1..] == a[1..] + b;
      ScanButtonsAppend(a[1..], b);
    } else {
      assert a + b == b;
    }
  }

  /** A visible button that carries some text, label or title is listed. */
  lemma VisibleNamedButtonIsListed(e: ButtonElement)
    requires e.visible == Some(true)
    requires Strip(e.textRead.GetOr([])) != [] || AttrText(e.ariaLabel) != [] || AttrText(e.title) != []
    ensures |ScanButtons([e])| == 1
  {
    assert [e][1..] == [];
  }

  /** A lone element is listed exactly when its hint is kept, and then as
      that hint; with `ScanButtonsAppend` this pins the scan to the kept hints
      in document order. */
  lemma ScanOneButton(e: ButtonElement)
    ensures ScanButtons([e]) == if ButtonHintOf(e).Some? then [ButtonHintOf(e).value] else []
  {
    assert [e][1..] == [];
  }

  /** The hint of one alert read: its trimmed text when that is not blank;
      nothing for a blank text or a throwing read. */
  function AlertHintOf(read: Option<string>): (r: Option<AlertHint>)
    ensures r.Some? <==> read.Some? && Strip(read.value) != []
    ensures r.Some? ==> r.value.text == Strip(read.value)
  {
    match read
    case Some(t) => if Strip(t) != [] then Some(AlertHint(Strip(t))) else None
    case None => None
  }

  /** Alerts with non-blank rendered text; a throwing read is skipped. */
  function ScanAlerts(es: seq<Option<string>>): (hs: seq<AlertHint>)
    ensures |hs| <= |es|
    ensures forall i :: 0 <= i < |hs| ==> hs[i].text != [] && IsTrimmed(hs[i].text)
  {
    if es == [] then []
    else
      var rest := ScanAlerts(es[1..]);
      match AlertHintOf(es[0])
      case Some(h) => [h] + rest
      case None => rest
  }

  /** A lone alert read is listed exactly when it has non-blank text. */
  lemma ScanOneAlert(read: Option<string>)
    ensures ScanAlerts([read]) == if AlertHintOf(read).Some? then [AlertHintOf(read).value] else []
  {
    assert [read][1..] == [];
  }

  /** Each alert is judged on its own and order is kept. */
  lemma {:induction false} ScanAlertsAppend(a: seq<Option<string>>, b: seq<Option<string>>)
    ensures ScanAlerts(a + b) == ScanAlerts(a) + ScanAlerts(b)
    decreases |a|
  {
    if a != [] {
      assert (a + b)[0] == a[0];
      assert (a + b)[1..] == a[1..] + b;
      ScanAlertsAppend(a[1..], b);
    } else {
      assert a + b == b;
    }
  }

  /** The whole scan. The three queries run in order inside one `try`, so a
      failing query also empties every category after it. */
  function CollectDomHints(scan: PageScan): (h: DomHints)
    ensures scan.inputs.None? ==> h == DomHints([], [], [])
    ensures scan.inputs.Some? ==> |h.inputs| == |scan.inputs.value|
    ensures scan.inputs.Some? ==> forall i :: 0 <= i < |h.inputs| ==>
      h.inputs[i].empty == ShouldFill(scan.inputs.value[i].valueRead, scan.inputs.value[i].textRead)
    ensures scan.buttons.None? ==> h.buttons == [] && h.alerts == []
    ensures scan.inputs.Some? ==> h.inputs == ScanInputs(scan.inputs.value)
    ensures scan.inputs.Some? && scan.buttons.Some? ==> h.buttons == ScanButtons(scan.buttons.value)
    ensures scan.inputs.Some? && scan.buttons.Some? && scan.alerts.Some? ==> h.alerts == ScanAlerts(scan.alerts.value)
    ensures scan.alerts.None? ==> h.alerts == []
    ensures forall i :: 0 <= i < |h.buttons| ==> WellFormedButton(h.buttons[i])
    ensures forall i :: 0 <= i < |h.alerts| ==> h.alerts[i].text != []
  {
    match scan.inputs
    case None => DomHints([], [], [])
    case Some(ins) =>
      var inputs := ScanInputs(ins);
      match scan.buttons
      case None => DomHints(inputs, [], [])
      case Some(bs) =>
        var buttons := ScanButtons(bs);
        match scan.alerts
        case None => DomHints(inputs, buttons, [])
        case Some(als) => DomHints(inputs, buttons, ScanAlerts(als))
  }
}
