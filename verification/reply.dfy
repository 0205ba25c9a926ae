/** Recovering one JSON object from an oracle reply: from the first `{`, try
    every end offset in increasing order and keep the first slice that parses.
    The decision step turns every failure into an error; the completion check
    turns every failure into `false`. */
module Reply {
  import opened Wrappers
  import opened Text
  import opened JsonValues

  datatype ScanError =
    | NoBrace   // no `{` in the reply
    | NoParse   // no slice starting at the first `{` parses

  /** `s.find(c)`, `None` standing for `-1`. */
  function FirstIndexOf(s: string, c: char): (r: Option<nat>)
    ensures r.None? <==> (forall i :: 0 <= i < |s| ==> s[i] != c)
    ensures r.Some? ==> r.value < |s| && s[r.value] == c
    ensures r.Some? ==> forall i :: 0 <= i < r.value ==> s[i] != c
  {
    if s == [] then None
    else if s[0] == c then Some(0)
    else match FirstIndexOf(s[1..], c)
      case None => None
      case Some(i) => Some(i + 1)
  }

  /** `text[start..e]` is the shortest slice from `start` that parses, to `j`. */
  ghost predicate ShortestParse(parse: string -> Option<Json>, text: string, start: nat, e: nat, j: Json) {
    && start < e <= |text|
    && parse(text[start..e]) == Some(j)
    && forall k :: start < k < e ==> parse(text[start..k]).None?
  }

  /** The loop over end offsets `e, e + 1, ..., |text|`. */
  function ScanEnds(parse: string -> Option<Json>, text: string, start: nat, e: nat): (r: Option<(Json, nat)>)
    requires start < e
    ensures r.Some? ==> e <= r.value.1 <= |text| && parse(text[start..r.value.1]) == Some(r.value.0)
    ensures r.Some? ==> forall k :: e <= k < r.value.1 ==> parse(text[start..k]).None?
    ensures r.None? ==> forall k :: e <= k <= |text| ==> parse(text[start..k]).None?
    decreases |text| + 1 - e
  {
    if e > |text| then None
    else match parse(text[start..e])
      case Some(j) => Some((j, e))
      case None => ScanEnds(parse, text, start, e + 1)
  }

  /** The scan on an already stripped reply. */
  function ExtractObject(parse: string -> Option<Json>, text: string): (r: Result<Json, ScanError>)
    ensures r == Failure(NoBrace) <==> (forall i :: 0 <= i < |text| ==> text[i] != '{')
    ensures r == Failure(NoParse) <==>
      && FirstIndexOf(text, '{').Some?
      && var s := FirstIndexOf(text, '{').value;
         forall k :: s < k <= |text| ==> parse(text[s..k]).None?
    ensures r.Success? ==>
      && FirstIndexOf(text, '{').Some?
      && exists e :: ShortestParse(parse, text, FirstIndexOf(text, '{').value, e, r.value)
  {
    match FirstIndexOf(text, '{')
    case None => Failure(NoBrace)
    case Some(s) =>
      match ScanEnds(parse, text, s, s + 1)
      case None => Failure(NoParse)
      case Some(found) =>
        assert ShortestParse(parse, text, s, found.1, found.0);
        Success(found.0)
  }

  /** The decision step's reading of a reply (`resp.content.strip()`, then the
      scan). Both failures are fatal to the task, so they are returned as errors
      and no action is ever made up. */
  function DecideReply(parse: string -> Option<Json>, content: string): (r: Result<Json, ScanError>)
    ensures (forall i :: 0 <= i < |content| ==> content[i] != '{') ==> r == Failure(NoBrace)
    ensures r.Success? ==> exists s, e :: ShortestParse(parse, Strip(content), s, e, r.value)
  {
    ExtractObject(parse, Strip(content))
  }

  /** The completion verdict as the source writes it: the same scan repeated
      inline, `true` only for an object whose `completed` is truthy, `false`
      for a missing `{`, for no parse and for a non-object. */
  function CompletionVerdict(parse: string -> Option<Json>, content: string): (r: bool)
    ensures (forall i :: 0 <= i < |content| ==> content[i] != '{') ==> !r
  {
    var text := Strip(content);
    match FirstIndexOf(text, '{')
    case None => false
    case Some(s) =>
      match ScanEnds(parse, text, s, s + 1)
      case None => false
      case Some(found) =>
        assert ShortestParse(parse, text, s, found.1, found.0);
        match found.0
        case JObject(f) => Truthy(found.0) && "completed" in f && Truthy(f["completed"])
        case _ => false
  }

  /** A parsed reply that reports the goal as met. */
  predicate ReportsCompleted(j: Json) {
    j.JObject? && "completed" in j.fields && Truthy(j.fields["completed"])
  }

  /** The completion check and the decision step read a reply the same way:
      the verdict is `true` exactly when the decision scan would succeed on it
      with an object whose `completed` is truthy. */
  lemma VerdictAgreesWithScan(parse: string -> Option<Json>, content: string)
    ensures CompletionVerdict(parse, content) <==>
      DecideReply(parse, content).Success? && ReportsCompleted(DecideReply(parse, content).value)
  {
    var text := Strip(content);
    assert DecideReply(parse, content) == ExtractObject(parse, text);
    match FirstIndexOf(text, '{')
    case None =>
    case Some(s) =>
      match ScanEnds(parse, text, s, s + 1)
      case None =>
      case Some(found) =>
        assert ExtractObject(parse, text) == Success(found.0);
  }

  /** Stripping a reply whose object starts and ends with non-space characters
      only trims the prose around the object. */
  lemma StripAroundObject(prose: string, obj: string, trailer: string)
    requires obj != [] && !IsSpace(obj[0]) && !IsSpace(obj[|obj| - 1])
    ensures Strip(prose + obj + trailer) == LStrip(prose) + obj + RStrip(trailer)
  {
    LStripAround(prose, obj, trailer);
    var head := LStrip(prose) + obj;
    assert head[|head| - 1] == obj[|obj| - 1];
    RStripConcat(head, trailer);
    StripIsBoth(prose + obj + trailer);
  }

  lemma LStripAround(prose: string, obj: string, trailer: string)
    requires obj != [] && !IsSpace(obj[0])
    ensures LStrip(prose + obj + trailer) == LStrip(prose) + obj + trailer
  {
    assert prose + obj + trailer == prose + (obj + trailer);
    LStripConcat(prose, obj + trailer);
    assert LStrip(prose) + (obj + trailer) == LStrip(prose) + obj + trailer;
  }

  /** Round trip of the scan: an object surrounded by prose is recovered
      exactly, provided the prose before it has no `{` and no proper prefix of
      the object parses (true of every JSON object text). */
  lemma ExtractSurroundedObject(parse: string -> Option<Json>, prose: string, obj: string, trailer: string, j: Json)
    requires forall i :: 0 <= i < |prose| ==> prose[i] != '{'
    requires obj != [] && obj[0] == '{'
    requires parse(obj) == Some(j)
    requires forall k :: 0 < k < |obj| ==> parse(obj[..k]).None?
    ensures ExtractObject(parse, prose + obj + trailer) == Success(j)
  {
    var text := prose + obj + trailer;
    var s := |prose|;
    assert text[s] == '{';
    assert forall i :: 0 <= i < s ==> text[i] == prose[i];
    assert FirstIndexOf(text, '{') == Some(s);
    assert forall k :: s < k <= s + |obj| ==> text[s..k] == obj[..k - s];
    assert obj[..|obj|] == obj;
    assert parse(text[s..s + |obj|]) == Some(j);
    assert forall k :: s < k < s + |obj| ==> parse(text[s..k]).None?;
  }

  /** Round trip through the decision step: serialising an action as an object
      text and wrapping it in prose, the reply reads back as that action. */
  lemma DecideReplyRoundTrip(parse: string -> Option<Json>, prose: string, obj: string, trailer: string, j: Json)
    requires forall i :: 0 <= i < |prose| ==> prose[i] != '{'
    requires |obj| >= 2 && obj[0] == '{' && obj[|obj| - 1] == '}'
    requires parse(obj) == Some(j)
    requires forall k :: 0 < k < |obj| ==> parse(obj[..k]).None?
    ensures DecideReply(parse, prose + obj + trailer) == Success(j)
  {
    StripAroundObject(prose, obj, trailer);
    var p, t := LStrip(prose), RStrip(trailer);
    assert forall i :: 0 <= i < |p| ==> p[i] == prose[|prose| - |p| + i];
    ExtractSurroundedObject(parse, p, obj, t, j);
  }
}
