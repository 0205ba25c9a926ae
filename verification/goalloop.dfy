/** `_execute_goal_loop`: ask for one action, frame it with screenshots, run it,
    and ask whether the goal is met, for at most `max_steps` steps. The page,
    the oracle and the executor are abstract functions of an opaque world. */
module GoalLoop {
  import opened Wrappers
  import opened Text
  import opened Numerals
  import opened Slugs
  import opened Naming
  import opened JsonValues
  import opened Reply
  import opened Hints
  import opened Actions

  const MaxPageText: nat := 4000
  const MaxInputHints: nat := 20
  const MaxButtonHints: nat := 15
  const MaxAlertHints: nat := 10
  const HistoryWindow: nat := 5
  const MaxVerifyText: nat := 3000
  const MaxVerifyAlerts: nat := 5
  const StateLength: nat := 1500

  /** The first `n` elements of `s`, or all of `s` when it is shorter. */
  function Take<T>(s: seq<T>, n: nat): (r: seq<T>)
    ensures |r| == if |s| <= n then |s| else n
    ensures r == s[..|r|]
  {
    if |s| <= n then s else s[..n]
  }

  /** The last `n` elements of `s`, or all of `s` when it is shorter. */
  function LastN<T>(s: seq<T>, n: nat): (r: seq<T>)
    ensures |r| == if |s| <= n then |s| else n
    ensures r == s[|s| - |r|..]
  {
    if |s| <= n then s else s[|s| - n..]
  }

  /** What the loop is asked to do: the goal text and the application's name. */
  datatype Task = Task(goal: string, appName: string)

  datatype StepStatus = Succeeded | Failed

  /** One entry of `action_history`; the locator is kept as the action gave
      it. */
  datatype StepRecord = StepRecord(
    step: nat, kind: Option<string>, stepLabel: string,
    locator: LocatorField, text: string, status: StepStatus)

  /** What the decision step shows the oracle (the prompt text around it is
      not modelled). */
  datatype DecisionRequest = DecisionRequest(
    goal: string, appName: string, step: nat, pageText: string,
    inputs: seq<InputHint>, buttons: seq<ButtonHint>, alerts: seq<AlertHint>,
    recent: seq<StepRecord>)

  datatype CompletionRequest = CompletionRequest(goal: string, pageText: string, alerts: seq<AlertHint>)

  /** Every list the decision step shows is a bounded prefix of what the page
      offers, and the history it shows is the most recent five entries in
      their original order. */
  function DecisionRequestOf(goal: string, appName: string, step: nat, text: string, hints: DomHints, history: seq<StepRecord>)
    : (r: DecisionRequest)
    ensures |r.pageText| <= MaxPageText && IsPrefix(r.pageText, text)
    ensures |text| <= MaxPageText ==> r.pageText == text
    ensures |r.pageText| == if |text| <= MaxPageText then |text| else MaxPageText
    ensures |r.inputs| == if |hints.inputs| <= MaxInputHints then |hints.inputs| else MaxInputHints
    ensures |r.buttons| == if |hints.buttons| <= MaxButtonHints then |hints.buttons| else MaxButtonHints
    ensures |r.alerts| == if |hints.alerts| <= MaxAlertHints then |hints.alerts| else MaxAlertHints
    ensures |r.inputs| <= MaxInputHints && IsPrefix(r.inputs, hints.inputs)
    ensures |r.buttons| <= MaxButtonHints && IsPrefix(r.buttons, hints.buttons)
    ensures |r.alerts| <= MaxAlertHints && IsPrefix(r.alerts, hints.alerts)
    ensures |r.recent| <= HistoryWindow && IsSuffix(r.recent, history)
    ensures |r.recent| == HistoryWindow || r.recent == history
  {
    DecisionRequest(goal, appName, step, Take(text, MaxPageText),
      Take(hints.inputs, MaxInputHints), Take(hints.buttons, MaxButtonHints),
      Take(hints.alerts, MaxAlertHints), LastN(history, HistoryWindow))
  }

  function CompletionRequestOf(goal: string, text: string, hints: DomHints): (r: CompletionRequest)
    ensures |r.pageText| <= MaxVerifyText && IsPrefix(r.pageText, text)
    ensures |r.alerts| <= MaxVerifyAlerts && IsPrefix(r.alerts, hints.alerts)
    ensures |r.pageText| == if |text| <= MaxVerifyText then |text| else MaxVerifyText
    ensures |r.alerts| == if |hints.alerts| <= MaxVerifyAlerts then |hints.alerts| else MaxVerifyAlerts
  {
    CompletionRequest(goal, Take(text, MaxVerifyText), Take(hints.alerts, MaxVerifyAlerts))
  }

  /** How the loop reads a decision reply. */
  datatype Decision =
    | Finish        // an object whose `type` is `done`
    | Act(action: Action)
    | Abort         // the decision step raised: the loop raises with it

  /** A reply that cannot be read as an object ends the task; an action is
      only ever taken from an object the reply actually contains. */
  function ReadDecision(parse: string -> Option<Json>, content: string): (d: Decision)
    ensures d.Abort? <==> DecideReply(parse, content).Failure? || !DecideReply(parse, content).value.JObject?
    ensures !d.Abort? ==> (d.Finish? <==> ActionOf(DecideReply(parse, content).value.fields).IsDone())
    ensures d.Act? ==> d.action == ActionOf(DecideReply(parse, content).value.fields) && !d.action.IsDone()
  {
    match DecideReply(parse, content)
    case Failure(_) => Abort
    case Success(j) =>
      if j.JObject? then
        var a := ActionOf(j.fields);
        if a.IsDone() then Finish else Act(a)
      else Abort
  }

  /** The history summary reads every shown entry's locator with `.get`, so
      it can only be built when each of them is an object. */
  predicate HistoryReadable(recent: seq<StepRecord>) {
    forall i :: 0 <= i < |recent| ==> recent[i].locator.LocObject?
  }

  /** Whether the action's label is usable as text: missing, or a string. Any
      other label makes the loop raise on the step (`.lower()` on it). */
  predicate LabelIsText(a: Action) {
    a.labelField.None? || a.labelField.value.JString?
  }

  /** The label as the completion gating reads it: `""` when missing. */
  function LabelString(a: Action): string {
    if a.labelField.Some? && a.labelField.value.JString? then a.labelField.value.s else []
  }

  /** The label of a step's screenshots and history entry: a non-empty label
      string, or `step_<n>` in its place. */
  function StepLabel(a: Action, step: nat): (r: string)
    ensures r != []
    ensures LabelString(a) != [] ==> r == LabelString(a)
    ensures LabelString(a) == [] ==> r == "step_" + NatToString(step)
  {
    if LabelString(a) != [] then LabelString(a) else "step_" + NatToString(step)
  }

  /** A click whose label announces that it only opens something. */
  predicate MentionsOpening(lbl: string) {
    var l := Lower(lbl);
    Contains(l, "open") || Contains(l, "expand") || Contains(l, "show") || Contains(l, "menu") || Contains(l, "dropdown")
  }

  /** Whether the completion check runs after step `step`, with `historyLength`
      entries in the history (the current step included). */
  predicate VerifyAllowed(a: Action, step: nat, historyLength: nat) {
    var exploratory := a.kind == Some("click") && MentionsOpening(LabelString(a)) && historyLength < 3;
    !IsFillKind(a) && !exploratory && step >= 2
  }

  /** Inside the loop the history holds exactly `step` entries at the check,
      so the exploratory-click exemption can only matter at step 2. */
  lemma ExemptionOnlyAtStepTwo(a: Action, step: nat)
    requires step != 2
    ensures VerifyAllowed(a, step, step) <==> !IsFillKind(a) && step >= 2
  {
  }

  /** The page, the oracle and the executor. */
  datatype Env<!W> = Env(
    pageText: W -> string,                     // page.inner_text("body")
    pageScan: W -> PageScan,                   // the element queries behind the hints
    idle: W -> W,                              // the page once the decision step has answered
    execute: (W, Action) -> (W, bool),         // the page after `_do_action`, and whether it raised
    decide: (nat, DecisionRequest) -> string,  // the reply to the decision request of a step
    verify: (nat, CompletionRequest) -> string,// the reply to the k-th completion request
    parse: string -> Option<Json>)             // json.loads

  datatype Outcome =
    | Completed(step: nat)             // the oracle answered `done`
    | Verified(step: nat)              // the completion check said yes after this step
    | Aborted(step: nat)               // the decision step raised: the task fails
    | Crashed(step: nat, acted: bool)  // the step's label was not a string: the task fails,
                                       // after running the action or before it
    | Exhausted                        // `max_steps` steps ran without completion: the task fails

  /** The decision taken at step `step` in world `w` after `history`: the
      step raises before asking when a shown history entry's locator is not an
      object. */
  function DecisionAt<W>(env: Env<W>, task: Task, w: W, step: nat, history: seq<StepRecord>): (d: Decision)
    ensures !HistoryReadable(LastN(history, HistoryWindow)) ==> d == Abort
  {
    var request := DecisionRequestOf(task.goal, task.appName, step, env.pageText(w), CollectDomHints(env.pageScan(w)), history);
    if !HistoryReadable(request.recent) then Abort
    else ReadDecision(env.parse, env.decide(step, request))
  }

  /** The verdict of the `k`-th completion check, run on world `w`. */
  function VerdictAt<W>(env: Env<W>, task: Task, k: nat, w: W): bool {
    var request := CompletionRequestOf(task.goal, env.pageText(w), CollectDomHints(env.pageScan(w)));
    CompletionVerdict(env.parse, env.verify(k, request))
  }

  /** The page state the loop compares screenshots by: the first 1500
      characters of the page text. */
  function PageState<W>(env: Env<W>, w: W): (r: string)
    ensures |r| <= StateLength && IsPrefix(r, env.pageText(w))
    ensures |r| == if |env.pageText(w)| <= StateLength then |env.pageText(w)| else StateLength
  {
    Take(env.pageText(w), StateLength)
  }

  /** The four things one step of the loop depends on, each a function of the
      world: the decision, the execution on the idle page, the completion
      verdict, and the page state before acting. */
  datatype Stepper<!W> = Stepper(
    decide: (W, nat, seq<StepRecord>) -> Decision,
    act: (W, Action) -> (W, bool),
    verdict: (nat, W) -> bool,
    idleState: W -> string,
    afterState: W -> string)

  /** The stepper of a page, an oracle and an executor. */
  function StepperOf<W>(env: Env<W>, task: Task): Stepper<W> {
    Stepper(
      (w, step, history) => DecisionAt(env, task, w, step, history),
      (w, a) => env.execute(env.idle(w), a),
      (k, w) => VerdictAt(env, task, k, w),
      w => PageState(env, env.idle(w)),
      w => PageState(env, w))
  }

  /** One executed step: the world it started in, the action taken, the world
      `_do_action` left behind and whether it raised, whether the completion
      check ran and whether it said yes. */
  datatype Step<W> = Step(world: W, action: Action, after: W, raised: bool, checked: bool, verified: bool)

  /** The history entry of step number `n`. */
  function RecordOf<W>(n: nat, s: Step<W>): (r: StepRecord)
    ensures r.step == n && r.kind == s.action.kind && r.locator == s.action.locator
    ensures r.status == Failed <==> s.raised
    ensures LabelString(s.action) != [] ==> r.stepLabel == LabelString(s.action)
  {
    StepRecord(n, s.action.kind, StepLabel(s.action, n), s.action.locator, s.action.text.GetOr([]),
               if s.raised then Failed else Succeeded)
  }

  /** `action_history` after the steps of `trace`. */
  function Records<W>(trace: seq<Step<W>>): (h: seq<StepRecord>)
    ensures |h| == |trace|
    decreases |trace|
  {
    if trace == [] then [] else Records(trace[..|trace| - 1]) + [RecordOf(|trace|, trace[|trace| - 1])]
  }

  /** How many completion checks the steps of `trace` ran. */
  function ChecksIn<W>(trace: seq<Step<W>>): (n: nat)
    ensures n <= |trace|
    decreases |trace|
  {
    if trace == [] then 0 else ChecksIn(trace[..|trace| - 1]) + (if trace[|trace| - 1].checked then 1 else 0)
  }

  /** The world the next step starts in. */
  function Current<W>(world0: W, trace: seq<Step<W>>): W {
    if trace == [] then world0 else trace[|trace| - 1].after
  }

  /** Step `s` is what the loop does after the steps of `prefix`: it starts
      where they left off, takes the action read from the reply to its own
      request, records what the executor returned, runs the completion check
      exactly when the gating allows it, and counts as verified exactly when
      that check said yes. */
  ghost predicate Follows<W>(m: Stepper<W>, world0: W, prefix: seq<Step<W>>, s: Step<W>) {
    var n := |prefix| + 1;
    && s.world == Current(world0, prefix)
    && m.decide(s.world, n, Records(prefix)) == Act(s.action)
    && LabelIsText(s.action)
    && m.act(s.world, s.action) == (s.after, s.raised)
    && (s.checked <==> VerifyAllowed(s.action, n, n))
    && (s.verified <==> s.checked && m.verdict(ChecksIn(prefix), s.after))
  }

  /** For a concrete page, oracle and executor, following means: the action is
      the one read from the oracle's reply to this step's decision request,
      the executor ran it on the page as it stood once the oracle answered,
      and the verdict is the reply to the next completion request. */
  lemma FollowsConcretely<W>(env: Env<W>, task: Task, world0: W, prefix: seq<Step<W>>, s: Step<W>)
    ensures Follows(StepperOf(env, task), world0, prefix, s) <==>
      var n := |prefix| + 1;
      && s.world == Current(world0, prefix)
      && DecisionAt(env, task, s.world, n, Records(prefix)) == Act(s.action)
      && LabelIsText(s.action)
      && env.execute(env.idle(s.world), s.action) == (s.after, s.raised)
      && (s.checked <==> VerifyAllowed(s.action, n, n))
      && (s.verified <==> s.checked && VerdictAt(env, task, ChecksIn(prefix), s.after))
  {
  }

  /** A trace in which every step is accepted by `ok` given the steps before
      it, stated on the last step. */
  ghost predicate Chain<S>(ok: (seq<S>, S) -> bool, trace: seq<S>)
    decreases |trace|
  {
    trace != [] ==> Chain(ok, trace[..|trace| - 1]) && ok(trace[..|trace| - 1], trace[|trace| - 1])
  }

  /** A chain is exactly a trace in which every step is accepted after the
      steps before it. */
  lemma {:induction false} ChainSteps<S>(ok: (seq<S>, S) -> bool, trace: seq<S>)
    ensures Chain(ok, trace) <==> forall i :: 0 <= i < |trace| ==> ok(trace[..i], trace[i])
    decreases |trace|
  {
    if trace != [] {
      var n := |trace| - 1;
      var p := trace[..n];
      ChainSteps(ok, p);
      assert forall i :: 0 <= i < n ==> p[..i] == trace[..i] && p[i] == trace[i];
      if forall i :: 0 <= i < |trace| ==> ok(trace[..i], trace[i]) {
        assert ok(trace[..n], trace[n]);
        assert forall i :: 0 <= i < n ==> ok(p[..i], p[i]);
      }
    }
  }

  /** A chain grows by one step that `ok` accepts after it. */
  lemma ChainExtend<S>(ok: (seq<S>, S) -> bool, trace: seq<S>, s: S)
    requires Chain(ok, trace) && ok(trace, s)
    ensures Chain(ok, trace + [s])
  {
    assert (trace + [s])[..|trace|] == trace;
  }

  /** A run of the loop: every step follows the ones before it. */
  ghost predicate Run<W>(m: Stepper<W>, world0: W, trace: seq<Step<W>>) {
    Chain((prefix, s) => Follows(m, world0, prefix, s), trace)
  }

  /** A run is exactly a trace whose every step follows the steps before it. */
  lemma RunSteps<W>(m: Stepper<W>, world0: W, trace: seq<Step<W>>)
    ensures Run(m, world0, trace) <==>
      forall i :: 0 <= i < |trace| ==> Follows(m, world0, trace[..i], trace[i])
  {
    ChainSteps((prefix, s) => Follows(m, world0, prefix, s), trace);
  }

  /** A run grows by one step that follows it. */
  lemma RunExtend<W>(m: Stepper<W>, world0: W, trace: seq<Step<W>>, s: Step<W>)
    requires Run(m, world0, trace) && Follows(m, world0, trace, s)
    ensures Run(m, world0, trace + [s])
  {
    ChainExtend((prefix, s) => Follows(m, world0, prefix, s), trace, s);
  }

  /** A step whose completion check did not say yes. */
  predicate Unverified<W>(prefix: seq<Step<W>>, s: Step<W>) {
    !s.verified
  }

  /** In a chain of unverified steps no step was verified. */
  lemma AllUnverified<W>(trace: seq<Step<W>>)
    requires Chain(Unverified, trace)
    ensures forall i :: 0 <= i < |trace| ==> !trace[i].verified
  {
    ChainSteps(Unverified, trace);
    assert forall i :: 0 <= i < |trace| ==> Unverified(trace[..i], trace[i]);
  }

  /** A before-frame is taken unless the page state equals what the last
      after-frame showed. */
  predicate NeedsBefore(lastAfter: Option<string>, beforeState: string) {
    lastAfter.None? || beforeState != lastAfter.value
  }

  /** The screenshots of one step, in order: a before-frame when the page
      changed since the last after-frame, then always an after-frame, both
      named by the slugged label. */
  function StepFrames(lastAfter: Option<string>, beforeState: string, stepLabel: string): (fs: seq<string>)
    ensures 1 <= |fs| <= 2
    ensures fs[|fs| - 1] == "after_" + Slug(stepLabel)
    ensures |fs| == 2 <==> NeedsBefore(lastAfter, beforeState)
    ensures |fs| == 2 ==> fs[0] == "before_" + Slug(stepLabel)
  {
    var after := ["after_" + Slug(stepLabel)];
    if NeedsBefore(lastAfter, beforeState) then ["before_" + Slug(stepLabel)] + after else after
  }

  /** The page state the next step's before-frame is compared with. */
  function LastAfter<W>(m: Stepper<W>, initialAfter: Option<string>, trace: seq<Step<W>>): Option<string> {
    if trace == [] then initialAfter else Some(m.afterState(trace[|trace| - 1].after))
  }

  /** The reference list of screenshot labels of a run, step by step. */
  function FramesOf<W>(m: Stepper<W>, initialAfter: Option<string>, trace: seq<Step<W>>): seq<string>
    decreases |trace|
  {
    if trace == [] then []
    else
      var prefix, s := trace[..|trace| - 1], trace[|trace| - 1];
      FramesOf(m, initialAfter, prefix)
        + StepFrames(LastAfter(m, initialAfter, prefix), m.idleState(s.world), StepLabel(s.action, |trace|))
  }

  /** Each step adds one or two frames. */
  lemma {:induction false} FramesBounds<W>(m: Stepper<W>, initialAfter: Option<string>, trace: seq<Step<W>>)
    ensures |trace| <= |FramesOf(m, initialAfter, trace)| <= 2 * |trace|
    decreases |trace|
  {
    if trace != [] {
      FramesBounds(m, initialAfter, trace[..|trace| - 1]);
    }
  }

  /** The frames taken on the step whose label is not a string: none when
      the label is truthy (slugging it raises before the first screenshot),
      else the usual frames under `step_<n>` (the raise comes only after). */
  function CrashFrames(lastAfter: Option<string>, beforeState: string, a: Action, step: nat): (fs: seq<string>)
    requires !LabelIsText(a)
    ensures Truthy(a.labelField.value) ==> fs == []
    ensures !Truthy(a.labelField.value) ==> fs == StepFrames(lastAfter, beforeState, "step_" + NatToString(step))
  {
    if Truthy(a.labelField.value) then [] else StepFrames(lastAfter, beforeState, "step_" + NatToString(step))
  }

  /** Whether the action of such a step ran before the loop raised: it does
      unless the raise came at the before-frame. */
  predicate CrashActs(lastAfter: Option<string>, beforeState: string, a: Action)
    requires !LabelIsText(a)
  {
    !Truthy(a.labelField.value) || !NeedsBefore(lastAfter, beforeState)
  }

  /** One step once the decision step has chosen `action`: execute it on the
      idle page, then run the completion check if the gating allows it. */
  method TakeStep<W>(m: Stepper<W>, world0: W, trace: seq<Step<W>>, action: Action)
    returns (s: Step<W>)
    requires m.decide(Current(world0, trace), |trace| + 1, Records(trace)) == Act(action)
    requires LabelIsText(action)
    ensures Follows(m, world0, trace, s)
    ensures s.world == Current(world0, trace) && s.action == action
    ensures (s.after, s.raised) == m.act(s.world, action)
    ensures s.checked <==> VerifyAllowed(action, |trace| + 1, |trace| + 1)
    ensures s.verified <==> s.checked && m.verdict(ChecksIn(trace), s.after)
  {
    var step := |trace| + 1;
    var world := Current(world0, trace);
    var (after, raised) := m.act(world, action);
    var check := VerifyAllowed(action, step, step);
    var verdict := false;
    if check {
      verdict := m.verdict(ChecksIn(trace), after);
    }
    s := Step(world, action, after, raised, check, verdict);
  }

  /** Taking the screenshots of step `step`: the step's frames are appended,
      the counter advances once per frame, and the next step compares against
      the page state after this one. */
  method Screenshots<W>(m: Stepper<W>, lastAfter: Option<string>, s: Step<W>, step: nat,
                        frames: seq<string>, snapSeq: nat)
    returns (frames': seq<string>, snapSeq': nat, nextAfter: Option<string>)
    ensures frames' == frames + StepFrames(lastAfter, m.idleState(s.world), StepLabel(s.action, step))
    ensures |frames| + 1 <= |frames'| <= |frames| + 2
    ensures snapSeq' == snapSeq + (|frames'| - |frames|)
    ensures nextAfter == Some(m.afterState(s.after))
  {
    var fs := StepFrames(lastAfter, m.idleState(s.world), StepLabel(s.action, step));
    frames', snapSeq' := frames + fs, snapSeq + |fs|;
    nextAfter := Some(m.afterState(s.after));
  }

  /** `action_history` grows by the record of the new step, the count of
      completion checks by one exactly when the new step ran one, and the
      frames by the new step's frames. */
  lemma TraceExtend<W>(m: Stepper<W>, initialAfter: Option<string>, trace: seq<Step<W>>, s: Step<W>)
    ensures Records(trace + [s]) == Records(trace) + [RecordOf(|trace| + 1, s)]
    ensures ChecksIn(trace + [s]) == ChecksIn(trace) + (if s.checked then 1 else 0)
    ensures FramesOf(m, initialAfter, trace + [s]) ==
      FramesOf(m, initialAfter, trace)
        + StepFrames(LastAfter(m, initialAfter, trace), m.idleState(s.world), StepLabel(s.action, |trace| + 1))
    ensures LastAfter(m, initialAfter, trace + [s]) == Some(m.afterState(s.after))
  {
    assert (trace + [s])[..|trace|] == trace;
  }

  /** Entry `i` of the history is the record of step `i + 1`. */
  lemma {:induction false} RecordsNumbered<W>(trace: seq<Step<W>>)
    ensures forall i :: 0 <= i < |trace| ==> Records(trace)[i].step == i + 1
    decreases |trace|
  {
    if trace != [] {
      var p := trace[..|trace| - 1];
      RecordsNumbered(p);
      assert Records(trace) == Records(p) + [RecordOf(|trace|, trace[|trace| - 1])];
    }
  }

  /** What the loop does with a decided action whose label is not a string. */
  method CrashStep<W>(m: Stepper<W>, lastAfter: Option<string>, world: W, a: Action, step: nat,
                      frames: seq<string>, snapSeq: nat)
    returns (outcome: Outcome, frames': seq<string>, snapSeq': nat)
    requires !LabelIsText(a)
    ensures outcome == Crashed(step, CrashActs(lastAfter, m.idleState(world), a))
    ensures frames' == frames + CrashFrames(lastAfter, m.idleState(world), a, step)
    ensures snapSeq' == snapSeq + (|frames'| - |frames|)
  {
    var before := m.idleState(world);
    var fs: seq<string> := [];
    var acted := true;
    if Truthy(a.labelField.value) {
      acted := !NeedsBefore(lastAfter, before);
    } else {
      fs := StepFrames(lastAfter, before, "step_" + NatToString(step));
    }
    outcome := Crashed(step, acted);
    frames', snapSeq' := frames + fs, snapSeq + |fs|;
  }

  /** What the loop keeps between iterations after the steps of `trace`: they
      form a run, and the history, the check count, the frames, the counter
      and the last after-state are the ones that run produced. */
  ghost predicate Between<W>(m: Stepper<W>, world0: W, initialAfter: Option<string>, seq0: nat, trace: seq<Step<W>>,
                             history: seq<StepRecord>, frames: seq<string>, snapSeq: nat,
                             lastAfter: Option<string>, verifyCalls: nat) {
    && Run(m, world0, trace)
    && history == Records(trace)
    && verifyCalls == ChecksIn(trace)
    && frames == FramesOf(m, initialAfter, trace)
    && snapSeq == seq0 + |frames|
    && lastAfter == LastAfter(m, initialAfter, trace)
  }

  /** One full step of the loop after a decided action with a usable label:
      the run, the history, the check count and the frames all grow by it. */
  method Advance<W>(m: Stepper<W>, world0: W, initialAfter: Option<string>, seq0: nat, trace: seq<Step<W>>,
                    action: Action, history: seq<StepRecord>, frames: seq<string>, snapSeq: nat,
                    lastAfter: Option<string>, verifyCalls: nat)
    returns (s: Step<W>, history': seq<StepRecord>, frames': seq<string>, snapSeq': nat,
             lastAfter': Option<string>, verifyCalls': nat)
    requires m.decide(Current(world0, trace), |trace| + 1, Records(trace)) == Act(action)
    requires LabelIsText(action)
    requires Between(m, world0, initialAfter, seq0, trace, history, frames, snapSeq, lastAfter, verifyCalls)
    ensures Between(m, world0, initialAfter, seq0, trace + [s], history', frames', snapSeq', lastAfter', verifyCalls')
    ensures s.world == Current(world0, trace) && Current(world0, trace + [s]) == s.after
  {
    s := TakeStep(m, world0, trace, action);
    frames', snapSeq', lastAfter' := Screenshots(m, lastAfter, s, |trace| + 1, frames, snapSeq);
    history' := history + [RecordOf(|trace| + 1, s)];
    verifyCalls' := if s.checked then verifyCalls + 1 else verifyCalls;
    BetweenExtend(m, world0, initialAfter, seq0, trace, s, history, frames, snapSeq, lastAfter, verifyCalls,
                  history', frames', snapSeq', lastAfter', verifyCalls');
  }

  /** What the loop keeps holds again once a step that follows is added. */
  lemma BetweenExtend<W>(m: Stepper<W>, world0: W, initialAfter: Option<string>, seq0: nat, trace: seq<Step<W>>,
                         s: Step<W>, history: seq<StepRecord>, frames: seq<string>, snapSeq: nat,
                         lastAfter: Option<string>, verifyCalls: nat, history': seq<StepRecord>,
                         frames': seq<string>, snapSeq': nat, lastAfter': Option<string>, verifyCalls': nat)
    requires Between(m, world0, initialAfter, seq0, trace, history, frames, snapSeq, lastAfter, verifyCalls)
    requires Follows(m, world0, trace, s)
    requires history' == history + [RecordOf(|trace| + 1, s)]
    requires verifyCalls' == verifyCalls + (if s.checked then 1 else 0)
    requires frames' == frames + StepFrames(lastAfter, m.idleState(s.world), StepLabel(s.action, |trace| + 1))
    requires snapSeq' == snapSeq + (|frames'| - |frames|)
    requires lastAfter' == Some(m.afterState(s.after))
    ensures Between(m, world0, initialAfter, seq0, trace + [s], history', frames', snapSeq', lastAfter', verifyCalls')
  {
    TraceExtend(m, initialAfter, trace, s);
    RunExtend(m, world0, trace, s);
    assert history' == Records(trace + [s]);
    assert verifyCalls' == ChecksIn(trace + [s]);
    assert frames' == FramesOf(m, initialAfter, trace + [s]);
  }

  /** How a run of at most `maxSteps` steps ended: the step budget, the run
      and what it produced, the decision that stopped it, and which steps the
      completion check accepted. */
  ghost predicate Ended<W>(m: Stepper<W>, maxSteps: nat, world0: W, initialAfter: Option<string>, seq0: nat,
                           outcome: Outcome, trace: seq<Step<W>>, history: seq<StepRecord>, frames: seq<string>,
                           snapSeq: nat, decideCalls: nat, verifyCalls: nat) {
    && |trace| <= maxSteps
    && (outcome.Exhausted? ==> |trace| == maxSteps == decideCalls)
    && ((outcome.Completed? || outcome.Aborted? || outcome.Crashed?) ==> outcome.step == |trace| + 1 == decideCalls <= maxSteps)
    && (outcome.Verified? ==> outcome.step == |trace| == decideCalls)
    && Run(m, world0, trace) && history == Records(trace) && verifyCalls == ChecksIn(trace)
    && (outcome.Completed? ==> m.decide(Current(world0, trace), |trace| + 1, history) == Finish)
    && (outcome.Aborted? ==> m.decide(Current(world0, trace), |trace| + 1, history) == Abort)
    && (outcome.Crashed? ==>
         var d := m.decide(Current(world0, trace), |trace| + 1, history);
         && d.Act? && !LabelIsText(d.action)
         && outcome.acted == CrashActs(LastAfter(m, initialAfter, trace), m.idleState(Current(world0, trace)), d.action)
         && frames == FramesOf(m, initialAfter, trace)
              + CrashFrames(LastAfter(m, initialAfter, trace), m.idleState(Current(world0, trace)), d.action, |trace| + 1))
    && (outcome.Verified? ==> trace != [] && trace[|trace| - 1].verified && Chain(Unverified, trace[..|trace| - 1]))
    && (!outcome.Verified? ==> Chain(Unverified, trace))
    && snapSeq == seq0 + |frames|
    && (!outcome.Crashed? ==> frames == FramesOf(m, initialAfter, trace))
  }

  /** The loop stops when the decision step answers `done` or raises. */
  lemma EndDecided<W>(m: Stepper<W>, maxSteps: nat, world0: W, initialAfter: Option<string>, seq0: nat,
                      trace: seq<Step<W>>, history: seq<StepRecord>, frames: seq<string>, snapSeq: nat,
                      lastAfter: Option<string>, verifyCalls: nat)
    requires |trace| < maxSteps && Chain(Unverified, trace)
    requires Between(m, world0, initialAfter, seq0, trace, history, frames, snapSeq, lastAfter, verifyCalls)
    requires !m.decide(Current(world0, trace), |trace| + 1, history).Act?
    ensures
      var d := m.decide(Current(world0, trace), |trace| + 1, history);
      var outcome := if d.Finish? then Completed(|trace| + 1) else Aborted(|trace| + 1);
      Ended(m, maxSteps, world0, initialAfter, seq0, outcome, trace, history, frames, snapSeq, |trace| + 1, verifyCalls)
  {
  }

  /** The loop stops when the decided label is not a string. */
  lemma EndCrashed<W>(m: Stepper<W>, maxSteps: nat, world0: W, initialAfter: Option<string>, seq0: nat,
                      trace: seq<Step<W>>, history: seq<StepRecord>, frames: seq<string>, snapSeq: nat,
                      lastAfter: Option<string>, verifyCalls: nat,
                      a: Action, outcome: Outcome, frames': seq<string>, snapSeq': nat)
    requires |trace| < maxSteps && Chain(Unverified, trace)
    requires Between(m, world0, initialAfter, seq0, trace, history, frames, snapSeq, lastAfter, verifyCalls)
    requires m.decide(Current(world0, trace), |trace| + 1, history) == Act(a) && !LabelIsText(a)
    requires outcome == Crashed(|trace| + 1, CrashActs(lastAfter, m.idleState(Current(world0, trace)), a))
    requires frames' == frames + CrashFrames(lastAfter, m.idleState(Current(world0, trace)), a, |trace| + 1)
    requires snapSeq' == snapSeq + (|frames'| - |frames|)
    ensures Ended(m, maxSteps, world0, initialAfter, seq0, outcome, trace, history, frames', snapSeq', |trace| + 1, verifyCalls)
  {
  }

  /** The loop stops after a step the completion check accepted. */
  lemma EndVerified<W>(m: Stepper<W>, maxSteps: nat, world0: W, initialAfter: Option<string>, seq0: nat,
                       trace: seq<Step<W>>, s: Step<W>, history: seq<StepRecord>, frames: seq<string>, snapSeq: nat,
                       lastAfter: Option<string>, verifyCalls: nat)
    requires |trace| < maxSteps && Chain(Unverified, trace) && s.verified
    requires Between(m, world0, initialAfter, seq0, trace + [s], history, frames, snapSeq, lastAfter, verifyCalls)
    ensures Ended(m, maxSteps, world0, initialAfter, seq0, Verified(|trace| + 1), trace + [s], history, frames, snapSeq,
                  |trace| + 1, verifyCalls)
  {
    assert (trace + [s])[..|trace|] == trace;
  }

  /** The loop stops when the step budget is spent. */
  lemma EndExhausted<W>(m: Stepper<W>, maxSteps: nat, world0: W, initialAfter: Option<string>, seq0: nat,
                        trace: seq<Step<W>>, history: seq<StepRecord>, frames: seq<string>, snapSeq: nat,
                        lastAfter: Option<string>, verifyCalls: nat)
    requires |trace| == maxSteps && Chain(Unverified, trace)
    requires Between(m, world0, initialAfter, seq0, trace, history, frames, snapSeq, lastAfter, verifyCalls)
    ensures Ended(m, maxSteps, world0, initialAfter, seq0, Exhausted, trace, history, frames, snapSeq, maxSteps, verifyCalls)
  {
  }

  /** A trace whose steps before the last form a chain of unverified steps. */
  lemma ButLastUnverified<W>(trace: seq<Step<W>>)
    requires trace != [] && Chain(Unverified, trace[..|trace| - 1])
    ensures forall i :: 0 <= i < |trace| - 1 ==> !trace[i].verified
  {
    var p := trace[..|trace| - 1];
    AllUnverified(p);
    assert forall i :: 0 <= i < |p| ==> p[i] == trace[i];
  }

  /** The loop itself; `RunLoop` states what follows from how it stopped. */
  method Loop<W>(m: Stepper<W>, maxSteps: nat, world0: W, initialAfter: Option<string>, seq0: nat)
    returns (outcome: Outcome, trace: seq<Step<W>>, history: seq<StepRecord>, frames: seq<string>,
             snapSeq: nat, decideCalls: nat, verifyCalls: nat)
    ensures Ended(m, maxSteps, world0, initialAfter, seq0, outcome, trace, history, frames, snapSeq, decideCalls, verifyCalls)
  {
    trace, history, frames := [], [], [];
    decideCalls, verifyCalls, snapSeq := 0, 0, seq0;
    var world := world0;
    var lastAfter := initialAfter;
    var step: nat := 1;
    while step <= maxSteps
      invariant 1 <= step <= maxSteps + 1
      invariant |trace| == step - 1 == decideCalls
      invariant world == Current(world0, trace)
      invariant Chain(Unverified, trace)
      invariant Between(m, world0, initialAfter, seq0, trace, history, frames, snapSeq, lastAfter, verifyCalls)
    {
      var decision := m.decide(world, step, history);
      decideCalls := decideCalls + 1;
      if !decision.Act? {
        EndDecided(m, maxSteps, world0, initialAfter, seq0, trace, history, frames, snapSeq, lastAfter, verifyCalls);
        outcome := if decision.Finish? then Completed(step) else Aborted(step);
        return;
      }
      if !LabelIsText(decision.action) {
        var frames', snapSeq';
        outcome, frames', snapSeq' := CrashStep(m, lastAfter, world, decision.action, step, frames, snapSeq);
        EndCrashed(m, maxSteps, world0, initialAfter, seq0, trace, history, frames, snapSeq, lastAfter, verifyCalls,
                   decision.action, outcome, frames', snapSeq');
        frames, snapSeq := frames', snapSeq';
        return;
      }
      var s;
      s, history, frames, snapSeq, lastAfter, verifyCalls :=
        Advance(m, world0, initialAfter, seq0, trace, decision.action, history, frames, snapSeq, lastAfter, verifyCalls);
      if s.verified {
        EndVerified(m, maxSteps, world0, initialAfter, seq0, trace, s, history, frames, snapSeq, lastAfter, verifyCalls);
        trace := trace + [s];
        outcome := Verified(step);
        return;
      }
      ChainExtend(Unverified, trace, s);
      trace := trace + [s];
      world := s.after;
      step := step + 1;
    }
    EndExhausted(m, maxSteps, world0, initialAfter, seq0, trace, history, frames, snapSeq, lastAfter, verifyCalls);
    outcome := Exhausted;
  }

  /** The loop of `_execute_goal_loop` over any stepper. */
  method RunLoop<W>(m: Stepper<W>, maxSteps: nat, world0: W, initialAfter: Option<string>, seq0: nat)
    returns (outcome: Outcome, trace: seq<Step<W>>, history: seq<StepRecord>, frames: seq<string>,
             snapSeq: nat, decideCalls: nat, verifyCalls: nat)
    // the step budget
    ensures decideCalls <= maxSteps && |trace| <= maxSteps
    ensures outcome.Exhausted? ==> |trace| == maxSteps == decideCalls
    ensures (outcome.Completed? || outcome.Aborted? || outcome.Crashed?) ==> outcome.step == |trace| + 1 == decideCalls
    ensures outcome.Verified? ==> outcome.step == |trace| == decideCalls
    // every executed step is what the loop does after the ones before it
    ensures Run(m, world0, trace)
    ensures history == Records(trace)
    ensures forall i :: 0 <= i < |history| ==> history[i].step == i + 1
    // how the run ended
    ensures outcome.Completed? ==> m.decide(Current(world0, trace), |trace| + 1, history) == Finish
    ensures outcome.Aborted? ==> m.decide(Current(world0, trace), |trace| + 1, history) == Abort
    ensures outcome.Crashed? ==>
      var d := m.decide(Current(world0, trace), |trace| + 1, history);
      && d.Act? && !LabelIsText(d.action)
      && outcome.acted == CrashActs(LastAfter(m, initialAfter, trace), m.idleState(Current(world0, trace)), d.action)
      && frames == FramesOf(m, initialAfter, trace)
           + CrashFrames(LastAfter(m, initialAfter, trace), m.idleState(Current(world0, trace)), d.action, |trace| + 1)
    ensures outcome.Verified? <==> trace != [] && trace[|trace| - 1].verified
    ensures forall i :: 0 <= i < |trace| - 1 ==> !trace[i].verified
    ensures verifyCalls == ChecksIn(trace)
    // screenshots: the counter advances once per frame, and the frames are the run's
    ensures snapSeq == seq0 + |frames|
    ensures !outcome.Crashed? ==> frames == FramesOf(m, initialAfter, trace)
    ensures !outcome.Crashed? ==> |trace| <= |frames| <= 2 * |trace|
  {
    outcome, trace, history, frames, snapSeq, decideCalls, verifyCalls := Loop(m, maxSteps, world0, initialAfter, seq0);
    RecordsNumbered(trace);
    FramesBounds(m, initialAfter, trace);
    if outcome.Verified? {
      ButLastUnverified(trace);
    } else {
      AllUnverified(trace);
    }
  }

  /** `_execute_goal_loop` on a page, an oracle and an executor. */
  method ExecuteGoalLoop<W>(env: Env<W>, task: Task, maxSteps: nat, world0: W, initialAfter: Option<string>, seq0: nat)
    returns (outcome: Outcome, trace: seq<Step<W>>, history: seq<StepRecord>, frames: seq<string>,
             snapSeq: nat, decideCalls: nat, verifyCalls: nat)
    ensures decideCalls <= maxSteps && |trace| <= maxSteps
    ensures outcome.Exhausted? ==> |trace| == maxSteps == decideCalls
    ensures (outcome.Completed? || outcome.Aborted? || outcome.Crashed?) ==> outcome.step == |trace| + 1 == decideCalls
    ensures outcome.Verified? ==> outcome.step == |trace| == decideCalls
    ensures Run(StepperOf(env, task), world0, trace) && history == Records(trace)
    ensures forall i :: 0 <= i < |history| ==> history[i].step == i + 1
    ensures outcome.Completed? ==> DecisionAt(env, task, Current(world0, trace), |trace| + 1, history) == Finish
    ensures outcome.Aborted? ==> DecisionAt(env, task, Current(world0, trace), |trace| + 1, history) == Abort
    ensures outcome.Crashed? ==>
      var d := DecisionAt(env, task, Current(world0, trace), |trace| + 1, history);
      var last := LastAfter(StepperOf(env, task), initialAfter, trace);
      var before := StepperOf(env, task).idleState(Current(world0, trace));
      && d.Act? && !LabelIsText(d.action)
      && outcome.acted == CrashActs(last, before, d.action)
      && frames == FramesOf(StepperOf(env, task), initialAfter, trace) + CrashFrames(last, before, d.action, |trace| + 1)
    ensures outcome.Verified? <==> trace != [] && trace[|trace| - 1].verified
    ensures forall i :: 0 <= i < |trace| - 1 ==> !trace[i].verified
    ensures verifyCalls == ChecksIn(trace)
    ensures snapSeq == seq0 + |frames|
    ensures !outcome.Crashed? ==> frames == FramesOf(StepperOf(env, task), initialAfter, trace)
    ensures !outcome.Crashed? ==> |trace| <= |frames| <= 2 * |trace|
  {
    var m := StepperOf(env, task);
    outcome, trace, history, frames, snapSeq, decideCalls, verifyCalls := RunLoop(m, maxSteps, world0, initialAfter, seq0);
    var w := Current(world0, trace);
    assert m.decide(w, |trace| + 1, history) == DecisionAt(env, task, w, |trace| + 1, history);
  }

  /** A step whose locator is not an object is the last step of any run: the
      next decision step cannot summarise the history and raises. */
  lemma OtherLocatorEndsRun<W>(env: Env<W>, task: Task, world0: W, trace: seq<Step<W>>, i: nat)
    requires Run(StepperOf(env, task), world0, trace)
    requires i + 1 < |trace|
    ensures trace[i].action.locator.LocObject?
  {
    var m := StepperOf(env, task);
    var prefix, s := trace[..i + 1], trace[i + 1];
    RunSteps(m, world0, trace);
    assert Follows(m, world0, prefix, s);
    FollowsConcretely(env, task, world0, prefix, s);
    var h := Records(prefix);
    assert DecisionAt(env, task, s.world, i + 2, h) == Act(s.action);
    var recent := LastN(h, HistoryWindow);
    assert HistoryReadable(recent);
    LastRecord(prefix);
    assert recent[|recent| - 1] == h[|h| - 1];
  }

  /** The last history entry of a non-empty trace records its last step. */
  lemma LastRecord<W>(trace: seq<Step<W>>)
    requires trace != []
    ensures Records(trace)[|trace| - 1] == RecordOf(|trace|, trace[|trace| - 1])
  {
  }

  /** Screenshot files never collide: the `i`-th frame after a counter at
      `seq0` is numbered `seq0 + 1 + i`, and distinct numbers give distinct
      names whatever the labels. */
  lemma FrameFilesDistinct(seq0: nat, frames: seq<string>, i: nat, j: nat)
    requires i < j < |frames|
    ensures SnapName(seq0 + 1 + i, frames[i]) != SnapName(seq0 + 1 + j, frames[j])
  {
    if SnapName(seq0 + 1 + i, frames[i]) == SnapName(seq0 + 1 + j, frames[j]) {
      SnapNameInjective(seq0 + 1 + i, frames[i], seq0 + 1 + j, frames[j]);
    }
  }
}
