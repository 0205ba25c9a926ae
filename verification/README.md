# Browser agent core, modelled in Dafny

This project models the decision-and-execution core of the browser agent in
`agents/agent_b.py`. The agent answers a question about a web application by
driving a real browser. It runs a loop of at most `max_steps` steps. Each step
asks a language model for one JSON action, frames the action with screenshots,
executes it on the page, and sometimes asks a second model call whether the
goal is met.

The model covers:

- how the task folder and the screenshot files are named;
- the DOM hints the decision step is shown;
- how an oracle reply is read back as one JSON object;
- how an action's locator resolves to a page query;
- what each action type does to the page;
- the fill-text normalisation and the fill gate;
- the completion verdict;
- the loop itself, with its history and frames.

The browser, the language model and the JSON parser are parameters. Nothing is
executed. Every property below is proved by the verifier for all inputs.

Modules, in dependency order:

- `Wrappers`: `Option` and `Result`.
- `Text`: Python's `strip`, ASCII `lower`, `in`, `replace` and `split`.
- `Numerals`: `str(n)` and `f"{n:02d}"`.
- `JsonValues`: JSON values and truthiness.
- `Slugs`: `_slug`.
- `Naming`: the app-name removal, the task folder and the screenshot names.
- `Elements`: element reads that may throw.
- `Fields`: `_normalize_fill_text` and `_should_fill`.
- `Reply`: the JSON scan of a decision reply and of a completion reply.
- `Hints`: `_collect_dom_hints`.
- `Actions`: the action object read from the reply.
- `Locators`: locator resolution.
- `Executor`: `_do_action`.
- `GoalLoop`: `_decide_next_action`, `_check_goal_completion` and
  `_execute_goal_loop`.

Behaviours of the code that the model keeps as written:

- A placeholder strips text only when the text literally starts with it
  (agents/agent_b.py:1019-1021). So the placeholder `e.g. myproject-` strips
  nothing from `myproject-x7q2`. See `Fields.PlaceholderMustBeLiteralPrefix`.
- A click whose target, text fallback and hint remap all find nothing
  returns without raising (agents/agent_b.py:725-732). The loop then records
  the step as a success (agents/agent_b.py:383-392). In the model such a click
  is `NoEffect` or `ClickRemap`, never `Raised`.
- The hint scan runs its three element queries inside one `try`
  (agents/agent_b.py:129-233). A failing query therefore also empties every
  category after it, not just its own.
- The exploratory-click exemption from the completion check tests
  `len(action_history) < 3` after the current step was appended, and the
  check needs `step_num >= 2` (agents/agent_b.py:429-432). So the exemption
  can only matter at step 2. See `GoalLoop.ExemptionOnlyAtStepTwo`.
- The run journal append (agents/agent_b.py:406-407) is outside any `try`,
  and it reads the locator with `.get` (agents/agent_b.py:1080-1087). See
  "Left out".
- The unknown-locator `return` (agents/agent_b.py:658-660) comes before the
  type dispatch. So goto, scroll and wait do nothing without a locator that
  resolves, although they never use the resolved target. See "Findings".

## Model

| member | source | states |
|---|---|---|
| Slugs.Slug | agents/agent_b.py:969-970 | The slug is the lower-cased input with each run of characters outside `[a-z0-9]` collapsed to one `_`, cut to its first 45 characters: a prefix of that text whose length is the smaller of its length and 45. It holds only `[a-z0-9_]`, never `__`, and is empty exactly when the input is. |
| Slugs.CollapseKeepsAlnums | agents/agent_b.py:970 | The substitution keeps every lower-case letter and digit of its input, in order, and adds none. |
| Slugs.SlugIdempotent | agents/agent_b.py:969-970 | Slugging a slug changes nothing. |
| Slugs.SlugKeepsAlnums | agents/agent_b.py:969-970 | When the substituted text fits in 45 characters, the slug keeps exactly the letters and digits of the lower-cased input. |
| Naming.RemoveAppName | agents/agent_b.py:972-1000 | The result is empty exactly when the question is. Any result other than the question itself is lower-case, stripped and no longer than the question. What is removed is pinned down by `NoMentionOnlyNormalizes`, `MentionRemoved` and `TrailingAppRemoved`. |
| Naming.NoMentionOnlyNormalizes | agents/agent_b.py:972-1000 | A non-blank question that mentions the app after none of the seven prepositions and does not end in ` <app>` is only lower-cased and stripped. |
| Naming.MentionRemoved | agents/agent_b.py:972-1000 | A question `p + " in " + app` (or any of the seven prepositions) is turned into `p`, lower-cased and stripped, whenever `p` does not mention the app. This is the docstring's own example, "create a project in Linear". |
| Naming.TrailingAppRemoved | agents/agent_b.py:996-1000 | A non-blank question `p + " " + app` with no prepositional mention of a non-empty app loses the bare trailing app name: the result is `p`, lower-cased and stripped. |
| Naming.TaskSlug | agents/agent_b.py:40-44 | The folder name is never empty. It is slug-shaped and at most 45 characters. It is `task` for an empty question, and otherwise the slug of the question without its app mention. |
| Naming.UniqueFolder | agents/agent_b.py:45-52 | The folder name returned is not taken. It is the base name when that is free. Otherwise it is `base_i` for the least `i >= 1` that is free. |
| Naming.SuffixedInjective | agents/agent_b.py:49-52 | Distinct counters give distinct `base_i` names, so the search visits a new name each time and stops. |
| Naming.SnapNameInjective | agents/agent_b.py:115-118 | A screenshot file name `NN_label.png` determines both its sequence number and its label. |
| GoalLoop.FrameFilesDistinct | agents/agent_b.py:115-118 | The frames of one task never overwrite each other: the `i`-th and `j`-th frames after the counter's start get different file names whatever their labels. |
| Numerals.Pad2 | agents/agent_b.py:117 | `f"{n:02d}"` has at least two characters, all digits, and reads back as `n`. |
| Numerals.NatToStringInjective | agents/agent_b.py:49-51 | Distinct numbers have distinct decimal renderings. |
| Numerals.NatStringRoundTrip | agents/agent_b.py:49-51 | Reading `str(n)` back as a decimal number gives `n`. |
| Fields.NormalizeFillText | agents/agent_b.py:1002-1029 | The text typed is always a suffix of the stripped text. A leading copy of the field's current value is dropped, with the `/` characters right after it. Failing that, a leading copy of the placeholder is dropped the same way. Otherwise the text stays whole. The third test (a placeholder ending in `/`) is proved dead. |
| Fields.PlaceholderMustBeLiteralPrefix | agents/agent_b.py:1019-1021 | A placeholder strips only a literal leading copy of itself: `e.g. myproject-` strips nothing from `myproject-x7q2`. |
| Fields.EchoedPlaceholderIsDropped | agents/agent_b.py:1019-1021 | On a blank field, text that repeats the placeholder is typed without it. |
| Fields.PlaceholderWithSlashExample | agents/agent_b.py:1019-1024 | With placeholder `repo/`, the text `repo/x7q2` types `x7q2`. |
| Fields.ShouldFill | agents/agent_b.py:1031-1050 | A field may be typed into exactly when the first read that succeeds (its value, else its rendered text) is blank. When both reads throw, it may be typed into. |
| Fields.HintEmptinessMatchesFillGate | agents/agent_b.py:153-170 | A hint's `empty` flag is true exactly when the fill gate would let the executor type into the same element. |
| Elements.CurrentValue | agents/agent_b.py:153-160 | The value is the stripped `input_value()`, else the stripped `inner_text()` when the first read throws, else empty. |
| Reply.FirstIndexOf | agents/agent_b.py:335 | `find` returns the first position of the character, or nothing when the character is absent. |
| Reply.ScanEnds | agents/agent_b.py:340-346 | The end-offset loop returns the first end at which the slice parses, or nothing when no slice up to the end of the text parses. |
| Reply.ExtractObject | agents/agent_b.py:335-351 | The scan fails with "no brace" exactly when the text has no `{`. It fails with "no parse" exactly when no slice from the first `{` parses. Otherwise it returns the value of the shortest slice from the first `{` that parses. |
| Reply.DecideReply | agents/agent_b.py:332-351 | A reply with no `{` is an error. A successful read is the shortest parsing slice of the stripped reply. No action is ever made up. |
| Reply.DecideReplyRoundTrip | agents/agent_b.py:332-351 | An object text wrapped in prose without `{` reads back as exactly that object. |
| Reply.CompletionVerdict | agents/agent_b.py:493-515 | A reply with no `{` is judged not completed. |
| Reply.VerdictAgreesWithScan | agents/agent_b.py:493-515 | The verdict is true exactly when the same scan as the decision step's yields an object whose `completed` is truthy. Every failure is false. |
| Hints.InputHintOf | agents/agent_b.py:131-170 | The hint carries the stripped aria-label, name, id and placeholder (empty when a read throws or the attribute is absent), the tag name (empty when its read throws) and the current value. Its `empty` flag holds exactly when the value is empty, and it agrees with the fill gate. |
| Hints.NamedButtonHint | agents/agent_b.py:206-218 | The aria-label is kept only when there is no visible text. A role outside `button`, `link` and `a` becomes `button`. The hint is an icon exactly when it has no text. |
| Hints.ButtonHintOf | agents/agent_b.py:173-218 | A button is kept exactly when it is visible and has text, an aria-label or a title. A kept hint carries the trimmed text, title, id and name. Its aria-label is empty when there is text. Its role is the read role when that is `button`, `link` or `a`, and `button` otherwise. |
| Hints.ScanButtonsAppend | agents/agent_b.py:173-218 | Each button is judged on its own and document order is kept: scanning two runs of elements is scanning each and joining the results. |
| Hints.VisibleNamedButtonIsListed | agents/agent_b.py:206-218 | A visible button with text, an aria-label or a title is listed. |
| Hints.ScanOneButton | agents/agent_b.py:173-218 | A lone button element is listed exactly when its hint is kept, and then as that hint. With `ScanButtonsAppend`, the button list is the kept hints in document order. |
| Hints.ScanAlerts | agents/agent_b.py:221-231 | Only alerts with non-blank text are listed, trimmed. A throwing read is skipped. |
| Hints.AlertHintOf | agents/agent_b.py:222-229 | An alert read gives a hint exactly when it did not throw and its text is not blank; the hint is the stripped text. |
| Hints.ScanOneAlert | agents/agent_b.py:221-231 | A lone alert read is listed exactly when it gives a hint, and then as that hint. |
| Hints.ScanAlertsAppend | agents/agent_b.py:221-231 | Each alert is judged on its own and document order is kept: scanning two runs of alerts is scanning each and joining the results. With `ScanOneAlert`, the alert list is the non-blank alerts, stripped, in order. |
| Hints.CollectDomHints | agents/agent_b.py:122-234 | A failing input query leaves every category empty. A failing button query also empties the alerts, and a failing alert query empties the alerts. Otherwise the inputs, buttons and alerts are exactly the scans of the queried elements (`ScanInputs`, `ScanButtons`, `ScanAlerts`); input hints agree with the fill gate and every button hint is well formed. |
| Actions.LocatorOf | agents/agent_b.py:528 | A missing locator reads as `{}`. A non-object locator (`null` included) is kept as it is. An object keeps its string entries. |
| Actions.ActionRoundTrip | agents/agent_b.py:526-530 | Writing an action as a JSON object and reading it back gives the same action. This includes `null` labels, `null` directions and non-object locators. |
| Actions.TextOrValue | agents/agent_b.py:529 | The text to type is `text` when it is a non-empty string, and `value` otherwise. |
| Actions.NullDirectionScrollsUp | agents/agent_b.py:530 | A scroll whose direction is `null` turns the wheel up. A missing direction turns it down. |
| Locators.SelectStrategy | agents/agent_b.py:535-660 | The role branch is taken exactly when `role` is present. An unknown locator has none of `role`, `text` or `selector`. |
| Locators.SelectStrategyFollowsPriority | agents/agent_b.py:535-660 | The if-chain is the priority table `role, aria-label, placeholder, id, name, text, selector`. The first key that applies decides the branch and hands on its value, stripped for the keys that need a truthy value. A locator none of whose keys apply is unknown. |
| Locators.OtherKeysIgnored | agents/agent_b.py:535-660 | A key outside the priority table never changes the branch. |
| Locators.NameCandidate | agents/agent_b.py:539-544 | The name is the first truthy one of `name`, `text`, `aria-label` and `label`, or none when all are falsy. |
| Locators.WordQueries | agents/agent_b.py:553-557 | There is one partial-match query per word longer than three characters, for the branch's role. |
| Locators.TryWords | agents/agent_b.py:553-562 | The word loop tries the word queries in order and stops at the first with a match. What it tried is a prefix of the candidates with no match before the last. |
| Locators.TryCandidates | agents/agent_b.py:545-562 | Exact name, then loose name, then the word queries are tried in order up to the first match, or all of them. |
| Locators.ResolveRoleChain | agents/agent_b.py:545-573 | The count-by-count chain returns the declarative choice: the first candidate with a match, else the aria-label query when an aria-label was given, else the last candidate tried. |
| Locators.ExactNameWins | agents/agent_b.py:547-549 | An exact accessible-name match wins outright. |
| Locators.AriaFallbackIsLast | agents/agent_b.py:563-573 | The aria-label query is used only when an aria-label was given and no named candidate matched. |
| Locators.RowDescent | agents/agent_b.py:575-582 | Only a `row` that matches is replaced, and only by a link or button inside it that matches. |
| Locators.FirstVisibleFrom | agents/agent_b.py:602-616 | The result is the first visible match from the position on. When there is none, it is `first`. |
| Locators.Matches | agents/agent_b.py:602-605 | `count()` agrees with the page on whether anything matches. A `.first` or `.nth` query counts at most one match. |
| Locators.Narrow | agents/agent_b.py:600-618 | A query with several matches is narrowed to its first visible match. A query with at most one match, or one that already picks a single element, is kept. |
| Locators.Resolve | agents/agent_b.py:535-660 | No query is produced exactly for an unknown locator format. An `id` or `name` locator becomes the CSS query for that attribute. |
| Locators.ResolveFollowsPriority | agents/agent_b.py:620-656 | When the first applicable key is not `role`, the query is that key's query on that key's value. |
| Executor.OtherLocatorEffect | agents/agent_b.py:535-660 | A locator that is not an object raises exactly when some branch's key test holds on it, and `null` always raises. Otherwise it falls through as an unknown format. |
| Executor.NullLocatorRaises | agents/agent_b.py:536 | A `null` locator makes `_do_action` raise, whatever the action type. |
| Executor.PageEffect | agents/agent_b.py:663-964 | goto navigates exactly when `url` is a non-empty string and does nothing otherwise. scroll turns the wheel 800 down or up by the direction. wait pauses 1500 ms. |
| Executor.SearchText | agents/agent_b.py:685-686 | The search text is the first non-empty one of `name`, `text` and `aria-label`, or none when all are empty. |
| Executor.ClickEffect | agents/agent_b.py:672-787 | A matching target is clicked. Otherwise, when there is a search text, its first text match is clicked if that match exists and is visible, and the hint remap is tried if not. With no search text nothing happens. Only matching targets are clicked. A non-empty `value` is the menu option picked. |
| Executor.FallbackFill | agents/agent_b.py:885-912 | The fallback types the text unnormalised into the first blank editable element, when one exists, reads blank and takes typing. It skips one that holds text, and does nothing when there is none. |
| Executor.FillEffect | agents/agent_b.py:826-912 | The normalised text is typed into the target exactly when the target reads blank and takes typing. A target holding text is skipped. When typing fails, the fill falls back to the first blank editable element. |
| Executor.FillTyped | agents/agent_b.py:826-910 | A fill types only into a field that reads blank and takes typing. What it types is a suffix of the stripped text, or in the fallback the text as given. |
| Executor.TargetEffect | agents/agent_b.py:672-967 | Click, fill or type, and select act on the resolved target. A select chooses `text or value`. Any other type does nothing. None of them scrolls, navigates or waits. |
| Executor.Dispatch | agents/agent_b.py:517-967 | A non-object locator raises or falls through. An unresolvable locator does nothing. Fills type only into blank fields that take typing, and only a suffix of the stripped text or the raw text in the fallback. Scrolls, goto and clicks come only from their own action types. |
| Executor.UnknownLocatorDoesNothing | agents/agent_b.py:658-660 | An action whose locator matches no branch does nothing, whatever its type. |
| Executor.LocatorlessScrollIsDropped | agents/agent_b.py:658-660 | As written, a scroll without a locator does nothing, where the corrected dispatch scrolls. |
| Executor.IntendedActsWithoutLocator | agents/agent_b.py:663-964 | The corrected dispatch always acts on goto (with a url), scroll and wait, and never raises for them. |
| Executor.IntendedAgreesElsewhere | agents/agent_b.py:517-967 | The correction changes nothing for actions that need a target, or wherever the locator resolves. |
| GoalLoop.DecisionRequestOf | agents/agent_b.py:243-256 | The decision step sees the first 4000 characters of page text, the first 20 inputs, the first 15 buttons and the first 10 alerts: each a prefix of what the page offers, as long as the smaller of its source's length and its bound. It sees the last 5 history entries in their original order. |
| GoalLoop.CompletionRequestOf | agents/agent_b.py:445-447 | The completion check sees the first 3000 characters of page text and the first 5 alerts: each a prefix, as long as the smaller of its source's length and its bound. |
| GoalLoop.ReadDecision | agents/agent_b.py:365-373 | A reply that cannot be read as an object aborts. Otherwise the step finishes exactly on type `done`, and any action taken is the one read from the reply. |
| GoalLoop.DecisionAt | agents/agent_b.py:253-258 | The decision step raises before asking when a shown history entry's locator is not an object. |
| GoalLoop.StepLabel | agents/agent_b.py:375 | The label is a non-empty label string, else `step_<n>`. |
| GoalLoop.ExemptionOnlyAtStepTwo | agents/agent_b.py:423-435 | Away from step 2, the completion check runs exactly when the action is not a fill and the step is at least 2. |
| GoalLoop.PageState | agents/agent_b.py:378 | The compared page state is the first 1500 characters of the page text: a prefix as long as the smaller of the text's length and 1500. |
| GoalLoop.RecordOf | agents/agent_b.py:383-404 | The history entry carries the step number, the type and the locator. It is `failed` exactly when `_do_action` raised. |
| GoalLoop.FollowsConcretely | agents/agent_b.py:364-437 | A step follows the ones before it exactly when all of these hold: it starts where they left off; its action is the one read from the reply to its own decision request; the executor ran that action on the page; and the completion check ran exactly when the gating allows it and verified exactly when it said yes. |
| GoalLoop.FramesBounds | agents/agent_b.py:378-421 | Each step takes one or two frames. |
| GoalLoop.RecordsNumbered | agents/agent_b.py:383-404 | History entry `i` is numbered `i + 1`. |
| GoalLoop.Screenshots | agents/agent_b.py:378-421 | A step appends its before-frame only when the page state differs from the last after-frame, then always its after-frame. The counter advances once per frame. |
| GoalLoop.TakeStep | agents/agent_b.py:383-435 | One step executes the decided action and runs the completion check exactly when the gating allows it. |
| GoalLoop.CrashStep | agents/agent_b.py:375-425 | A step whose label is not a string ends the run. It takes no frames when the label is truthy (slugging it raises), and the usual frames under `step_<n>` otherwise. The action runs unless the raise comes at the before-frame. |
| GoalLoop.RunLoop | agents/agent_b.py:353-439 | The loop makes at most `max_steps` decisions. Its steps form a run. The history is the run's records, numbered from 1. It stops on `done`, on a raising decision step, on a non-text label, on the first verified step, or when the budget is spent. No earlier step was verified. The frames are the run's reference frames and the counter advances once per frame. |
| GoalLoop.ExecuteGoalLoop | agents/agent_b.py:353-439 | Everything `RunLoop` states, for a concrete page, oracle and executor: the budget, the run, the numbered history, the stop reasons, no earlier verified step, the frames and their bounds, and on a non-text label whether the action ran and which frames were taken. The stopping decision is the oracle's reply to the request of the next step. |
| GoalLoop.OtherLocatorEndsRun | agents/agent_b.py:253-258 | A step whose locator is not an object is the last step of any run, because the next decision step cannot summarise the history. |

## Left out

- The browser is abstract. Page text, element reads, match counts, visibility
  and the executor's effect are functions of an opaque world. Screenshots are
  modelled by their labels and counter, not their pixels.
- The language model and `json.loads` are parameters. The reply scan only
  parses slices that begin with `{` (agents/agent_b.py:340-343), and a real
  JSON parser returns an object for such a slice whenever it parses at all.
  The model, whose parser is arbitrary, reads a non-object as an abort.
- Timing is left out: `wait_for_timeout`, the settle delays, and timeouts
  passed to Playwright.
- Printing and `_log_action` are left out: they only print.
- The run journal (`_init_readme`, `_append_step_to_readme`,
  `_finalize_readme`) is left out. The loop is modelled with `readme_path`
  left as `None`, its default. With a journal, a step whose locator is not an
  object also raises at the append right after the action
  (agents/agent_b.py:406-407, 1080-1087).
- The app detection, the browser launch, the manual login and the folder
  creation in `handle_question` are left out.
- Text.Lower: lower-cases ASCII letters only. Python's `str.lower` also
  folds other scripts.
- Actions.ActionOf: a `type`, `text`, `value` or `url` that is present but
  not a string reads as absent. A locator entry that is not a string is
  dropped. Labels, directions and locators keep their JSON value.
- Locators.Resolve: match counts never raise. So the role branch's
  `except` fallback (agents/agent_b.py:586-599) and the per-word
  `except: continue` (agents/agent_b.py:561-562) are not modelled. The
  fill-time hint fallback (agents/agent_b.py:791-824) needs a resolved
  query of `None`, which only those exception paths produce.
- Executor.ClickEffect: the hint-based remap of an unmatched click is one
  effect, `ClickRemap`, carrying the search text. The loop over the button
  hints and the option picking after the click are left out.
- Executor.TargetEffect: a select is one effect, `ChooseOption`. The native
  select, the custom dropdown and the keyboard fallback are left out.
- Executor.FillEffect: `typingFails` stands for both `fill` and
  click-then-type raising. The auto-submit after a fill, and the
  contenteditable test that picks between them, are left out.
- Executor.Dispatch: Playwright calls other than those above never raise.
- GoalLoop.ExecuteGoalLoop: the executor of the loop (`Env.execute`) is a
  parameter and is not tied to `Executor.Dispatch`. The page after an action
  is abstract.
- GoalLoop.RecordOf: the entry's text is the string `text` or empty. A
  non-string `text` reads as empty.

## Findings

| source | as written | input that shows it | evidently intended | confidence | as-written member | corrected member |
|---|---|---|---|---|---|---|
| agents/agent_b.py:658 | The unknown-locator `return` comes before the type dispatch, so goto, scroll and wait without a locator that resolves do nothing. | `{"type": "scroll", "direction": "down"}`: the missing locator reads as `{}` (528) and no wheel event follows | goto, scroll and wait act whatever the locator says: goto carries its own `url` (664), scroll reads only `direction` (530, 957) and wait reads nothing (962), and a missing locator is given the default `{}` (528) | high; not executed | Executor.LocatorlessScrollIsDropped | Executor.IntendedActsWithoutLocator |
