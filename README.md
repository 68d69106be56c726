# keka-checkin: the attendance toggle, modelled in Dafny

`cli.js` is a command-line tool that logs into the Keka HR portal through a
headless browser. It reads the label of the attendance widget's button and
then clocks the user in or out. The user either forces the action with
`--in`/`--out` or confirms a prompt. This project models the decision layer
of that script and proves its promises. The browser, the logins and the
libraries are reduced to events in a trace.

- `status.dfy` (module `Status`): `toLowerCase` as ASCII case folding
  (`Lower`), and the classification of the button label into one of the two
  `BUTTON_STATUS_MAP` values, `"clock-out"` (checked in) and
  `"web check-in"` (checked out). The state stays a string, as in the source.
- `effects.dfy` (module `Effects`): the events a run produces
  (`Progress`, `Info`, `Prompt`, `Click`, `Succeed`, `Fail`, `Wait`,
  `LaunchBrowser`, …). It also holds the fixed selector lists of `checkOut`
  (three clicks) and `checkIn` (two clicks), and `ActionEvents`, which
  describes the try/catch click sequence. The page is an oracle: the set of
  selectors a click finds. The clicks that go through are the leading
  present ones, and a missing selector ends the sequence with `Fail`.
  The texts behind the event constructors are kept beside them: `StageText`
  (spinner texts), `AlreadyMessage`, `PromptMessage`, `SucceedMessage`,
  `FailMessage` and `Css` (the selector strings the page is queried with).
  No contract depends on them.
- `decision.dfy` (module `Decision`): the branching of `goBonkers`
  (`Resolve`), the prompt of `confirmUserAction`, the help check of `cli`,
  and the whole run as a function of its inputs (`RunEvents`). The property
  lemmas sit beside them.
- `orchestrator.dfy` (module `Orchestrator`): class `Session`, whose `trace`
  field plays the module-level spinner and the page. Its methods follow the
  source's statements (`CheckIn`, `CheckOut`, `ConfirmUserAction`,
  `GoBonkers`, `Cli`). Each method is proved to append exactly the events
  its specification function names. `ClickAll` is the click loop, proved
  against `LeadingPresent` with loop invariants.

Inputs that the source gets from I/O are parameters:
- the button text (what `page.evaluate` returns);
- the answer to the prompt (`accept`);
- the parsed flags (`Flags`);
- the set of clickable selectors (`present`).

Behaviour of the code worth noting:
- With the button reading `clock-out` and `--out`, the code runs the
  check-out sequence (cli.js:176-185). It prints "You already checked out"
  only when the status is the checked-out value.
- `checkOut` has no pause before its last click (cli.js:93-95).
- A forced flag naming the current state returns before the 3000 ms wait
  (cli.js:172-179). A declined prompt returns before the 5000 ms wait but
  still reaches the 3000 ms wait of `goBonkers` (cli.js:130, cli.js:190).

## Model

| member | source | states |
|---|---|---|
| `Status.Lower` | cli.js:86 | the lower-cased label has the same length, and each character is the ASCII lower case of the original; no upper-case letter remains |
| `Status.LowerIdempotent` | cli.js:86 | lower-casing an already lower-cased label changes nothing |
| `Status.LowerOfLowercase` | cli.js:86 | a label without upper-case letters is its own lower-case form |
| `Status.Classify` | cli.js:86-88 | the result is always one of the two map values; it is `"clock-out"` (CHECKED_IN) exactly when the lower-cased label equals `"clock-out"`, and `"web check-in"` (CHECKED_OUT) for every other label, the empty one included |
| `Status.ClassifyIgnoresCase` | cli.js:86-88 | two labels that differ only in letter case classify the same |
| `Status.ClassifyLowered` | cli.js:86-88 | a label and its lower-cased form classify the same |
| `Status.CheckedInIsLowercase` | cli.js:13-16 | the CHECKED_IN value `"clock-out"` is already lower case |
| `Status.CheckedOutIsLowercase` | cli.js:13-16 | the CHECKED_OUT value `"web check-in"` is already lower case |
| `Status.ClassifyIdempotent` | cli.js:13-16 | classifying a returned state value gives that same value back |
| `Effects.Selectors` | cli.js:93-110 | check-out clicks three selectors and check-in two; both start with the widget button, none repeats, and only check-out uses the danger button |
| `Effects.ActionEvents` | cli.js:91-118 | the events of one checkIn/checkOut: a click for each leading present selector in list order, then one outcome for this action, Succeed exactly when every click went through |
| `Effects.LeadingPresent` | cli.js:92-95 | the number of clicks that go through is the index of the first selector the page lacks, or the whole list; every selector before it is present |
| `Effects.ActionEventsShape` | cli.js:91-118 | a check-in or check-out clicks a prefix of its fixed selector list in order, only present selectors, stopping at the first missing one; it ends with exactly one outcome, `Succeed` iff every selector is present and `Fail` otherwise, and no error escapes |
| `Effects.CheckOutWithoutDangerButton` | cli.js:91-103 | a check-out on a page that has the widget button but not the danger button clicks the widget button only, then reports failure |
| `Decision.Offer` | cli.js:121-142 | the prompt offers check-out exactly when the status is CHECKED_IN; on either state value the offer leads to the other state |
| `Decision.ConfirmEvents` | cli.js:120-146 | the events of confirmUserAction: the prompt for the offered action; on a decline nothing else; on an accept that action's events followed by the 5000 ms wait |
| `Decision.DecisionEvents` | cli.js:171-190 | the events after the status read: they start with a notice exactly when a flag names the current state, start with a prompt exactly when no flag is set, and end with the 3000 ms wait exactly when no early return happened |
| `Decision.SessionEvents` | cli.js:164-169 | both logins run before the status read, which ends this part; nothing is clicked and no browser is launched |
| `Decision.RunEvents` | cli.js:216-231 | a run starts with the "Processing..." spinner text; with `--help` or `-h` it is that and the help text only; otherwise the browser is launched next and closed last |
| `Decision.Resolve` | cli.js:171-189 | the run prompts iff neither flag is set; it is an "already" no-op iff a set flag names the current state; otherwise it runs exactly the flagged actions, check-in before check-out; the prompt offers check-out iff the status is CHECKED_IN |
| `Decision.ForcedCurrentStateIsNoop` | cli.js:171-179 | a forced flag naming the current state emits only its "already" notice: no click, no 3000 ms wait |
| `Decision.BothFlagsIsNoop` | cli.js:171-179 | with both flags on a classified status, the run is a single notice and clicks nothing |
| `Decision.BothFlagsOnUnknownStatus` | cli.js:171-186 | the no-op with both flags depends on the classifier: on a status outside the two values, both sequences would run |
| `Decision.SingleForcedFlag` | cli.js:181-190 | one forced flag naming a state other than the current one runs that action's click sequence exactly once, then waits 3000 ms; its clicks are a prefix of that action's selectors |
| `Decision.Interactive` | cli.js:120-146 | without flags, the prompt offers check-out iff checked in; a decline clicks nothing and skips the 5000 ms wait; an accept runs the offered action, then waits 5000 ms; the 3000 ms wait follows in both cases |
| `Decision.HelpShortCircuit` | cli.js:220-223 | the browser is launched iff neither `--help` nor `-h` is given; with help, nothing is clicked and no status is read |
| `Orchestrator.Session.constructor` | cli.js:11 | a new session's trace holds only the spinner's start |
| `Orchestrator.Session.ClickAll` | cli.js:92-95 | clicks the selectors in order until the first missing one; the trace gains those clicks, and the result says whether all went through |
| `Orchestrator.Session.CheckOut` | cli.js:91-103 | appends exactly the check-out events on this page |
| `Orchestrator.Session.CheckIn` | cli.js:105-118 | appends exactly the check-in events on this page |
| `Orchestrator.Session.GetKekaClockInStatus` | cli.js:73-89 | returns the classification of the button text and records the read |
| `Orchestrator.Session.ConfirmUserAction` | cli.js:120-146 | appends the prompt for the offered action; on accept, that action's events and the 5000 ms wait |
| `Orchestrator.Session.LogInAndReadStatus` | cli.js:164-169 | appends the login and status events and returns the classified status |
| `Orchestrator.Session.RunForced` | cli.js:181-186 | runs the flagged actions, check-in first: the trace gains `Decision.RunActions` of them, which `Decision.ForcedRunEvents` unfolds into check-in's events followed by check-out's |
| `Orchestrator.Session.Decide` | cli.js:171-190 | appends exactly the events `Resolve`'s plan calls for, with the 3000 ms wait unless the run returned early |
| `Orchestrator.Session.GoBonkers` | cli.js:163-191 | appends the session events, then the decision events for the classified status; the two together are `Decision.GoBonkersEvents` |
| `Orchestrator.Session.LaunchAndRun` | cli.js:224-230 | launches the browser, runs `goBonkers` with `--in`/`--out` as the forced flags, and closes the browser; the trace gains `Decision.BrowserEvents` |
| `Orchestrator.Session.Cli` | cli.js:216-231 | appends exactly `RunEvents` for the flags, so help never launches a browser |

## Left out

- Status.Lower: models `toLowerCase` on ASCII letters only. Non-ASCII
  case mappings of the full Unicode algorithm are not modelled. Both state
  values are ASCII, but a non-ASCII label that lower-cases to `"clock-out"`
  under Unicode rules is not covered.
- The login flows (`logIntoGoogle`, `logIntoKeka`) are single
  `LoginGoogle`/`LoginKeka` events, including the user agent each of them
  sets (cli.js:25, cli.js:59). The same goes for browser setup
  (`setupBrowser`, the permission override) and their internal waits.
  They call a browser library not part of this model and carry no
  decisions.
- Credentials from `dotenv`/`process.env` are not modelled. They only feed
  the login flows.
- `getKekaClockInStatus` waits for the button and then for 3000 ms. This is
  the single `ReadStatus` event. The label is always a string. The
  `undefined.toLowerCase()` crash, which happens when the button vanishes
  during the 3000 ms wait (cli.js:75-86), is not modelled.
- The model assumes the logins and the status read succeed. In the code every
  `waitForSelector` (cli.js:33, 40, 45, 51, 65, 74) has the browser library's
  default time-out and no handler, and `cli()` is called without one
  (cli.js:233). A failed login or status wait therefore rejects out of
  `goBonkers` before any decision. No click is made, and `browser.close()`
  (cli.js:230) is not reached. The model has no such run: every non-help run
  reaches a decision and ends with `CloseBrowser`.
- The `prompts`, `mri` and `ora` libraries are not modelled. The prompt
  answer and the parsed flags are inputs, and truthy flag values are booleans.
  The spinner's stop and start around the prompt fold into the `Prompt`
  event. The error object passed to `spinner.fail` is dropped.
- `checkIn`/`checkOut` are not awaited in `goBonkers` and
  `confirmUserAction`, and `browser.close()` is not awaited. The model runs
  them in sequence, in program order. Interleavings with the following
  waits are not modelled.
- The page is a fixed set of clickable selectors. A real page changes as the
  clicks land (the danger button may appear only after the first click).
  Reading the set as "the selectors a click finds when it is attempted"
  covers that case, but not pages whose answer depends on timing.
- `Wait(ms)` events carry durations without timing semantics.
- The help text that `printHelp` prints is the single `PrintHelp` event. The
  `spinner.stop()` just before it (cli.js:221) is folded into that event.
