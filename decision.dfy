// What a run does once the state is known: the flag/status branching of
// goBonkers, the interactive confirmation of confirmUserAction and the help
// short-circuit of cli (cli.js), each described by the events it produces.
module Decision {
  import opened Status
  import opened Effects

  /** Settle wait after an accepted prompt (confirmUserAction). */
  const ConfirmSettleMs: nat := 5000
  /** Settle wait at the end of goBonkers. */
  const RunSettleMs: nat := 3000

  /** The flags mri parses from the command line: --help, -h, --in, --out. */
  datatype Flags = Flags(help: bool, h: bool, wantIn: bool, wantOut: bool)

  /** What goBonkers decides to do for an observed state and the two forced flags. */
  datatype Plan =
    | Already(done: Action)       // the forced action's state is the current one: notice and return
    | Perform(actions: seq<Action>)  // run the forced actions, unprompted
    | Ask(offer: Action)          // no flag: ask the user

  /** The state an action brings the user to. */
  function Target(a: Action): string {
    match a
    case CheckIn => CheckedIn
    case CheckOut => CheckedOut
  }

  /** The action offered at the prompt: check out when checked in, check in otherwise. */
  function Offer(status: string): (a: Action)
    ensures a == CheckOut <==> status == CheckedIn
    ensures (status == CheckedIn || status == CheckedOut) ==> Target(a) != status
  {
    if status == CheckedIn then CheckOut else CheckIn
  }

  /**
   * The branching of goBonkers. The status is any string here, as in the
   * source; only Classify guarantees it is one of the two state values.
   */
  function Resolve(status: string, forceIn: bool, forceOut: bool): (p: Plan)
    ensures p.Ask? <==> !forceIn && !forceOut
    ensures p.Already? <==> (forceIn && status == CheckedIn) || (forceOut && status == CheckedOut)
    ensures p.Already? ==> p.done == (if forceIn && status == CheckedIn then CheckIn else CheckOut)
    ensures p.Ask? ==> (p.offer == CheckOut <==> status == CheckedIn)
    ensures p.Perform? ==>
              (CheckIn in p.actions <==> forceIn) && (CheckOut in p.actions <==> forceOut) &&
              |p.actions| == (if forceIn then 1 else 0) + (if forceOut then 1 else 0) &&
              (forall i, j :: 0 <= i < j < |p.actions| ==> p.actions[i] == CheckIn && p.actions[j] == CheckOut)
  {
    if forceIn || forceOut then
      if status == CheckedIn && forceIn then Already(CheckIn)
      else if status == CheckedOut && forceOut then Already(CheckOut)
      else Perform((if forceIn then [CheckIn] else []) + (if forceOut then [CheckOut] else []))
    else
      Ask(Offer(status))
  }

  /** The events of running several actions one after the other. */
  function RunActions(actions: seq<Action>, present: set<Selector>): seq<Event> {
    if actions == [] then [] else ActionEvents(actions[0], present) + RunActions(actions[1..], present)
  }

  /** The forced actions run check-in first, then check-out, each only when its flag is set. */
  lemma ForcedRunEvents(forceIn: bool, forceOut: bool, present: set<Selector>)
    ensures RunActions((if forceIn then [CheckIn] else []) + (if forceOut then [CheckOut] else []), present) ==
            (if forceIn then ActionEvents(CheckIn, present) else []) +
            (if forceOut then ActionEvents(CheckOut, present) else [])
  {
    var a := ActionEvents(CheckIn, present);
    var b := ActionEvents(CheckOut, present);
    assert RunActions([CheckOut], present) == b + RunActions([], present);
    if forceIn {
      assert RunActions([CheckIn], present) == a + RunActions([], present);
      if forceOut {
        assert [CheckIn, CheckOut][1..] == [CheckOut];
        assert RunActions([CheckIn, CheckOut], present) == a + RunActions([CheckOut], present);
      }
    }
  }

  /** The events of confirmUserAction: the prompt, then on a yes the action and the 5000 ms settle. */
  function ConfirmEvents(status: string, accept: bool, present: set<Selector>): (t: seq<Event>)
    ensures |t| == if accept then |ActionEvents(Offer(status), present)| + 2 else 1
    ensures t[0] == Prompt(Offer(status))
    ensures !accept ==> t == [Prompt(Offer(status))]
    ensures accept ==> t[1..|t| - 1] == ActionEvents(Offer(status), present) && t[|t| - 1] == Wait(ConfirmSettleMs)
  {
    var offer := Offer(status);
    var t := [Prompt(offer)] + (if accept then ActionEvents(offer, present) + [Wait(ConfirmSettleMs)] else []);
    assert accept ==> t[1..|t| - 1] == ActionEvents(offer, present);
    t
  }

  /** The events of goBonkers after the status has been read. */
  function DecisionEvents(status: string, forceIn: bool, forceOut: bool, accept: bool, present: set<Selector>): (t: seq<Event>)
    ensures t != []
    ensures t[0].Info? <==> Resolve(status, forceIn, forceOut).Already?
    ensures t[0].Prompt? <==> !forceIn && !forceOut
    ensures t[|t| - 1] == Wait(RunSettleMs) <==> !Resolve(status, forceIn, forceOut).Already?
  {
    match Resolve(status, forceIn, forceOut)
    case Already(done) => [Info(done)]
    case Perform(actions) => RunActions(actions, present) + [Wait(RunSettleMs)]
    case Ask(_) => ConfirmEvents(status, accept, present) + [Wait(RunSettleMs)]
  }

  /** The events of goBonkers before the decision: the two logins and reading the button. */
  function SessionEvents(buttonText: string): (t: seq<Event>)
    ensures LoginGoogle in t && LoginKeka in t
    ensures t[|t| - 1] == ReadStatus(buttonText)
    ensures forall j :: 0 <= j < |t| ==> !t[j].Click? && !t[j].LaunchBrowser?
  {
    [Progress(LoggingIntoGoogle), LoginGoogle,
     Progress(LoggingIntoKeka), LoginKeka,
     Progress(GettingStatus), ReadStatus(buttonText)]
  }

  function GoBonkersEvents(buttonText: string, forceIn: bool, forceOut: bool, accept: bool, present: set<Selector>): seq<Event> {
    SessionEvents(buttonText) + DecisionEvents(Classify(buttonText), forceIn, forceOut, accept, present)
  }

  /** The events of cli once past the help check: launch the browser, run goBonkers, close it. */
  function BrowserEvents(buttonText: string, forceIn: bool, forceOut: bool, accept: bool, present: set<Selector>): seq<Event> {
    [LaunchBrowser] + [Progress(BrowserUp)] + GoBonkersEvents(buttonText, forceIn, forceOut, accept, present) + [CloseBrowser]
  }

  /** The events of one invocation of cli. */
  function RunEvents(flags: Flags, buttonText: string, accept: bool, present: set<Selector>): (t: seq<Event>)
    ensures |t| >= 2 && t[0] == Progress(Processing)
    ensures (flags.help || flags.h) <==> t == [Progress(Processing), PrintHelp]
    ensures !(flags.help || flags.h) ==> t[1] == LaunchBrowser && t[|t| - 1] == CloseBrowser
  {
    [Progress(Processing)] +
    if flags.help || flags.h then [PrintHelp]
    else BrowserEvents(buttonText, flags.wantIn, flags.wantOut, accept, present)
  }

  /**
   * A forced flag naming the current state prints an "already" notice and
   * nothing else: no click and no final settle wait.
   */
  lemma ForcedCurrentStateIsNoop(status: string, forceIn: bool, forceOut: bool, accept: bool, present: set<Selector>)
    requires (forceIn && status == CheckedIn) || (forceOut && status == CheckedOut)
    ensures var t := DecisionEvents(status, forceIn, forceOut, accept, present);
            t == [Info(if forceIn && status == CheckedIn then CheckIn else CheckOut)] &&
            Clicked(t) == [] && Wait(RunSettleMs) !in t
  {
  }

  /**
   * Both forced flags on a classified status: one of the early returns
   * always fires, so nothing is clicked and nothing is waited for.
   */
  lemma BothFlagsIsNoop(buttonText: string, accept: bool, present: set<Selector>)
    ensures var t := DecisionEvents(Classify(buttonText), true, true, accept, present);
            |t| == 1 && t[0].Info? && Clicked(t) == []
  {
    ForcedCurrentStateIsNoop(Classify(buttonText), true, true, accept, present);
  }

  /**
   * The no-op above rests on Classify: on a status outside the two state
   * values both flags would run check-in and then check-out.
   */
  lemma BothFlagsOnUnknownStatus(status: string, accept: bool, present: set<Selector>)
    requires status != CheckedIn && status != CheckedOut
    ensures DecisionEvents(status, true, true, accept, present) ==
            ActionEvents(CheckIn, present) + ActionEvents(CheckOut, present) + [Wait(RunSettleMs)]
  {
    assert RunActions([CheckOut], present) == ActionEvents(CheckOut, present);
  }

  /**
   * Exactly one forced flag, naming a state other than the current one:
   * exactly that action's click sequence runs, once, followed by the
   * 3000 ms settle wait; its clicks are a prefix of the action's selectors.
   */
  lemma SingleForcedFlag(status: string, a: Action, accept: bool, present: set<Selector>)
    requires status != Target(a)
    ensures var t := DecisionEvents(status, a == CheckIn, a == CheckOut, accept, present);
            t == ActionEvents(a, present) + [Wait(RunSettleMs)] &&
            Clicked(t) <= Selectors(a)
  {
    var actions := (if a == CheckIn then [CheckIn] else []) + (if a == CheckOut then [CheckOut] else []);
    assert actions == [a];
    assert Resolve(status, a == CheckIn, a == CheckOut) == Perform([a]);
    var run := ActionEvents(a, present);
    assert RunActions([a], present) == run + RunActions([], present);
    assert DecisionEvents(status, a == CheckIn, a == CheckOut, accept, present) == run + [Wait(RunSettleMs)];
    ActionEventsShape(a, present);
    ClickedAppend(run, [Wait(RunSettleMs)]);
    assert Clicked([Wait(RunSettleMs)]) == [];
  }

  /**
   * No forced flag: the prompt offers check-out exactly when checked in. A
   * declined prompt clicks nothing and skips the 5000 ms wait; an accepted
   * one runs the offered action and then waits 5000 ms. The 3000 ms wait
   * of goBonkers follows in both cases.
   */
  lemma Interactive(status: string, accept: bool, present: set<Selector>)
    ensures var t := DecisionEvents(status, false, false, accept, present);
            t[0].Prompt? && (t[0].offer == CheckOut <==> status == CheckedIn) &&
            (!accept ==> t == [t[0], Wait(RunSettleMs)] && Clicked(t) == [] && Wait(ConfirmSettleMs) !in t) &&
            (accept ==> t == [t[0]] + ActionEvents(t[0].offer, present) + [Wait(ConfirmSettleMs), Wait(RunSettleMs)])
  {
    var offer := Offer(status);
    var prompt := Prompt(offer);
    assert Resolve(status, false, false) == Ask(offer);
    var t := DecisionEvents(status, false, false, accept, present);
    assert t == ConfirmEvents(status, accept, present) + [Wait(RunSettleMs)];
    if accept {
      assert ConfirmEvents(status, accept, present) == [prompt] + ActionEvents(offer, present) + [Wait(ConfirmSettleMs)];
    } else {
      assert t == [prompt, Wait(RunSettleMs)];
      ClickedNone(t);
    }
  }

  /** The help flag prints help and never launches the browser or clicks. */
  lemma HelpShortCircuit(flags: Flags, buttonText: string, accept: bool, present: set<Selector>)
    ensures var t := RunEvents(flags, buttonText, accept, present);
            (LaunchBrowser in t <==> !flags.help && !flags.h) &&
            ((flags.help || flags.h) ==> Clicked(t) == [] && ReadStatus(buttonText) !in t)
  {
    var t := RunEvents(flags, buttonText, accept, present);
    if !flags.help && !flags.h {
      assert t[1] == LaunchBrowser;
    } else {
      ClickedNone(t);
    }
  }
}
