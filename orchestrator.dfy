// The imperative flow of cli.js: checkIn, checkOut, confirmUserAction,
// goBonkers and cli as methods of a run session that appends every
// observable effect to its trace, in the order the source performs them.
// The page is an oracle: the set of selectors a click finds. The user's
// answer to the prompt and the text of the attendance button are inputs.
module Orchestrator {
  import opened Status
  import opened Effects
  import opened Decision

  class Session {
    /** Everything the run has done so far, oldest first (spinner, prompt, page and browser calls). */
    var trace: seq<Event>

    /** The spinner is created and started when the script loads. */
    constructor ()
      ensures trace == [Progress(StartingEngines)]
    {
      trace := [Progress(StartingEngines)];
    }

    method Emit(e: Event)
      modifies this
      ensures trace == old(trace) + [e]
    {
      trace := trace + [e];
    }

    /**
     * The try block of checkIn and checkOut: click each selector in turn;
     * the first selector the page does not have throws, which skips the
     * remaining clicks. Reports whether every click went through.
     */
    method ClickAll(sels: seq<Selector>, present: set<Selector>) returns (ok: bool)
      modifies this
      ensures ok <==> LeadingPresent(sels, present) == |sels|
      ensures trace == old(trace) + Clicks(sels[..LeadingPresent(sels, present)])
    {
      var i := 0;
      while i < |sels| && sels[i] in present
        invariant 0 <= i <= |sels|
        invariant forall j :: 0 <= j < i ==> sels[j] in present
        invariant trace == old(trace) + Clicks(sels[..i])
      {
        ClicksSnoc(sels[..i], sels[i]);
        assert sels[..i + 1] == sels[..i] + [sels[i]];
        Emit(Click(sels[i]));
        i := i + 1;
      }
      LeadingPresentUnique(sels, present, i);
      ok := i == |sels|;
    }

    /** checkOut: three clicks; the failure of any is caught and reported, never thrown. */
    method CheckOut(present: set<Selector>)
      modifies this
      ensures trace == old(trace) + ActionEvents(Action.CheckOut, present)
    {
      var ok := ClickAll(Selectors(Action.CheckOut), present);
      if ok {
        Emit(Succeed(Action.CheckOut));
      } else {
        Emit(Fail(Action.CheckOut));
      }
    }

    /** checkIn: two clicks; the failure of either is caught and reported, never thrown. */
    method CheckIn(present: set<Selector>)
      modifies this
      ensures trace == old(trace) + ActionEvents(Action.CheckIn, present)
    {
      var ok := ClickAll(Selectors(Action.CheckIn), present);
      if ok {
        Emit(Succeed(Action.CheckIn));
      } else {
        Emit(Fail(Action.CheckIn));
      }
    }

    /** The end of getKekaClockInStatus: the button's text is read and classified. */
    method GetKekaClockInStatus(buttonText: string) returns (status: string)
      modifies this
      ensures status == Classify(buttonText)
      ensures trace == old(trace) + [ReadStatus(buttonText)]
    {
      Emit(ReadStatus(buttonText));
      status := Classify(buttonText);
    }

    /**
     * confirmUserAction: offer the action opposite to the status; a "no"
     * returns before the 5000 ms settle wait.
     */
    method ConfirmUserAction(status: string, accept: bool, present: set<Selector>)
      modifies this
      ensures trace == old(trace) + ConfirmEvents(status, accept, present)
    {
      if status == CheckedIn {
        Emit(Prompt(Action.CheckOut));
        if !accept {
          return;
        }
        CheckOut(present);
      } else {
        Emit(Prompt(Action.CheckIn));
        if !accept {
          return;
        }
        CheckIn(present);
      }
      Emit(Wait(ConfirmSettleMs));
    }

    /** The first half of goBonkers: the two logins, then reading the status from the button. */
    method LogInAndReadStatus(buttonText: string) returns (status: string)
      modifies this
      ensures status == Classify(buttonText)
      ensures trace == old(trace) + SessionEvents(buttonText)
    {
      Emit(Progress(LoggingIntoGoogle));
      Emit(LoginGoogle);
      Emit(Progress(LoggingIntoKeka));
      Emit(LoginKeka);
      Emit(Progress(GettingStatus));
      status := GetKekaClockInStatus(buttonText);
    }

    /** The forced actions of goBonkers, check-in first, each only when its flag is set. */
    method RunForced(forceIn: bool, forceOut: bool, present: set<Selector>)
      modifies this
      ensures trace == old(trace) + RunActions((if forceIn then [Action.CheckIn] else []) + (if forceOut then [Action.CheckOut] else []), present)
    {
      if forceIn {
        CheckIn(present);
      }
      if forceOut {
        CheckOut(present);
      }
      ForcedRunEvents(forceIn, forceOut, present);
    }

    /**
     * The decision branch of goBonkers: a forced flag naming the current
     * state returns with a notice; otherwise the forced actions run, or the
     * user is asked; then the 3000 ms settle wait.
     */
    method Decide(status: string, forceIn: bool, forceOut: bool, accept: bool, present: set<Selector>)
      modifies this
      ensures trace == old(trace) + DecisionEvents(status, forceIn, forceOut, accept, present)
    {
      ghost var plan := Resolve(status, forceIn, forceOut);
      if forceIn || forceOut {
        if status == CheckedIn && forceIn {
          assert plan == Already(Action.CheckIn);
          Emit(Info(Action.CheckIn));
          return;
        }
        if status == CheckedOut && forceOut {
          assert plan == Already(Action.CheckOut);
          Emit(Info(Action.CheckOut));
          return;
        }
        assert plan.Perform?;
        RunForced(forceIn, forceOut, present);
      } else {
        assert plan.Ask?;
        ConfirmUserAction(status, accept, present);
      }
      Emit(Wait(RunSettleMs));
    }

    /** goBonkers: log in, read the status, then decide. */
    method GoBonkers(buttonText: string, forceIn: bool, forceOut: bool, accept: bool, present: set<Selector>)
      modifies this
      ensures trace == old(trace) + GoBonkersEvents(buttonText, forceIn, forceOut, accept, present)
    {
      var status := LogInAndReadStatus(buttonText);
      Decide(status, forceIn, forceOut, accept, present);
      AppendAssoc(old(trace), SessionEvents(buttonText), DecisionEvents(status, forceIn, forceOut, accept, present));
    }

    /** The rest of cli: launch the browser, run goBonkers with the forced flags, close the browser. */
    method LaunchAndRun(buttonText: string, forceIn: bool, forceOut: bool, accept: bool, present: set<Selector>)
      modifies this
      ensures trace == old(trace) + BrowserEvents(buttonText, forceIn, forceOut, accept, present)
    {
      ghost var start := trace;
      Emit(LaunchBrowser);
      Emit(Progress(BrowserUp));
      GoBonkers(buttonText, forceIn, forceOut, accept, present);
      Emit(CloseBrowser);
      ghost var run := GoBonkersEvents(buttonText, forceIn, forceOut, accept, present);
      AppendAssoc(start, [LaunchBrowser] + [Progress(BrowserUp)] + run, [CloseBrowser]);
      AppendAssoc(start, [LaunchBrowser] + [Progress(BrowserUp)], run);
      AppendAssoc(start, [LaunchBrowser], [Progress(BrowserUp)]);
    }

    /** cli: --help or -h prints the help text and stops before any browser is launched. */
    method Cli(flags: Flags, buttonText: string, accept: bool, present: set<Selector>)
      modifies this
      ensures trace == old(trace) + RunEvents(flags, buttonText, accept, present)
    {
      Emit(Progress(Processing));
      if flags.help || flags.h {
        Emit(PrintHelp);
        AppendAssoc(old(trace), [Progress(Processing)], [PrintHelp]);
        return;
      }
      LaunchAndRun(buttonText, flags.wantIn, flags.wantOut, accept, present);
      AppendAssoc(old(trace), [Progress(Processing)], BrowserEvents(buttonText, flags.wantIn, flags.wantOut, accept, present));
    }
  }
}
