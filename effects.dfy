// The observable effects of a run, and the click sequences of checkIn and
// checkOut (cli.js) described as the events they produce on a given page.
module Effects {

  /** The two state-changing actions the tool can perform on the portal. */
  datatype Action = CheckIn | CheckOut

  /**
   * One observable effect of a run. Spinner calls become Progress (setting
   * its text), Info, Succeed and Fail; the prompt is Prompt; page calls are
   * Click and Wait; the browser and login steps are single events. Events
   * name what the spinner or prompt shows; the functions below give its text.
   */
  datatype Event =
    | Progress(stage: Stage)     // spinner.text = StageText(stage)
    | Info(already: Action)      // spinner.info(AlreadyMessage(already))
    | Prompt(offer: Action)      // prompts({type: 'confirm', message: PromptMessage(offer)})
    | Click(selector: Selector)
    | Succeed(done: Action)      // spinner.succeed(SucceedMessage(done))
    | Fail(failed: Action)       // spinner.fail(FailMessage(failed))
    | Wait(ms: nat)
    | LaunchBrowser
    | LoginGoogle
    | LoginKeka
    | ReadStatus(buttonText: string)
    | PrintHelp
    | CloseBrowser

  /** The stages the spinner text announces. */
  datatype Stage = StartingEngines | Processing | BrowserUp | LoggingIntoGoogle | LoggingIntoKeka | GettingStatus

  function StageText(stage: Stage): string {
    match stage
    case StartingEngines => "Starting engines..."
    case Processing => "Processing..."
    case BrowserUp => "Browser up..."
    case LoggingIntoGoogle => "Logging into google..."
    case LoggingIntoKeka => "Logging into keka..."
    case GettingStatus => "Getting keka status..."
  }

  /** The notice when a forced action would lead to the state the user is already in. */
  function AlreadyMessage(a: Action): string {
    match a
    case CheckIn => "You're already checked in"
    case CheckOut => "You already checked out"
  }

  /** The question asked before offering an action. */
  function PromptMessage(offer: Action): string {
    match offer
    case CheckOut => "You're checked in, do you want to check out?"
    case CheckIn => "You aren't checked in, do you want to?"
  }

  /** The buttons the two click sequences use; Css gives the selector text the page is queried with. */
  datatype Selector = WidgetButton | DangerButton | CheckOutConfirm | CheckInConfirm

  function Css(s: Selector): string {
    match s
    case WidgetButton => "home-attendance-clockin-widget button"
    case DangerButton => "home-attendance-clockin-widget button.btn-danger"
    case CheckOutConfirm => "xhr-confirm-dialog button.btn.btn-primary.btn-sm"
    case CheckInConfirm => "xhr-confirm-dialog > div.modal-footer > button.btn.btn-primary.btn-sm"
  }

  /** The selectors each action clicks, in the order it clicks them. */
  function Selectors(a: Action): (sels: seq<Selector>)
    ensures |sels| == (if a == CheckOut then 3 else 2)
    ensures sels[0] == WidgetButton
    ensures forall i, j :: 0 <= i < j < |sels| ==> sels[i] != sels[j]
    ensures DangerButton in sels <==> a == CheckOut
  {
    match a
    case CheckOut => [WidgetButton, DangerButton, CheckOutConfirm]
    case CheckIn => [WidgetButton, CheckInConfirm]
  }

  /** The text the spinner shows on a Succeed or Fail event. */
  function SucceedMessage(a: Action): string {
    match a
    case CheckOut => "Checked Out"
    case CheckIn => "Checked In"
  }

  function FailMessage(a: Action): string {
    match a
    case CheckOut => "There was an error checking out, please try again, if it happens again, please check out manually"
    case CheckIn => "There was an error checking in, please try again, if it happens again, please check in manually"
  }

  /**
   * How many clicks of `sels` go through on a page where exactly the
   * selectors in `present` can be clicked: the index of the first missing
   * selector, or all of them.
   */
  function LeadingPresent(sels: seq<Selector>, present: set<Selector>): (k: nat)
    ensures k <= |sels|
    ensures forall j :: 0 <= j < k ==> sels[j] in present
    ensures k < |sels| ==> sels[k] !in present
  {
    if sels == [] || sels[0] !in present then 0 else 1 + LeadingPresent(sels[1..], present)
  }

  /** Any index that passes the same test is LeadingPresent: the first failing click is unique. */
  lemma LeadingPresentUnique(sels: seq<Selector>, present: set<Selector>, k: nat)
    requires k <= |sels|
    requires forall j :: 0 <= j < k ==> sels[j] in present
    requires k < |sels| ==> sels[k] !in present
    ensures LeadingPresent(sels, present) == k
  {
  }

  /** The events of clicking every selector of `sels`, in order. */
  function Clicks(sels: seq<Selector>): seq<Event> {
    if sels == [] then [] else [Click(sels[0])] + Clicks(sels[1..])
  }

  /** The selectors clicked in a trace, in the order they were clicked. */
  function Clicked(t: seq<Event>): seq<Selector> {
    if t == [] then []
    else (if t[0].Click? then [t[0].selector] else []) + Clicked(t[1..])
  }

  lemma {:induction false} ClickedAppend(a: seq<Event>, b: seq<Event>)
    ensures Clicked(a + b) == Clicked(a) + Clicked(b)
  {
    if a == [] {
      assert a + b == b;
    } else {
      assert (a + b)[0] == a[0];
      assert (a + b)[1..] == a[1..] + b;
      ClickedAppend(a[1..], b);
    }
  }

  /** Appending to a trace is associative; stated once so that traces built step by step match their specifications. */
  lemma AppendAssoc(a: seq<Event>, b: seq<Event>, c: seq<Event>)
    ensures a + (b + c) == (a + b) + c
  {
  }

  /** A trace without click events clicks nothing. */
  lemma {:induction false} ClickedNone(t: seq<Event>)
    requires forall j :: 0 <= j < |t| ==> !t[j].Click?
    ensures Clicked(t) == []
  {
    if t != [] {
      ClickedNone(t[1..]);
    }
  }

  /** The click events of a selector list click exactly that list. */
  lemma {:induction false} ClickedClicks(sels: seq<Selector>)
    ensures Clicked(Clicks(sels)) == sels
  {
    if sels != [] {
      ClickedClicks(sels[1..]);
      ClickedAppend([Click(sels[0])], Clicks(sels[1..]));
    }
  }

  /** Clicking one more selector appends one click event. */
  lemma {:induction false} ClicksSnoc(sels: seq<Selector>, s: Selector)
    ensures Clicks(sels + [s]) == Clicks(sels) + [Click(s)]
  {
    if sels != [] {
      assert (sels + [s])[1..] == sels[1..] + [s];
      ClicksSnoc(sels[1..], s);
    }
  }

  /** The outcome event reported by the spinner once the try block ends. */
  function Outcome(a: Action, ok: bool): Event {
    if ok then Succeed(a) else Fail(a)
  }

  /**
   * The events of checkIn or checkOut: the clicks that go through, stopping
   * at the first selector the page does not have, then exactly one outcome.
   */
  function ActionEvents(a: Action, present: set<Selector>): (t: seq<Event>)
    ensures |t| == LeadingPresent(Selectors(a), present) + 1
    ensures forall j :: 0 <= j < |t| - 1 ==> t[j] == Click(Selectors(a)[j])
    ensures t[|t| - 1] == Outcome(a, |t| - 1 == |Selectors(a)|)
  {
    var sels := Selectors(a);
    var k := LeadingPresent(sels, present);
    ClicksAreClicks(sels[..k]);
    Clicks(sels[..k]) + [Outcome(a, k == |sels|)]
  }

  /**
   * The executor's promise: the clicks performed are a prefix of the
   * action's selector list, all of them present, stopping at the first
   * missing one; the run ends with one outcome, Succeed exactly when every
   * selector was clicked, and never with anything else (no error escapes).
   */
  lemma ActionEventsShape(a: Action, present: set<Selector>)
    ensures var t := ActionEvents(a, present);
            var c := Clicked(t);
            |t| == |c| + 1 &&
            c <= Selectors(a) &&
            (forall j :: 0 <= j < |c| ==> c[j] in present) &&
            (|c| < |Selectors(a)| ==> Selectors(a)[|c|] !in present) &&
            (t[|t| - 1].Succeed? || t[|t| - 1].Fail?) &&
            t[|t| - 1] == Outcome(a, |c| == |Selectors(a)|) &&
            (t[|t| - 1].Succeed? <==> forall s :: s in Selectors(a) ==> s in present) &&
            (forall j :: 0 <= j < |t| - 1 ==> t[j].Click?)
  {
    var sels := Selectors(a);
    var k := LeadingPresent(sels, present);
    var t := ActionEvents(a, present);
    ClickedClicks(sels[..k]);
    ClickedAppend(Clicks(sels[..k]), [Outcome(a, k == |sels|)]);
    assert Clicked([Outcome(a, k == |sels|)]) == [];
    ClicksAreClicks(sels[..k]);
    if k < |sels| {
      assert sels[k] in sels;
    }
  }

  lemma {:induction false} ClicksAreClicks(sels: seq<Selector>)
    ensures |Clicks(sels)| == |sels|
    ensures forall j :: 0 <= j < |sels| ==> Clicks(sels)[j] == Click(sels[j])
  {
    if sels != [] {
      ClicksAreClicks(sels[1..]);
    }
  }

  /** A checkOut on a page without the danger button clicks the widget button only and fails. */
  lemma CheckOutWithoutDangerButton(present: set<Selector>)
    requires WidgetButton in present && DangerButton !in present
    ensures ActionEvents(CheckOut, present) == [Click(WidgetButton), Fail(CheckOut)]
  {
    LeadingPresentUnique(Selectors(CheckOut), present, 1);
    assert Selectors(CheckOut)[..1] == [WidgetButton];
    assert Clicks([WidgetButton]) == [Click(WidgetButton)] + Clicks([]);
  }
}
