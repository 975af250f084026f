/** The WebAuthn dialog controller and the delegate that starts it
    (src/core/authenticator_request_dialog_controller.cpp:46-137, 182-215,
    src/core/authenticator_request_client_delegate_qt.cpp:128-181). */
module WebAuthDialog {
  import opened Wrappers

  /** WebAuthUxState. */
  datatype UxState =
    | NotStarted
    | Discovery
    | SelectAccount
    | CollectPin
    | FinishTokenCollection
    | RequestFailed
    | Cancelled
    | Completed

  datatype Presentation = Disabled | Autofill | Modal

  /** What the application sees: a dialog is shown, with the state it starts in, or told of a new state. */
  datatype Seen = Shown(first: UxState) | Changed(next: UxState)

  /** The fields of the controller and what it has made the application see; `frame` says whether
      the web contents of the frame are still there. */
  datatype Dialog = Dialog(
    started: bool,
    current: UxState,
    pending: Option<UxState>,
    created: bool,
    presentation: Presentation,
    frame: bool,
    seen: seq<Seen>)

  const INITIAL: Dialog := Dialog(false, NotStarted, None, false, Modal, true, [])

  predicate Terminal(state: UxState) {
    state == Cancelled || state == Completed
  }

  function ShowWebAuthDialog(d: Dialog): Dialog {
    if !d.frame then d else d.(created := true, seen := d.seen + [Shown(d.current)])
  }

  function SetCurrentState(d: Dialog, state: UxState): Dialog {
    if !d.started then d.(pending := Some(state))
    else
      var d1 := d.(current := state);
      if d.presentation == Autofill then d1
      else if !d.created then ShowWebAuthDialog(d1)
      else d1.(seen := d.seen + [Changed(state)], created := !Terminal(state))
  }

  function FinishRequest(d: Dialog): Dialog {
    if !d.created then d else SetCurrentState(d, Completed)
  }

  function StartRequest(d: Dialog): Dialog {
    var d1 := d.(started := true);
    if d.pending.Some? then SetCurrentState(d1, d.pending.value).(pending := None)
    else SetCurrentState(d1, Discovery)
  }

  /** OnTransportAvailabilityEnumerated. */
  function TransportEnumerated(d: Dialog): Dialog {
    if d.presentation == Disabled || d.current != NotStarted then d else StartRequest(d)
  }

  /** The delegate's SelectAccount for a request with the UI enabled. */
  function AccountsFound(d: Dialog): Dialog {
    if d.presentation == Disabled || d.presentation == Autofill then d else SetCurrentState(d, SelectAccount)
  }

  class AuthenticatorRequestDialogController {
    var isStarted: bool
    var currentState: UxState
    var pendingState: Option<UxState>
    var isDialogCreated: bool
    var uiPresentation: Presentation
    var hasWebContents: bool
    var seen: seq<Seen>

    ghost function State(): Dialog
      reads this
    {
      Dialog(isStarted, currentState, pendingState, isDialogCreated, uiPresentation, hasWebContents, seen)
    }

    constructor ()
      ensures State() == INITIAL && Inv(State())
    {
      isStarted, currentState, pendingState, isDialogCreated := false, NotStarted, None, false;
      uiPresentation, hasWebContents, seen := Modal, true, [];
    }

    method ShowDialog()
      modifies this
      ensures State() == ShowWebAuthDialog(old(State()))
    {
      if !hasWebContents { return; }
      seen := seen + [Shown(currentState)];
      isDialogCreated := true;
    }

    /** Once started, the application is told exactly if the request has its own UI and there is a
        dialog or a web contents to show it; and then what it saw last is this state. */
    method SetState(uxState: UxState)
      modifies this
      ensures State() == SetCurrentState(old(State()), uxState)
      ensures uxState != NotStarted && old(Inv(State())) ==> Inv(State())
      ensures seen != old(seen) <==> old(isStarted && uiPresentation != Autofill && (isDialogCreated || hasWebContents))
      ensures seen != old(seen) ==> LastSeen(seen) == Some(uxState)
    {
      ApplicationSees(State(), uxState);
      if uxState != NotStarted && Inv(State()) { SetCurrentKeepsInv(State(), uxState); }
      if !isStarted {
        pendingState := Some(uxState);
        return;
      }
      currentState := uxState;
      if uiPresentation == Autofill { return; }
      if !isDialogCreated {
        ShowDialog();
      } else {
        seen := seen + [Changed(currentState)];
        if currentState == Cancelled || currentState == Completed {
          isDialogCreated := false;
        }
      }
    }

    method Finish()
      modifies this
      ensures State() == FinishRequest(old(State()))
    {
      if !isDialogCreated { return; }
      SetState(Completed);
    }

    /** The caller has to see to it that the check of line 184 holds. */
    method Start()
      requires !isStarted
      modifies this
      ensures State() == StartRequest(old(State()))
    {
      isStarted := true;
      if pendingState.Some? {
        SetState(pendingState.value);
        pendingState := None;
      } else {
        SetState(Discovery);
      }
    }

    /** The guard in the delegate is enough for that check. */
    method OnTransportAvailabilityEnumerated()
      requires Inv(State())
      modifies this
      ensures State() == TransportEnumerated(old(State()))
    {
      if uiPresentation == Disabled || currentState != NotStarted { return; }
      Start();
    }
  }

  // ---- every sequence of steps ----

  /** `Requested` is a step of the request that sets a state: the accounts and the PIN are asked for,
      the token is collected, the request has failed or is cancelled. */
  datatype Step =
    | Requested(state: UxState)
    | AccountsGiven
    | Finished
    | Enumerated
    | Presented(presentation: Presentation)
    | FrameGone

  predicate Allowed(step: Step) {
    step.Requested? ==> step.state in {CollectPin, FinishTokenCollection, RequestFailed, Cancelled}
  }

  function Apply(d: Dialog, step: Step): Dialog {
    match step
    case Requested(state) => SetCurrentState(d, state)
    case AccountsGiven => AccountsFound(d)
    case Finished => FinishRequest(d)
    case Enumerated => TransportEnumerated(d)
    case Presented(presentation) => d.(presentation := presentation)
    case FrameGone => d.(frame := false)
  }

  function Run(d: Dialog, steps: seq<Step>): Dialog
    decreases |steps|
  {
    if steps == [] then d else Run(Apply(d, steps[0]), steps[1..])
  }

  /** Dialogs shown, less dialogs told that they are over. */
  function Open(seen: seq<Seen>): int
    decreases |seen|
  {
    if seen == [] then 0
    else (match seen[0] case Shown(_) => 1 case Changed(s) => if Terminal(s) then -1 else 0) + Open(seen[1..])
  }

  ghost predicate Inv(d: Dialog) {
    && (d.started <==> d.current != NotStarted)
    && (d.pending.Some? ==> d.pending.value != NotStarted)
    && (d.started ==> d.pending == None)
    && (!d.started ==> !d.created && d.seen == [])
    && Open(d.seen) == if d.created then 1 else 0
  }

  lemma {:induction false} OpenAppend(seen: seq<Seen>, s: Seen)
    ensures Open(seen + [s])
         == Open(seen) + match s case Shown(_) => 1 case Changed(state) => if Terminal(state) then -1 else 0
    decreases |seen|
  {
    if seen == [] {
      assert [] + [s] == [s] && [s][1..] == [];
    } else {
      OpenAppend(seen[1..], s);
      assert (seen + [s])[1..] == seen[1..] + [s];
    }
  }

  /** Setting a state of a dialog that has started, in whatever state it is. */
  lemma SetCurrentKeeps(d: Dialog, state: UxState)
    requires d.started && state != NotStarted && Open(d.seen) == if d.created then 1 else 0
    ensures var d' := SetCurrentState(d, state);
            && d'.started && d'.current == state && d'.pending == d.pending
            && Open(d'.seen) == if d'.created then 1 else 0
  {
    OpenAppend(d.seen, Shown(state));
    OpenAppend(d.seen, Changed(state));
  }

  lemma SetCurrentKeepsInv(d: Dialog, state: UxState)
    requires Inv(d) && state != NotStarted
    ensures Inv(SetCurrentState(d, state))
  {
    if d.started { SetCurrentKeeps(d, state); }
  }

  lemma StepKeepsInv(d: Dialog, step: Step)
    requires Inv(d) && Allowed(step)
    ensures Inv(Apply(d, step))
  {
    match step
    case Requested(state) => SetCurrentKeepsInv(d, state);
    case AccountsGiven => SetCurrentKeepsInv(d, SelectAccount);
    case Finished => SetCurrentKeepsInv(d, Completed);
    case Enumerated =>
      if !d.started {
        SetCurrentKeeps(d.(started := true), if d.pending.Some? then d.pending.value else Discovery);
      }
    case Presented(_) =>
    case FrameGone =>
  }

  lemma {:induction false} RunKeepsInv(d: Dialog, steps: seq<Step>)
    requires Inv(d) && forall i :: 0 <= i < |steps| ==> Allowed(steps[i])
    ensures Inv(Run(d, steps))
    decreases |steps|
  {
    if steps != [] {
      var tail := steps[1..];
      assert forall i :: 0 <= i < |tail| ==> tail[i] == steps[i + 1];
      StepKeepsInv(d, steps[0]);
      RunKeepsInv(Apply(d, steps[0]), tail);
    }
  }

  /** The state the application saw last. */
  function LastSeen(seen: seq<Seen>): Option<UxState> {
    if seen == [] then None
    else match seen[|seen| - 1] case Shown(s) => Some(s) case Changed(s) => Some(s)
  }

  /** Once started, the application is told exactly if the request has its own UI and there is a dialog
      or a web contents to show it; and then it sees this state. */
  lemma ApplicationSees(d: Dialog, state: UxState)
    ensures var d' := SetCurrentState(d, state);
            && (d'.seen != d.seen <==> d.started && d.presentation != Autofill && (d.created || d.frame))
            && (d'.seen != d.seen ==> LastSeen(d'.seen) == Some(state) == Some(d'.current))
  {
    assert forall s :: d.seen + [s] != d.seen by {
      forall s ensures d.seen + [s] != d.seen { assert |d.seen + [s]| != |d.seen|; }
    }
  }

  /** The application's view is the current state. */
  ghost predicate InView(d: Dialog) {
    d.started ==> LastSeen(d.seen) == Some(d.current)
  }

  /** With its own UI throughout, and as long as the web contents are there, the application always sees
      the current state. */
  lemma {:induction false} ViewIsCurrent(d: Dialog, steps: seq<Step>)
    requires InView(d) && d.presentation != Autofill && d.frame
    requires forall i :: 0 <= i < |steps| ==> steps[i] != Presented(Autofill) && !steps[i].FrameGone?
    ensures InView(Run(d, steps))
    decreases |steps|
  {
    if steps != [] {
      var tail := steps[1..];
      assert forall i :: 0 <= i < |tail| ==> tail[i] == steps[i + 1];
      assert steps[0] != Presented(Autofill) && !steps[0].FrameGone?;
      ViewIsCurrent(Apply(d, steps[0]), tail);
    }
  }

  /** For every sequence of steps the controller has started exactly if its state is not NotStarted,
      so the guarded start never starts it twice; and dialogs shown and ended balance. */
  lemma EveryRunBalances(steps: seq<Step>)
    requires forall i :: 0 <= i < |steps| ==> Allowed(steps[i])
    ensures var d := Run(INITIAL, steps);
            && (d.started <==> d.current != NotStarted)
            && Open(d.seen) == (if d.created then 1 else 0)
  {
    RunKeepsInv(INITIAL, steps);
  }

  /** The state that the steps before the start leave behind. */
  function LastRequested(steps: seq<Step>, presentation: Presentation, last: Option<UxState>): Option<UxState>
    decreases |steps|
  {
    if steps == [] then last
    else match steps[0]
      case Requested(state) => LastRequested(steps[1..], presentation, Some(state))
      case AccountsGiven =>
        LastRequested(steps[1..], presentation, if presentation == Modal then Some(SelectAccount) else last)
      case Presented(p) => LastRequested(steps[1..], p, last)
      case _ => LastRequested(steps[1..], presentation, last)
  }

  lemma {:induction false} NotStartedKeepsLast(d: Dialog, steps: seq<Step>)
    requires Inv(d) && !d.started
    requires forall i :: 0 <= i < |steps| ==> Allowed(steps[i]) && !steps[i].Enumerated?
    ensures var d' := Run(d, steps);
            !d'.started && d'.seen == [] && d'.pending == LastRequested(steps, d.presentation, d.pending) && Inv(d')
    decreases |steps|
  {
    if steps != [] {
      var tail := steps[1..];
      assert forall i :: 0 <= i < |tail| ==> tail[i] == steps[i + 1];
      StepKeepsInv(d, steps[0]);
      NotStartedKeepsLast(Apply(d, steps[0]), tail);
    }
  }

  /** Starting enters the last state requested beforehand, or Discovery if there was none, and that is
      the state the first dialog is shown with. */
  lemma StartEntersLast(steps: seq<Step>)
    requires forall i :: 0 <= i < |steps| ==> Allowed(steps[i]) && !steps[i].Enumerated?
    requires Run(INITIAL, steps).presentation != Disabled
    ensures var before := Run(INITIAL, steps);
            var last := LastRequested(steps, Modal, None);
            var state := if last.Some? then last.value else Discovery;
            var d := Apply(before, Enumerated);
            && d.started && d.current == state && d.pending == None
            && d.seen == if before.presentation == Autofill || !before.frame then [] else [Shown(state)]
  {
    NotStartedKeepsLast(INITIAL, steps);
  }

  /** A cancel opens a dialog, cancelled from the start, exactly if none is there and the
      request has started with its own UI. */
  lemma CancelOpensDialog(d: Dialog)
    requires Inv(d)
    ensures SetCurrentState(d, Cancelled).seen == d.seen + [Shown(Cancelled)]
       <==> d.started && d.presentation != Autofill && !d.created && d.frame
  {
    assert d.seen + [Shown(Cancelled)] != d.seen + [Changed(Cancelled)] by {
      assert (d.seen + [Shown(Cancelled)])[|d.seen|] != (d.seen + [Changed(Cancelled)])[|d.seen|];
    }
    assert |d.seen + [Shown(Cancelled)]| != |d.seen|;
  }

  /** A dialog is over once it has been told of being cancelled or completed, and of nothing else. */
  lemma DialogEndsExactlyWhen(d: Dialog, state: UxState)
    requires d.created && d.started && d.presentation != Autofill
    ensures !SetCurrentState(d, state).created <==> state in {Cancelled, Completed}
    ensures SetCurrentState(d, state).seen == d.seen + [Changed(state)]
  {
  }

  /** Finishing completes the request if there is a dialog, which is then over unless the UI has been handed to
      autofill; without a dialog it does nothing. */
  lemma FinishCompletes(d: Dialog)
    requires Inv(d)
    ensures var d' := FinishRequest(d);
            && (!d.created ==> d' == d)
            && (d.created ==> d'.current == Completed && d'.started)
            && (d.created && d.presentation == Autofill ==> d'.seen == d.seen && d'.created)
            && (d.created && d.presentation != Autofill ==> d'.seen == d.seen + [Changed(Completed)] && !d'.created)
  {
  }

  /** The request starts when the transports are known, exactly if it has not yet and its UI is not disabled. */
  lemma StartsExactlyWhen(d: Dialog)
    requires Inv(d)
    ensures Apply(d, Enumerated).started <==> d.started || d.presentation != Disabled
    ensures d.started || d.presentation == Disabled ==> Apply(d, Enumerated) == d
  {
    if !d.started && d.presentation != Disabled {
      SetCurrentKeeps(d.(started := true), if d.pending.Some? then d.pending.value else Discovery);
    }
  }

  /** A request that is cancelled twice shows a second dialog. */
  lemma SecondCancelShowsDialog()
    ensures Run(INITIAL, [Enumerated, Requested(Cancelled), Requested(Cancelled)]).seen
         == [Shown(Discovery), Changed(Cancelled), Shown(Cancelled)]
  {
    var steps := [Enumerated, Requested(Cancelled), Requested(Cancelled)];
    assert steps[1..] == [Requested(Cancelled), Requested(Cancelled)];
    assert steps[1..][1..] == [Requested(Cancelled)];
    assert steps[1..][1..][1..] == [];
    var d1 := Apply(INITIAL, Enumerated);
    var d2 := Apply(d1, Requested(Cancelled));
    var d3 := Apply(d2, Requested(Cancelled));
    assert Run(d3, []) == d3;
    assert Run(d2, steps[1..][1..]) == d3;
    assert Run(d1, steps[1..]) == d3;
  }
}
