/** Input method events, and the empty ones that are posted again
    (src/core/render_widget_host_view_qt_delegate_client.cpp:452-463, 485-502, 647-658, 877-907). */
module ImeEvents {

  /** A QInputMethodEvent as far as the branches look at it. `replacement` is its length, which may be
      negative; `selection` says whether it carries a selection attribute. */
  datatype InputMethodEvent = InputMethodEvent(commit: string, preedit: string, replacement: int, selection: bool)

  /** The calls made to the renderer. */
  datatype Call = CommitText(text: string) | SetComposition(text: string) | CancelComposition | CommitInputMethod

  /** The flags, the empty events posted and not yet received, and the calls so far. */
  datatype Ime = Ime(inProgress: bool, receivedEmpty: bool, posted: nat, calls: seq<Call>)

  const IDLE: Ime := Ime(false, false, 0, [])

  predicate IsEmptyEvent(e: InputMethodEvent) {
    e.commit == "" && e.preedit == "" && e.replacement == 0
  }

  /** Lines 877-890. */
  function HandleEmpty(s: Ime, selection: bool): Ime {
    if !s.receivedEmpty && s.inProgress && !selection then s.(receivedEmpty := true, posted := s.posted + 1)
    else s.(receivedEmpty := false, inProgress := false,
            calls := if s.inProgress then s.calls + [CancelComposition] else s.calls)
  }

  /** Lines 892-907. */
  function HandleText(s: Ime, e: InputMethodEvent): Ime {
    var commits := e.commit != "" || e.replacement > 0;
    var s1 := if commits then s.(inProgress := false, calls := s.calls + [CommitText(e.commit)]) else s;
    var s2 := s1.(receivedEmpty := false);
    if e.preedit == "" then s2 else s2.(inProgress := true, calls := s2.calls + [SetComposition(e.preedit)])
  }

  function HandleInputMethod(s: Ime, e: InputMethodEvent): Ime {
    if IsEmptyEvent(e) then HandleEmpty(s, e.selection) else HandleText(s, e)
  }

  /** Lines 485-502: a key event after an empty input method event. */
  function HandleKey(s: Ime, key: int, release: bool, text: string): Ime {
    if !s.receivedEmpty then s
    else if key != 0 then s.(receivedEmpty := false, calls := s.calls + [CancelComposition])
    else if release then s.(receivedEmpty := false, inProgress := false, calls := s.calls + [CommitText(text)])
    else s
  }

  /** A mouse press or the begin of a touch. */
  function HandlePress(s: Ime): Ime {
    if s.inProgress then s.(inProgress := false, calls := s.calls + [CommitInputMethod]) else s
  }

  /** A posted event is received. It is a clone of an empty event without a selection. */
  function ReceivePosted(s: Ime): Ime
    requires s.posted > 0
  {
    HandleEmpty(s.(posted := s.posted - 1), false)
  }

  class ImeClient {
    var imeInProgress: bool
    var receivedEmptyImeEvent: bool
    /** The events posted to the focused object. */
    var posted: nat
    var calls: seq<Call>

    ghost function State(): Ime
      reads this
    {
      Ime(imeInProgress, receivedEmptyImeEvent, posted, calls)
    }

    constructor ()
      ensures State() == IDLE
    {
      imeInProgress, receivedEmptyImeEvent, posted, calls := false, false, 0, [];
    }

    method HandleInputMethodEvent(event: InputMethodEvent)
      requires Inv(State())
      modifies this
      ensures State() == HandleInputMethod(old(State()), event) && Inv(State())
    {
      StepKeepsInv(State(), InputMethod(event));
      if event.commit == "" && event.preedit == "" && event.replacement == 0 {
        if !receivedEmptyImeEvent && imeInProgress && !event.selection {
          receivedEmptyImeEvent := true;
          posted := posted + 1;
        } else {
          receivedEmptyImeEvent := false;
          if imeInProgress {
            imeInProgress := false;
            calls := calls + [CancelComposition];
          }
        }
        return;
      }
      receivedEmptyImeEvent := false;
      if event.commit != "" || event.replacement > 0 {
        calls := calls + [CommitText(event.commit)];
        imeInProgress := false;
      }
      if event.preedit != "" {
        calls := calls + [SetComposition(event.preedit)];
        imeInProgress := true;
      }
    }

    method HandleKeyEvent(key: int, release: bool, text: string)
      requires Inv(State())
      modifies this
      ensures State() == HandleKey(old(State()), key, release, text) && Inv(State())
    {
      StepKeepsInv(State(), Key(key, release, text));
      if receivedEmptyImeEvent {
        if key != 0 {
          calls := calls + [CancelComposition];
          receivedEmptyImeEvent := false;
        } else if release {
          calls := calls + [CommitText(text)];
          receivedEmptyImeEvent, imeInProgress := false, false;
        }
      }
    }

    /** Lines 452-463 and 647-658. */
    method HandlePressEvent()
      requires Inv(State())
      modifies this
      ensures State() == HandlePress(old(State())) && Inv(State())
    {
      StepKeepsInv(State(), Press);
      if imeInProgress {
        imeInProgress := false;
        calls := calls + [CommitInputMethod];
      }
    }
  }

  // ---- draining ----

  /** How many posted events are still to be received if nothing else happens. */
  function PostsLeft(s: Ime): nat {
    if s.posted > 0 && s.inProgress && !s.receivedEmpty then s.posted + 1 else s.posted
  }

  /** Where the posted events lead: both flags are cleared, and a composition in progress is cancelled
      once. Without posted events nothing changes. */
  function Settled(s: Ime): Ime {
    if s.posted == 0 then s
    else Ime(false, false, 0, if s.inProgress then s.calls + [CancelComposition] else s.calls)
  }

  /** The event loop with nothing but posted events in it. */
  function Drain(s: Ime): Ime
    decreases PostsLeft(s)
  {
    if s.posted == 0 then s else Drain(ReceivePosted(s))
  }

  lemma {:induction false} DrainSettles(s: Ime)
    ensures Drain(s) == Settled(s)
    decreases PostsLeft(s)
  {
    if s.posted > 0 {
      DrainSettles(ReceivePosted(s));
    }
  }

  // ---- every run ----

  datatype Step =
    | InputMethod(event: InputMethodEvent)
    | Key(key: int, release: bool, text: string)
    | Press
    | Posted

  ghost predicate ValidRun(s: Ime, steps: seq<Step>)
    decreases |steps|
  {
    steps == [] || ((steps[0].Posted? ==> s.posted > 0) && ValidRun(Apply(s, steps[0]), steps[1..]))
  }

  function Apply(s: Ime, step: Step): Ime {
    match step
    case InputMethod(e) => HandleInputMethod(s, e)
    case Key(key, release, text) => HandleKey(s, key, release, text)
    case Press => HandlePress(s)
    case Posted => if s.posted > 0 then ReceivePosted(s) else s
  }

  function Run(s: Ime, steps: seq<Step>): Ime
    decreases |steps|
  {
    if steps == [] then s else Run(Apply(s, steps[0]), steps[1..])
  }

  /** Whether the renderer shows a composition after these calls. Committing the input method's text
      ends it like any other commit. */
  function Composing(calls: seq<Call>): bool
    decreases |calls|
  {
    calls != [] && calls[|calls| - 1].SetComposition?
  }

  /** While an empty event is remembered a posted one is on its way. Where the renderer shows a composition
      the flag says so; where the flag says so and there is none any more, a posted event is on its way
      that will clear the flag. */
  ghost predicate Inv(s: Ime) {
    && (s.receivedEmpty ==> s.posted > 0)
    && (Composing(s.calls) ==> s.inProgress)
    && (s.inProgress && !Composing(s.calls) ==> s.posted > 0)
  }

  lemma StepKeepsInv(s: Ime, step: Step)
    requires Inv(s) && (step.Posted? ==> s.posted > 0)
    ensures Inv(Apply(s, step))
  {
  }

  lemma {:induction false} RunKeepsInv(s: Ime, steps: seq<Step>)
    requires Inv(s) && ValidRun(s, steps)
    ensures Inv(Run(s, steps))
    decreases |steps|
  {
    if steps != [] {
      StepKeepsInv(s, steps[0]);
      RunKeepsInv(Apply(s, steps[0]), steps[1..]);
    }
  }

  /** The flag says that a composition is in progress exactly if the renderer shows one. */
  predicate Agree(s: Ime) {
    s.inProgress <==> Composing(s.calls)
  }

  /** A key event that is no result of a composition, while an empty event is remembered and the flag is set. */
  predicate KeyCancels(s: Ime, step: Step) {
    step.Key? && step.key != 0 && s.receivedEmpty && s.inProgress
  }

  /** Such a key event was the last step that called the renderer, or none did and it was `before`. */
  predicate LeftBehind(s: Ime, steps: seq<Step>, before: bool)
    decreases |steps|
  {
    if steps == [] then before
    else
      var next := Apply(s, steps[0]);
      LeftBehind(next, steps[1..], KeyCancels(s, steps[0]) || (before && next.calls == s.calls))
  }

  lemma StepAgrees(s: Ime, step: Step)
    requires Inv(s) && (step.Posted? ==> s.posted > 0)
    ensures !Agree(Apply(s, step)) <==> KeyCancels(s, step) || (!Agree(s) && Apply(s, step).calls == s.calls)
  {
  }

  /** Over every run flag and renderer differ exactly if the last step that called the renderer was such a key. */
  lemma {:induction false} DifferExactlyWhen(s: Ime, steps: seq<Step>)
    requires Inv(s) && ValidRun(s, steps)
    ensures !Agree(Run(s, steps)) <==> LeftBehind(s, steps, !Agree(s))
    decreases |steps|
  {
    if steps != [] {
      StepAgrees(s, steps[0]);
      StepKeepsInv(s, steps[0]);
      DifferExactlyWhen(Apply(s, steps[0]), steps[1..]);
    }
  }

  /** Over every run the flag says that a composition is in progress wherever the renderer shows one. It says so
      although there is none exactly if the last call to the renderer was made for a key event that found an
      empty event remembered and the flag set; then a posted event is on its way, and once that is received
      the two agree. */
  lemma FlagMirrorsRenderer(steps: seq<Step>)
    requires ValidRun(IDLE, steps)
    ensures var s := Run(IDLE, steps);
            && (Composing(s.calls) ==> s.inProgress)
            && (s.inProgress && !Composing(s.calls) <==> LeftBehind(IDLE, steps, false))
            && (LeftBehind(IDLE, steps, false) ==> s.posted > 0)
            && Agree(Drain(s))
  {
    var s := Run(IDLE, steps);
    RunKeepsInv(IDLE, steps);
    DifferExactlyWhen(IDLE, steps);
    DrainSettles(s);
  }

  /** A key event that is no result of a composition, after an empty event, is where they differ: the
      composition is cancelled but the flag stays. */
  lemma KeyLeavesFlag(first: string, key: int)
    requires first != "" && key != 0
    ensures var s := HandleKey(HandleEmpty(HandleInputMethod(IDLE, InputMethodEvent("", first, 0, false)), false),
                               key, false, "");
            s.inProgress && !Composing(s.calls) && !Drain(s).inProgress
  {
    var s1 := HandleInputMethod(IDLE, InputMethodEvent("", first, 0, false));
    var s2 := HandleEmpty(s1, false);
    var s3 := HandleKey(s2, key, false, "");
    DrainSettles(s3);
  }

  /** After any run, once the posted events have been received no empty event is remembered; and if
      there was a posted one, no composition is in progress. */
  lemma NothingRemembered(steps: seq<Step>)
    requires ValidRun(IDLE, steps)
    ensures var s := Run(IDLE, steps);
            && !Drain(s).receivedEmpty && Drain(s).posted == 0
            && (s.posted > 0 ==> !Drain(s).inProgress)
            && (s.posted == 0 ==> Drain(s) == s)
  {
    RunKeepsInv(IDLE, steps);
    DrainSettles(Run(IDLE, steps));
  }

  /** An empty event without a selection cancels the composition in progress once the event loop has
      run dry, and not before. */
  lemma EmptyEventCancelsLater(s: Ime)
    requires Inv(s) && s.inProgress && !s.receivedEmpty
    ensures var s' := HandleEmpty(s, false);
            && s'.calls == s.calls && s'.inProgress
            && Drain(s').calls == s.calls + [CancelComposition] && !Drain(s').inProgress
  {
    DrainSettles(HandleEmpty(s, false));
  }

  /** A composition that an event starts or updates is cancelled by posted events exactly if there is one on its
      way, whichever composition that one was meant to end. */
  lemma CompositionCancelledExactlyWhen(s: Ime, e: InputMethodEvent)
    requires e.preedit != ""
    ensures var s' := HandleInputMethod(s, e);
            && s'.inProgress && Composing(s'.calls)
            && Drain(s').calls == (if s.posted > 0 then s'.calls + [CancelComposition] else s'.calls)
            && (Drain(s').inProgress <==> s.posted == 0)
  {
    DrainSettles(HandleInputMethod(s, e));
  }

  /** A composition that starts while an event is still posted is cancelled by it, although that event
      ended another composition. */
  lemma PostedEventCancelsNewComposition(first: string, text: string, second: string)
    requires first != "" && text != "" && second != ""
    ensures var steps := [InputMethod(InputMethodEvent("", first, 0, false)),
                          InputMethod(InputMethodEvent("", "", 0, false)),
                          Key(0, true, text),
                          InputMethod(InputMethodEvent("", second, 0, false))];
            && ValidRun(IDLE, steps)
            && Drain(Run(IDLE, steps)).calls
               == [SetComposition(first), CommitText(text), SetComposition(second), CancelComposition]
  {
    var e1, e2 := InputMethodEvent("", first, 0, false), InputMethodEvent("", "", 0, false);
    var e4 := InputMethodEvent("", second, 0, false);
    var steps := [InputMethod(e1), InputMethod(e2), Key(0, true, text), InputMethod(e4)];
    var s1 := Apply(IDLE, InputMethod(e1));
    var s2 := Apply(s1, InputMethod(e2));
    var s3 := Apply(s2, Key(0, true, text));
    var s4 := Apply(s3, InputMethod(e4));
    assert steps[1..] == [InputMethod(e2), Key(0, true, text), InputMethod(e4)];
    assert steps[1..][1..] == [Key(0, true, text), InputMethod(e4)];
    assert steps[1..][1..][1..] == [InputMethod(e4)];
    assert steps[1..][1..][1..][1..] == [];
    assert Run(s4, []) == s4 && ValidRun(s4, []);
    assert Run(s3, steps[1..][1..][1..]) == s4 && ValidRun(s3, steps[1..][1..][1..]);
    assert Run(s2, steps[1..][1..]) == s4 && ValidRun(s2, steps[1..][1..]);
    assert Run(s1, steps[1..]) == s4 && ValidRun(s1, steps[1..]);
    DrainSettles(s4);
    assert s3 == Ime(false, false, 1, [SetComposition(first), CommitText(text)]);
  }

  // ---- what else ends a composition ----

  /** A press commits what is being composed, once, and ends the composition. */
  lemma PressCommits(s: Ime)
    requires Inv(s)
    ensures var s' := HandlePress(s);
            && !s'.inProgress && !Composing(s'.calls)
            && s'.calls == s.calls + (if s.inProgress then [CommitInputMethod] else [])
            && HandlePress(s') == s'
  {
  }

  /** An empty event that carries a selection cancels a composition at once, and is not posted again. */
  lemma SelectionCancelsNow(s: Ime)
    ensures var s' := HandleEmpty(s, true);
            && !s'.inProgress && !s'.receivedEmpty && s'.posted == s.posted
            && s'.calls == s.calls + (if s.inProgress then [CancelComposition] else [])
  {
  }

  /** Only an empty event without a selection, during a composition that no other is about to end, is posted again
      and remembered; every other event forgets what was remembered. */
  lemma PostedExactlyWhen(s: Ime, e: InputMethodEvent)
    ensures var s' := HandleInputMethod(s, e);
            var empty := e.commit == "" && e.preedit == "" && e.replacement == 0;
            && (s'.posted == s.posted + 1 <==> empty && !e.selection && s.inProgress && !s.receivedEmpty)
            && (s'.receivedEmpty <==> s'.posted == s.posted + 1)
            && (s'.posted != s.posted + 1 ==> s'.posted == s.posted)
            && (!empty ==> CancelComposition !in s'.calls[|s.calls|..])
  {
  }

  /** The key event that answers a remembered empty event is the only one: whatever keys follow do nothing. */
  lemma KeyAnswersOnce(s: Ime, key: int, release: bool, text: string, key2: int, release2: bool, text2: string)
    requires s.receivedEmpty && (key != 0 || release)
    ensures var s' := HandleKey(s, key, release, text);
            && s'.calls == s.calls + [if key != 0 then CancelComposition else CommitText(text)]
            && HandleKey(s', key2, release2, text2) == s'
  {
  }

  // ---- the texts ----

  /** What an event tells the renderer: the text to commit, then the text to compose. */
  function TextsOf(s: Ime, step: Step): seq<Call> {
    match step
    case InputMethod(e) =>
      (if e.commit != "" || e.replacement > 0 then [CommitText(e.commit)] else [])
      + (if e.preedit != "" then [SetComposition(e.preedit)] else [])
    case Key(key, release, text) => if s.receivedEmpty && key == 0 && release then [CommitText(text)] else []
    case _ => []
  }

  function TextsGiven(s: Ime, steps: seq<Step>): seq<Call>
    decreases |steps|
  {
    if steps == [] then [] else TextsOf(s, steps[0]) + TextsGiven(Apply(s, steps[0]), steps[1..])
  }

  /** The calls that carry a text. */
  function Texts(calls: seq<Call>): seq<Call>
    decreases |calls|
  {
    if calls == [] then []
    else
      var last := calls[|calls| - 1];
      Texts(calls[..|calls| - 1]) + if IsText(last) then [last] else []
  }

  predicate IsText(c: Call) {
    c.CommitText? || c.SetComposition?
  }

  lemma TextsLast(calls: seq<Call>, c: Call)
    ensures Texts(calls + [c]) == Texts(calls) + if IsText(c) then [c] else []
  {
    assert (calls + [c])[..|calls|] == calls;
  }

  /** Calls that all carry a text. */
  lemma {:induction false} TextsMore(calls: seq<Call>, more: seq<Call>)
    requires forall i :: 0 <= i < |more| ==> IsText(more[i])
    ensures Texts(calls + more) == Texts(calls) + more
    decreases |more|
  {
    if more == [] {
      assert calls + more == calls;
    } else {
      var n := |more| - 1;
      assert calls + more == (calls + more[..n]) + [more[n]];
      TextsMore(calls, more[..n]);
      TextsLast(calls + more[..n], more[n]);
    }
  }

  lemma EventCalls(s: Ime, e: InputMethodEvent)
    ensures !IsEmptyEvent(e) ==> HandleInputMethod(s, e).calls == s.calls + TextsOf(s, InputMethod(e))
  {
  }

  lemma StepTexts(s: Ime, step: Step)
    ensures Texts(Apply(s, step).calls) == Texts(s.calls) + TextsOf(s, step)
  {
    TextsLast(s.calls, CancelComposition);
    TextsLast(s.calls, CommitInputMethod);
    TextsMore(s.calls, TextsOf(s, step));
    if step.InputMethod? { EventCalls(s, step.event); }
  }

  /** Over every run the renderer gets the texts that the events carry, each once and in their order: what is to be
      committed, and what is to be composed. */
  lemma {:induction false} TextsArrive(s: Ime, steps: seq<Step>)
    ensures Texts(Run(s, steps).calls) == Texts(s.calls) + TextsGiven(s, steps)
    decreases |steps|
  {
    if steps != [] {
      StepTexts(s, steps[0]);
      TextsArrive(Apply(s, steps[0]), steps[1..]);
    }
  }
}
