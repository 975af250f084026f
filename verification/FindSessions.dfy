/** What a helper asks of the renderer and what it tells the application: when a search continues the one before,
    when that is stopped, and which numbers are signalled (src/core/find_text_helper.cpp:33-126). */
module FindSessions {
  import opened Wrappers
  import opened FindText
  import opened FindRuns

  // ---- sessions ----

  /** The search that another one would continue. */
  function Memory(h: Helper): Option<(string, bool)> {
    if h.previousText == "" then None else Some((h.previousText, h.previousCase))
  }

  /** The last search with text of the helper, unless it was stopped, a search without text was started or a page was
      loaded since; `before` is what it was before these steps. */
  function Remembered(k: nat, steps: seq<Step>, before: Option<(string, bool)>): Option<(string, bool)>
    decreases |steps|
  {
    if steps == [] then before
    else if steps[0].who != k then Remembered(k, steps[1..], before)
    else match steps[0]
      case Started(_, _, text, matchCase, _, _) =>
        Remembered(k, steps[1..], if text == "" then None else Some((text, matchCase)))
      case Replied(_, _, _, _, _) => Remembered(k, steps[1..], before)
      case _ => Remembered(k, steps[1..], None)
  }

  function MemoryIn(w: World, k: nat): Option<(string, bool)> {
    if k in w.helpers then Memory(w.helpers[k]) else None
  }

  lemma StepRemembers(w: World, step: Step, k: nat)
    requires Enabled(w, step)
    ensures MemoryIn(Apply(w, step), k) == Remembered(k, [step], MemoryIn(w, k))
  {
    assert [step][1..] == [];
  }

  lemma RememberedFirst(k: nat, steps: seq<Step>, before: Option<(string, bool)>)
    requires steps != []
    ensures Remembered(k, steps, before) == Remembered(k, steps[1..], Remembered(k, [steps[0]], before))
  {
    assert [steps[0]][1..] == [];
  }

  lemma {:induction false} RunRemembers(w: World, steps: seq<Step>, k: nat)
    requires ValidRun(w, steps)
    ensures MemoryIn(Run(w, steps), k) == Remembered(k, steps, MemoryIn(w, k))
    decreases |steps|
  {
    if steps != [] {
      StepRemembers(w, steps[0], k);
      RememberedFirst(k, steps, MemoryIn(w, k));
      RunRemembers(Apply(w, steps[0]), steps[1..], k);
    }
  }

  lemma GivesUp(h: Helper, findNext: bool)
    ensures var h' := GiveUp(h, findNext);
            && h'.finds == h.finds
            && h'.stops == h.stops + (if InProgress(h) && !findNext then 1 else 0)
            && h'.signals == h.signals + (if InProgress(h) then [Finished(0, 0)] else [])
  {
  }

  lemma StartAsks(h: Helper, id: int, flavour: Flavour, text: string, matchCase: bool, backward: bool, callback: bool)
    requires text != ""
    ensures var h' := Start(h, id, flavour, text, matchCase, backward, callback);
            var anew := Memory(h) != Some((text, matchCase));
            && h'.finds == h.finds + [Find(id, text, !backward, matchCase, anew)]
            && h'.stops == h.stops + (if InProgress(h) && anew then 1 else 0)
            && h'.signals == h.signals + (if InProgress(h) then [Finished(0, 0)] else [])
  {
    GivesUp(h, FindNext(h, text, matchCase));
  }

  /** After every run, a search with text asks the renderer to find it, with the next id, in the direction asked for,
      as a new session exactly if it is not for the text and case remembered; a search still in progress is stopped
      only for a new session, and signalled as unsuccessful in any case. */
  lemma NewSessionExactlyWhen(steps: seq<Step>, k: nat, flavour: Flavour, text: string, matchCase: bool, backward: bool,
                              callback: bool)
    requires ValidRun(START, steps) && k in Run(START, steps).helpers && text != ""
    ensures var w := Run(START, steps);
            var h, h' := w.helpers[k], Apply(w, Started(k, flavour, text, matchCase, backward, callback)).helpers[k];
            var anew := Remembered(k, steps, None) != Some((text, matchCase));
            && h'.finds == h.finds + [Find(w.counter, text, !backward, matchCase, anew)]
            && h'.stops == h.stops + (if InProgress(h) && anew then 1 else 0)
            && h'.signals == h.signals + (if InProgress(h) then [Finished(0, 0)] else [])
  {
    var w := Run(START, steps);
    RunRemembers(START, steps, k);
    StartAsks(w.helpers[k], w.counter, flavour, text, matchCase, backward, callback);
  }

  // ---- signals ----

  /** A final reply to the search in progress is signalled with its numbers; no other reply is. */
  lemma ReplySignals(h: Helper, id: int, matches: int, active: int, final: bool)
    requires Inv(h) && id in Ids(h.finds)
    ensures Reply(h, id, matches, active, final).signals
         == h.signals + if final && InProgress(h) && id == h.current then [Finished(matches, active)] else []
  {
    if final && id > h.last { AcceptedReplyIsCurrent(h, id); }
  }

  /** Stopping signals nothing; a search without text stops too, signals that nothing is found and tells its own
      callback so at once. Both ask the renderer to stop once and to find nothing. */
  lemma StopSignals(h: Helper, id: int, flavour: Flavour, matchCase: bool, backward: bool, callback: bool)
    ensures var h1, h2 := Stop(h), Start(h, id, flavour, "", matchCase, backward, callback);
            && h1.signals == h.signals && h1.runs == h.runs
            && h2.signals == h.signals + [Finished(0, 0)]
            && h2.runs == h.runs + (if callback then [CallbackRun(h.starts, 0)] else [])
            && h1.stops == h2.stops == h.stops + 1 && h1.finds == h2.finds == h.finds
            && Memory(h1) == Memory(h2) == None
  {
  }

  /** At most one callback has run, and then one signal with the same number of matches was sent. */
  ghost predicate InTune(h: Helper, h': Helper) {
    || h'.runs == h.runs
    || exists r: CallbackRun, s: Finished ::
         h'.runs == h.runs + [r] && h'.signals == h.signals + [s] && r.matches == s.matches
  }

  lemma OneRunOneSignal(h: Helper, h': Helper, r: CallbackRun, s: Finished)
    requires h'.signals == h.signals + [s] && r.matches == s.matches
    requires h'.runs == h.runs + [r] || h'.runs == h.runs
    ensures InTune(h, h')
  {
  }

  lemma InvokeRunsOnce(h: Helper, id: int, matches: int) returns (r: CallbackRun)
    requires KeysFit(h)
    ensures var h' := Invoke(h, id, matches);
            h'.signals == h.signals && (h'.runs == h.runs || h'.runs == h.runs + [r]) && r.matches == matches
  {
    InvokeRuns(h, id, matches);
    r := if id in Kept(h) then CallbackRun(Kept(h)[id], matches) else CallbackRun(0, matches);
  }

  /** A callback gets the number that is signalled with it, whatever makes it run. */
  lemma CallbacksInTune(h: Helper, id: int, flavour: Flavour, text: string, matchCase: bool, backward: bool,
                        callback: bool, matches: int, active: int, final: bool)
    requires Inv(h)
    ensures InTune(h, Start(h, id, flavour, text, matchCase, backward, callback))
    ensures InTune(h, Reply(h, id, matches, active, final))
  {
    if text == "" {
      var h' := Start(h, id, flavour, "", matchCase, backward, callback);
      OneRunOneSignal(h, h', CallbackRun(h.starts, 0), Finished(0, 0));
    } else if InProgress(h) {
      var r := InvokeRunsOnce(EndSearch(h, FindNext(h, text, matchCase)), h.current, 0);
      OneRunOneSignal(h, Start(h, id, flavour, text, matchCase, backward, callback), r, Finished(0, 0));
    }
    if final && id > h.last {
      var h1 := h.(last := id, signals := h.signals + [Finished(matches, active)]);
      var r := InvokeRunsOnce(h1, id, matches);
      OneRunOneSignal(h, Reply(h, id, matches, active, final), r, Finished(matches, active));
    }
  }
}
