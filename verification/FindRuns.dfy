/** Any number of FindTextHelpers drawing ids from the one counter
    (src/core/find_text_helper.cpp:16-138). */
module FindRuns {
  import opened FindText

  /** The static counter, the helpers alive, and the names of all that ever were. */
  datatype World = World(counter: int, helpers: map<nat, Helper>, used: set<nat>)

  const START: World := World(-1, map[], {})

  datatype Step =
    | Created(who: nat)
    | Started(who: nat, flavour: Flavour, text: string, matchCase: bool, backward: bool, callback: bool)
    | Stopped(who: nat)
    | Replied(who: nat, id: int, matches: int, active: int, final: bool)
    | Loaded(who: nat)
    | Destroyed(who: nat)

  /** A new helper has a new name, and the replies to a helper carry ids of requests it made. */
  ghost predicate Enabled(w: World, step: Step) {
    if step.Created? then step.who !in w.used
    else step.who in w.helpers && (step.Replied? ==> step.id in Ids(w.helpers[step.who].finds))
  }

  function Apply(w: World, step: Step): World
    requires !step.Created? ==> step.who in w.helpers
  {
    match step
    case Created(k) => World(w.counter + 1, w.helpers[k := New(w.counter)], w.used + {k})
    case Started(k, flavour, text, matchCase, backward, callback) =>
      World(if text == "" then w.counter else w.counter + 1,
            w.helpers[k := Start(w.helpers[k], w.counter, flavour, text, matchCase, backward, callback)], w.used)
    case Stopped(k) => w.(helpers := w.helpers[k := Stop(w.helpers[k])])
    case Replied(k, id, matches, active, final) =>
      w.(helpers := w.helpers[k := Reply(w.helpers[k], id, matches, active, final)])
    case Loaded(k) => w.(helpers := w.helpers[k := w.helpers[k].(previousText := "")])
    case Destroyed(k) => w.(helpers := w.helpers - {k})
  }

  ghost predicate ValidRun(w: World, steps: seq<Step>)
    decreases |steps|
  {
    steps == [] || (Enabled(w, steps[0]) && ValidRun(Apply(w, steps[0]), steps[1..]))
  }

  ghost function Run(w: World, steps: seq<Step>): World
    requires ValidRun(w, steps)
    decreases |steps|
  {
    if steps == [] then w else Run(Apply(w, steps[0]), steps[1..])
  }

  /** An id in use by a helper: of one of its requests, or drawn by its constructor and still current. */
  ghost predicate Uses(h: Helper, id: int) {
    id in Ids(h.finds) || id == h.current
  }

  /** Every helper is in order, no id is ahead of the counter, and no two helpers share one. */
  ghost predicate WorldInv(w: World) {
    && w.helpers.Keys <= w.used
    && (forall k :: k in w.helpers ==> Inv(w.helpers[k]) && w.helpers[k].current < w.counter)
    && (forall j, k, id :: j in w.helpers && k in w.helpers && j != k && Uses(w.helpers[j], id) ==>
          !Uses(w.helpers[k], id))
  }

  /** What a step does to the ids of its helper: none, or one more, which is the new current one. */
  ghost predicate Draws(h: Helper, h': Helper, counter: int, drew: bool) {
    if drew then h'.current == counter && Ids(h'.finds) == Ids(h.finds) + [counter]
    else h'.current == h.current && h'.finds == h.finds
  }

  lemma StartDraws(h: Helper, id: int, flavour: Flavour, text: string, matchCase: bool, backward: bool, callback: bool)
    ensures Draws(h, Start(h, id, flavour, text, matchCase, backward, callback), id, text != "")
  {
    if text != "" {
      var h' := Start(h, id, flavour, text, matchCase, backward, callback);
      assert h'.finds == h.finds + [h'.finds[|h.finds|]] && h'.finds[|h.finds|].id == id;
      assert Ids(h'.finds) == Ids(h.finds) + [id];
    }
  }

  /** One helper changes as Draws says and keeps its invariant. */
  lemma OneHelperChanges(w: World, k: nat, h': Helper, drew: bool)
    requires WorldInv(w) && k in w.helpers && Inv(h') && Draws(w.helpers[k], h', w.counter, drew)
    ensures WorldInv(World(if drew then w.counter + 1 else w.counter, w.helpers[k := h'], w.used))
  {
    var w' := World(if drew then w.counter + 1 else w.counter, w.helpers[k := h'], w.used);
    forall id | Uses(h', id) ensures Uses(w.helpers[k], id) || (drew && id == w.counter) {
    }
    forall j, i, id | j in w'.helpers && i in w'.helpers && j != i && Uses(w'.helpers[j], id)
      ensures !Uses(w'.helpers[i], id)
    {
      NotAhead(w, j, w.counter);
      NotAhead(w, i, w.counter);
    }
  }

  /** No helper uses an id that is still to be drawn. */
  lemma NotAhead(w: World, k: nat, id: int)
    requires WorldInv(w)
    ensures k in w.helpers && id >= w.counter ==> !Uses(w.helpers[k], id)
  {
  }

  lemma CreateKeepsInv(w: World, k: nat)
    requires WorldInv(w) && k !in w.used
    ensures WorldInv(Apply(w, Created(k)))
  {
    var w' := Apply(w, Created(k));
    assert Ids([]) == [];
    assert Kept(New(w.counter)) == map[] && Tickets([]) == [];
    assert Inv(New(w.counter));
    forall j, i, id | j in w'.helpers && i in w'.helpers && j != i && Uses(w'.helpers[j], id)
      ensures !Uses(w'.helpers[i], id)
    {
      NotAhead(w, j, w.counter);
      NotAhead(w, i, w.counter);
    }
  }

  lemma LoadKeepsInv(h: Helper)
    requires Inv(h)
    ensures Inv(h.(previousText := ""))
  {
    assert Kept(h.(previousText := "")) == Kept(h);
  }

  lemma StepKeepsInv(w: World, step: Step)
    requires WorldInv(w) && Enabled(w, step)
    ensures WorldInv(Apply(w, step))
  {
    match step
    case Created(k) => CreateKeepsInv(w, k);
    case Started(k, flavour, text, matchCase, backward, callback) =>
      StartKeepsInv(w.helpers[k], w.counter, flavour, text, matchCase, backward, callback);
      StartDraws(w.helpers[k], w.counter, flavour, text, matchCase, backward, callback);
      OneHelperChanges(w, k, Start(w.helpers[k], w.counter, flavour, text, matchCase, backward, callback), text != "");
    case Stopped(k) =>
      StopKeepsInv(w.helpers[k]);
      OneHelperChanges(w, k, Stop(w.helpers[k]), false);
    case Replied(k, id, matches, active, final) =>
      ReplyKeepsInv(w.helpers[k], id, matches, active, final);
      OneHelperChanges(w, k, Reply(w.helpers[k], id, matches, active, final), false);
    case Loaded(k) =>
      LoadKeepsInv(w.helpers[k]);
      OneHelperChanges(w, k, w.helpers[k].(previousText := ""), false);
    case Destroyed(k) =>
  }

  lemma {:induction false} RunKeepsInv(w: World, steps: seq<Step>)
    requires WorldInv(w) && ValidRun(w, steps)
    ensures WorldInv(Run(w, steps))
    decreases |steps|
  {
    if steps != [] {
      StepKeepsInv(w, steps[0]);
      RunKeepsInv(Apply(w, steps[0]), steps[1..]);
    }
  }

  /** In every run, for every helper: a final reply that is not ignored is for the current request,
      which no other helper has made; every callback ran at most once; and the signals are the starts
      but for the search in progress and those given up by a stop. */
  lemma EveryHelperInOrder(steps: seq<Step>, k: nat, id: int)
    requires ValidRun(START, steps) && k in Run(START, steps).helpers
    ensures var w := Run(START, steps);
            var h := w.helpers[k];
            && (id in Ids(h.finds) && id > h.last ==>
                  id == h.current && forall j :: j in w.helpers && j != k ==> !Uses(w.helpers[j], id))
            && (forall i, j :: 0 <= i < j < |h.runs| ==> h.runs[i].ticket != h.runs[j].ticket)
            && |h.signals| == h.starts - h.abandoned - (if InProgress(h) then 1 else 0)
  {
    RunKeepsInv(START, steps);
    var h := Run(START, steps).helpers[k];
    assert forall i :: 0 <= i < |h.runs| ==> Tickets(h.runs)[i] == h.runs[i].ticket;
    if id in Ids(h.finds) && id > h.last {
      AcceptedReplyIsCurrent(h, id);
    }
  }

  // ---- which callbacks run ----

  /** A callback kept for a request that is already over. */
  ghost predicate Dead(h: Helper, ticket: nat) {
    && ticket < h.starts
    && ticket !in Tickets(h.runs)
    && forall id :: id in Kept(h) && Kept(h)[id] == ticket ==> id <= h.last
  }

  /** Stopping a search leaves its callback, and every other one still kept, in that state. */
  lemma StopAbandonsCallbacks(h: Helper, id: int)
    requires Inv(h) && id in Kept(h)
    ensures Dead(Stop(h), Kept(h)[id])
  {
    assert Kept(Stop(h)) == Kept(h);
    assert forall i :: i in Kept(h) ==> i in h.quick || i in h.widget;
  }

  lemma InvokeKeepsDead(h: Helper, id: int, matches: int, ticket: nat)
    requires KeysFit(h) && Dead(h, ticket) && (id in Kept(h) ==> Kept(h)[id] != ticket)
    ensures Dead(Invoke(h, id, matches), ticket)
  {
    var h' := Invoke(h, id, matches);
    InvokeRuns(h, id, matches);
    if id in Kept(h) {
      assert Tickets(h'.runs) == Tickets(h.runs) + [Kept(h)[id]];
    }
  }

  lemma GiveUpKeepsDead(h: Helper, findNext: bool, ticket: nat)
    requires Inv(h) && Dead(h, ticket)
    ensures Dead(GiveUp(h, findNext), ticket)
  {
    var h1 := EndSearch(h, findNext);
    assert Kept(h1) == Kept(h);
    if InProgress(h) {
      InvokeKeepsDead(h1, h.current, 0, ticket);
    }
  }

  lemma AskKeepsDead(h: Helper, id: int, find: Find, flavour: Flavour, callback: bool, ticket: nat)
    requires Inv(h) && id > h.current && find.id == id && Dead(h, ticket)
    ensures Dead(Store(Ask(h, id, find), flavour, h.starts, callback).(starts := h.starts + 1), ticket)
  {
    var h' := Store(Ask(h, id, find), flavour, h.starts, callback);
    AskKeeps(h, id, find, flavour, callback);
    KeptStarts(h', h.starts + 1);
  }

  lemma KeptStarts(h: Helper, starts: nat)
    ensures Kept(h.(starts := starts)) == Kept(h)
  {
  }

  lemma StartKeepsDead(h: Helper, id: int, flavour: Flavour, text: string, matchCase: bool, backward: bool,
                       callback: bool, ticket: nat)
    requires Inv(h) && id > h.current && Dead(h, ticket)
    ensures Dead(Start(h, id, flavour, text, matchCase, backward, callback), ticket)
  {
    if text == "" {
      StartWithoutTextKeepsDead(h, Start(h, id, flavour, text, matchCase, backward, callback), ticket);
    } else {
      var findNext := FindNext(h, text, matchCase);
      var given, find := GiveUp(h, findNext), Find(id, text, !backward, matchCase, !findNext);
      GiveUpKeepsInv(h, findNext);
      GiveUpKeepsDead(h, findNext, ticket);
      AskKeepsDead(given, id, find, flavour, callback, ticket);
      assert Start(h, id, flavour, text, matchCase, backward, callback)
          == Store(Ask(given, id, find), flavour, h.starts, callback).(starts := h.starts + 1);
    }
  }

  lemma StartWithoutTextKeepsDead(h: Helper, h': Helper, ticket: nat)
    requires Dead(h, ticket) && Kept(h') == Kept(h) && h'.starts == h.starts + 1 && h.last <= h'.last
    requires h'.runs == h.runs || exists n :: h'.runs == h.runs + [CallbackRun(h.starts, n)]
    ensures Dead(h', ticket)
  {
    if h'.runs != h.runs {
      var n :| h'.runs == h.runs + [CallbackRun(h.starts, n)];
      assert Tickets(h'.runs) == Tickets(h.runs) + [h.starts];
    }
  }

  lemma ReplyKeepsDead(h: Helper, id: int, matches: int, active: int, final: bool, ticket: nat)
    requires Inv(h) && id in Ids(h.finds) && Dead(h, ticket)
    ensures Dead(Reply(h, id, matches, active, final), ticket)
  {
    if final && id > h.last {
      var h1 := h.(last := id, signals := h.signals + [Finished(matches, active)]);
      AcceptedReplyIsCurrent(h, id);
      assert Kept(h1) == Kept(h);
      InvokeKeepsDead(h1, id, matches, ticket);
    }
  }

  /** A callback of a search given up by a stop never runs, however long its helper lives. */
  lemma {:induction false} DeadNeverRuns(w: World, steps: seq<Step>, k: nat, ticket: nat)
    requires WorldInv(w) && ValidRun(w, steps) && k in w.helpers && Dead(w.helpers[k], ticket)
    requires forall i :: 0 <= i < |steps| ==> steps[i] != Destroyed(k)
    ensures var w' := Run(w, steps);
            k in w'.helpers && Dead(w'.helpers[k], ticket)
    decreases |steps|
  {
    if steps != [] {
      var step, tail := steps[0], steps[1..];
      assert forall i :: 0 <= i < |tail| ==> tail[i] == steps[i + 1];
      StepKeepsInv(w, step);
      StepKeepsDead(w, step, k, ticket);
      DeadNeverRuns(Apply(w, step), tail, k, ticket);
    }
  }

  lemma StepKeepsDead(w: World, step: Step, k: nat, ticket: nat)
    requires WorldInv(w) && Enabled(w, step) && step != Destroyed(k)
    requires k in w.helpers && Dead(w.helpers[k], ticket)
    ensures k in Apply(w, step).helpers && Dead(Apply(w, step).helpers[k], ticket)
  {
    var h := w.helpers[k];
    if step.who == k {
      match step
      case Created(_) =>
      case Started(_, flavour, text, matchCase, backward, callback) =>
        StartKeepsDead(h, w.counter, flavour, text, matchCase, backward, callback, ticket);
      case Stopped(_) => assert Kept(Stop(h)) == Kept(h);
      case Replied(_, id, matches, active, final) => ReplyKeepsDead(h, id, matches, active, final, ticket);
      case Loaded(_) => assert Kept(h.(previousText := "")) == Kept(h);
      case Destroyed(_) =>
    }
  }

  /** The callback of the search in progress. */
  ghost predicate Live(h: Helper, ticket: nat) {
    InProgress(h) && h.current in Kept(h) && Kept(h)[h.current] == ticket
  }

  /** A final reply runs the callback kept for the search in progress, with its matches. */
  lemma ReplyRunsLive(h: Helper, ticket: nat, matches: int, active: int)
    requires Inv(h) && Live(h, ticket)
    ensures Reply(h, h.current, matches, active, true).runs == h.runs + [CallbackRun(ticket, matches)]
  {
    var h1 := h.(last := h.current, signals := h.signals + [Finished(matches, active)]);
    assert Kept(h1) == Kept(h);
    InvokeRuns(h1, h.current, matches);
  }

  /** So does the next search with text, with no matches. */
  lemma StartRunsLive(h: Helper, ticket: nat, id: int, flavour: Flavour, text: string, matchCase: bool, backward: bool,
                      callback: bool)
    requires Inv(h) && Live(h, ticket) && text != ""
    ensures Start(h, id, flavour, text, matchCase, backward, callback).runs == h.runs + [CallbackRun(ticket, 0)]
  {
    var h1 := EndSearch(h, FindNext(h, text, matchCase));
    assert Kept(h1) == Kept(h);
    InvokeRuns(h1, h.current, 0);
  }

  lemma RunsAppended(runs: seq<CallbackRun>, r: CallbackRun)
    ensures r.ticket in Tickets(runs + [r])
  {
    assert Tickets(runs + [r])[|runs|] == r.ticket;
  }

  /** A callback that was kept and has not run is that of the search in progress, or dead. */
  lemma KeptIsLiveOrDead(h: Helper, id: int)
    requires Inv(h) && id in Kept(h)
    ensures Live(h, Kept(h)[id]) <==> !Dead(h, Kept(h)[id])
    ensures Live(h, Kept(h)[id]) <==> id == h.current && InProgress(h)
  {
    var ticket := Kept(h)[id];
    assert id in h.quick || id in h.widget;
    assert forall i :: i in Kept(h) && Kept(h)[i] == ticket ==> i == id;
    assert Dead(h, ticket) <==> id <= h.last;
  }

  /** The callback has run in this helper now or does so in the course of the steps. */
  ghost predicate EverRuns(w: World, steps: seq<Step>, k: nat, ticket: nat)
    requires ValidRun(w, steps)
    decreases |steps|
  {
    || (k in w.helpers && ticket in Tickets(w.helpers[k].runs))
    || (steps != [] && EverRuns(Apply(w, steps[0]), steps[1..], k, ticket))
  }

  /** A kept callback can still run exactly if its request is the search in progress. */
  lemma CanRunExactlyWhen(w: World, k: nat, id: int)
    requires WorldInv(w) && k in w.helpers && id in Kept(w.helpers[k])
    ensures (exists steps :: ValidRun(w, steps) && EverRuns(w, steps, k, Kept(w.helpers[k])[id]))
       <==> id == w.helpers[k].current && InProgress(w.helpers[k])
  {
    var h := w.helpers[k];
    var ticket := Kept(h)[id];
    KeptIsLiveOrDead(h, id);
    if Live(h, ticket) {
      LiveCanRun(w, k, ticket);
    } else {
      forall steps | ValidRun(w, steps) ensures !EverRuns(w, steps, k, ticket) {
        LostStaysLost(w, steps, k, ticket);
      }
    }
  }

  lemma LiveCanRun(w: World, k: nat, ticket: nat)
    requires WorldInv(w) && k in w.helpers && Live(w.helpers[k], ticket)
    ensures exists steps :: ValidRun(w, steps) && EverRuns(w, steps, k, ticket)
  {
    var h := w.helpers[k];
    var step := Replied(k, h.current, 0, 0, true);
    ReplyRunsLive(h, ticket, 0, 0);
    RunsAppended(h.runs, CallbackRun(ticket, 0));
    assert [step][1..] == [];
    assert EverRuns(Apply(w, step), [], k, ticket);
    assert ValidRun(w, [step]) && EverRuns(w, [step], k, ticket);
  }

  /** The helper is gone, or the callback is dead in it. */
  ghost predicate Lost(w: World, k: nat, ticket: nat) {
    k in w.used && (k in w.helpers ==> Dead(w.helpers[k], ticket))
  }

  lemma StepKeepsLost(w: World, step: Step, k: nat, ticket: nat)
    requires WorldInv(w) && Enabled(w, step) && Lost(w, k, ticket)
    ensures Lost(Apply(w, step), k, ticket)
  {
    if k in w.helpers && step != Destroyed(k) { StepKeepsDead(w, step, k, ticket); }
  }

  lemma {:induction false} LostStaysLost(w: World, steps: seq<Step>, k: nat, ticket: nat)
    requires WorldInv(w) && ValidRun(w, steps) && Lost(w, k, ticket)
    ensures !EverRuns(w, steps, k, ticket) && Lost(Run(w, steps), k, ticket)
    decreases |steps|
  {
    if steps != [] {
      StepKeepsInv(w, steps[0]);
      StepKeepsLost(w, steps[0], k, ticket);
      LostStaysLost(Apply(w, steps[0]), steps[1..], k, ticket);
    }
  }

  /** What becomes of the callback of a search in progress with that id: it runs at its final reply or
      at the next search with text, and is lost at a stop, at a search without text, which is a stop,
      or with its helper, whichever comes first. */
  datatype Fate = Ran | Forgotten | Waits

  function FateOf(k: nat, id: int, steps: seq<Step>): Fate
    decreases |steps|
  {
    if steps == [] then Waits
    else if steps[0].who != k then FateOf(k, id, steps[1..])
    else match steps[0]
      case Started(_, _, text, _, _, _) => if text == "" then Forgotten else Ran
      case Stopped(_) => Forgotten
      case Destroyed(_) => Forgotten
      case Replied(_, id', _, _, final) => if final && id' == id then Ran else FateOf(k, id, steps[1..])
      case _ => FateOf(k, id, steps[1..])
  }

  /** The steps that decide nothing leave the callback as it is. */
  lemma StepKeepsLive(w: World, step: Step, k: nat, ticket: nat)
    requires WorldInv(w) && Enabled(w, step) && k in w.helpers && Live(w.helpers[k], ticket)
    requires FateOf(k, w.helpers[k].current, [step]) == Waits
    ensures var w' := Apply(w, step);
            k in w'.helpers && Live(w'.helpers[k], ticket) && w'.helpers[k].current == w.helpers[k].current
  {
    var h := w.helpers[k];
    assert [step][1..] == [];
    if step.who == k {
      assert step.Replied? || step.Loaded?;
      if step.Replied? {
        OthersIgnored(h, step.id);
      } else {
        assert Kept(h.(previousText := "")) == Kept(h);
      }
    }
  }

  lemma OthersIgnored(h: Helper, id: int)
    requires Inv(h) && id in Ids(h.finds)
    ensures id != h.current ==> id <= h.last
  {
  }

  lemma StepRuns(w: World, step: Step, k: nat, ticket: nat)
    requires WorldInv(w) && Enabled(w, step) && k in w.helpers && Live(w.helpers[k], ticket)
    requires FateOf(k, w.helpers[k].current, [step]) == Ran
    ensures var w' := Apply(w, step);
            k in w'.helpers && ticket in Tickets(w'.helpers[k].runs)
  {
    var h := w.helpers[k];
    assert [step][1..] == [];
    if step.Replied? {
      ReplyRunsLive(h, ticket, step.matches, step.active);
      RunsAppended(h.runs, CallbackRun(ticket, step.matches));
    } else {
      StartRunsLive(h, ticket, w.counter, step.flavour, step.text, step.matchCase, step.backward, step.callback);
      RunsAppended(h.runs, CallbackRun(ticket, 0));
    }
  }

  lemma StepLoses(w: World, step: Step, k: nat, ticket: nat)
    requires WorldInv(w) && Enabled(w, step) && k in w.helpers && Live(w.helpers[k], ticket)
    requires FateOf(k, w.helpers[k].current, [step]) == Forgotten
    ensures Lost(Apply(w, step), k, ticket)
  {
    var h := w.helpers[k];
    assert [step][1..] == [];
    if !step.Destroyed? {
      StopAbandonsCallbacks(h, h.current);
      if step.Started? {
        var h' := Start(h, w.counter, step.flavour, "", step.matchCase, step.backward, step.callback);
        assert Kept(h') == Kept(h);
        assert Tickets(h.runs + [CallbackRun(h.starts, 0)]) == Tickets(h.runs) + [h.starts];
      }
    }
  }

  lemma FateFirst(k: nat, id: int, steps: seq<Step>)
    requires steps != []
    ensures FateOf(k, id, steps)
         == (var f := FateOf(k, id, [steps[0]]); if f == Waits then FateOf(k, id, steps[1..]) else f)
  {
    assert [steps[0]][1..] == [];
  }

  lemma LiveHasNotRun(w: World, k: nat, ticket: nat)
    requires WorldInv(w) && k in w.helpers && Live(w.helpers[k], ticket)
    ensures ticket !in Tickets(w.helpers[k].runs)
  {
  }

  /** The run bears out the fate. */
  ghost predicate Decides(w: World, steps: seq<Step>, k: nat, ticket: nat, fate: Fate)
    requires ValidRun(w, steps)
  {
    && (EverRuns(w, steps, k, ticket) <==> fate == Ran)
    && (Lost(Run(w, steps), k, ticket) && !EverRuns(w, steps, k, ticket) <==> fate == Forgotten)
    && (fate == Waits ==> k in Run(w, steps).helpers && Live(Run(w, steps).helpers[k], ticket))
  }

  lemma DecidesEarlier(w: World, steps: seq<Step>, k: nat, ticket: nat, fate: Fate)
    requires ValidRun(w, steps) && steps != [] && k in w.helpers && ticket !in Tickets(w.helpers[k].runs)
    requires Decides(Apply(w, steps[0]), steps[1..], k, ticket, fate)
    ensures Decides(w, steps, k, ticket, fate)
  {
  }

  lemma DecidesWaiting(w: World, k: nat, ticket: nat)
    requires WorldInv(w) && k in w.helpers && Live(w.helpers[k], ticket)
    ensures Decides(w, [], k, ticket, Waits)
  {
    LiveHasNotRun(w, k, ticket);
    LiveIsNotLost(w, k, ticket);
  }

  lemma DecidesRan(w: World, steps: seq<Step>, k: nat, ticket: nat)
    requires ValidRun(w, steps) && k in w.helpers && ticket in Tickets(w.helpers[k].runs)
    ensures Decides(w, steps, k, ticket, Ran)
  {
  }

  /** Over every run the callback of a search in progress runs exactly if a final reply or the next
      search with text comes before every stop and before the end of its helper; it is lost for good
      exactly if one of these comes first; otherwise it still waits. */
  lemma {:induction false} FateDecides(w: World, steps: seq<Step>, k: nat, ticket: nat)
    requires WorldInv(w) && ValidRun(w, steps) && k in w.helpers && Live(w.helpers[k], ticket)
    ensures Decides(w, steps, k, ticket, FateOf(k, w.helpers[k].current, steps))
    decreases |steps|
  {
    if steps == [] {
      DecidesWaiting(w, k, ticket);
    } else {
      var step, tail, next, id := steps[0], steps[1..], Apply(w, steps[0]), w.helpers[k].current;
      LiveHasNotRun(w, k, ticket);
      FateFirst(k, id, steps);
      StepKeepsInv(w, step);
      match FateOf(k, id, [step]) {
        case Waits =>
          StepKeepsLive(w, step, k, ticket);
          FateDecides(next, tail, k, ticket);
        case Ran =>
          StepRuns(w, step, k, ticket);
          DecidesRan(next, tail, k, ticket);
        case Forgotten =>
          StepLoses(w, step, k, ticket);
          LostStaysLost(next, tail, k, ticket);
      }
      DecidesEarlier(w, steps, k, ticket, FateOf(k, id, steps));
    }
  }

  lemma LiveIsNotLost(w: World, k: nat, ticket: nat)
    requires k in w.helpers && Live(w.helpers[k], ticket) && Inv(w.helpers[k])
    ensures !Lost(w, k, ticket)
  {
  }

  /** A callback given with text is that of the search in progress then. */
  lemma StartedIsLive(h: Helper, id: int, flavour: Flavour, text: string, matchCase: bool, backward: bool)
    requires Inv(h) && id > h.current && text != ""
    ensures Live(Start(h, id, flavour, text, matchCase, backward, true), h.starts)
  {
    var findNext := FindNext(h, text, matchCase);
    var given, find := GiveUp(h, findNext), Find(id, text, !backward, matchCase, !findNext);
    GiveUpKeepsInv(h, findNext);
    AskKeeps(given, id, find, flavour, true);
    KeptStarts(Store(Ask(given, id, find), flavour, h.starts, true), h.starts + 1);
  }

  /** Over every run that begins with a search with text: the callback given to it runs exactly if a final reply to
      that search or the next search with text comes before every stop and before the end of the helper; it is
      lost for good exactly if one of these comes first; otherwise it still waits. */
  lemma GivenCallbackDecided(w: World, rest: seq<Step>, k: nat, flavour: Flavour, text: string, matchCase: bool,
                             backward: bool)
    requires WorldInv(w) && k in w.helpers && text != ""
    requires ValidRun(Apply(w, Started(k, flavour, text, matchCase, backward, true)), rest)
    ensures var w1 := Apply(w, Started(k, flavour, text, matchCase, backward, true));
            Decides(w1, rest, k, w.helpers[k].starts, FateOf(k, w.counter, rest))
  {
    var h, step := w.helpers[k], Started(k, flavour, text, matchCase, backward, true);
    StartDraws(h, w.counter, flavour, text, matchCase, backward, true);
    StartedIsLive(h, w.counter, flavour, text, matchCase, backward);
    StepKeepsInv(w, step);
    FateDecides(Apply(w, step), rest, k, h.starts);
  }
}
