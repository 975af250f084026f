/** Find in page: the requests of one FindTextHelper, and of all helpers that draw their request ids
    from one counter (src/core/find_text_helper.cpp:16-138). */
module FindText {
  import opened Wrappers

  datatype Find = Find(id: int, text: string, forward: bool, matchCase: bool, newSession: bool)

  /** A findTextFinished signal. */
  datatype Finished = Finished(matches: int, active: int)

  /** A run of the callback given to a startFinding; `ticket` numbers those calls. */
  datatype CallbackRun = CallbackRun(ticket: nat, matches: int)

  /** The kind of startFinding: with a C++ callback, which may be empty, or a script value, which may
      be undefined. */
  datatype Flavour = Widget | Quick

  /** A helper and what it has done: searches started (with or without text), searches given up by
      stopFinding, calls of Find and StopFinding, signals and callbacks. */
  datatype Helper = Helper(
    current: int,
    last: int,
    previousText: string,
    previousCase: bool,
    quick: map<int, nat>,
    widget: map<int, Option<nat>>,
    starts: nat,
    abandoned: nat,
    finds: seq<Find>,
    stops: nat,
    signals: seq<Finished>,
    runs: seq<CallbackRun>)

  /** The constructor, given the value it draws from the counter. */
  function New(id: int): Helper {
    Helper(id, id, "", false, map[], map[], 0, 0, [], 0, [], [])
  }

  predicate InProgress(h: Helper) {
    h.current != h.last
  }

  function Invoke(h: Helper, id: int, matches: int): Helper {
    if id in h.quick then h.(quick := h.quick - {id}, runs := h.runs + [CallbackRun(h.quick[id], matches)])
    else if id in h.widget then
      var h1 := h.(widget := h.widget - {id});
      if h.widget[id].Some? then h1.(runs := h.runs + [CallbackRun(h.widget[id].value, matches)]) else h1
    else h
  }

  function Stop(h: Helper): Helper {
    h.(last := h.current, previousText := "", stops := h.stops + 1,
       abandoned := if InProgress(h) then h.abandoned + 1 else h.abandoned)
  }

  predicate FindNext(h: Helper, text: string, matchCase: bool) {
    h.previousText != "" && text == h.previousText && matchCase == h.previousCase
  }

  /** Lines 76-79. */
  function EndSearch(h: Helper, findNext: bool): Helper {
    h.(last := h.current, stops := if findNext then h.stops else h.stops + 1, signals := h.signals + [Finished(0, 0)])
  }

  /** Lines 70-81: a search still in progress counts as unsuccessful. */
  function GiveUp(h: Helper, findNext: bool): Helper {
    if !InProgress(h) then h else Invoke(EndSearch(h, findNext), h.current, 0)
  }

  /** Lines 83-91, with the id drawn from the counter. */
  function Ask(h: Helper, id: int, find: Find): Helper {
    h.(previousText := find.text, previousCase := find.matchCase, current := id, finds := h.finds + [find])
  }

  function StartText(h: Helper, id: int, text: string, matchCase: bool, backward: bool): Helper {
    var findNext := FindNext(h, text, matchCase);
    Ask(GiveUp(h, findNext), id, Find(id, text, !backward, matchCase, !findNext))
  }

  function Store(h: Helper, flavour: Flavour, ticket: nat, callback: bool): Helper {
    match flavour
    case Widget => h.(widget := h.widget[h.current := if callback then Some(ticket) else None])
    case Quick => if callback then h.(quick := h.quick[h.current := ticket]) else h
  }

  /** The public overloads of startFinding. */
  function Start(h: Helper, id: int, flavour: Flavour, text: string, matchCase: bool, backward: bool, callback: bool):
    Helper
  {
    if text == "" then
      var h1 := Stop(h);
      h1.(signals := h1.signals + [Finished(0, 0)], starts := h.starts + 1,
          runs := if callback then h1.runs + [CallbackRun(h.starts, 0)] else h1.runs)
    else
      Store(StartText(h, id, text, matchCase, backward), flavour, h.starts, callback).(starts := h.starts + 1)
  }

  function Reply(h: Helper, id: int, matches: int, active: int, final: bool): Helper {
    if !final || id <= h.last then h
    else Invoke(h.(last := id, signals := h.signals + [Finished(matches, active)]), id, matches)
  }

  // ---- one helper ----

  /** The ids of the calls of Find. */
  function Ids(finds: seq<Find>): (r: seq<int>)
    ensures |r| == |finds| && forall i :: 0 <= i < |r| ==> r[i] == finds[i].id
  {
    seq(|finds|, i requires 0 <= i < |finds| => finds[i].id)
  }

  ghost predicate Increasing(s: seq<int>) {
    forall i, j :: 0 <= i < j < |s| ==> s[i] < s[j]
  }

  /** At most one request is unanswered, and it is the current one. */
  ghost predicate IdsInOrder(ids: seq<int>, last: int, current: int) {
    && last <= current
    && (forall id :: id in ids ==> id <= last || id == current)
    && (last != current ==> current in ids)
    && Increasing(ids)
  }

  /** An accepted final reply is for the current request (line 116). */
  lemma AcceptedReplyIsCurrent(h: Helper, id: int)
    requires Inv(h) && id in Ids(h.finds) && id > h.last
    ensures id == h.current && InProgress(h)
  {
  }

  lemma NextId(ids: seq<int>, current: int, id: int)
    requires IdsInOrder(ids, current, current) && id > current
    ensures IdsInOrder(ids + [id], current, id)
  {
    var r := ids + [id];
    assert r[|ids|] == id;
    forall i, j | 0 <= i < j < |r| ensures r[i] < r[j] {
      assert r[i] in ids;
    }
  }

  // ---- callbacks ----

  /** The callbacks still to run: request id to the start they were given to. */
  ghost function Kept(h: Helper): map<int, nat> {
    KeptIn(h.quick, h.widget)
  }

  ghost function KeptIn(quick: map<int, nat>, widget: map<int, Option<nat>>): map<int, nat> {
    map id | id in quick.Keys + widget.Keys && (id in quick || widget[id].Some?)
      :: if id in quick then quick[id] else widget[id].value
  }

  lemma KeptQuick(quick: map<int, nat>, widget: map<int, Option<nat>>, id: int, ticket: nat)
    requires id !in quick && id !in widget
    ensures KeptIn(quick[id := ticket], widget) == KeptIn(quick, widget)[id := ticket]
  {
  }

  lemma KeptWidget(quick: map<int, nat>, widget: map<int, Option<nat>>, id: int, ticket: Option<nat>)
    requires id !in quick && id !in widget
    ensures KeptIn(quick, widget[id := ticket])
         == if ticket.Some? then KeptIn(quick, widget)[id := ticket.value] else KeptIn(quick, widget)
  {
  }

  lemma KeptWithout(quick: map<int, nat>, widget: map<int, Option<nat>>, id: int)
    requires id !in quick || id !in widget
    ensures id in quick ==> KeptIn(quick - {id}, widget) == KeptIn(quick, widget) - {id}
    ensures id in widget ==> KeptIn(quick, widget - {id}) == KeptIn(quick, widget) - {id}
    ensures id !in quick && id !in widget ==> KeptIn(quick, widget) == KeptIn(quick, widget) - {id}
  {
  }

  function Tickets(runs: seq<CallbackRun>): (r: seq<nat>)
    ensures |r| == |runs| && forall i :: 0 <= i < |r| ==> r[i] == runs[i].ticket
  {
    seq(|runs|, i requires 0 <= i < |runs| => runs[i].ticket)
  }

  /** No callback has run twice, and none that has run is kept or kept twice. */
  ghost predicate CallbacksOnce(kept: map<int, nat>, runs: seq<nat>, starts: nat) {
    && (forall i, j :: 0 <= i < j < |runs| ==> runs[i] != runs[j])
    && (forall t :: t in runs ==> t < starts)
    && (forall id :: id in kept ==> kept[id] < starts && kept[id] !in runs)
    && (forall id, id' :: id in kept && id' in kept && kept[id] == kept[id'] ==> id == id')
  }

  lemma RunKept(kept: map<int, nat>, runs: seq<nat>, starts: nat, id: int)
    requires CallbacksOnce(kept, runs, starts) && id in kept
    ensures CallbacksOnce(kept - {id}, runs + [kept[id]], starts)
  {
    var r := runs + [kept[id]];
    assert forall i :: 0 <= i < |runs| ==> r[i] in runs;
  }

  lemma RunNow(kept: map<int, nat>, runs: seq<nat>, starts: nat)
    requires CallbacksOnce(kept, runs, starts)
    ensures CallbacksOnce(kept, runs + [starts], starts + 1)
  {
    var r := runs + [starts];
    assert forall i :: 0 <= i < |runs| ==> r[i] in runs;
  }

  lemma KeepNew(kept: map<int, nat>, runs: seq<nat>, starts: nat, id: int, callback: bool)
    requires CallbacksOnce(kept, runs, starts) && id !in kept
    ensures CallbacksOnce(if callback then kept[id := starts] else kept, runs, starts + 1)
  {
  }

  /** Invoking runs the callback kept for the request, if there is one, and forgets it. */
  lemma InvokeRuns(h: Helper, id: int, matches: int)
    requires forall id :: id in h.quick ==> id !in h.widget
    ensures var h' := Invoke(h, id, matches);
            && Kept(h') == Kept(h) - {id}
            && h'.runs == if id in Kept(h) then h.runs + [CallbackRun(Kept(h)[id], matches)] else h.runs
  {
    KeptWithout(h.quick, h.widget, id);
  }

  /** Every key is the id of a request, none is above the current one or in both maps. */
  ghost predicate KeysFit(h: Helper) {
    && (forall id :: id in h.quick || id in h.widget ==> id <= h.current && id in Ids(h.finds))
    && (forall id :: id in h.quick ==> id !in h.widget)
  }

  ghost predicate Inv(h: Helper) {
    && IdsInOrder(Ids(h.finds), h.last, h.current)
    && KeysFit(h)
    && CallbacksOnce(Kept(h), Tickets(h.runs), h.starts)
    && |h.signals| + h.abandoned + (if InProgress(h) then 1 else 0) == h.starts
  }

  lemma InvokeKeepsOnce(h: Helper, id: int, matches: int)
    requires KeysFit(h) && CallbacksOnce(Kept(h), Tickets(h.runs), h.starts)
    ensures var h' := Invoke(h, id, matches);
            KeysFit(h') && CallbacksOnce(Kept(h'), Tickets(h'.runs), h'.starts)
  {
    var h' := Invoke(h, id, matches);
    InvokeRuns(h, id, matches);
    if id in Kept(h) {
      RunKept(Kept(h), Tickets(h.runs), h.starts, id);
      assert Tickets(h'.runs) == Tickets(h.runs) + [Kept(h)[id]];
    } else {
      assert Kept(h) - {id} == Kept(h);
    }
  }

  lemma ReplyKeepsInv(h: Helper, id: int, matches: int, active: int, final: bool)
    requires Inv(h) && id in Ids(h.finds)
    ensures Inv(Reply(h, id, matches, active, final))
  {
    if final && id > h.last {
      AcceptedReplyIsCurrent(h, id);
      Complete(h, h.(last := id, signals := h.signals + [Finished(matches, active)]), matches);
    }
  }

  /** The current search ends with a signal and its callback. */
  lemma Complete(h: Helper, h1: Helper, matches: int)
    requires Inv(h) && InProgress(h)
    requires |h1.signals| == |h.signals| + 1
    requires h1 == h.(last := h.current, signals := h1.signals, stops := h1.stops)
    ensures var h' := Invoke(h1, h.current, matches);
            Inv(h') && !InProgress(h') && h'.current == h.current && h'.finds == h.finds && h'.starts == h.starts
  {
    assert Kept(h1) == Kept(h);
    InvokeKeepsOnce(h1, h.current, matches);
  }

  lemma StopKeepsInv(h: Helper)
    requires Inv(h)
    ensures Inv(Stop(h)) && !InProgress(Stop(h))
  {
    assert Kept(Stop(h)) == Kept(h);
  }

  lemma GiveUpKeepsInv(h: Helper, findNext: bool)
    requires Inv(h)
    ensures var h' := GiveUp(h, findNext);
            Inv(h') && !InProgress(h') && h'.current == h.current && h'.finds == h.finds && h'.starts == h.starts
  {
    if InProgress(h) {
      Complete(h, EndSearch(h, findNext), 0);
    }
  }

  /** Asking with an id above all earlier ones, and keeping the callback for it. */
  lemma AskKeepsInv(h: Helper, id: int, find: Find, flavour: Flavour, callback: bool)
    requires Inv(h) && !InProgress(h) && id > h.current && find.id == id
    ensures Inv(Store(Ask(h, id, find), flavour, h.starts, callback).(starts := h.starts + 1))
  {
    var asked := Store(Ask(h, id, find), flavour, h.starts, callback);
    AskKeeps(h, id, find, flavour, callback);
    KeysFitLater(asked, h.starts + 1);
    AskedInv(h, asked.(starts := h.starts + 1), find, callback);
  }

  lemma AskedInv(h: Helper, h': Helper, find: Find, callback: bool)
    requires Inv(h) && !InProgress(h) && find.id > h.current
    requires KeysFit(h') && Kept(h') == if callback then Kept(h)[find.id := h.starts] else Kept(h)
    requires h'.last == h.last && h'.current == find.id && h'.finds == h.finds + [find] && h'.runs == h.runs
    requires h'.signals == h.signals && h'.abandoned == h.abandoned && h'.starts == h.starts + 1
    ensures Inv(h')
  {
    NextId(Ids(h.finds), h.current, find.id);
    IdsGrow(h.finds, find);
    NewIdNotKept(h, find.id);
    KeepNew(Kept(h), Tickets(h.runs), h.starts, find.id, callback);
  }

  lemma NewIdNotKept(h: Helper, id: int)
    requires KeysFit(h) && id > h.current
    ensures id !in Kept(h)
  {
  }

  lemma KeysFitLater(h: Helper, starts: nat)
    requires KeysFit(h)
    ensures KeysFit(h.(starts := starts))
  {
  }

  lemma AskKeeps(h: Helper, id: int, find: Find, flavour: Flavour, callback: bool)
    requires KeysFit(h) && id > h.current && find.id == id
    ensures var h' := Store(Ask(h, id, find), flavour, h.starts, callback);
            KeysFit(h') && Kept(h') == if callback then Kept(h)[id := h.starts] else Kept(h)
  {
    KeptQuick(h.quick, h.widget, id, h.starts);
    KeptWidget(h.quick, h.widget, id, if callback then Some(h.starts) else None);
    IdsGrow(h.finds, find);
  }

  lemma IdsGrow(finds: seq<Find>, find: Find)
    ensures Ids(finds + [find]) == Ids(finds) + [find.id]
    ensures forall id :: id in Ids(finds + [find]) <==> id in Ids(finds) || id == find.id
  {
    assert Ids(finds + [find]) == Ids(finds) + [find.id];
  }

  lemma StartWithoutText(h: Helper, h': Helper, callback: bool)
    requires Inv(h)
    requires h' == Stop(h).(signals := h.signals + [Finished(0, 0)], starts := h.starts + 1,
                            runs := if callback then h.runs + [CallbackRun(h.starts, 0)] else h.runs)
    ensures Inv(h')
  {
    StopKeepsInv(h);
    AnsweredAtOnce(Stop(h), h', callback);
  }

  lemma AnsweredAtOnce(h: Helper, h': Helper, callback: bool)
    requires Inv(h) && !InProgress(h)
    requires h' == h.(signals := h.signals + [Finished(0, 0)], starts := h.starts + 1,
                      runs := if callback then h.runs + [CallbackRun(h.starts, 0)] else h.runs)
    ensures Inv(h')
  {
    RunNow(Kept(h), Tickets(h.runs), h.starts);
    assert Tickets(h.runs + [CallbackRun(h.starts, 0)]) == Tickets(h.runs) + [h.starts];
    assert Kept(h') == Kept(h);
  }

  lemma StartWithText(h: Helper, id: int, flavour: Flavour, find: Find, findNext: bool, callback: bool)
    requires Inv(h) && id > h.current && find.id == id
    ensures Inv(Store(Ask(GiveUp(h, findNext), id, find), flavour, h.starts, callback).(starts := h.starts + 1))
  {
    GiveUpKeepsInv(h, findNext);
    AskKeepsInv(GiveUp(h, findNext), id, find, flavour, callback);
  }

  lemma StartKeepsInv(h: Helper, id: int, flavour: Flavour, text: string, matchCase: bool, backward: bool,
                      callback: bool)
    requires Inv(h) && id > h.current
    ensures Inv(Start(h, id, flavour, text, matchCase, backward, callback))
  {
    var h' := Start(h, id, flavour, text, matchCase, backward, callback);
    if text == "" {
      StartWithoutText(h, h', callback);
    } else {
      var findNext := FindNext(h, text, matchCase);
      var find := Find(id, text, !backward, matchCase, !findNext);
      assert h' == Store(Ask(GiveUp(h, findNext), id, find), flavour, h.starts, callback).(starts := h.starts + 1);
      StartWithText(h, id, flavour, find, findNext, callback);
    }
  }
}
