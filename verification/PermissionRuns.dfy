/** What PermissionManagerQt keeps over every run of requests, decisions and queries
    (src/core/permission_manager_qt.cpp:282-471 and 584-915). */
module PermissionRuns {
  import opened PermissionTypes
  import opened PermissionStore
  import opened PermissionRequests

  // ---- decisions ----

  ghost predicate Decisive(state: State) {
    state == Granted || state == Denied
  }

  /** A Granted or Denied decision answers exactly the requests that are answerable on the store it
      leaves; all others stay as they were. */
  lemma DecisionAnswers(m: Manager, url: Url, q: QtType, state: State, token: Token, frames: Frames)
    requires Decisive(state) && q != MediaAudioVideoCapture
    ensures var c := SettingFor(m.store, url, q, state, token, frames);
            var s := Decide(m.store, c, q, state);
            var m' := SetPermission(m, url, q, state, token, frames);
            !IsEmpty(c.Origin()) ==>
              && m'.waiting == Kept(c, s, m.waiting)
              && m'.answers == m.answers + Given(c, s, m.waiting)
              && SameView(c, s, m'.store)
  {
    var c := SettingFor(m.store, url, q, state, token, frames);
    ProcessDecides(c, Decide(m.store, c, q, state), m.waiting);
  }

  lemma {:induction false} KeptMembers(c: Setting, s: Store, waiting: seq<Request>, r: Request)
    ensures r in Kept(c, s, waiting) <==> r in waiting && !Answered(c, s, r)
    decreases |waiting|
  {
    if waiting != [] { KeptMembers(c, s, waiting[1..], r); }
  }

  lemma {:induction false} GivenMembers(c: Setting, s: Store, waiting: seq<Request>, r: Request)
    requires r in waiting && Answered(c, s, r)
    ensures Answer(r.callback, Verdict(c.status, r.types)) in Given(c, s, waiting)
    decreases |waiting|
  {
    if r != waiting[0] { GivenMembers(c, s, waiting[1..], r); }
  }

  /** With persistence on, a waiting request is answered exactly when it is of the decision's origin
      and every supported type in it now has the status just set; with AskEveryTime the origin is
      enough. Its unsupported positions are denied, all others hold the state just set. */
  lemma AnsweredExactlyWhenDecided(m: Manager, url: Url, q: QtType, state: State, token: Token, frames: Frames,
                                   r: Request)
    requires Decisive(state) && q != MediaAudioVideoCapture && r in m.waiting
    requires !IsEmpty(SettingFor(m.store, url, q, state, token, frames).Origin())
    ensures var c := SettingFor(m.store, url, q, state, token, frames);
            var s := Decide(m.store, c, q, state);
            var m' := SetPermission(m, url, q, state, token, frames);
            && (r !in m'.waiting <==>
                  && r.origin == c.Origin()
                  && (!m.store.persistence
                      || forall i :: 0 <= i < |r.types| && Supported(r.types[i]) ==>
                           Seen(c, s, r.types[i]).0 == ToStatus(state)))
            && (r !in m'.waiting ==> Answer(r.callback, Verdict(ToStatus(state), r.types)) in m'.answers)
  {
    var c := SettingFor(m.store, url, q, state, token, frames);
    var s := Decide(m.store, c, q, state);
    DecisionAnswers(m, url, q, state, token, frames);
    DecideKeepsPolicy(m.store, c, q, state);
    KeptMembers(c, s, m.waiting, r);
    if Answered(c, s, r) { GivenMembers(c, s, m.waiting, r); }
  }

  lemma DecideKeepsPolicy(s: Store, c: Setting, q: QtType, state: State)
    requires q != MediaAudioVideoCapture
    ensures Decide(s, c, q, state).persistence == s.persistence
  {
  }

  /** No decision brings a request back or takes back an answer. */
  lemma AnsweredStays(m: Manager, r: Request, url: Url, q: QtType, state: State, token: Token, frames: Frames)
    requires Decisive(state) && r !in m.waiting
    ensures var m' := SetPermission(m, url, q, state, token, frames);
            r !in m'.waiting && forall a :: a in m.answers ==> a in m'.answers
  {
    if q == MediaAudioVideoCapture {
      var half := SetPermissionImpl(m, url, MediaAudioCapture, state, token, frames);
      ImplStays(m, r, url, MediaAudioCapture, state, token, frames);
      ImplStays(half, r, url, MediaVideoCapture, state, token, frames);
    } else {
      ImplStays(m, r, url, q, state, token, frames);
    }
  }

  lemma ImplStays(m: Manager, r: Request, url: Url, q: QtType, state: State, token: Token, frames: Frames)
    requires Decisive(state) && q != MediaAudioVideoCapture && r !in m.waiting
    ensures var m' := SetPermissionImpl(m, url, q, state, token, frames);
            r !in m'.waiting && forall a :: a in m.answers ==> a in m'.answers
  {
    var c := SettingFor(m.store, url, q, state, token, frames);
    DecisionAnswers(m, url, q, state, token, frames);
    KeptMembers(c, Decide(m.store, c, q, state), m.waiting, r);
  }

  /** With AskEveryTime nothing of that origin is left waiting. */
  lemma NothingLeftWaiting(m: Manager, url: Url, q: QtType, state: State, token: Token, frames: Frames, r: Request)
    requires Decisive(state) && !m.store.persistence
    requires var c := SettingFor(m.store, url, q, state, token, frames);
             !IsEmpty(c.Origin()) && r.origin == c.Origin()
    ensures r !in SetPermission(m, url, q, state, token, frames).waiting
  {
    if q == MediaAudioVideoCapture {
      var half := SetPermissionImpl(m, url, MediaAudioCapture, state, token, frames);
      ImplLeavesNone(m, url, MediaAudioCapture, state, token, frames, r);
      ImplStays(half, r, url, MediaVideoCapture, state, token, frames);
    } else {
      ImplLeavesNone(m, url, q, state, token, frames, r);
    }
  }

  lemma ImplLeavesNone(m: Manager, url: Url, q: QtType, state: State, token: Token, frames: Frames, r: Request)
    requires Decisive(state) && q != MediaAudioVideoCapture && !m.store.persistence
    requires var c := SettingFor(m.store, url, q, state, token, frames);
             !IsEmpty(c.Origin()) && r.origin == c.Origin()
    ensures r !in SetPermissionImpl(m, url, q, state, token, frames).waiting
  {
    var c := SettingFor(m.store, url, q, state, token, frames);
    DecisionAnswers(m, url, q, state, token, frames);
    DecideKeepsPolicy(m.store, c, q, state);
    KeptMembers(c, Decide(m.store, c, q, state), m.waiting, r);
  }

  /** Two waiting requests for the same types of the same origin are answered by the same decision: what the
      user answers for one of them answers the other too. */
  lemma TwinsAnsweredTogether(m: Manager, url: Url, q: QtType, state: State, token: Token, frames: Frames, r: Request,
                              twin: Request)
    requires Decisive(state) && r in m.waiting && twin in m.waiting
    requires twin.types == r.types && twin.origin == r.origin
    ensures var m' := SetPermission(m, url, q, state, token, frames);
            r in m'.waiting <==> twin in m'.waiting
  {
    if q == MediaAudioVideoCapture {
      var half := SetPermissionImpl(m, url, MediaAudioCapture, state, token, frames);
      TwinsImpl(m, url, MediaAudioCapture, state, token, frames, r, twin);
      TwinsImpl(half, url, MediaVideoCapture, state, token, frames, r, twin);
    } else {
      TwinsImpl(m, url, q, state, token, frames, r, twin);
    }
  }

  lemma TwinsImpl(m: Manager, url: Url, q: QtType, state: State, token: Token, frames: Frames, r: Request,
                  twin: Request)
    requires Decisive(state) && q != MediaAudioVideoCapture && (r in m.waiting <==> twin in m.waiting)
    requires twin.types == r.types && twin.origin == r.origin
    ensures var m' := SetPermissionImpl(m, url, q, state, token, frames);
            r in m'.waiting <==> twin in m'.waiting
  {
    var c := SettingFor(m.store, url, q, state, token, frames);
    DecisionAnswers(m, url, q, state, token, frames);
    KeptMembers(c, Decide(m.store, c, q, state), m.waiting, r);
    KeptMembers(c, Decide(m.store, c, q, state), m.waiting, twin);
  }

  /** The requests of every other origin. */
  function Others(waiting: seq<Request>, origin: Url): seq<Request> {
    if waiting == [] then []
    else if waiting[0].origin == origin then Others(waiting[1..], origin)
    else [waiting[0]] + Others(waiting[1..], origin)
  }

  lemma {:induction false} KeptOthers(c: Setting, s: Store, waiting: seq<Request>)
    ensures Others(Kept(c, s, waiting), c.Origin()) == Others(waiting, c.Origin())
    decreases |waiting|
  {
    if waiting != [] {
      var head, rest := waiting[0], Kept(c, s, waiting[1..]);
      KeptOthers(c, s, waiting[1..]);
      if !Answered(c, s, head) {
        assert Kept(c, s, waiting) == [head] + rest;
        assert ([head] + rest)[0] == head && ([head] + rest)[1..] == rest;
      }
    }
  }

  /** A decision leaves the requests of other origins untouched and in their order. */
  lemma OtherOriginsUntouched(m: Manager, url: Url, q: QtType, state: State, token: Token, frames: Frames)
    requires state != Invalid
    ensures var origin := SettingFor(m.store, url, q, state, token, frames).Origin();
            Others(SetPermission(m, url, q, state, token, frames).waiting, origin) == Others(m.waiting, origin)
  {
    if q == MediaAudioVideoCapture {
      var half := SetPermissionImpl(m, url, MediaAudioCapture, state, token, frames);
      OthersImpl(m, url, MediaAudioCapture, state, token, frames);
      OthersImpl(half, url, MediaVideoCapture, state, token, frames);
    } else {
      OthersImpl(m, url, q, state, token, frames);
    }
  }

  lemma OthersImpl(m: Manager, url: Url, q: QtType, state: State, token: Token, frames: Frames)
    requires state != Invalid && q != MediaAudioVideoCapture
    ensures var origin := SettingFor(m.store, url, q, state, token, frames).Origin();
            Others(SetPermissionImpl(m, url, q, state, token, frames).waiting, origin) == Others(m.waiting, origin)
  {
    if state != Ask {
      var c := SettingFor(m.store, url, q, state, token, frames);
      DecisionAnswers(m, url, q, state, token, frames);
      KeptOthers(c, Decide(m.store, c, q, state), m.waiting);
    }
  }

  // ---- runs ----

  /** `Queried` is a status query of a document, `Reset` a ResetPermission by Chromium, `Navigated`
      onCrossOriginNavigation, `Cleaned` the posted removal of the lists of dead frames. */
  datatype Step =
    | Requested(types: seq<BlinkType>, origin: Url, token: Token, settings: Settings)
    | Set(url: Url, q: QtType, state: State, target: Token, frames: Frames)
    | Queried(kind: BlinkType, asker: Token, frame: Frame)
    | Reset(reset: BlinkType, from: Url)
    | Navigated(navigated: Token, to: Url)
    | Cleaned(dead: set<Token>)

  function Apply(m: Manager, step: Step): Manager {
    match step
    case Requested(types, origin, token, settings) => RequestPermissions(m, types, origin, token, settings)
    case Set(url, q, state, token, frames) => SetPermission(m, url, q, state, token, frames)
    case Queried(kind, token, frame) => m.(store := DocumentStatus(m.store, kind, token, frame).1)
    case Reset(kind, origin) => m.(store := ResetPersistent(m.store, kind, origin))
    case Navigated(token, origin) =>
      var list := ListOf(m.store, token);
      if list == [] then m.(store := m.store.(transient := m.store.transient[token := []]))
      else if list[0].origin != origin then m.(store := m.store.(transient := m.store.transient - {token}))
      else m
    case Cleaned(dead) => m.(store := m.store.(transient := m.store.transient - dead))
  }

  function Run(m: Manager, steps: seq<Step>): Manager
    decreases |steps|
  {
    if steps == [] then m else Run(Apply(m, steps[0]), steps[1..])
  }

  function Callbacks(answers: seq<Answer>): (r: seq<nat>)
    ensures |r| == |answers| && forall i :: 0 <= i < |r| ==> r[i] == answers[i].callback
  {
    seq(|answers|, i requires 0 <= i < |answers| => answers[i].callback)
  }

  function WaitingCallbacks(waiting: seq<Request>): (r: seq<nat>)
    ensures |r| == |waiting| && forall i :: 0 <= i < |r| ==> r[i] == waiting[i].callback
  {
    seq(|waiting|, i requires 0 <= i < |waiting| => waiting[i].callback)
  }

  function Tickets(n: nat): (r: seq<nat>)
    ensures |r| == n && forall i :: 0 <= i < n ==> r[i] == i
  {
    seq(n, i => i)
  }

  /** Every callback given has been run once or waits once. */
  ghost predicate Accounted(m: Manager) {
    multiset(Callbacks(m.answers)) + multiset(WaitingCallbacks(m.waiting)) == multiset(Tickets(|m.asked|))
  }

  /** One status per requested type, in order: unsupported ones are denied, and none is left open. */
  ghost predicate Fits(statuses: seq<Status>, types: seq<BlinkType>) {
    && |statuses| == |types|
    && forall i :: 0 <= i < |types| ==> statuses[i] != ASK && (!Supported(types[i]) ==> statuses[i] == DENIED)
  }

  ghost predicate AnswersFit(answers: seq<Answer>, asked: seq<seq<BlinkType>>) {
    forall i :: 0 <= i < |answers| ==>
      answers[i].callback < |asked| && Fits(answers[i].statuses, asked[answers[i].callback])
  }

  ghost predicate WaitingFit(waiting: seq<Request>, asked: seq<seq<BlinkType>>) {
    forall i :: 0 <= i < |waiting| ==>
      waiting[i].callback < |asked| && waiting[i].types == asked[waiting[i].callback]
  }

  ghost predicate InOrder(waiting: seq<Request>, bound: nat) {
    && (forall i :: 0 <= i < |waiting| ==> waiting[i].id <= bound)
    && (forall i, j :: 0 <= i < j < |waiting| ==> waiting[i].id < waiting[j].id)
  }

  ghost predicate Inv(m: Manager) {
    && Accounted(m)
    && AnswersFit(m.answers, m.asked)
    && WaitingFit(m.waiting, m.asked)
    && InOrder(m.waiting, m.requestIdCount)
    && UniqueStore(m.store)
  }

  // ---- one decision keeps the invariant ----

  lemma CallbacksAppend(a: seq<Answer>, b: seq<Answer>)
    ensures Callbacks(a + b) == Callbacks(a) + Callbacks(b)
  {
  }

  lemma WaitingAppend(a: seq<Request>, b: seq<Request>)
    ensures WaitingCallbacks(a + b) == WaitingCallbacks(a) + WaitingCallbacks(b)
  {
  }

  lemma {:induction false} GivenAndKept(c: Setting, s: Store, waiting: seq<Request>)
    ensures multiset(Callbacks(Given(c, s, waiting))) + multiset(WaitingCallbacks(Kept(c, s, waiting)))
         == multiset(WaitingCallbacks(waiting))
    decreases |waiting|
  {
    if waiting != [] {
      var head, tail := waiting[0], waiting[1..];
      GivenAndKept(c, s, tail);
      WaitingCons(head, tail);
      assert waiting == [head] + tail;
      if Answered(c, s, head) {
        CallbacksCons(Answer(head.callback, Verdict(c.status, head.types)), Given(c, s, tail));
      } else {
        WaitingCons(head, Kept(c, s, tail));
      }
    }
  }

  lemma CallbacksCons(a: Answer, rest: seq<Answer>)
    ensures multiset(Callbacks([a] + rest)) == multiset{a.callback} + multiset(Callbacks(rest))
  {
    assert Callbacks([a] + rest) == [a.callback] + Callbacks(rest);
  }

  lemma WaitingCons(r: Request, rest: seq<Request>)
    ensures multiset(WaitingCallbacks([r] + rest)) == multiset{r.callback} + multiset(WaitingCallbacks(rest))
  {
    assert WaitingCallbacks([r] + rest) == [r.callback] + WaitingCallbacks(rest);
  }

  lemma {:induction false} GivenFit(c: Setting, s: Store, waiting: seq<Request>, asked: seq<seq<BlinkType>>)
    requires WaitingFit(waiting, asked) && c.status != ASK
    ensures AnswersFit(Given(c, s, waiting), asked) && WaitingFit(Kept(c, s, waiting), asked)
    decreases |waiting|
  {
    if waiting != [] {
      var tail := waiting[1..];
      assert forall i :: 0 <= i < |tail| ==> tail[i] == waiting[i + 1];
      GivenFit(c, s, tail, asked);
    }
  }

  lemma {:induction false} KeptInOrder(c: Setting, s: Store, waiting: seq<Request>, bound: nat)
    requires InOrder(waiting, bound)
    ensures InOrder(Kept(c, s, waiting), bound)
    decreases |waiting|
  {
    if waiting != [] {
      var tail := waiting[1..];
      assert forall i :: 0 <= i < |tail| ==> tail[i] == waiting[i + 1];
      KeptInOrder(c, s, tail, bound);
      forall i | 0 <= i < |Kept(c, s, tail)| ensures waiting[0].id < Kept(c, s, tail)[i].id {
        KeptMembers(c, s, tail, Kept(c, s, tail)[i]);
      }
    }
  }

  lemma SeenKeepsUnique(c: Setting, s: Store, t: BlinkType)
    ensures UniqueStore(s) ==> UniqueStore(Seen(c, s, t).1)
    ensures forall o :: o != c.token ==> ListOf(Seen(c, s, t).1, o) == ListOf(s, o)
  {
    if c.inTransient && c.token in c.frames {
      DocumentStatusFrame(s, ToBlink(ToQt(t)), c.token, c.frames[c.token]);
    }
  }

  /** The lookups of a setting touch no list but that of its frame. */
  ghost predicate OnlyList(s: Store, s': Store, token: Token) {
    && (UniqueStore(s) ==> UniqueStore(s'))
    && forall o :: o != token ==> ListOf(s', o) == ListOf(s, o)
  }

  lemma {:induction false} EvaluateOnlyList(c: Setting, s: Store, types: seq<BlinkType>)
    ensures OnlyList(s, Evaluate(c, s, types).1, c.token)
    decreases |types|
  {
    if types != [] {
      SeenKeepsUnique(c, s, types[0]);
      EvaluateOnlyList(c, if Supported(types[0]) then Seen(c, s, types[0]).1 else s, types[1..]);
    }
  }

  lemma {:induction false} ProcessOnlyList(c: Setting, s: Store, waiting: seq<Request>)
    ensures OnlyList(s, Process(c, s, waiting).2, c.token)
    decreases |waiting|
  {
    if waiting != [] {
      var next := if waiting[0].origin == c.Origin() then Evaluate(c, s, waiting[0].types).1 else s;
      EvaluateOnlyList(c, s, waiting[0].types);
      ProcessOnlyList(c, next, waiting[1..]);
    }
  }

  lemma DecideOnlyList(s: Store, c: Setting, q: QtType, state: State)
    requires q != MediaAudioVideoCapture
    ensures OnlyList(s, Decide(s, c, q, state), c.token)
  {
    if UniqueStore(s) {
      SetTransientKeepsUnique(s, ToBlink(q), c.gorigin, state == Granted, c.token);
      ResetTransientKeepsUnique(s, ToBlink(q), c.gorigin, c.token);
    }
  }

  /** A decision changes the list of no frame but its own. */
  lemma DecisionOnlyList(m: Manager, url: Url, q: QtType, state: State, token: Token, frames: Frames)
    ensures OnlyList(m.store, SetPermission(m, url, q, state, token, frames).store, token)
  {
    if q == MediaAudioVideoCapture {
      var half := SetPermissionImpl(m, url, MediaAudioCapture, state, token, frames);
      ImplOnlyList(m, url, MediaAudioCapture, state, token, frames);
      ImplOnlyList(half, url, MediaVideoCapture, state, token, frames);
    } else {
      ImplOnlyList(m, url, q, state, token, frames);
    }
  }

  lemma ImplOnlyList(m: Manager, url: Url, q: QtType, state: State, token: Token, frames: Frames)
    requires q != MediaAudioVideoCapture
    ensures OnlyList(m.store, SetPermissionImpl(m, url, q, state, token, frames).store, token)
  {
    var c := SettingFor(m.store, url, q, state, token, frames);
    DecideOnlyList(m.store, c, q, state);
    ProcessOnlyList(c, Decide(m.store, c, q, state), m.waiting);
  }

  lemma DecisionKeepsInv(m: Manager, url: Url, q: QtType, state: State, token: Token, frames: Frames)
    requires Inv(m) && state != Invalid && q != MediaAudioVideoCapture
    ensures Inv(SetPermissionImpl(m, url, q, state, token, frames))
  {
    var m' := SetPermissionImpl(m, url, q, state, token, frames);
    ImplOnlyList(m, url, q, state, token, frames);
    if state != Ask && m' != m {
      var c := SettingFor(m.store, url, q, state, token, frames);
      DecisionAnswers(m, url, q, state, token, frames);
      AnsweringKeepsInv(m, m', c, Decide(m.store, c, q, state));
    }
  }

  lemma AnsweringKeepsInv(m: Manager, m': Manager, c: Setting, s: Store)
    requires Inv(m) && c.status != ASK && UniqueStore(m'.store)
    requires m'.asked == m.asked && m'.requestIdCount == m.requestIdCount
    requires m'.waiting == Kept(c, s, m.waiting) && m'.answers == m.answers + Given(c, s, m.waiting)
    ensures Inv(m')
  {
    GivenAndKept(c, s, m.waiting);
    CallbacksAppend(m.answers, Given(c, s, m.waiting));
    GivenFit(c, s, m.waiting, m.asked);
    KeptInOrder(c, s, m.waiting, m.requestIdCount);
  }

  // ---- one request keeps the invariant ----

  lemma {:induction false} AskFits(s: Store, types: seq<BlinkType>, origin: Url, token: Token, settings: Settings)
    ensures var r := AskAll(s, types, origin, token, settings);
            && (r.0.Some? ==> Fits(r.0.value, types))
            && (UniqueStore(s) ==> UniqueStore(r.1))
    decreases |types|
  {
    if types != [] {
      var one, tail := AskOne(s, types[0], origin, token, settings), types[1..];
      AskOneKeepsUnique(s, types[0], origin, token, settings);
      AskFits(one.1, tail, origin, token, settings);
      var rest := AskAll(one.1, tail, origin, token, settings);
      if one.0 != ASK && rest.0.Some? {
        assert types == [types[0]] + tail;
        FitsCons(one.0, types[0], rest.0.value, tail);
      }
    }
  }

  lemma FitsCons(status: Status, t: BlinkType, statuses: seq<Status>, types: seq<BlinkType>)
    requires Fits(statuses, types) && status != ASK && (!Supported(t) ==> status == DENIED)
    ensures Fits([status] + statuses, [t] + types)
  {
  }

  lemma AskOneKeepsUnique(s: Store, t: BlinkType, origin: Url, token: Token, settings: Settings)
    ensures UniqueStore(s) ==> UniqueStore(AskOne(s, t, origin, token, settings).1)
  {
    var stored := PersistentStatus(s, t, origin);
    if UniqueStore(s) {
      SetTransientKeepsUnique(ResetPersistent(s, t, origin), t, origin, stored == GRANTED, token);
    }
  }

  lemma AnsweredAtOnce(m: Manager, m': Manager, types: seq<BlinkType>, a: Answer)
    requires Inv(m) && UniqueStore(m'.store)
    requires a.callback == |m.asked| && Fits(a.statuses, types)
    requires m' == m.(store := m'.store, answers := m.answers + [a], asked := m.asked + [types])
    ensures Inv(m')
  {
    CallbacksAppend(m.answers, [a]);
    assert Callbacks([a]) == [a.callback];
    assert Tickets(|m'.asked|) == Tickets(|m.asked|) + [a.callback];
    assert AnswersFit(m.answers, m'.asked) && WaitingFit(m.waiting, m'.asked);
  }

  lemma PutInQueue(m: Manager, m': Manager, types: seq<BlinkType>, r: Request)
    requires Inv(m) && UniqueStore(m'.store)
    requires r.callback == |m.asked| && r.types == types && r.id == m'.requestIdCount == m.requestIdCount + 1
    requires m'.waiting == m.waiting + [r] && m'.asked == m.asked + [types] && m'.answers == m.answers
    ensures Inv(m')
  {
    WaitingAppend(m.waiting, [r]);
    assert WaitingCallbacks([r]) == [r.callback];
    assert Tickets(|m'.asked|) == Tickets(|m.asked|) + [r.callback];
    assert AnswersFit(m.answers, m'.asked) && WaitingFit(m.waiting, m'.asked);
  }

  lemma RequestKeepsInv(m: Manager, types: seq<BlinkType>, origin: Url, token: Token, settings: Settings)
    requires Inv(m)
    ensures Inv(RequestPermissions(m, types, origin, token, settings))
  {
    var m' := RequestPermissions(m, types, origin, token, settings);
    AskFits(m.store, types, origin, token, settings);
    if |m'.answers| > |m.answers| {
      AnsweredAtOnce(m, m', types, m'.answers[|m.answers|]);
    } else {
      PutInQueue(m, m', types, m'.waiting[|m.waiting|]);
    }
  }

  lemma SetKeepsInv(m: Manager, url: Url, q: QtType, state: State, token: Token, frames: Frames)
    requires Inv(m) && state != Invalid
    ensures Inv(SetPermission(m, url, q, state, token, frames))
  {
    if q == MediaAudioVideoCapture {
      DecisionKeepsInv(m, url, MediaAudioCapture, state, token, frames);
      DecisionKeepsInv(SetPermissionImpl(m, url, MediaAudioCapture, state, token, frames), url,
                       MediaVideoCapture, state, token, frames);
    } else {
      DecisionKeepsInv(m, url, q, state, token, frames);
    }
  }

  lemma StoreStep(m: Manager, step: Step)
    requires !step.Requested? && !step.Set?
    ensures Apply(m, step) == m.(store := Apply(m, step).store)
    ensures UniqueStore(m.store) ==> UniqueStore(Apply(m, step).store)
  {
    if step.Queried? { DocumentStatusFrame(m.store, step.kind, step.asker, step.frame); }
  }

  lemma StepKeepsInv(m: Manager, step: Step)
    requires Inv(m) && (step.Set? ==> step.state != Invalid)
    ensures Inv(Apply(m, step))
  {
    if step.Requested? {
      RequestKeepsInv(m, step.types, step.origin, step.token, step.settings);
    } else if step.Set? {
      SetKeepsInv(m, step.url, step.q, step.state, step.target, step.frames);
    } else {
      StoreStep(m, step);
    }
  }

  lemma {:induction false} RunKeepsInv(m: Manager, steps: seq<Step>)
    requires Inv(m) && forall i :: 0 <= i < |steps| ==> steps[i].Set? ==> steps[i].state != Invalid
    ensures Inv(Run(m, steps))
    decreases |steps|
  {
    if steps != [] {
      StepKeepsInv(m, steps[0]);
      RunKeepsInv(Apply(m, steps[0]), steps[1..]);
    }
  }

  /** A manager as constructed, with whatever the preferences hold. */
  function Initial(persistent: map<(QtType, string), bool>, persistence: bool): Manager {
    Manager(Store(persistent, map[], persistence), [], 0, [], [])
  }

  lemma {:induction false} TicketOnce(n: nat, k: nat)
    ensures multiset(Tickets(n))[k] == if k < n then 1 else 0
  {
    if n > 0 {
      assert Tickets(n) == Tickets(n - 1) + [n - 1];
      TicketOnce(n - 1, k);
    }
  }

  /** Over every run, each callback given to RequestPermissions has been run exactly once, with one
      status per requested type in order, or is still waiting exactly once; the waiting requests
      keep their order. */
  lemma EveryCallbackOnce(persistent: map<(QtType, string), bool>, persistence: bool, steps: seq<Step>, k: nat)
    requires forall i :: 0 <= i < |steps| ==> steps[i].Set? ==> steps[i].state != Invalid
    requires k < |Run(Initial(persistent, persistence), steps).asked|
    ensures var m := Run(Initial(persistent, persistence), steps);
            && multiset(Callbacks(m.answers))[k] + multiset(WaitingCallbacks(m.waiting))[k] == 1
            && AnswersFit(m.answers, m.asked) && WaitingFit(m.waiting, m.asked)
            && InOrder(m.waiting, m.requestIdCount) && UniqueStore(m.store)
  {
    var m0 := Initial(persistent, persistence);
    assert Tickets(0) == [] && Callbacks([]) == [] && WaitingCallbacks([]) == [];
    RunKeepsInv(m0, steps);
    TicketOnce(|Run(m0, steps).asked|, k);
  }
}
