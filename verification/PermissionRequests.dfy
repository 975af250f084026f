/** Permission decisions and the queue of requests that wait for them
    (src/core/permission_manager_qt.cpp:282-354, 393-437 and 606-692). */
module PermissionRequests {
  import opened Wrappers
  import opened PermissionTypes
  import opened PermissionStore

  /** A MultiRequest. `callback` numbers the calls of RequestPermissions. */
  datatype Request = Request(id: nat, types: seq<BlinkType>, origin: Url, callback: nat)

  /** One run of a callback. */
  datatype Answer = Answer(callback: nat, statuses: seq<Status>)

  /** The manager, the callbacks it has run, and the types each callback was given for. */
  datatype Manager = Manager(
    store: Store,
    waiting: seq<Request>,
    requestIdCount: nat,
    answers: seq<Answer>,
    asked: seq<seq<BlinkType>>)

  // ---- setting a permission ----

  /** What the loop over the waiting requests works with. */
  datatype Setting = Setting(
    url: Url,
    gorigin: Url,
    status: Status,
    inTransient: bool,
    token: Token,
    frames: Frames)
  {
    /** The origin requests are compared with (line 322). */
    function Origin(): Url {
      if IsEmpty(gorigin) then url else gorigin
    }
  }

  /** The status looked up for one type of a waiting request (lines 405-411). */
  function Seen(c: Setting, s: Store, t: BlinkType): (Status, Store) {
    if c.inTransient then
      var r := TypeState(s, c.url, ToQt(t), c.token, c.frames);
      (ToStatus(r.0), r.1)
    else (PersistentStatus(s, t, c.gorigin), s)
  }

  /** The inner loop: the statuses of a request if it can be answered, and the store left behind. */
  function Evaluate(c: Setting, s: Store, types: seq<BlinkType>): (Option<seq<Status>>, Store)
    decreases |types|
  {
    if types == [] then (Some([]), s)
    else if !Supported(types[0]) then Prepend(DENIED, Evaluate(c, s, types[1..]))
    else
      var seen := Seen(c, s, types[0]);
      if seen.0 == c.status == ASK then (None, seen.1)
      else if seen.0 == c.status || !s.persistence then Prepend(c.status, Evaluate(c, seen.1, types[1..]))
      else (None, seen.1)
  }

  function Prepend(status: Status, r: (Option<seq<Status>>, Store)): (Option<seq<Status>>, Store) {
    (if r.0.None? then None else Some([status] + r.0.value), r.1)
  }

  /** The outer loop: the requests still waiting, the answers given and the store left behind. */
  function Process(c: Setting, s: Store, waiting: seq<Request>): (seq<Request>, seq<Answer>, Store)
    decreases |waiting|
  {
    if waiting == [] then ([], [], s)
    else
      var head := waiting[0];
      if head.origin != c.Origin() then
        var rest := Process(c, s, waiting[1..]);
        ([head] + rest.0, rest.1, rest.2)
      else
        var result := Evaluate(c, s, head.types);
        var rest := Process(c, result.1, waiting[1..]);
        if result.0.None? then ([head] + rest.0, rest.1, rest.2)
        else (rest.0, [Answer(head.callback, result.0.value)] + rest.1, rest.2)
  }

  function SettingFor(s: Store, url: Url, q: QtType, state: State, token: Token, frames: Frames): Setting {
    Setting(url, OriginOf(url), ToStatus(state), token.FrameToken? && InTransientStore(s, q), token, frames)
  }

  /** The store after the decision itself (lines 334-345). */
  function Decide(s: Store, c: Setting, q: QtType, state: State): Store
    requires q != MediaAudioVideoCapture
  {
    if state == Ask then
      if c.inTransient then ResetTransient(s, ToBlink(q), c.gorigin, c.token)
      else ResetPersistent(s, ToBlink(q), c.gorigin)
    else if c.inTransient then SetTransient(s, ToBlink(q), c.gorigin, state == Granted, c.token)
    else SetPersistent(s, ToBlink(q), c.gorigin, state == Granted)
  }

  /** Lines 393-437. */
  function AnswerAll(m: Manager, c: Setting): Manager {
    var r := Process(c, m.store, m.waiting);
    m.(waiting := r.0, answers := m.answers + r.1, store := r.2)
  }

  /** Lines 334-437. */
  function Settle(m: Manager, c: Setting, q: QtType, state: State): Manager
    requires q != MediaAudioVideoCapture
  {
    var decided := m.(store := Decide(m.store, c, q, state));
    if state == Ask then decided else AnswerAll(decided, c)
  }

  function SetPermissionImpl(m: Manager, url: Url, q: QtType, state: State, token: Token, frames: Frames): Manager
    requires q != MediaAudioVideoCapture
  {
    var c := SettingFor(m.store, url, q, state, token, frames);
    if IsEmpty(c.Origin()) then m else Settle(m, c, q, state)
  }

  function SetPermission(m: Manager, url: Url, q: QtType, state: State, token: Token, frames: Frames): Manager {
    if q == MediaAudioVideoCapture then
      SetPermissionImpl(SetPermissionImpl(m, url, MediaAudioCapture, state, token, frames),
                        url, MediaVideoCapture, state, token, frames)
    else SetPermissionImpl(m, url, q, state, token, frames)
  }

  // ---- requesting permissions ----

  /** The loop of RequestPermissions: the statuses if no prompt is needed, and the store left behind. */
  function AskAll(s: Store, types: seq<BlinkType>, origin: Url, token: Token, settings: Settings):
    (Option<seq<Status>>, Store)
    decreases |types|
  {
    if types == [] then (Some([]), s)
    else
      var r := AskOne(s, types[0], origin, token, settings);
      if r.0 == ASK then (None, r.1)
      else Prepend(r.0, AskAll(r.1, types[1..], origin, token, settings))
  }

  /** One round of it; ASK means that a prompt is needed. */
  function AskOne(s: Store, t: BlinkType, origin: Url, token: Token, settings: Settings): (Status, Store) {
    var fromSettings := StatusFromSettings(t, settings);
    var inTransient := InTransientStore(s, ToQt(t));
    var own := TransientStatus(s, t, origin, token);
    var stored := PersistentStatus(s, t, origin);
    if !Supported(t) then (DENIED, s)
    else if fromSettings != ASK then (fromSettings, s)
    else if inTransient && own != ASK then (own, s)
    else if inTransient && stored != ASK then (stored, Adopt(s, t, origin, stored == GRANTED, token))
    else (stored, s)
  }

  function RequestPermissions(m: Manager, types: seq<BlinkType>, origin: Url, token: Token, settings: Settings):
    Manager
  {
    var callback := |m.asked|;
    var asked := m.asked + [types];
    if IsEmpty(origin) then
      m.(answers := m.answers + [Answer(callback, seq(|types|, _ => DENIED))], asked := asked)
    else
      var r := AskAll(m.store, types, origin, token, settings);
      if r.0.Some? then
        m.(store := r.1, answers := m.answers + [Answer(callback, r.0.value)], asked := asked)
      else
        var id := m.requestIdCount + 1;
        m.(store := r.1, waiting := m.waiting + [Request(id, types, origin, callback)],
           requestIdCount := id, asked := asked)
  }

  // ---- what the loops over the waiting requests amount to ----

  /** Nothing that the lookups of this setting can see differs. */
  ghost predicate SameView(c: Setting, s: Store, s': Store) {
    s'.persistence == s.persistence && forall t :: Seen(c, s', t).0 == Seen(c, s, t).0
  }

  lemma SeenKeepsView(c: Setting, s: Store, t: BlinkType)
    ensures SameView(c, s, Seen(c, s, t).1)
  {
    var s' := Seen(c, s, t).1;
    forall o ensures Seen(c, s', o).0 == Seen(c, s, o).0 {
      if c.inTransient && c.token in c.frames {
        DocumentStatusIndependent(s, ToBlink(ToQt(t)), ToBlink(ToQt(o)), c.token, c.frames[c.token]);
      }
    }
    if c.inTransient && c.token in c.frames {
      DocumentStatusFrame(s, ToBlink(ToQt(t)), c.token, c.frames[c.token]);
    }
  }

  /** A request can be answered: every supported type in it has the status just set, or else the
      manager asks every time. */
  ghost predicate Answerable(c: Setting, s: Store, types: seq<BlinkType>) {
    !s.persistence || forall i :: 0 <= i < |types| && Supported(types[i]) ==> Seen(c, s, types[i]).0 == c.status
  }

  /** The answer it gets. */
  function Verdict(status: Status, types: seq<BlinkType>): (r: seq<Status>)
    ensures |r| == |types|
    ensures forall i :: 0 <= i < |types| ==> r[i] == if Supported(types[i]) then status else DENIED
  {
    seq(|types|, i requires 0 <= i < |types| => if Supported(types[i]) then status else DENIED)
  }

  lemma AnswerableTail(c: Setting, s: Store, types: seq<BlinkType>)
    requires types != []
    ensures Answerable(c, s, types) <==>
            && (!s.persistence || !Supported(types[0]) || Seen(c, s, types[0]).0 == c.status)
            && Answerable(c, s, types[1..])
  {
    var tail := types[1..];
    assert forall i :: 0 < i < |types| ==> types[i] == tail[i - 1];
    assert forall i :: 0 <= i < |tail| ==> tail[i] == types[i + 1];
  }

  lemma AnswerableView(c: Setting, s: Store, s': Store, types: seq<BlinkType>)
    requires SameView(c, s, s')
    ensures Answerable(c, s', types) <==> Answerable(c, s, types)
  {
  }

  lemma VerdictTail(status: Status, types: seq<BlinkType>)
    requires types != []
    ensures Verdict(status, types) == [Verdict(status, types)[0]] + Verdict(status, types[1..])
  {
    var tail := types[1..];
    assert forall i :: 0 <= i < |tail| ==> tail[i] == types[i + 1];
  }

  /** The inner loop answers exactly the answerable requests, unsupported positions with DENIED and
      all others with the status just set. */
  lemma {:induction false} EvaluateDecides(c: Setting, s: Store, types: seq<BlinkType>)
    requires c.status != ASK
    ensures var r := Evaluate(c, s, types);
            && SameView(c, s, r.1)
            && r.0 == if Answerable(c, s, types) then Some(Verdict(c.status, types)) else None
    decreases |types|
  {
    if types != [] {
      var next := if Supported(types[0]) then Seen(c, s, types[0]).1 else s;
      SeenKeepsView(c, s, types[0]);
      AnswerableTail(c, s, types);
      AnswerableView(c, s, next, types[1..]);
      VerdictTail(c.status, types);
      EvaluateDecides(c, next, types[1..]);
    }
  }

  ghost predicate Answered(c: Setting, s: Store, r: Request) {
    r.origin == c.Origin() && Answerable(c, s, r.types)
  }

  /** The requests a setting leaves waiting, in their order. */
  ghost function Kept(c: Setting, s: Store, waiting: seq<Request>): seq<Request> {
    if waiting == [] then []
    else if Answered(c, s, waiting[0]) then Kept(c, s, waiting[1..])
    else [waiting[0]] + Kept(c, s, waiting[1..])
  }

  ghost function Given(c: Setting, s: Store, waiting: seq<Request>): seq<Answer> {
    if waiting == [] then []
    else if Answered(c, s, waiting[0]) then
      [Answer(waiting[0].callback, Verdict(c.status, waiting[0].types))] + Given(c, s, waiting[1..])
    else Given(c, s, waiting[1..])
  }

  lemma {:induction false} KeptView(c: Setting, s: Store, s': Store, waiting: seq<Request>)
    requires SameView(c, s, s')
    ensures Kept(c, s', waiting) == Kept(c, s, waiting) && Given(c, s', waiting) == Given(c, s, waiting)
    decreases |waiting|
  {
    if waiting != [] {
      AnswerableView(c, s, s', waiting[0].types);
      KeptView(c, s, s', waiting[1..]);
    }
  }

  /** The outer loop answers, in order, exactly the requests of this origin that are answerable on
      the store as the decision left it, although its lookups keep moving decisions between the
      stores. */
  lemma {:induction false} ProcessDecides(c: Setting, s: Store, waiting: seq<Request>)
    requires c.status != ASK
    ensures var r := Process(c, s, waiting);
            r.0 == Kept(c, s, waiting) && r.1 == Given(c, s, waiting) && SameView(c, s, r.2)
    decreases |waiting|
  {
    if waiting != [] {
      var head := waiting[0];
      var next := if head.origin == c.Origin() then Evaluate(c, s, head.types).1 else s;
      EvaluateDecides(c, s, head.types);
      ProcessDecides(c, next, waiting[1..]);
      KeptView(c, s, next, waiting[1..]);
    }
  }
}
