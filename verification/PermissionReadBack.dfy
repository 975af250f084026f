/** What a frame sees after a decision, and which decisions leave a request waiting
    (src/core/permission_manager_qt.cpp:282-471). */
module PermissionReadBack {
  import opened PermissionTypes
  import opened PermissionStore
  import opened PermissionRequests
  import opened PermissionRuns

  /** What a frame sees for each type. */
  ghost predicate SameDocument(s: Store, s': Store, token: Token, frame: Frame) {
    forall k :: DocumentStatus(s', k, token, frame).0 == DocumentStatus(s, k, token, frame).0
  }

  lemma SeenKeepsDocument(c: Setting, s: Store, t: BlinkType)
    requires c.token in c.frames
    ensures SameDocument(s, Seen(c, s, t).1, c.token, c.frames[c.token])
  {
    var frame := c.frames[c.token];
    forall k ensures DocumentStatus(Seen(c, s, t).1, k, c.token, frame).0 == DocumentStatus(s, k, c.token, frame).0 {
      DocumentStatusIndependent(s, ToBlink(ToQt(t)), k, c.token, frame);
    }
  }

  lemma {:induction false} EvaluateKeepsDocument(c: Setting, s: Store, types: seq<BlinkType>)
    requires c.token in c.frames
    ensures SameDocument(s, Evaluate(c, s, types).1, c.token, c.frames[c.token])
    decreases |types|
  {
    if types != [] {
      SeenKeepsDocument(c, s, types[0]);
      EvaluateKeepsDocument(c, if Supported(types[0]) then Seen(c, s, types[0]).1 else s, types[1..]);
    }
  }

  lemma {:induction false} ProcessKeepsDocument(c: Setting, s: Store, waiting: seq<Request>)
    requires c.token in c.frames
    ensures SameDocument(s, Process(c, s, waiting).2, c.token, c.frames[c.token])
    decreases |waiting|
  {
    if waiting != [] {
      var next := if waiting[0].origin == c.Origin() then Evaluate(c, s, waiting[0].types).1 else s;
      EvaluateKeepsDocument(c, s, waiting[0].types);
      ProcessKeepsDocument(c, next, waiting[1..]);
    }
  }

  /** A live frame at the origin the decision is about. */
  ghost predicate AtOrigin(url: Url, token: Token, frames: Frames) {
    url.origin != "" && token.FrameToken? && token in frames && frames[token].origin == OriginOf(url)
  }

  /** The clipboard settings do not already answer. */
  ghost predicate LeftToManager(q: QtType, frame: Frame) {
    q == ClipboardReadWrite ==> StatusFromSettings(CLIPBOARD_READ_WRITE, frame.settings) == ASK
  }

  /** The document sees the decision, and whatever it saw before for every type that Qt tells apart
      from it. */
  ghost predicate SeesDecision(s: Store, s': Store, kind: BlinkType, status: Status, token: Token, frame: Frame) {
    && DocumentStatus(s', kind, token, frame).0 == status
    && forall k :: ToQt(k) != ToQt(kind) ==>
         DocumentStatus(s', k, token, frame).0 == DocumentStatus(s, k, token, frame).0
  }

  lemma TransientIsSeen(s: Store, kind: BlinkType, granted: bool, token: Token, frame: Frame)
    requires Supported(kind) && Normal(kind) == kind && InTransientStore(s, ToQt(kind))
    requires StatusFromSettings(kind, frame.settings) == ASK
    ensures SeesDecision(s, SetTransient(s, kind, frame.origin, granted, token), kind, Decision(granted), token, frame)
  {
    var s' := SetTransient(s, kind, frame.origin, granted, token);
    PutLooksUp(ListOf(s, token), frame.origin, kind, granted, frame.origin, kind);
    forall k | ToQt(k) != ToQt(kind)
      ensures DocumentStatus(s', k, token, frame).0 == DocumentStatus(s, k, token, frame).0
    {
      PutLooksUp(ListOf(s, token), frame.origin, kind, granted, frame.origin, Normal(k));
    }
  }

  lemma PersistentIsSeen(s: Store, kind: BlinkType, granted: bool, token: Token, frame: Frame)
    requires Supported(kind) && Normal(kind) == kind && !InTransientStore(s, ToQt(kind))
    requires StatusFromSettings(kind, frame.settings) == ASK
    ensures SeesDecision(s, SetPersistent(s, kind, frame.origin, granted), kind, Decision(granted), token, frame)
  {
    var s' := SetPersistent(s, kind, frame.origin, granted);
    forall k | ToQt(k) != ToQt(kind)
      ensures DocumentStatus(s', k, token, frame).0 == DocumentStatus(s, k, token, frame).0
    {
      PersistentElsewhere(s, kind, granted, token, frame, k);
    }
  }

  lemma PersistentElsewhere(s: Store, kind: BlinkType, granted: bool, token: Token, frame: Frame, k: BlinkType)
    requires ToQt(k) != ToQt(kind)
    ensures DocumentStatus(SetPersistent(s, kind, frame.origin, granted), k, token, frame).0
         == DocumentStatus(s, k, token, frame).0
  {
    assert ListOf(SetPersistent(s, kind, frame.origin, granted), token) == ListOf(s, token);
  }

  lemma DecideIsSeen(s: Store, url: Url, q: QtType, state: State, token: Token, frames: Frames)
    requires Decisive(state) && q != MediaAudioVideoCapture && q != Unsupported
    requires AtOrigin(url, token, frames) && LeftToManager(q, frames[token])
    ensures SeesDecision(s, Decide(s, SettingFor(s, url, q, state, token, frames), q, state),
                         ToBlink(q), ToStatus(state), token, frames[token])
  {
    var kind, frame, granted := ToBlink(q), frames[token], state == Granted;
    var s' := Decide(s, SettingFor(s, url, q, state, token, frames), q, state);
    if InTransientStore(s, q) {
      assert s' == SetTransient(s, kind, frame.origin, granted, token);
      TransientIsSeen(s, kind, granted, token, frame);
    } else {
      assert s' == SetPersistent(s, kind, frame.origin, granted);
      PersistentIsSeen(s, kind, granted, token, frame);
    }
  }

  lemma ImplReadBack(m: Manager, url: Url, q: QtType, state: State, token: Token, frames: Frames)
    requires Decisive(state) && q != MediaAudioVideoCapture && q != Unsupported
    requires AtOrigin(url, token, frames) && LeftToManager(q, frames[token])
    ensures SeesDecision(m.store, SetPermissionImpl(m, url, q, state, token, frames).store,
                         ToBlink(q), ToStatus(state), token, frames[token])
  {
    var c := SettingFor(m.store, url, q, state, token, frames);
    DecideIsSeen(m.store, url, q, state, token, frames);
    ProcessKeepsDocument(c, Decide(m.store, c, q, state), m.waiting);
  }

  /** After a Granted or Denied decision for a live frame at that origin the frame reads it back, even
      after the loop over the waiting requests, and even when it was split into audio and video. */
  lemma DecisionReadBack(m: Manager, url: Url, q: QtType, state: State, token: Token, frames: Frames)
    requires Decisive(state) && q != Unsupported
    requires AtOrigin(url, token, frames) && LeftToManager(q, frames[token])
    ensures var s := SetPermission(m, url, q, state, token, frames).store;
            PermissionState(s, url, q, token, frames).0 == state
  {
    if q == MediaAudioVideoCapture {
      var half := SetPermissionImpl(m, url, MediaAudioCapture, state, token, frames);
      ImplReadBack(m, url, MediaAudioCapture, state, token, frames);
      ImplReadBack(half, url, MediaVideoCapture, state, token, frames);
      DocumentStatusIndependent(SetPermission(m, url, q, state, token, frames).store,
                                AUDIO_CAPTURE, VIDEO_CAPTURE, token, frames[token]);
    } else {
      ImplReadBack(m, url, q, state, token, frames);
    }
  }

  // ---- requests that decisions do not answer ----

  /** With persistence on, a request for two types of which one is granted and then the other denied
      waits on. */
  lemma MixedVerdictsKeepWaiting(m: Manager, r: Request, url: Url, token: Token, frames: Frames)
    requires m.store.persistence && r in m.waiting && url.origin != "" && r.origin == OriginOf(url)
    requires r.types == [GEOLOCATION, NOTIFICATIONS]
    requires PersistentStatus(m.store, NOTIFICATIONS, OriginOf(url)) != GRANTED
    ensures var m1 := SetPermission(m, url, Geolocation, Granted, token, frames);
            r in SetPermission(m1, url, Notifications, Denied, token, frames).waiting
  {
    var m1 := SetPermission(m, url, Geolocation, Granted, token, frames);
    UndecidedWaits(m, r, url, Geolocation, Granted, token, frames, 1);
    PersistentDecisionStays(m, url, Geolocation, Granted, token, frames);
    UndecidedWaits(m1, r, url, Notifications, Denied, token, frames, 0);
  }

  /** A waiting request stays if the status of one of its types is not the one just set. */
  lemma UndecidedWaits(m: Manager, r: Request, url: Url, q: QtType, state: State, token: Token, frames: Frames, i: nat)
    requires Decisive(state) && q != MediaAudioVideoCapture && m.store.persistence && r in m.waiting
    requires i < |r.types| && Supported(r.types[i])
    requires var c := SettingFor(m.store, url, q, state, token, frames);
             Seen(c, Decide(m.store, c, q, state), r.types[i]).0 != ToStatus(state)
    ensures r in SetPermission(m, url, q, state, token, frames).waiting
  {
    var c := SettingFor(m.store, url, q, state, token, frames);
    DecisionAnswers(m, url, q, state, token, frames);
    KeptMembers(c, Decide(m.store, c, q, state), m.waiting, r);
  }

  /** The preferences hold a decision they were given after the loop over the waiting requests too. */
  lemma PersistentDecisionStays(m: Manager, url: Url, q: QtType, state: State, token: Token, frames: Frames)
    requires Decisive(state) && IsPersistent(q) && m.store.persistence && url.origin != ""
    ensures var m' := SetPermission(m, url, q, state, token, frames);
            && m'.store.persistence
            && PersistentStatus(m'.store, ToBlink(q), OriginOf(url)) == ToStatus(state)
  {
    var c := SettingFor(m.store, url, q, state, token, frames);
    var s := Decide(m.store, c, q, state);
    DecisionAnswers(m, url, q, state, token, frames);
    assert Seen(c, s, ToBlink(q)).0 == ToStatus(state);
  }

  /** No lookup adds to the preferences. */
  ghost predicate Shrinks(s: Store, s': Store) {
    forall key :: key in s'.persistent ==> key in s.persistent
  }

  lemma {:induction false} EvaluateShrinks(c: Setting, s: Store, types: seq<BlinkType>)
    ensures Shrinks(s, Evaluate(c, s, types).1)
    decreases |types|
  {
    if types != [] {
      EvaluateShrinks(c, if Supported(types[0]) then Seen(c, s, types[0]).1 else s, types[1..]);
    }
  }

  lemma {:induction false} ProcessShrinks(c: Setting, s: Store, waiting: seq<Request>)
    ensures Shrinks(s, Process(c, s, waiting).2)
    decreases |waiting|
  {
    if waiting != [] {
      EvaluateShrinks(c, s, waiting[0].types);
      var next := if waiting[0].origin == c.Origin() then Evaluate(c, s, waiting[0].types).1 else s;
      ProcessShrinks(c, next, waiting[1..]);
    }
  }

  /** A request that mixes a persistent and a transient type waits on if the persistent one is decided
      last, although both are granted: the transient grant is not looked for in the frame then. */
  lemma PersistentDecisionLast(m: Manager, r: Request, url: Url, token: Token, frames: Frames)
    requires m.store.persistence && r in m.waiting && r.origin == OriginOf(url) && AtOrigin(url, token, frames)
    requires r.types == [GEOLOCATION, AUDIO_CAPTURE]
    requires PersistentStatus(m.store, GEOLOCATION, OriginOf(url)) != GRANTED
    requires PersistentStatus(m.store, AUDIO_CAPTURE, OriginOf(url)) == ASK
    ensures var m1 := SetPermission(m, url, MediaAudioCapture, Granted, token, frames);
            r in SetPermission(m1, url, Geolocation, Granted, token, frames).waiting
  {
    var c1 := SettingFor(m.store, url, MediaAudioCapture, Granted, token, frames);
    var m1 := SetPermission(m, url, MediaAudioCapture, Granted, token, frames);
    UndecidedWaits(m, r, url, MediaAudioCapture, Granted, token, frames, 0);
    ProcessShrinks(c1, Decide(m.store, c1, MediaAudioCapture, Granted), m.waiting);
    ImplPolicy(m, url, MediaAudioCapture, Granted, token, frames);
    assert PersistentStatus(m1.store, AUDIO_CAPTURE, OriginOf(url)) == ASK;
    UndecidedWaits(m1, r, url, Geolocation, Granted, token, frames, 1);
  }

  lemma ImplPolicy(m: Manager, url: Url, q: QtType, state: State, token: Token, frames: Frames)
    requires Decisive(state) && q != MediaAudioVideoCapture
    ensures SetPermissionImpl(m, url, q, state, token, frames).store.persistence == m.store.persistence
  {
    DecisionAnswers(m, url, q, state, token, frames);
  }

  /** In the other order both grants are seen and the request is answered. */
  lemma TransientDecisionLast(m: Manager, r: Request, url: Url, token: Token, frames: Frames)
    requires m.store.persistence && r.origin == OriginOf(url) && AtOrigin(url, token, frames)
    requires r.types == [GEOLOCATION, AUDIO_CAPTURE]
    ensures var m1 := SetPermission(m, url, Geolocation, Granted, token, frames);
            r !in SetPermission(m1, url, MediaAudioCapture, Granted, token, frames).waiting
  {
    var m1 := SetPermission(m, url, Geolocation, Granted, token, frames);
    ImplReadBack(m, url, Geolocation, Granted, token, frames);
    DecisionAnswers(m, url, Geolocation, Granted, token, frames);
    var c2 := SettingFor(m1.store, url, MediaAudioCapture, Granted, token, frames);
    var s2 := Decide(m1.store, c2, MediaAudioCapture, Granted);
    DecideIsSeen(m1.store, url, MediaAudioCapture, Granted, token, frames);
    DecisionAnswers(m1, url, MediaAudioCapture, Granted, token, frames);
    assert forall i :: 0 <= i < |r.types| ==> Seen(c2, s2, r.types[i]).0 == GRANTED;
    KeptMembers(c2, s2, m1.waiting, r);
  }
}
