/** How far a decision reaches and how long it lasts: which frames see it, what survives a navigation, and what the
    settings answer without one (src/core/permission_manager_qt.cpp:200-215, 282-345, 582-597 and 740-778). */
module PermissionLifetime {
  import opened PermissionTypes
  import opened PermissionStore
  import opened PermissionRequests
  import opened PermissionRuns
  import opened PermissionReadBack

  // ---- which frames see a decision ----

  /** A decision that is not for the list of a frame stays in the preferences, after the loop over the waiting
      requests too: made without a frame, or about a type that the preferences keep. */
  lemma KeptInPreferences(m: Manager, url: Url, q: QtType, state: State, token: Token, frames: Frames)
    requires Decisive(state) && q != MediaAudioVideoCapture && q != Unsupported && url.origin != ""
    requires !(token.FrameToken? && InTransientStore(m.store, q))
    ensures var s' := SetPermissionImpl(m, url, q, state, token, frames).store;
            PersistentStatus(s', ToBlink(q), OriginOf(url)) == ToStatus(state)
  {
    var c := SettingFor(m.store, url, q, state, token, frames);
    var s := Decide(m.store, c, q, state);
    DecisionAnswers(m, url, q, state, token, frames);
    assert Seen(c, s, ToBlink(q)).0 == ToStatus(state);
  }

  /** It is what the embedder reads back without a live frame, also for microphone and camera together. */
  lemma ReadBackWithoutFrame(m: Manager, url: Url, q: QtType, state: State, token: Token, frames: Frames)
    requires Decisive(state) && q != Unsupported && url.origin != "" && token !in frames
    requires !(token.FrameToken? && InTransientStore(m.store, q))
    ensures PermissionState(SetPermission(m, url, q, state, token, frames).store, url, q, token, frames).0 == state
  {
    if q == MediaAudioVideoCapture {
      var half := SetPermissionImpl(m, url, MediaAudioCapture, state, token, frames);
      KeptInPreferences(m, url, MediaAudioCapture, state, token, frames);
      KeptInPreferences(half, url, MediaVideoCapture, state, token, frames);
      AudioStays(half, url, state, token, frames);
    } else {
      KeptInPreferences(m, url, q, state, token, frames);
    }
  }

  /** The second half of a joint decision leaves the first. */
  lemma AudioStays(m: Manager, url: Url, state: State, token: Token, frames: Frames)
    requires Decisive(state) && url.origin != "" && !token.FrameToken?
    requires PersistentStatus(m.store, AUDIO_CAPTURE, OriginOf(url)) == ToStatus(state)
    ensures var s' := SetPermissionImpl(m, url, MediaVideoCapture, state, token, frames).store;
            PersistentStatus(s', AUDIO_CAPTURE, OriginOf(url)) == ToStatus(state)
  {
    var c := SettingFor(m.store, url, MediaVideoCapture, state, token, frames);
    var s := Decide(m.store, c, MediaVideoCapture, state);
    DecisionAnswers(m, url, MediaVideoCapture, state, token, frames);
    assert Seen(c, s, AUDIO_CAPTURE).0 == ToStatus(state);
  }

  /** A transient decision made without a frame goes to the first frame of the origin that asks: that one reads it
      from then on, and a second one must ask again. */
  lemma FirstFrameTakes(m: Manager, url: Url, q: QtType, state: State, frames: Frames, token: Token, frame: Frame,
                        token2: Token, frame2: Frame)
    requires Decisive(state) && q != MediaAudioVideoCapture && q != Unsupported && url.origin != ""
    requires InTransientStore(m.store, q) && LeftToManager(q, frame) && LeftToManager(q, frame2)
    requires frame.origin == frame2.origin == OriginOf(url)
    requires token.FrameToken? && token2.FrameToken? && token2 != token
    requires TransientStatus(m.store, ToBlink(q), frame.origin, token) == ASK
    requires TransientStatus(m.store, ToBlink(q), frame.origin, token2) == ASK
    ensures var kind := ToBlink(q);
            var m1 := SetPermissionImpl(m, url, q, state, NoFrame, frames);
            var m2 := Apply(m1, Queried(kind, token, frame));
            && DocumentStatus(m2.store, kind, token, frame).0 == ToStatus(state)
            && DocumentStatus(m2.store, kind, token2, frame2).0 == ASK
  {
    var m1 := SetPermissionImpl(m, url, q, state, NoFrame, frames);
    KeptInPreferences(m, url, q, state, NoFrame, frames);
    ImplOnlyList(m, url, q, state, NoFrame, frames);
    DecisionAnswers(m, url, q, state, NoFrame, frames);
    PreGrantServesOneFrame(m1.store, ToBlink(q), token, frame, token2, frame2);
  }

  /** A frame of the origin that has no entry of its own, and no decision made in advance to fall back on, sees what
      another frame of the origin decides exactly if the preferences keep the type: notifications, geolocation, the
      clipboard and local fonts, and these only if the policy is a persistent one. */
  lemma SharedExactlyWhen(m: Manager, url: Url, q: QtType, state: State, token: Token, frames: Frames, other: Token,
                          frame: Frame)
    requires Decisive(state) && q != MediaAudioVideoCapture && q != Unsupported
    requires AtOrigin(url, token, frames) && LeftToManager(q, frame)
    requires other != token && frame.origin == OriginOf(url)
    requires TransientStatus(m.store, ToBlink(q), frame.origin, other) == ASK
    requires InTransientStore(m.store, q) ==> PersistentStatus(m.store, ToBlink(q), frame.origin) == ASK
    ensures DocumentStatus(SetPermissionImpl(m, url, q, state, token, frames).store, ToBlink(q), other, frame).0
         == ToStatus(state)
       <==> m.store.persistence && q in {Notifications, Geolocation, ClipboardReadWrite, LocalFontsAccess}
  {
    if InTransientStore(m.store, q) {
      KeptFromOthers(m, url, q, state, token, frames, other, frame);
    } else {
      KeptInPreferences(m, url, q, state, token, frames);
      DecisionAnswers(m, url, q, state, token, frames);
    }
  }

  lemma KeptFromOthers(m: Manager, url: Url, q: QtType, state: State, token: Token, frames: Frames, other: Token,
                       frame: Frame)
    requires Decisive(state) && q != MediaAudioVideoCapture && q != Unsupported
    requires AtOrigin(url, token, frames) && LeftToManager(q, frame)
    requires other != token && InTransientStore(m.store, q)
    requires TransientStatus(m.store, ToBlink(q), frame.origin, other) == ASK
    requires PersistentStatus(m.store, ToBlink(q), frame.origin) == ASK
    ensures DocumentStatus(SetPermissionImpl(m, url, q, state, token, frames).store, ToBlink(q), other, frame).0 == ASK
  {
    var c := SettingFor(m.store, url, q, state, token, frames);
    ImplOnlyList(m, url, q, state, token, frames);
    DecisionAnswers(m, url, q, state, token, frames);
    ProcessShrinks(c, Decide(m.store, c, q, state), m.waiting);
  }

  // ---- the url of a decision ----

  /** Two settings that differ in what follows the origin of the url only. */
  ghost predicate SameOrigin(c: Setting, d: Setting) {
    && d == c.(url := d.url) && d.url.origin == c.url.origin != "" && c.gorigin == OriginOf(c.url)
  }

  lemma {:induction false} EvaluateByOrigin(c: Setting, d: Setting, s: Store, types: seq<BlinkType>)
    requires SameOrigin(c, d)
    ensures Evaluate(c, s, types) == Evaluate(d, s, types)
    decreases |types|
  {
    if types != [] {
      assert Seen(c, s, types[0]) == Seen(d, s, types[0]);
      EvaluateByOrigin(c, d, if Supported(types[0]) then Seen(c, s, types[0]).1 else s, types[1..]);
    }
  }

  lemma {:induction false} ProcessByOrigin(c: Setting, d: Setting, s: Store, waiting: seq<Request>)
    requires SameOrigin(c, d)
    ensures Process(c, s, waiting) == Process(d, s, waiting)
    decreases |waiting|
  {
    if waiting != [] {
      EvaluateByOrigin(c, d, s, waiting[0].types);
      var next := if waiting[0].origin == c.Origin() then Evaluate(c, s, waiting[0].types).1 else s;
      ProcessByOrigin(c, d, next, waiting[1..]);
    }
  }

  lemma ImplByOrigin(m: Manager, url: Url, rest: string, q: QtType, state: State, token: Token, frames: Frames)
    requires q != MediaAudioVideoCapture && url.origin != ""
    ensures SetPermissionImpl(m, url, q, state, token, frames)
         == SetPermissionImpl(m, Url(url.origin, rest), q, state, token, frames)
  {
    var c := SettingFor(m.store, url, q, state, token, frames);
    var d := SettingFor(m.store, Url(url.origin, rest), q, state, token, frames);
    ProcessByOrigin(c, d, Decide(m.store, c, q, state), m.waiting);
  }

  /** Permissions are set for origins: what follows the origin of the url makes no difference. */
  lemma DecidedByOrigin(m: Manager, url: Url, rest: string, q: QtType, state: State, token: Token, frames: Frames)
    requires url.origin != ""
    ensures SetPermission(m, url, q, state, token, frames)
         == SetPermission(m, Url(url.origin, rest), q, state, token, frames)
  {
    if q == MediaAudioVideoCapture {
      var half := SetPermissionImpl(m, url, MediaAudioCapture, state, token, frames);
      ImplByOrigin(m, url, rest, MediaAudioCapture, state, token, frames);
      ImplByOrigin(half, url, rest, MediaVideoCapture, state, token, frames);
    } else {
      ImplByOrigin(m, url, rest, q, state, token, frames);
    }
  }

  /** A url without an origin: an empty one changes nothing; any other is remembered in the preferences with all
      others of its kind, and answers only requests that give that very url as their origin. */
  lemma DecidedWithoutOrigin(m: Manager, url: Url, q: QtType, state: State, token: Token, frames: Frames, r: Request)
    requires Decisive(state) && q != MediaAudioVideoCapture && q != Unsupported && url.origin == ""
    ensures var m' := SetPermission(m, url, q, state, token, frames);
            && (url.rest == "" ==> m' == m)
            && (url.rest != "" && !(token.FrameToken? && InTransientStore(m.store, q)) ==>
                  PersistentStatus(m'.store, ToBlink(q), Url("", "")) == ToStatus(state))
            && (r in m.waiting && r.origin != url ==> r in m'.waiting)
            && (url.rest != "" && r in m.waiting && r.origin == url && !m.store.persistence ==> r !in m'.waiting)
  {
    var c := SettingFor(m.store, url, q, state, token, frames);
    DecisionAnswers(m, url, q, state, token, frames);
    KeptMembers(c, Decide(m.store, c, q, state), m.waiting, r);
    DecideKeepsPolicy(m.store, c, q, state);
    if url.rest != "" && !c.inTransient { SeenWithoutOrigin(m.store, c, q, state); }
  }

  lemma SeenWithoutOrigin(s: Store, c: Setting, q: QtType, state: State)
    requires Decisive(state) && q != MediaAudioVideoCapture && q != Unsupported && !c.inTransient
    ensures Seen(c, Decide(s, c, q, state), ToBlink(q)).0 == ToStatus(state)
    ensures forall s' :: Seen(c, s', ToBlink(q)).0 == PersistentStatus(s', ToBlink(q), c.gorigin)
  {
  }

  // ---- how long a decision lasts ----

  /** A navigation forgets all decisions of the frame exactly if the first entry of its list is for another origin
      than the one navigated to; else it keeps them all. Nothing else changes. */
  lemma NavigationForgets(m: Manager, token: Token, to: Url)
    ensures var m' := Apply(m, Navigated(token, to));
            var list := ListOf(m.store, token);
            && m' == m.(store := m.store.(transient := m'.store.transient))
            && (forall k, o, t :: TransientStatus(m'.store, k, o, t)
                  == if t == token && list != [] && list[0].origin != to && Supported(k) then ASK
                     else TransientStatus(m.store, k, o, t))
  {
  }

  /** The clean-up of dead frames forgets their decisions and no others. */
  lemma CleaningForgets(m: Manager, dead: set<Token>)
    ensures var m' := Apply(m, Cleaned(dead));
            && m' == m.(store := m.store.(transient := m'.store.transient))
            && (forall k, o, t :: TransientStatus(m'.store, k, o, t)
                  == if t in dead && Supported(k) then ASK else TransientStatus(m.store, k, o, t))
  {
  }

  /** A reset by Chromium forgets what the preferences hold about the type and the origin, and nothing else. */
  lemma ChromiumResetForgets(m: Manager, kind: BlinkType, origin: Url)
    ensures var m' := Apply(m, Reset(kind, origin));
            && m' == m.(store := m.store.(persistent := m'.store.persistent))
            && (forall k, o :: PersistentStatus(m'.store, k, o)
                  == if Supported(k) && ToQt(k) == ToQt(kind) && Key(o) == Key(origin) then ASK
                     else PersistentStatus(m.store, k, o))
  {
  }

  // ---- the settings ----

  /** Without any decision a frame reads GRANTED exactly for the clipboard, when its page may access it and, for
      reading, also paste; it reads DENIED exactly for unsupported types, and else ASK. */
  lemma ReadsWithoutDecision(s: Store, t: BlinkType, token: Token, frame: Frame)
    requires ListOf(s, token) == [] && s.persistent == map[]
    ensures var status, settings := DocumentStatus(s, t, token, frame).0, frame.settings;
            && (status == GRANTED
                <==> && settings.canAccessClipboard
                     && (t == CLIPBOARD_SANITIZED_WRITE || (t == CLIPBOARD_READ_WRITE && settings.canPaste)))
            && (status == DENIED <==> t == NUM || t.OtherType?)
  {
  }
}
