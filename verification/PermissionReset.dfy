/** Resetting a permission, which is setting it to Ask (src/core/permission_manager_qt.cpp:282-391,
    src/core/api/qwebenginepermission.cpp:259-271). */
module PermissionReset {
  import opened PermissionTypes
  import opened PermissionStore
  import opened PermissionRequests
  import opened PermissionRuns
  import opened PermissionReadBack
  import opened PermissionPrompts

  /** The decision is one for the list of a frame. */
  predicate ForFrame(s: Store, q: QtType, token: Token) {
    token.FrameToken? && InTransientStore(s, q)
  }

  /** The list of the frame has no entry left for these types and this origin, and all else is as before. */
  ghost predicate ForgottenByFrame(s: Store, s': Store, kinds: set<BlinkType>, origin: Url, token: Token) {
    && s'.persistence == s.persistence && s'.persistent == s.persistent
    && forall k, o, t ::
         TransientStatus(s', k, o, t)
         == if k in kinds && Supported(k) && o == origin && t == token then ASK else TransientStatus(s, k, o, t)
  }

  /** The preferences hold nothing any more for these types and this origin, and all else is as before. */
  ghost predicate ForgottenByPreferences(s: Store, s': Store, kinds: set<BlinkType>, origin: Url) {
    && s'.persistence == s.persistence && s'.transient == s.transient
    && forall k, o ::
         PersistentStatus(s', k, o)
         == if Normal(k) in kinds && Supported(k) && Key(o) == Key(origin) then ASK else PersistentStatus(s, k, o)
  }

  ghost predicate Forgotten(s: Store, s': Store, q: QtType, origin: Url, token: Token) {
    if ForFrame(s, q, token) then ForgottenByFrame(s, s', Settles(q), origin, token)
    else ForgottenByPreferences(s, s', Settles(q), origin)
  }

  lemma EraseForgets(s: Store, kind: BlinkType, origin: Url, token: Token)
    requires UniqueStore(s) && Normal(kind) == kind
    ensures ForgottenByFrame(s, ResetTransient(s, kind, origin, token), {kind}, origin, token)
    ensures UniqueStore(ResetTransient(s, kind, origin, token))
  {
    var s' := ResetTransient(s, kind, origin, token);
    forall k, o, t
      ensures TransientStatus(s', k, o, t)
           == if k in {kind} && Supported(k) && o == origin && t == token then ASK else TransientStatus(s, k, o, t)
    {
      EraseLooksUp(ListOf(s, token), origin, kind, o, k);
    }
    ResetTransientKeepsUnique(s, kind, origin, token);
  }

  lemma PreferencesForget(s: Store, kind: BlinkType, origin: Url)
    requires Normal(kind) == kind
    ensures ForgottenByPreferences(s, ResetPersistent(s, kind, origin), {kind}, origin)
  {
  }

  lemma ImplForgets(m: Manager, url: Url, q: QtType, token: Token, frames: Frames)
    requires UniqueStore(m.store) && url.origin != "" && q != MediaAudioVideoCapture
    ensures var m' := SetPermissionImpl(m, url, q, Ask, token, frames);
            && m' == m.(store := m'.store) && UniqueStore(m'.store)
            && Forgotten(m.store, m'.store, q, OriginOf(url), token)
  {
    if ForFrame(m.store, q, token) {
      EraseForgets(m.store, ToBlink(q), OriginOf(url), token);
    } else {
      PreferencesForget(m.store, ToBlink(q), OriginOf(url));
    }
  }

  lemma ForgottenTwice(s: Store, half: Store, s': Store, origin: Url, token: Token)
    requires Forgotten(s, half, MediaAudioCapture, origin, token)
    requires Forgotten(half, s', MediaVideoCapture, origin, token)
    ensures Forgotten(s, s', MediaAudioVideoCapture, origin, token)
  {
  }

  /** A reset answers no request, and what it forgets is exactly the types it is about, for the frame or for the
      origin in the preferences. */
  lemma ResetForgets(m: Manager, url: Url, q: QtType, token: Token, frames: Frames)
    requires UniqueStore(m.store) && url.origin != ""
    ensures var m' := SetPermission(m, url, q, Ask, token, frames);
            && m' == m.(store := m'.store) && UniqueStore(m'.store)
            && Forgotten(m.store, m'.store, q, OriginOf(url), token)
  {
    if q == MediaAudioVideoCapture {
      var half := SetPermissionImpl(m, url, MediaAudioCapture, Ask, token, frames);
      ImplForgets(m, url, MediaAudioCapture, token, frames);
      ImplForgets(half, url, MediaVideoCapture, token, frames);
      ForgottenTwice(m.store, half.store, SetPermissionImpl(half, url, MediaVideoCapture, Ask, token, frames).store,
                     OriginOf(url), token);
    } else {
      ImplForgets(m, url, q, token, frames);
    }
  }

  // ---- what is read afterwards ----

  lemma SettledNormal(q: QtType, t: BlinkType)
    ensures t in Settles(q) ==> Normal(t) == t && (t != NUM ==> Supported(t))
    ensures forall s: Store :: t in Settles(q) ==> (InTransientStore(s, ToQt(t)) <==> InTransientStore(s, q))
  {
  }

  lemma ForgottenReads(s: Store, s': Store, q: QtType, token: Token, frame: Frame, t: BlinkType)
    requires Forgotten(s, s', q, frame.origin, token) && token.FrameToken? && q != Unsupported && t in Settles(q)
    ensures DocumentStatus(s', t, token, frame).0 == ASK
       <==> && StatusFromSettings(t, frame.settings) == ASK
            && (InTransientStore(s, q) ==> PersistentStatus(s, t, frame.origin) == ASK)
  {
    SettledNormal(q, t);
  }

  lemma OthersRead(s: Store, s': Store, q: QtType, origin: Url, token: Token, t: BlinkType, other: Token, frame: Frame)
    requires Forgotten(s, s', q, origin, token)
    requires Normal(t) !in Settles(q) || (ForFrame(s, q, token) && other != token)
    ensures DocumentStatus(s', t, other, frame).0 == DocumentStatus(s, t, other, frame).0
  {
    assert Normal(Normal(t)) == Normal(t);
  }

  /** After a reset by a live frame it reads ASK for each type the reset is about, exactly if the settings do not
      answer and, for a type kept for frames, no decision made in advance lies in the preferences. Every frame reads
      what it read before for every other type, and for all types if it is not the frame whose list is changed. */
  lemma ResetReads(m: Manager, url: Url, q: QtType, token: Token, frames: Frames)
    requires UniqueStore(m.store) && AtOrigin(url, token, frames) && q != Unsupported
    ensures var s, s', frame := m.store, SetPermission(m, url, q, Ask, token, frames).store, frames[token];
            && (forall t :: t in Settles(q) ==>
                  (DocumentStatus(s', t, token, frame).0 == ASK
                   <==> && StatusFromSettings(t, frame.settings) == ASK
                        && (InTransientStore(s, q) ==> PersistentStatus(s, t, frame.origin) == ASK)))
            && (forall t, other, f :: Normal(t) !in Settles(q) || (InTransientStore(s, q) && other != token) ==>
                  DocumentStatus(s', t, other, f).0 == DocumentStatus(s, t, other, f).0)
  {
    var s, s' := m.store, SetPermission(m, url, q, Ask, token, frames).store;
    ResetForgets(m, url, q, token, frames);
    forall t | t in Settles(q)
      ensures DocumentStatus(s', t, token, frames[token]).0 == ASK
         <==> && StatusFromSettings(t, frames[token].settings) == ASK
              && (InTransientStore(s, q) ==> PersistentStatus(s, t, frames[token].origin) == ASK)
    {
      ForgottenReads(s, s', q, token, frames[token], t);
    }
    forall t, other, f | Normal(t) !in Settles(q) || (InTransientStore(s, q) && other != token)
      ensures DocumentStatus(s', t, other, f).0 == DocumentStatus(s, t, other, f).0
    {
      OthersRead(s, s', q, OriginOf(url), token, t, other, f);
    }
  }

  /** A reset without a frame, or of a type the preferences keep: they then report ASK for these types. */
  lemma ResetInPreferences(m: Manager, url: Url, q: QtType, token: Token, frames: Frames)
    requires UniqueStore(m.store) && url.origin != "" && !ForFrame(m.store, q, token) && q != Unsupported
    ensures var s' := SetPermission(m, url, q, Ask, token, frames).store;
            && (forall t :: t in Settles(q) ==> PersistentStatus(s', t, OriginOf(url)) == ASK)
            && (token !in frames ==> PermissionState(s', url, q, token, frames).0 == Ask)
  {
    ResetForgets(m, url, q, token, frames);
    forall t ensures t in Settles(q) ==> Normal(t) == t && (t != NUM ==> Supported(t)) { SettledNormal(q, t); }
  }

  /** What a frame would fall back on if its own decisions on these types were forgotten is Ask. */
  predicate FallsBackToAsk(s: Store, q: QtType, frame: Frame) {
    if q == MediaAudioVideoCapture then
      var audio := PersistentStatus(s, AUDIO_CAPTURE, frame.origin);
      audio == ASK || audio != PersistentStatus(s, VIDEO_CAPTURE, frame.origin)
    else
      && StatusFromSettings(ToBlink(q), frame.settings) == ASK
      && (InTransientStore(s, q) ==> PersistentStatus(s, ToBlink(q), frame.origin) == ASK)
  }

  /** The state that the embedder then reads for the frame: Ask exactly under the same condition; for microphone and
      camera together also if the decisions made in advance about the two differ. */
  lemma ResetState(m: Manager, url: Url, q: QtType, token: Token, frames: Frames)
    requires UniqueStore(m.store) && AtOrigin(url, token, frames) && q != Unsupported
    ensures PermissionState(SetPermission(m, url, q, Ask, token, frames).store, url, q, token, frames).0 == Ask
       <==> FallsBackToAsk(m.store, q, frames[token])
  {
    var s' := SetPermission(m, url, q, Ask, token, frames).store;
    ResetForgets(m, url, q, token, frames);
    if q == MediaAudioVideoCapture {
      DocumentStatusIndependent(s', AUDIO_CAPTURE, VIDEO_CAPTURE, token, frames[token]);
    } else {
      ResetReads(m, url, q, token, frames);
      assert ToBlink(q) in Settles(q);
    }
  }
}
