/** Deciding the prompts of a request one after the other
    (src/core/permission_manager_qt.cpp:121-144 and 282-437). */
module PermissionDecisions {
  import opened PermissionTypes
  import opened PermissionStore
  import opened PermissionRequests
  import opened PermissionRuns
  import opened PermissionReadBack
  import opened PermissionPrompts

  /** A decision about a prompt. */
  datatype Choice = Choice(q: QtType, state: State)

  /** The decisions made in turn. */
  function DecideAll(m: Manager, url: Url, choices: seq<Choice>, token: Token, frames: Frames): Manager
    decreases |choices|
  {
    if choices == [] then m
    else
      var n := |choices| - 1;
      SetPermission(DecideAll(m, url, choices[..n], token, frames), url, choices[n].q, choices[n].state, token, frames)
  }

  ghost predicate AllPersistent(types: seq<BlinkType>) {
    forall t :: t in types && Supported(t) ==> IsPersistent(ToQt(t))
  }

  /** Who decides: a live frame of the url's origin, about a prompt that its settings do not answer. */
  ghost predicate DecidesFor(url: Url, q: QtType, token: Token, frames: Frames) {
    AtOrigin(url, token, frames) && q != Unsupported && LeftToManager(q, frames[token])
  }

  ghost predicate Deciding(url: Url, choices: seq<Choice>, token: Token, frames: Frames) {
    && AtOrigin(url, token, frames)
    && forall i :: 0 <= i < |choices| ==> Decisive(choices[i].state) && DecidesFor(url, choices[i].q, token, frames)
  }

  // ---- what one decision settles ----

  /** The frame sees the verdict for every type in `settled`, and what it saw before for all others that
      Qt tells apart. */
  ghost predicate Settling(s: Store, s': Store, settled: set<BlinkType>, status: Status, token: Token, frame: Frame) {
    forall t :: Normal(t) == t ==>
      DocumentStatus(s', t, token, frame).0 == if t in settled then status else DocumentStatus(s, t, token, frame).0
  }

  lemma SeesIsSettling(s: Store, s': Store, q: QtType, status: Status, token: Token, frame: Frame)
    requires q != MediaAudioVideoCapture && q != Unsupported
    requires SeesDecision(s, s', ToBlink(q), status, token, frame)
    ensures Settling(s, s', Settles(q), status, token, frame)
  {
    forall t | Normal(t) == t
      ensures DocumentStatus(s', t, token, frame).0
           == if t in Settles(q) then status else DocumentStatus(s, t, token, frame).0
    {
      if t != ToBlink(q) { assert ToQt(t) != ToQt(ToBlink(q)); }
    }
  }

  /** A decision settles exactly the types of its prompt: the frame reads the verdict for these, and for
      every other type what it read before. */
  lemma DecisionSettles(m: Manager, url: Url, q: QtType, state: State, token: Token, frames: Frames)
    requires Decisive(state) && DecidesFor(url, q, token, frames)
    ensures Settling(m.store, SetPermission(m, url, q, state, token, frames).store, Settles(q), ToStatus(state),
                     token, frames[token])
  {
    if q == MediaAudioVideoCapture {
      var half := SetPermissionImpl(m, url, MediaAudioCapture, state, token, frames);
      var s' := SetPermissionImpl(half, url, MediaVideoCapture, state, token, frames).store;
      ImplReadBack(m, url, MediaAudioCapture, state, token, frames);
      ImplReadBack(half, url, MediaVideoCapture, state, token, frames);
      SeesIsSettling(m.store, half.store, MediaAudioCapture, ToStatus(state), token, frames[token]);
      SeesIsSettling(half.store, s', MediaVideoCapture, ToStatus(state), token, frames[token]);
    } else {
      ImplReadBack(m, url, q, state, token, frames);
      var s' := SetPermissionImpl(m, url, q, state, token, frames).store;
      SeesIsSettling(m.store, s', q, ToStatus(state), token, frames[token]);
    }
  }

  // ---- one decision and a waiting request ----

  /** What a frame reads on a store. */
  datatype View = View(s: Store, token: Token, frame: Frame) {
    function Read(t: BlinkType): Status {
      DocumentStatus(s, t, token, frame).0
    }
  }

  /** The settings answer no type of the request, and the preferences hold nothing for a type they do not
      keep. */
  ghost predicate Steady(v: View, types: seq<BlinkType>) {
    && v.s.persistence
    && forall t :: t in types && Supported(t) ==>
         && StatusFromSettings(Normal(t), v.frame.settings) == ASK
         && (!IsPersistent(ToQt(t)) ==> PersistentStatus(v.s, t, v.frame.origin) == ASK)
  }

  /** The frame reads this status for every supported type of the request. */
  ghost predicate ReadsAll(v: View, types: seq<BlinkType>, status: Status) {
    forall t :: t in types && Supported(t) ==> v.Read(Normal(t)) == status
  }

  /** The preferences get nothing for a type they do not keep. */
  ghost predicate NoneAdded(s: Store, s': Store, origin: Url) {
    forall t :: !IsPersistent(ToQt(t)) && PersistentStatus(s, t, origin) == ASK ==>
      PersistentStatus(s', t, origin) == ASK
  }

  lemma DecideAddsNone(s: Store, url: Url, q: QtType, state: State, token: Token, frames: Frames)
    requires s.persistence && q != MediaAudioVideoCapture && token.FrameToken?
    ensures NoneAdded(s, Decide(s, SettingFor(s, url, q, state, token, frames), q, state), OriginOf(url))
  {
  }

  lemma ShrinkingAddsNone(s: Store, s': Store, origin: Url)
    requires Shrinks(s, s')
    ensures NoneAdded(s, s', origin)
  {
  }

  /** What the loop over the waiting requests looks up on such a store. */
  lemma SteadyAnswerable(c: Setting, v: View, types: seq<BlinkType>)
    requires c.token in c.frames && c.gorigin == v.frame.origin && c.status != ASK
    requires v == View(v.s, c.token, c.frames[c.token]) && Steady(v, types)
    ensures Answerable(c, v.s, types) <==> ReadsAll(v, types, c.status) && (c.inTransient || AllPersistent(types))
  {
    forall t | t in types && Supported(t)
      ensures Seen(c, v.s, t).0 == c.status
         <==> v.Read(Normal(t)) == c.status && (c.inTransient || IsPersistent(ToQt(t)))
    {
      SeenSteady(c, v, types, t);
    }
  }

  lemma SeenSteady(c: Setting, v: View, types: seq<BlinkType>, t: BlinkType)
    requires c.token in c.frames && c.gorigin == v.frame.origin && c.status != ASK
    requires v == View(v.s, c.token, c.frames[c.token]) && Steady(v, types)
    requires t in types && Supported(t)
    ensures Seen(c, v.s, t).0 == c.status <==> v.Read(Normal(t)) == c.status && (c.inTransient || IsPersistent(ToQt(t)))
  {
    if !c.inTransient && IsPersistent(ToQt(t)) {
      assert v.Read(Normal(t)) == PersistentStatus(v.s, t, c.gorigin);
    }
  }

  lemma ProcessKeepsReads(c: Setting, s: Store, waiting: seq<Request>, types: seq<BlinkType>)
    requires c.token in c.frames && c.status != ASK && Steady(View(s, c.token, c.frames[c.token]), types)
    ensures var v' := View(Process(c, s, waiting).2, c.token, c.frames[c.token]);
            var v := View(s, c.token, c.frames[c.token]);
            Steady(v', types) && (ReadsAll(v', types, c.status) <==> ReadsAll(v, types, c.status))
  {
    ProcessDecides(c, s, waiting);
    ProcessKeepsDocument(c, s, waiting);
    ProcessShrinks(c, s, waiting);
    ShrinkingAddsNone(s, Process(c, s, waiting).2, c.frames[c.token].origin);
  }

  /** One decision of one type: the request leaves the queue exactly if the frame now reads the verdict for
      all of its types and the decision is one that looks into the frame, or none of them needs it to. */
  lemma ImplStep(m: Manager, r: Request, url: Url, q: QtType, state: State, token: Token, frames: Frames)
    requires Decisive(state) && q != MediaAudioVideoCapture && DecidesFor(url, q, token, frames)
    requires r in m.waiting && r.origin == OriginOf(url)
    requires Steady(View(m.store, token, frames[token]), r.types)
    ensures var m' := SetPermissionImpl(m, url, q, state, token, frames);
            var v' := View(m'.store, token, frames[token]);
            && (r !in m'.waiting <==>
                  ReadsAll(v', r.types, ToStatus(state)) && (!IsPersistent(q) || AllPersistent(r.types)))
            && (r !in m'.waiting ==> Answer(r.callback, Verdict(ToStatus(state), r.types)) in m'.answers)
  {
    var c := SettingFor(m.store, url, q, state, token, frames);
    var s := Decide(m.store, c, q, state);
    DecideKeepsSteady(m.store, url, q, state, token, frames, r.types);
    SteadyAnswerable(c, View(s, token, frames[token]), r.types);
    AnsweredExactlyWhenDecided(m, url, q, state, token, frames, r);
    ProcessKeepsReads(c, s, m.waiting, r.types);
    assert SetPermissionImpl(m, url, q, state, token, frames).store == Process(c, s, m.waiting).2;
  }

  lemma DecideKeepsSteady(s: Store, url: Url, q: QtType, state: State, token: Token, frames: Frames,
                          types: seq<BlinkType>)
    requires q != MediaAudioVideoCapture && AtOrigin(url, token, frames) && Steady(View(s, token, frames[token]), types)
    ensures var s' := Decide(s, SettingFor(s, url, q, state, token, frames), q, state);
            Steady(View(s', token, frames[token]), types)
  {
    DecideAddsNone(s, url, q, state, token, frames);
  }

  lemma ImplKeepsSteady(m: Manager, url: Url, q: QtType, state: State, token: Token, frames: Frames,
                        types: seq<BlinkType>)
    requires Decisive(state) && q != MediaAudioVideoCapture && AtOrigin(url, token, frames)
    requires Steady(View(m.store, token, frames[token]), types)
    ensures Steady(View(SetPermissionImpl(m, url, q, state, token, frames).store, token, frames[token]), types)
  {
    var c := SettingFor(m.store, url, q, state, token, frames);
    DecideKeepsSteady(m.store, url, q, state, token, frames, types);
    ProcessKeepsReads(c, Decide(m.store, c, q, state), m.waiting, types);
  }

  lemma PromptKeepsSteady(m: Manager, url: Url, q: QtType, state: State, token: Token, frames: Frames,
                          types: seq<BlinkType>)
    requires Decisive(state) && AtOrigin(url, token, frames) && Steady(View(m.store, token, frames[token]), types)
    ensures Steady(View(SetPermission(m, url, q, state, token, frames).store, token, frames[token]), types)
  {
    if q == MediaAudioVideoCapture {
      var half := SetPermissionImpl(m, url, MediaAudioCapture, state, token, frames);
      ImplKeepsSteady(m, url, MediaAudioCapture, state, token, frames, types);
      ImplKeepsSteady(half, url, MediaVideoCapture, state, token, frames, types);
    } else {
      ImplKeepsSteady(m, url, q, state, token, frames, types);
    }
  }

  lemma SettlingKeepsAll(s: Store, s': Store, settled: set<BlinkType>, status: Status, token: Token, frame: Frame,
                         types: seq<BlinkType>)
    requires Settling(s, s', settled, status, token, frame) && ReadsAll(View(s, token, frame), types, status)
    ensures ReadsAll(View(s', token, frame), types, status)
  {
    forall t | t in types && Supported(t) ensures View(s', token, frame).Read(Normal(t)) == status {
      assert Normal(Normal(t)) == Normal(t);
    }
  }

  /** A decision about a prompt, which may stand for two types. */
  lemma PromptStep(m: Manager, r: Request, url: Url, q: QtType, state: State, token: Token, frames: Frames)
    requires Decisive(state) && DecidesFor(url, q, token, frames)
    requires r in m.waiting && r.origin == OriginOf(url)
    requires Steady(View(m.store, token, frames[token]), r.types)
    ensures var m' := SetPermission(m, url, q, state, token, frames);
            var v' := View(m'.store, token, frames[token]);
            && (r !in m'.waiting <==>
                  ReadsAll(v', r.types, ToStatus(state)) && (!IsPersistent(q) || AllPersistent(r.types)))
            && (r !in m'.waiting ==> Answer(r.callback, Verdict(ToStatus(state), r.types)) in m'.answers)
  {
    if q == MediaAudioVideoCapture {
      var half := SetPermissionImpl(m, url, MediaAudioCapture, state, token, frames);
      ImplStep(m, r, url, MediaAudioCapture, state, token, frames);
      ImplKeepsSteady(m, url, MediaAudioCapture, state, token, frames, r.types);
      if r in half.waiting {
        ImplStep(half, r, url, MediaVideoCapture, state, token, frames);
      } else {
        ImplStays(half, r, url, MediaVideoCapture, state, token, frames);
        DecisionSettles(half, url, MediaVideoCapture, state, token, frames);
        SettlingKeepsAll(half.store, SetPermission(m, url, q, state, token, frames).store, {VIDEO_CAPTURE},
                         ToStatus(state), token, frames[token], r.types);
      }
    } else {
      ImplStep(m, r, url, q, state, token, frames);
    }
  }

  // ---- any number of decisions ----

  /** What the frame reads for a type after these decisions: the last verdict on it, or what it read before. */
  function Reading(v: View, choices: seq<Choice>, t: BlinkType): Status
    decreases |choices|
  {
    if choices == [] then v.Read(t)
    else
      var n := |choices| - 1;
      if t in Settles(choices[n].q) then ToStatus(choices[n].state) else Reading(v, choices[..n], t)
  }

  lemma {:induction false} DecidedReads(m: Manager, url: Url, choices: seq<Choice>, token: Token, frames: Frames,
                                        t: BlinkType)
    requires Deciding(url, choices, token, frames) && Normal(t) == t
    ensures View(DecideAll(m, url, choices, token, frames).store, token, frames[token]).Read(t)
         == Reading(View(m.store, token, frames[token]), choices, t)
    decreases |choices|
  {
    if choices != [] {
      var n := |choices| - 1;
      var m1 := DecideAll(m, url, choices[..n], token, frames);
      DecidedReads(m, url, choices[..n], token, frames, t);
      DecisionSettles(m1, url, choices[n].q, choices[n].state, token, frames);
    }
  }

  lemma {:induction false} DecidedSteady(m: Manager, url: Url, choices: seq<Choice>, token: Token, frames: Frames,
                                         types: seq<BlinkType>)
    requires Deciding(url, choices, token, frames) && Steady(View(m.store, token, frames[token]), types)
    ensures Steady(View(DecideAll(m, url, choices, token, frames).store, token, frames[token]), types)
    decreases |choices|
  {
    if choices != [] {
      var n := |choices| - 1;
      DecidedSteady(m, url, choices[..n], token, frames, types);
      PromptKeepsSteady(DecideAll(m, url, choices[..n], token, frames), url, choices[n].q, choices[n].state, token,
                        frames, types);
    }
  }

  /** After the first `k` decisions the frame reads the last verdict for every type, and that decision looks into
      the frame unless no type of the request needs it to. */
  ghost predicate AnsweredAt(v: View, choices: seq<Choice>, types: seq<BlinkType>, k: nat)
    requires 0 < k <= |choices|
  {
    && (forall t :: t in types && Supported(t) ==>
          Reading(v, choices[..k], Normal(t)) == ToStatus(choices[k - 1].state))
    && (!IsPersistent(choices[k - 1].q) || AllPersistent(types))
  }

  ghost predicate EverAnswered(v: View, choices: seq<Choice>, types: seq<BlinkType>) {
    exists k :: 0 < k <= |choices| && AnsweredAt(v, choices, types, k)
  }

  ghost predicate FirstAnsweredAt(v: View, choices: seq<Choice>, types: seq<BlinkType>, k: nat)
    requires 0 < k <= |choices|
  {
    AnsweredAt(v, choices, types, k) && forall j :: 0 < j < k ==> !AnsweredAt(v, choices, types, j)
  }

  lemma AnsweredBefore(v: View, choices: seq<Choice>, types: seq<BlinkType>, k: nat)
    requires 0 < k < |choices|
    ensures AnsweredAt(v, choices[..|choices| - 1], types, k) <==> AnsweredAt(v, choices, types, k)
  {
    assert choices[..|choices| - 1][..k] == choices[..k];
  }

  lemma EverAnsweredLast(v: View, choices: seq<Choice>, types: seq<BlinkType>)
    requires choices != []
    ensures EverAnswered(v, choices, types) <==>
            EverAnswered(v, choices[..|choices| - 1], types) || AnsweredAt(v, choices, types, |choices|)
  {
    var shorter := choices[..|choices| - 1];
    forall k | 0 < k < |choices| ensures AnsweredAt(v, shorter, types, k) <==> AnsweredAt(v, choices, types, k) {
      AnsweredBefore(v, choices, types, k);
    }
    if k :| 0 < k <= |shorter| && AnsweredAt(v, shorter, types, k) {
      assert AnsweredAt(v, choices, types, k);
    }
    if k :| 0 < k <= |choices| && AnsweredAt(v, choices, types, k) {
      assert k == |choices| || AnsweredAt(v, shorter, types, k);
    }
  }

  lemma FirstAnsweredBefore(v: View, choices: seq<Choice>, types: seq<BlinkType>, k: nat)
    requires 0 < k <= |choices| && FirstAnsweredAt(v, choices, types, k)
    ensures var shorter := choices[..|choices| - 1];
            if k < |choices| then FirstAnsweredAt(v, shorter, types, k) && EverAnswered(v, shorter, types)
            else !EverAnswered(v, shorter, types)
  {
    var shorter := choices[..|choices| - 1];
    forall j | 0 < j < |choices| ensures AnsweredAt(v, shorter, types, j) <==> AnsweredAt(v, choices, types, j) {
      AnsweredBefore(v, choices, types, j);
    }
  }

  /** The last decision on a request that still waits before it. */
  lemma LastDecision(m: Manager, r: Request, url: Url, choices: seq<Choice>, token: Token, frames: Frames)
    requires choices != [] && Deciding(url, choices, token, frames) && r.origin == OriginOf(url)
    requires Steady(View(m.store, token, frames[token]), r.types)
    requires r in DecideAll(m, url, choices[..|choices| - 1], token, frames).waiting
    ensures var m' := DecideAll(m, url, choices, token, frames);
            var n := |choices| - 1;
            && (r !in m'.waiting <==> AnsweredAt(View(m.store, token, frames[token]), choices, r.types, n + 1))
            && (r !in m'.waiting ==> Answer(r.callback, Verdict(ToStatus(choices[n].state), r.types)) in m'.answers)
  {
    var n := |choices| - 1;
    var m1 := DecideAll(m, url, choices[..n], token, frames);
    assert choices[..n + 1] == choices;
    DecidedSteady(m, url, choices[..n], token, frames, r.types);
    PromptStep(m1, r, url, choices[n].q, choices[n].state, token, frames);
    forall t | t in r.types && Supported(t)
      ensures View(DecideAll(m, url, choices, token, frames).store, token, frames[token]).Read(Normal(t))
           == Reading(View(m.store, token, frames[token]), choices, Normal(t))
    {
      assert Normal(Normal(t)) == Normal(t);
      DecidedReads(m, url, choices, token, frames, Normal(t));
    }
  }

  /** A frame decides any prompts in any order, each as it likes. A waiting request of its origin is answered
      exactly if after some decision the frame reads that verdict for all of its types and the decision is about
      a type the preferences do not keep, or they keep all of its types; and the first such decision is what it
      is answered with. */
  lemma {:induction false} AnsweredExactlyWhenRead(m: Manager, r: Request, url: Url, choices: seq<Choice>, token: Token,
                                                   frames: Frames)
    requires Deciding(url, choices, token, frames)
    requires r in m.waiting && r.origin == OriginOf(url) && Steady(View(m.store, token, frames[token]), r.types)
    ensures var m' := DecideAll(m, url, choices, token, frames);
            var v := View(m.store, token, frames[token]);
            && (r !in m'.waiting <==> EverAnswered(v, choices, r.types))
            && (forall k :: 0 < k <= |choices| && FirstAnsweredAt(v, choices, r.types, k) ==>
                  Answer(r.callback, Verdict(ToStatus(choices[k - 1].state), r.types)) in m'.answers)
    decreases |choices|
  {
    if choices != [] {
      var n, v := |choices| - 1, View(m.store, token, frames[token]);
      var m1 := DecideAll(m, url, choices[..n], token, frames);
      AnsweredExactlyWhenRead(m, r, url, choices[..n], token, frames);
      EverAnsweredLast(v, choices, r.types);
      forall k | 0 < k <= |choices| && FirstAnsweredAt(v, choices, r.types, k)
        ensures if k < |choices|
                then FirstAnsweredAt(v, choices[..n], r.types, k) && EverAnswered(v, choices[..n], r.types)
                else !EverAnswered(v, choices[..n], r.types)
      {
        FirstAnsweredBefore(v, choices, r.types, k);
      }
      if r in m1.waiting {
        LastDecision(m, r, url, choices, token, frames);
      } else {
        AnsweredStays(m1, r, url, choices[n].q, choices[n].state, token, frames);
      }
    }
  }

  /** Only this decision is about the type. */
  ghost predicate SoleChoice(choices: seq<Choice>, i: nat, t: BlinkType)
    requires i < |choices|
  {
    forall j :: 0 <= j < |choices| ==> (t in Settles(choices[j].q) <==> j == i)
  }

  lemma {:induction false} SoleReading(v: View, choices: seq<Choice>, i: nat, t: BlinkType, k: nat)
    requires i < |choices| && SoleChoice(choices, i, t) && k <= |choices|
    ensures Reading(v, choices[..k], t) == if k <= i then v.Read(t) else ToStatus(choices[i].state)
    decreases k
  {
    if k > 0 {
      assert choices[..k][..k - 1] == choices[..k - 1];
      SoleReading(v, choices, i, t, k - 1);
    }
  }

  /** Grant one type of a request and deny another, once each, and it waits on whatever else is decided, if the
      frame had to ask for both. */
  lemma TwoVerdictsKeepWaiting(m: Manager, r: Request, url: Url, choices: seq<Choice>, token: Token, frames: Frames,
                               i: nat, t: BlinkType, j: nat, u: BlinkType)
    requires Deciding(url, choices, token, frames)
    requires r in m.waiting && r.origin == OriginOf(url) && Steady(View(m.store, token, frames[token]), r.types)
    requires t in r.types && Supported(t) && View(m.store, token, frames[token]).Read(Normal(t)) == ASK
    requires u in r.types && Supported(u) && View(m.store, token, frames[token]).Read(Normal(u)) == ASK
    requires i < |choices| && SoleChoice(choices, i, Normal(t)) && j < |choices| && SoleChoice(choices, j, Normal(u))
    requires choices[i].state != choices[j].state
    ensures r in DecideAll(m, url, choices, token, frames).waiting
  {
    var v := View(m.store, token, frames[token]);
    AnsweredExactlyWhenRead(m, r, url, choices, token, frames);
    forall k | 0 < k <= |choices| ensures !AnsweredAt(v, choices, r.types, k) {
      SoleReading(v, choices, i, Normal(t), k);
      SoleReading(v, choices, j, Normal(u), k);
      assert Decisive(choices[i].state) && Decisive(choices[j].state) && Decisive(choices[k - 1].state);
    }
  }

  // ---- one verdict for all prompts ----

  function OneVerdict(prompts: seq<QtType>, state: State): (r: seq<Choice>)
    ensures |r| == |prompts| && forall i :: 0 <= i < |r| ==> r[i] == Choice(prompts[i], state)
  {
    seq(|prompts|, i requires 0 <= i < |prompts| => Choice(prompts[i], state))
  }

  /** The types settled by these prompts. */
  function SettledBy(prompts: seq<QtType>): set<BlinkType>
    decreases |prompts|
  {
    if prompts == [] then {} else SettledBy(prompts[..|prompts| - 1]) + Settles(prompts[|prompts| - 1])
  }

  /** Every supported type of a request is among them. */
  ghost predicate Covers(settled: set<BlinkType>, types: seq<BlinkType>) {
    forall t :: t in types && Supported(t) ==> Normal(t) in settled
  }

  /** The frame must still ask for each type of the request. */
  ghost predicate Fresh(v: View, types: seq<BlinkType>) {
    ReadsAll(v, types, ASK)
  }

  lemma FreshIsSteady(v: View, types: seq<BlinkType>)
    requires v.s.persistence && Fresh(v, types)
    ensures Steady(v, types)
  {
    forall t | t in types && Supported(t)
      ensures StatusFromSettings(Normal(t), v.frame.settings) == ASK
      ensures !IsPersistent(ToQt(t)) ==> PersistentStatus(v.s, t, v.frame.origin) == ASK
    {
      assert v.Read(Normal(t)) == ASK;
    }
  }

  lemma {:induction false} OneVerdictReads(v: View, prompts: seq<QtType>, state: State, t: BlinkType)
    ensures Reading(v, OneVerdict(prompts, state), t) == if t in SettledBy(prompts) then ToStatus(state) else v.Read(t)
    decreases |prompts|
  {
    if prompts != [] {
      var n := |prompts| - 1;
      OneVerdictReads(v, prompts[..n], state, t);
      assert OneVerdict(prompts, state)[..n] == OneVerdict(prompts[..n], state);
    }
  }

  /** The first `k` prompts settle the request, and the last of them looks into the frame unless no type of
      the request needs it to. */
  ghost predicate SettledAt(prompts: seq<QtType>, types: seq<BlinkType>, k: nat)
    requires 0 < k <= |prompts|
  {
    Covers(SettledBy(prompts[..k]), types) && (!IsPersistent(prompts[k - 1]) || AllPersistent(types))
  }

  ghost predicate EverSettled(prompts: seq<QtType>, types: seq<BlinkType>) {
    exists k :: 0 < k <= |prompts| && SettledAt(prompts, types, k)
  }

  lemma AnsweredIsSettled(v: View, prompts: seq<QtType>, state: State, types: seq<BlinkType>, k: nat)
    requires Fresh(v, types) && Decisive(state) && 0 < k <= |prompts|
    ensures AnsweredAt(v, OneVerdict(prompts, state), types, k) <==> SettledAt(prompts, types, k)
  {
    var choices := OneVerdict(prompts, state);
    assert choices[..k] == OneVerdict(prompts[..k], state);
    forall t | t in types && Supported(t)
      ensures Reading(v, choices[..k], Normal(t)) == ToStatus(state) <==> Normal(t) in SettledBy(prompts[..k])
    {
      OneVerdictReads(v, prompts[..k], state, Normal(t));
    }
  }

  /** With one verdict for all prompts, a request for types the frame had to ask for is answered exactly if at some
      decision all of its types have been settled and that decision is about a type the preferences do not keep,
      or they keep all of its types. */
  lemma AnsweredExactlyWhenSettled(m: Manager, r: Request, url: Url, prompts: seq<QtType>, state: State, token: Token,
                                   frames: Frames)
    requires Decisive(state) && Deciding(url, OneVerdict(prompts, state), token, frames)
    requires r in m.waiting && r.origin == OriginOf(url)
    requires m.store.persistence && Fresh(View(m.store, token, frames[token]), r.types)
    ensures var m' := DecideAll(m, url, OneVerdict(prompts, state), token, frames);
            && (r !in m'.waiting <==> EverSettled(prompts, r.types))
            && (r !in m'.waiting ==> Answer(r.callback, Verdict(ToStatus(state), r.types)) in m'.answers)
  {
    var v, choices := View(m.store, token, frames[token]), OneVerdict(prompts, state);
    FreshIsSteady(v, r.types);
    AnsweredExactlyWhenRead(m, r, url, choices, token, frames);
    forall k | 0 < k <= |prompts| ensures AnsweredAt(v, choices, r.types, k) <==> SettledAt(prompts, r.types, k) {
      AnsweredIsSettled(v, prompts, state, r.types, k);
    }
    if EverAnswered(v, choices, r.types) { var k := FirstOf(v, choices, r.types, |choices|); }
  }

  /** There is a first such decision. */
  lemma {:induction false} FirstOf(v: View, choices: seq<Choice>, types: seq<BlinkType>, n: nat) returns (k: nat)
    requires n <= |choices| && exists j :: 0 < j <= n && AnsweredAt(v, choices, types, j)
    ensures 0 < k <= |choices| && FirstAnsweredAt(v, choices, types, k)
    decreases n
  {
    if exists j :: 0 < j <= n - 1 && AnsweredAt(v, choices, types, j) {
      k := FirstOf(v, choices, types, n - 1);
    } else {
      k := n;
    }
  }

  /** These features in some order, but for those that cannot be decided. */
  ghost predicate Lists(prompts: seq<QtType>, features: multiset<QtType>) {
    multiset(prompts) == features[Unsupported := 0]
  }

  /** Deciding these features settles the request. */
  ghost predicate Complete(features: multiset<QtType>, types: seq<BlinkType>) {
    forall t :: Settled(features, t) <==> AskedFor(types, t)
  }

  lemma PromptsComplete(types: seq<BlinkType>)
    ensures Complete(Prompts(types), types)
  {
    forall t ensures Settled(Prompts(types), t) <==> AskedFor(types, t) { PromptsSettleRequest(types, t); }
  }

  lemma {:induction false} SettledByMember(prompts: seq<QtType>, t: BlinkType)
    ensures t in SettledBy(prompts) <==> exists q :: q in prompts && t in Settles(q)
    decreases |prompts|
  {
    if prompts != [] {
      var n := |prompts| - 1;
      SettledByMember(prompts[..n], t);
      assert prompts == prompts[..n] + [prompts[n]];
    }
  }

  lemma ListMember(prompts: seq<QtType>, features: multiset<QtType>, q: QtType)
    requires Lists(prompts, features)
    ensures q in prompts <==> q in features && q != Unsupported
  {
    assert q in prompts <==> q in multiset(prompts);
  }

  lemma ListCovers(prompts: seq<QtType>, features: multiset<QtType>, types: seq<BlinkType>)
    requires Lists(prompts, features) && Complete(features, types)
    ensures Covers(SettledBy(prompts), types)
  {
    forall t | t in types && Supported(t) ensures Normal(t) in SettledBy(prompts) {
      assert AskedFor(types, Normal(t));
      assert Settled(features, Normal(t));
      var q :| q in features && Normal(t) in Settles(q);
      ListMember(prompts, features, q);
      SettledByMember(prompts, Normal(t));
    }
  }

  /** Without its last prompt, a persistent one, the request is not settled. */
  lemma LastIsNeeded(prompts: seq<QtType>, features: multiset<QtType>, types: seq<BlinkType>, k: nat)
    requires Lists(prompts, features) && Complete(features, types)
    requires k < |prompts| && IsPersistent(prompts[|prompts| - 1]) && prompts[|prompts| - 1] !in prompts[..k]
    ensures !Covers(SettledBy(prompts[..k]), types)
  {
    var last := prompts[|prompts| - 1];
    ListMember(prompts, features, last);
    assert ToBlink(last) in Settles(last);
    assert Settled(features, ToBlink(last));
    assert AskedFor(types, ToBlink(last));
    SettledByMember(prompts[..k], ToBlink(last));
  }

  /** No prompt appears twice. */
  ghost predicate Distinct(prompts: seq<QtType>) {
    forall i, j :: 0 <= i < j < |prompts| ==> prompts[i] != prompts[j]
  }

  lemma EverSettledExactlyWhen(prompts: seq<QtType>, features: multiset<QtType>, types: seq<BlinkType>)
    requires Lists(prompts, features) && Complete(features, types) && prompts != []
    ensures !IsPersistent(prompts[|prompts| - 1]) || AllPersistent(types) ==> EverSettled(prompts, types)
    ensures Distinct(prompts) && EverSettled(prompts, types) ==>
              !IsPersistent(prompts[|prompts| - 1]) || AllPersistent(types)
  {
    var last := prompts[|prompts| - 1];
    if !IsPersistent(last) || AllPersistent(types) {
      ListCovers(prompts, features, types);
      assert prompts[..|prompts|] == prompts;
      assert SettledAt(prompts, types, |prompts|);
    } else if Distinct(prompts) {
      forall k | 0 < k < |prompts| ensures !SettledAt(prompts, types, k) {
        LastIsNeeded(prompts, features, types, k);
      }
    }
  }

  /** Deciding every prompt of a waiting request in any order with one verdict answers it if the last of them is
      about a type the preferences do not keep, or they keep all of its types; and if no prompt is made twice, only
      then. */
  lemma DecidingAllAnswers(m: Manager, r: Request, url: Url, prompts: seq<QtType>, state: State, token: Token,
                           frames: Frames)
    requires Decisive(state) && Deciding(url, OneVerdict(prompts, state), token, frames)
    requires r in m.waiting && r.origin == OriginOf(url)
    requires m.store.persistence && Fresh(View(m.store, token, frames[token]), r.types)
    requires Lists(prompts, Prompts(r.types)) && prompts != []
    ensures var m' := DecideAll(m, url, OneVerdict(prompts, state), token, frames);
            var seen := !IsPersistent(prompts[|prompts| - 1]) || AllPersistent(r.types);
            && (seen ==> r !in m'.waiting && Answer(r.callback, Verdict(ToStatus(state), r.types)) in m'.answers)
            && (Distinct(prompts) ==> (r !in m'.waiting <==> seen))
  {
    AnsweredExactlyWhenSettled(m, r, url, prompts, state, token, frames);
    PromptsComplete(r.types);
    EverSettledExactlyWhen(prompts, Prompts(r.types), r.types);
  }
}
