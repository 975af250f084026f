/** PermissionManagerQt with its fields updated in place; each method is proved against the functions
    of PermissionStore and PermissionRequests
    (src/core/permission_manager_qt.cpp:282-471, 606-692 and 702-915). */
module PermissionManager {
  import opened Wrappers
  import opened PermissionTypes
  import opened PermissionStore
  import opened PermissionRequests
  import opened PermissionPrompts

  /** The loop all three functions of the transient store run over a frame's list. */
  method Position(list: seq<Entry>, origin: Url, kind: BlinkType) returns (p: nat)
    ensures FirstMatch(list, origin, kind, p)
  {
    p := 0;
    while p < |list|
      invariant p <= |list| && forall i :: 0 <= i < p ==> !Matches(list[i], origin, kind)
    {
      if list[p].origin == origin && list[p].kind == kind { return; }
      p := p + 1;
    }
  }

  class PermissionManagerQt {
    /** The preference file: type and serialised origin to granted or denied. */
    var preferences: map<(QtType, string), bool>
    var transientPermissions: map<Token, seq<Entry>>
    var multiRequests: seq<Request>
    var requestIdCount: nat
    const persistence: bool
    /** The callbacks run so far, and the types each callback was given for. */
    var answers: seq<Answer>
    var asked: seq<seq<BlinkType>>

    ghost function Stored(): Store
      reads this
    {
      Store(preferences, transientPermissions, persistence)
    }

    ghost function State(): Manager
      reads this
    {
      Manager(Stored(), multiRequests, requestIdCount, answers, asked)
    }

    constructor (preferences: map<(QtType, string), bool>, askEveryTime: bool)
      ensures State() == Manager(Store(preferences, map[], !askEveryTime), [], 0, [], [])
    {
      this.preferences, transientPermissions, persistence := preferences, map[], !askEveryTime;
      multiRequests, requestIdCount, answers, asked := [], 0, [], [];
    }

    // ---- the transient store ----

    method GetTransientPermissionStatus(kind: BlinkType, origin: Url, token: Token) returns (status: Status)
      ensures status == TransientStatus(Stored(), kind, origin, token)
    {
      if ToQt(kind) == Unsupported { return DENIED; }
      if token !in transientPermissions { return ASK; }
      var permissionsForToken := transientPermissions[token];
      var p := Position(permissionsForToken, origin, kind);
      FoundLooksUp(permissionsForToken, origin, kind, p);
      if p == |permissionsForToken| { return ASK; }
      status := if permissionsForToken[p].granted then GRANTED else DENIED;
    }

    method SetTransientPermission(kind: BlinkType, origin: Url, granted: bool, token: Token)
      modifies this`transientPermissions
      ensures Stored() == SetTransient(old(Stored()), kind, origin, granted, token)
    {
      if ToQt(kind) == Unsupported { return; }
      var permissionsForToken := if token in transientPermissions then transientPermissions[token] else [];
      var p := Position(permissionsForToken, origin, kind);
      FoundPuts(permissionsForToken, origin, kind, granted, p);
      if p < |permissionsForToken| {
        permissionsForToken := permissionsForToken[p := permissionsForToken[p].(granted := granted)];
      } else {
        permissionsForToken := permissionsForToken + [Entry(origin, kind, granted)];
      }
      transientPermissions := transientPermissions[token := permissionsForToken];
    }

    method ResetTransientPermission(kind: BlinkType, origin: Url, token: Token)
      modifies this`transientPermissions
      ensures Stored() == ResetTransient(old(Stored()), kind, origin, token)
    {
      if ToQt(kind) == Unsupported { return; }
      var permissionsForToken := if token in transientPermissions then transientPermissions[token] else [];
      var i := Position(permissionsForToken, origin, kind);
      FoundErases(permissionsForToken, origin, kind, i);
      if i < |permissionsForToken| {
        permissionsForToken := permissionsForToken[..i] + permissionsForToken[i + 1..];
      }
      transientPermissions := transientPermissions[token := permissionsForToken];
    }

    // ---- the preferences ----

    method GetPermissionStatus(kind: BlinkType, origin: Url) returns (status: Status)
      ensures status == PersistentStatus(Stored(), kind, origin)
    {
      if ToQt(kind) == Unsupported { return DENIED; }
      if (ToQt(kind), Key(origin)) !in preferences { return ASK; }
      status := if preferences[(ToQt(kind), Key(origin))] then GRANTED else DENIED;
    }

    method ResetPermission(kind: BlinkType, origin: Url)
      modifies this`preferences
      ensures Stored() == ResetPersistent(old(Stored()), kind, origin)
    {
      if ToQt(kind) == Unsupported { return; }
      preferences := preferences - {(ToQt(kind), Key(origin))};
    }

    method SetPersistentPermission(kind: BlinkType, origin: Url, granted: bool)
      modifies this`preferences
      ensures Stored() == SetPersistent(old(Stored()), kind, origin, granted)
    {
      if ToQt(kind) == Unsupported { return; }
      preferences := preferences[(ToQt(kind), Key(origin)) := granted];
    }

    // ---- queries ----

    method GetPermissionStatusForCurrentDocument(kind: BlinkType, token: Token, frame: Frame) returns (status: Status)
      modifies this`preferences, this`transientPermissions
      ensures (status, Stored()) == DocumentStatus(old(Stored()), kind, token, frame)
    {
      if kind == CLIPBOARD_READ_WRITE || kind == CLIPBOARD_SANITIZED_WRITE {
        status := StatusFromSettings(kind, frame.settings);
        if status != ASK { return; }
      }
      var normal := ToBlink(ToQt(kind));
      var permissionTypeQt := ToQt(normal);
      if permissionTypeQt == Unsupported { return DENIED; }
      var inTransientStore := !IsPersistent(permissionTypeQt) || !persistence;
      if inTransientStore {
        status := GetTransientPermissionStatus(normal, frame.origin, token);
        if status != ASK { return; }
      }
      status := GetPermissionStatus(kind, frame.origin);
      if inTransientStore && status != ASK {
        ResetPermission(normal, frame.origin);
        SetTransientPermission(normal, frame.origin, status == GRANTED, token);
      }
    }

    method GetPermissionState(origin: Url, permissionType: QtType, token: Token, frames: Frames) returns (state: State)
      modifies this`preferences, this`transientPermissions
      ensures (state, Stored()) == PermissionState(old(Stored()), origin, permissionType, token, frames)
    {
      var types := if permissionType == MediaAudioVideoCapture then [MediaAudioCapture, MediaVideoCapture]
                   else [permissionType];
      state := Invalid;
      for i := 0 to |types|
        invariant i == 0 ==> state == Invalid && Stored() == old(Stored())
        invariant i == 1 ==> (state, Stored()) == TypeState(old(Stored()), origin, types[0], token, frames)
        invariant i == 2 ==> (state, Stored()) == PermissionState(old(Stored()), origin, permissionType, token, frames)
      {
        var one := GetTypeState(origin, types[i], token, frames);
        if state == Invalid {
          state := one;
        } else if state != one {
          state := Ask;
        }
      }
    }

    method GetTypeState(origin: Url, q: QtType, token: Token, frames: Frames) returns (state: State)
      requires q != MediaAudioVideoCapture
      modifies this`preferences, this`transientPermissions
      ensures (state, Stored()) == TypeState(old(Stored()), origin, q, token, frames)
    {
      var status: Status;
      if token in frames {
        status := GetPermissionStatusForCurrentDocument(ToBlink(q), token, frames[token]);
      } else {
        status := GetPermissionStatus(ToBlink(q), origin);
      }
      state := ToState(status);
    }

    // ---- decisions ----

    method SetPermission(url: Url, permissionType: QtType, state: State, token: Token, frames: Frames)
      modifies this
      ensures State() == PermissionRequests.SetPermission(old(State()), url, permissionType, state, token, frames)
    {
      if permissionType == MediaAudioVideoCapture {
        SetPermissionImpl(url, MediaAudioCapture, state, token, frames);
        SetPermissionImpl(url, MediaVideoCapture, state, token, frames);
        return;
      }
      SetPermissionImpl(url, permissionType, state, token, frames);
    }

    method SetPermissionImpl(url: Url, q: QtType, state: State, token: Token, frames: Frames)
      requires q != MediaAudioVideoCapture
      modifies this
      ensures State() == PermissionRequests.SetPermissionImpl(old(State()), url, q, state, token, frames)
    {
      var gorigin := OriginOf(url);
      var inTransientStore := token.FrameToken? && (!IsPersistent(q) || !persistence);
      var c := Setting(url, gorigin, ToStatus(state), inTransientStore, token, frames);
      ghost var before := State();
      ImplSettles(before, c, url, q, state, token, frames);
      if !IsEmpty(c.Origin()) {
        DecideAndAnswer(c, q, state);
      }
    }

    /** Lines 334-437. */
    method DecideAndAnswer(c: Setting, q: QtType, state: State)
      requires q != MediaAudioVideoCapture
      modifies this`preferences, this`transientPermissions, this`multiRequests, this`answers
      ensures State() == Settle(old(State()), c, q, state)
    {
      StoreDecision(c, q, state);
      if state != Ask {
        AnswerWaiting(c);
      }
    }

    /** Lines 334-345. */
    method StoreDecision(c: Setting, q: QtType, state: State)
      requires q != MediaAudioVideoCapture
      modifies this`preferences, this`transientPermissions
      ensures Stored() == Decide(old(Stored()), c, q, state)
    {
      if state == Ask {
        if c.inTransient {
          ResetTransientPermission(ToBlink(q), c.gorigin, c.token);
        } else {
          ResetPermission(ToBlink(q), c.gorigin);
        }
      } else if c.inTransient {
        SetTransientPermission(ToBlink(q), c.gorigin, state == Granted, c.token);
      } else {
        SetPersistentPermission(ToBlink(q), c.gorigin, state == Granted);
      }
    }

    /** Lines 393-437. */
    method AnswerWaiting(c: Setting)
      modifies this`preferences, this`transientPermissions, this`multiRequests, this`answers
      ensures State() == AnswerAll(old(State()), c)
    {
      ghost var whole := Resume([], answers, Process(c, Stored(), multiRequests));
      var it := 0;
      while it < |multiRequests|
        invariant it <= |multiRequests|
        invariant Resume(multiRequests[..it], answers, Process(c, Stored(), multiRequests[it..])) == whole
        decreases |multiRequests| - it
      {
        var request, before, after := multiRequests[it], multiRequests[..it], multiRequests[it + 1..];
        assert multiRequests[it..] == [request] + after && multiRequests[..it + 1] == before + [request];
        ghost var s := Stored();
        ProcessStep(c, s, request, after);
        var statuses := None;
        if request.origin == c.Origin() {
          statuses := TryAnswer(c, request.types);
        }
        ghost var rest := Process(c, Stored(), after);
        if statuses.Some? {
          ResumeGives(before, answers, Answer(request.callback, statuses.value), rest);
          answers := answers + [Answer(request.callback, statuses.value)];
          multiRequests := before + after;
          assert multiRequests[..it] == before && multiRequests[it..] == after;
        } else {
          ResumeKeeps(before, answers, request, rest);
          it := it + 1;
        }
      }
      assert multiRequests[it..] == [] && multiRequests[..it] == multiRequests;
      ResumeEnds(old(answers), Process(c, old(Stored()), old(multiRequests)), multiRequests, answers, Stored());
    }

    /** Lines 396-428. */
    method TryAnswer(c: Setting, types: seq<BlinkType>) returns (statuses: Option<seq<Status>>)
      modifies this`preferences, this`transientPermissions
      ensures (statuses, Stored()) == Evaluate(c, old(Stored()), types)
    {
      var result := [];
      PrependNothing(Evaluate(c, Stored(), types));
      assert types[0..] == types;
      for i := 0 to |types|
        invariant PrependAll(result, Evaluate(c, Stored(), types[i..])) == Evaluate(c, old(Stored()), types)
      {
        var rest := types[i..];
        assert rest[0] == types[i] && rest[1..] == types[i + 1..];
        if ToQt(types[i]) == Unsupported {
          PrependMore(result, DENIED, Evaluate(c, Stored(), types[i + 1..]));
          result := result + [DENIED];
        } else {
          ghost var s := Stored();
          var status := SeenStatus(c, types[i]);
          PrependMore(result, c.status, Evaluate(c, Stored(), types[i + 1..]));
          if status == c.status {
            if status == ASK { return None; }
            result := result + [status];
          } else if !persistence {
            result := result + [c.status];
          } else {
            return None;
          }
        }
      }
      assert types[|types|..] == [] && result + [] == result;
      statuses := Some(result);
    }

    /** Lines 405-411. */
    method SeenStatus(c: Setting, t: BlinkType) returns (status: Status)
      modifies this`preferences, this`transientPermissions
      ensures (status, Stored()) == Seen(c, old(Stored()), t)
    {
      if c.inTransient {
        var state := GetPermissionState(c.url, ToQt(t), c.token, c.frames);
        status := ToStatus(state);
      } else {
        status := GetPermissionStatus(t, c.gorigin);
      }
    }

    // ---- requests ----

    /** The callback is numbered by how many requests came before. The prompts are those shown to
        the user for what could not be answered at once. */
    method RequestPermissions(types: seq<BlinkType>, origin: Url, token: Token, settings: Settings)
      returns (prompts: multiset<QtType>)
      modifies this
      ensures State() == PermissionRequests.RequestPermissions(old(State()), types, origin, token, settings)
      ensures prompts == if |multiRequests| == |old(multiRequests)| then multiset{} else Prompts(types)
    {
      var callback := |asked|;
      asked := asked + [types];
      if IsEmpty(origin) {
        answers := answers + [Answer(callback, seq(|types|, _ => DENIED))];
        return multiset{};
      }
      var statuses := AnswerAtOnce(types, origin, token, settings);
      if statuses.Some? {
        answers := answers + [Answer(callback, statuses.value)];
        return multiset{};
      }
      requestIdCount := requestIdCount + 1;
      multiRequests := multiRequests + [Request(requestIdCount, types, origin, callback)];
      prompts := Prompts(types);
    }

    /** Lines 622-675. */
    method AnswerAtOnce(types: seq<BlinkType>, origin: Url, token: Token, settings: Settings)
      returns (statuses: Option<seq<Status>>)
      modifies this`preferences, this`transientPermissions
      ensures (statuses, Stored()) == AskAll(old(Stored()), types, origin, token, settings)
    {
      var result := [];
      PrependNothing(AskAll(Stored(), types, origin, token, settings));
      assert types[0..] == types;
      for i := 0 to |types|
        invariant PrependAll(result, AskAll(Stored(), types[i..], origin, token, settings))
               == AskAll(old(Stored()), types, origin, token, settings)
      {
        var rest := types[i..];
        assert rest[0] == types[i] && rest[1..] == types[i + 1..];
        var status := AskType(types[i], origin, token, settings);
        if status == ASK { return None; }
        PrependMore(result, status, AskAll(Stored(), types[i + 1..], origin, token, settings));
        result := result + [status];
      }
      assert types[|types|..] == [] && result + [] == result;
      statuses := Some(result);
    }

    /** Lines 626-674. */
    method AskType(t: BlinkType, origin: Url, token: Token, settings: Settings) returns (status: Status)
      modifies this`preferences, this`transientPermissions
      ensures (status, Stored()) == AskOne(old(Stored()), t, origin, token, settings)
    {
      if ToQt(t) == Unsupported { return DENIED; }
      status := StatusFromSettings(t, settings);
      if status == ASK {
        var maybePreGranted := !persistence;
        var inTransientStore := !IsPersistent(ToQt(t)) || maybePreGranted;
        assert inTransientStore == InTransientStore(Stored(), ToQt(t));
        if inTransientStore {
          status := GetTransientPermissionStatus(t, origin, token);
          if status != ASK { return; }
        }
        status := GetPermissionStatus(t, origin);
        if inTransientStore && status != ASK {
          ResetPermission(t, origin);
          SetTransientPermission(t, origin, status == GRANTED, token);
        }
      }
    }
  }

  // ---- steps of the loops ----

  ghost predicate FirstMatch(list: seq<Entry>, origin: Url, kind: BlinkType, p: nat) {
    && p <= |list|
    && (forall i :: 0 <= i < p ==> !Matches(list[i], origin, kind))
    && (p < |list| ==> Matches(list[p], origin, kind))
  }

  lemma MatchInTail(list: seq<Entry>, origin: Url, kind: BlinkType, p: nat)
    requires FirstMatch(list, origin, kind, p) && p > 0
    ensures FirstMatch(list[1..], origin, kind, p - 1)
  {
    var tail := list[1..];
    assert forall i :: 0 <= i < |tail| ==> tail[i] == list[i + 1];
  }

  lemma {:induction false} FoundLooksUp(list: seq<Entry>, origin: Url, kind: BlinkType, p: nat)
    requires FirstMatch(list, origin, kind, p)
    ensures Lookup(list, origin, kind) == if p < |list| then Decision(list[p].granted) else ASK
    decreases |list|
  {
    if p > 0 {
      MatchInTail(list, origin, kind, p);
      FoundLooksUp(list[1..], origin, kind, p - 1);
    }
  }

  lemma {:induction false} FoundPuts(list: seq<Entry>, origin: Url, kind: BlinkType, granted: bool, p: nat)
    requires FirstMatch(list, origin, kind, p)
    ensures Put(list, origin, kind, granted)
         == if p < |list| then list[p := list[p].(granted := granted)] else list + [Entry(origin, kind, granted)]
    decreases |list|
  {
    if p > 0 {
      MatchInTail(list, origin, kind, p);
      FoundPuts(list[1..], origin, kind, granted, p - 1);
      assert list == [list[0]] + list[1..];
    }
  }

  /** A setting that acts is settled. */
  lemma ImplSettles(m: Manager, c: Setting, url: Url, q: QtType, state: State, token: Token, frames: Frames)
    requires q != MediaAudioVideoCapture && c == SettingFor(m.store, url, q, state, token, frames)
    ensures PermissionRequests.SetPermissionImpl(m, url, q, state, token, frames)
         == if IsEmpty(c.Origin()) then m else Settle(m, c, q, state)
  {
  }

  lemma DropBehind(list: seq<Entry>, p: nat)
    requires 0 < p < |list|
    ensures [list[0]] + (list[1..][..p - 1] + list[1..][p..]) == list[..p] + list[p + 1..]
  {
    assert list[..p] == [list[0]] + list[1..][..p - 1];
    assert list[p + 1..] == list[1..][p..];
  }

  lemma {:induction false} FoundErases(list: seq<Entry>, origin: Url, kind: BlinkType, p: nat)
    requires FirstMatch(list, origin, kind, p)
    ensures Erase(list, origin, kind) == if p < |list| then list[..p] + list[p + 1..] else list
    decreases |list|
  {
    if p > 0 {
      MatchInTail(list, origin, kind, p);
      FoundErases(list[1..], origin, kind, p - 1);
      if p < |list| { DropBehind(list, p); } else { assert list == [list[0]] + list[1..]; }
    }
  }

  /** The outcome of the loop when these requests were kept and these answers given before. */
  function Resume(before: seq<Request>, given: seq<Answer>, rest: (seq<Request>, seq<Answer>, Store)):
    (seq<Request>, seq<Answer>, Store)
  {
    (before + rest.0, given + rest.1, rest.2)
  }

  lemma ResumeKeeps(before: seq<Request>, given: seq<Answer>, head: Request, rest: (seq<Request>, seq<Answer>, Store))
    ensures Resume(before, given, ([head] + rest.0, rest.1, rest.2)) == Resume(before + [head], given, rest)
  {
    assert before + ([head] + rest.0) == before + [head] + rest.0;
  }

  lemma ResumeGives(before: seq<Request>, given: seq<Answer>, a: Answer, rest: (seq<Request>, seq<Answer>, Store))
    ensures Resume(before, given, (rest.0, [a] + rest.1, rest.2)) == Resume(before, given + [a], rest)
  {
    assert given + ([a] + rest.1) == given + [a] + rest.1;
  }

  lemma ResumeEnds(given: seq<Answer>, r: (seq<Request>, seq<Answer>, Store),
                   kept: seq<Request>, answers: seq<Answer>, s: Store)
    requires Resume(kept, answers, ([], [], s)) == Resume([], given, r)
    ensures kept == r.0 && answers == given + r.1 && s == r.2
  {
    assert kept + [] == kept && answers + [] == answers && [] + r.0 == r.0;
  }

  lemma ProcessStep(c: Setting, s: Store, head: Request, rest: seq<Request>)
    ensures head.origin != c.Origin() ==>
              Process(c, s, [head] + rest)
              == (var r := Process(c, s, rest); ([head] + r.0, r.1, r.2))
    ensures head.origin == c.Origin() ==>
              Process(c, s, [head] + rest)
              == (var result := Evaluate(c, s, head.types);
                  var r := Process(c, result.1, rest);
                  if result.0.None? then ([head] + r.0, r.1, r.2)
                  else (r.0, [Answer(head.callback, result.0.value)] + r.1, r.2))
  {
    assert ([head] + rest)[1..] == rest;
  }

  function PrependAll(result: seq<Status>, r: (Option<seq<Status>>, Store)): (Option<seq<Status>>, Store) {
    (if r.0.None? then None else Some(result + r.0.value), r.1)
  }

  lemma PrependNothing(r: (Option<seq<Status>>, Store))
    ensures PrependAll([], r) == r
  {
    if r.0.Some? { assert [] + r.0.value == r.0.value; }
  }

  lemma PrependMore(result: seq<Status>, status: Status, r: (Option<seq<Status>>, Store))
    ensures PrependAll(result, Prepend(status, r)) == PrependAll(result + [status], r)
  {
    if r.0.Some? {
      assert result + ([status] + r.0.value) == result + [status] + r.0.value;
    }
  }
}
