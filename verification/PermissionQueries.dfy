/** What a new request is answered compared with what a query reports
    (src/core/permission_manager_qt.cpp:606-692 and 740-778). */
module PermissionQueries {
  import opened Wrappers
  import opened PermissionTypes
  import opened PermissionStore
  import opened PermissionRequests
  import opened PermissionRuns
  import opened PermissionReadBack

  // ---- one type ----

  /** What the loop of RequestPermissions answers for a type on account of the entry it looks up. */
  function Effective(own: Status, stored: Status): Status {
    if own != ASK then own else stored
  }

  /** The entries for the frame are the same, or one is missing and the other is what the preferences hold. */
  predicate EntriesAgree(own: Status, other: Status, stored: Status) {
    own == other || (own == ASK && other == stored) || (other == ASK && own == stored)
  }

  /** A new request for one type gets the status that a query reports exactly if the type is not the merged
      clipboard one, or the settings answer it, or its decisions are not kept for frames, or the frame's entries
      under the requested and under the merged type are the same, or one of them is missing and the other is what
      the preferences hold. */
  lemma RequestAgreesExactlyWhen(s: Store, t: BlinkType, token: Token, frame: Frame)
    ensures AskOne(s, t, frame.origin, token, frame.settings).0 == DocumentStatus(s, t, token, frame).0
       <==> || t != CLIPBOARD_SANITIZED_WRITE
            || StatusFromSettings(t, frame.settings) != ASK
            || !InTransientStore(s, ClipboardReadWrite)
            || EntriesAgree(TransientStatus(s, CLIPBOARD_SANITIZED_WRITE, frame.origin, token),
                            TransientStatus(s, CLIPBOARD_READ_WRITE, frame.origin, token),
                            PersistentStatus(s, CLIPBOARD_READ_WRITE, frame.origin))
  {
    if t == CLIPBOARD_SANITIZED_WRITE && StatusFromSettings(t, frame.settings) == ASK
      && InTransientStore(s, ClipboardReadWrite)
    {
      SanitizedLookups(s, token, frame);
    }
  }

  lemma SanitizedLookups(s: Store, token: Token, frame: Frame)
    requires StatusFromSettings(CLIPBOARD_SANITIZED_WRITE, frame.settings) == ASK
    requires InTransientStore(s, ClipboardReadWrite)
    ensures var stored := PersistentStatus(s, CLIPBOARD_READ_WRITE, frame.origin);
            && AskOne(s, CLIPBOARD_SANITIZED_WRITE, frame.origin, token, frame.settings).0
               == Effective(TransientStatus(s, CLIPBOARD_SANITIZED_WRITE, frame.origin, token), stored)
            && DocumentStatus(s, CLIPBOARD_SANITIZED_WRITE, token, frame).0
               == Effective(TransientStatus(s, CLIPBOARD_READ_WRITE, frame.origin, token), stored)
  {
  }

  // ---- runs with AskEveryTime ----

  ghost predicate NoneSanitized(list: seq<Entry>) {
    forall e :: e in list ==> e.kind != CLIPBOARD_SANITIZED_WRITE
  }

  /** AskEveryTime, the clipboard not granted beforehand, and no entry under the sanitized type. */
  ghost predicate Plain(s: Store) {
    && !s.persistence
    && (forall key :: key in s.persistent ==> key.0 != ClipboardReadWrite)
    && forall token :: token in s.transient ==> NoneSanitized(s.transient[token])
  }

  lemma PlainLookups(s: Store, token: Token, origin: Url)
    requires Plain(s)
    ensures PersistentStatus(s, CLIPBOARD_READ_WRITE, origin) == ASK
    ensures TransientStatus(s, CLIPBOARD_SANITIZED_WRITE, origin, token) == ASK
  {
    NotFound(ListOf(s, token), origin, CLIPBOARD_SANITIZED_WRITE);
  }

  /** On such a store a request for the sanitized write is answered by the settings or not at all, and it gets what
      a query reports exactly if the settings answer it or the frame has no clipboard decision. */
  lemma PlainRequests(s: Store, token: Token, frame: Frame)
    requires Plain(s)
    ensures var t := CLIPBOARD_SANITIZED_WRITE;
            var asked := AskOne(s, t, frame.origin, token, frame.settings).0;
            && asked == StatusFromSettings(t, frame.settings)
            && (asked == DocumentStatus(s, t, token, frame).0
                <==> || StatusFromSettings(t, frame.settings) != ASK
                     || TransientStatus(s, CLIPBOARD_READ_WRITE, frame.origin, token) == ASK)
  {
    PlainLookups(s, token, frame.origin);
    RequestAgreesExactlyWhen(s, CLIPBOARD_SANITIZED_WRITE, token, frame);
  }

  lemma SetKeepsPlain(s: Store, kind: BlinkType, origin: Url, granted: bool, token: Token)
    requires Plain(s) && kind != CLIPBOARD_SANITIZED_WRITE
    ensures Plain(SetTransient(s, kind, origin, granted, token))
  {
    forall e | e in Put(ListOf(s, token), origin, kind, granted) ensures e.kind != CLIPBOARD_SANITIZED_WRITE {
      PutMembers(ListOf(s, token), origin, kind, granted, e);
    }
  }

  lemma ResetKeepsPlain(s: Store, kind: BlinkType, origin: Url, token: Token)
    requires Plain(s)
    ensures Plain(ResetTransient(s, kind, origin, token)) && Plain(ResetPersistent(s, kind, origin))
  {
    forall e | e in Erase(ListOf(s, token), origin, kind) ensures e.kind != CLIPBOARD_SANITIZED_WRITE {
      EraseMembers(ListOf(s, token), origin, kind, e);
    }
  }

  lemma AdoptKeepsPlain(s: Store, kind: BlinkType, origin: Url, granted: bool, token: Token)
    requires Plain(s) && kind != CLIPBOARD_SANITIZED_WRITE
    ensures Plain(Adopt(s, kind, origin, granted, token))
  {
    ResetKeepsPlain(s, kind, origin, token);
    SetKeepsPlain(ResetPersistent(s, kind, origin), kind, origin, granted, token);
  }

  lemma QueryKeepsPlain(s: Store, kind: BlinkType, token: Token, frame: Frame)
    requires Plain(s)
    ensures Plain(DocumentStatus(s, kind, token, frame).1)
  {
    AdoptKeepsPlain(s, Normal(kind), frame.origin, PersistentStatus(s, kind, frame.origin) == GRANTED, token);
  }

  lemma AskOneKeepsPlain(s: Store, t: BlinkType, origin: Url, token: Token, settings: Settings)
    requires Plain(s)
    ensures Plain(AskOne(s, t, origin, token, settings).1)
  {
    if t == CLIPBOARD_SANITIZED_WRITE {
      PlainLookups(s, token, origin);
    } else {
      AdoptKeepsPlain(s, t, origin, PersistentStatus(s, t, origin) == GRANTED, token);
    }
  }

  lemma {:induction false} AskAllKeepsPlain(s: Store, types: seq<BlinkType>, origin: Url, token: Token,
                                            settings: Settings)
    requires Plain(s)
    ensures Plain(AskAll(s, types, origin, token, settings).1)
    decreases |types|
  {
    if types != [] {
      AskOneKeepsPlain(s, types[0], origin, token, settings);
      AskAllKeepsPlain(AskOne(s, types[0], origin, token, settings).1, types[1..], origin, token, settings);
    }
  }

  lemma SeenKeepsPlain(c: Setting, s: Store, t: BlinkType)
    requires Plain(s)
    ensures Plain(Seen(c, s, t).1)
  {
    if c.inTransient && c.token in c.frames { QueryKeepsPlain(s, ToBlink(ToQt(t)), c.token, c.frames[c.token]); }
  }

  lemma {:induction false} EvaluateKeepsPlain(c: Setting, s: Store, types: seq<BlinkType>)
    requires Plain(s)
    ensures Plain(Evaluate(c, s, types).1)
    decreases |types|
  {
    if types != [] {
      SeenKeepsPlain(c, s, types[0]);
      EvaluateKeepsPlain(c, if Supported(types[0]) then Seen(c, s, types[0]).1 else s, types[1..]);
    }
  }

  lemma {:induction false} ProcessKeepsPlain(c: Setting, s: Store, waiting: seq<Request>)
    requires Plain(s)
    ensures Plain(Process(c, s, waiting).2)
    decreases |waiting|
  {
    if waiting != [] {
      var next := if waiting[0].origin == c.Origin() then Evaluate(c, s, waiting[0].types).1 else s;
      EvaluateKeepsPlain(c, s, waiting[0].types);
      ProcessKeepsPlain(c, next, waiting[1..]);
    }
  }

  lemma DecideKeepsPlain(s: Store, c: Setting, q: QtType, state: State)
    requires Plain(s) && c.inTransient && q != MediaAudioVideoCapture
    ensures Plain(Decide(s, c, q, state))
  {
    ResetKeepsPlain(s, ToBlink(q), c.gorigin, c.token);
    SetKeepsPlain(s, ToBlink(q), c.gorigin, state == Granted, c.token);
  }

  lemma ImplKeepsPlain(m: Manager, url: Url, q: QtType, state: State, token: Token, frames: Frames)
    requires Plain(m.store) && token.FrameToken? && q != MediaAudioVideoCapture
    ensures Plain(SetPermissionImpl(m, url, q, state, token, frames).store)
  {
    var c := SettingFor(m.store, url, q, state, token, frames);
    DecideKeepsPlain(m.store, c, q, state);
    ProcessKeepsPlain(c, Decide(m.store, c, q, state), m.waiting);
  }

  lemma DecisionKeepsPlain(m: Manager, url: Url, q: QtType, state: State, token: Token, frames: Frames)
    requires Plain(m.store) && token.FrameToken?
    ensures Plain(SetPermission(m, url, q, state, token, frames).store)
  {
    if q == MediaAudioVideoCapture {
      ImplKeepsPlain(m, url, MediaAudioCapture, state, token, frames);
      ImplKeepsPlain(SetPermissionImpl(m, url, MediaAudioCapture, state, token, frames), url, MediaVideoCapture, state,
                     token, frames);
    } else {
      ImplKeepsPlain(m, url, q, state, token, frames);
    }
  }

  /** Decisions are made for a frame. */
  ghost predicate NamesFrame(step: Step) {
    step.Set? ==> step.target.FrameToken?
  }

  lemma StepKeepsPlain(m: Manager, step: Step)
    requires Plain(m.store) && NamesFrame(step)
    ensures Plain(Apply(m, step).store)
  {
    match step
    case Requested(types, origin, token, settings) => AskAllKeepsPlain(m.store, types, origin, token, settings);
    case Set(url, q, state, token, frames) => DecisionKeepsPlain(m, url, q, state, token, frames);
    case Queried(kind, token, frame) => QueryKeepsPlain(m.store, kind, token, frame);
    case Reset(kind, origin) => ResetKeepsPlain(m.store, kind, origin, NoFrame);
    case Navigated(_, _) =>
    case Cleaned(_) =>
  }

  lemma {:induction false} RunKeepsPlain(m: Manager, steps: seq<Step>)
    requires Plain(m.store) && forall i :: 0 <= i < |steps| ==> NamesFrame(steps[i])
    ensures Plain(Run(m, steps).store)
    decreases |steps|
  {
    if steps != [] {
      StepKeepsPlain(m, steps[0]);
      RunKeepsPlain(Apply(m, steps[0]), steps[1..]);
    }
  }

  /** With AskEveryTime, over every run whose decisions are all made for frames: a request for the sanitized write
      is never answered by what the user decided, only by the settings, and so it differs from what a query reports
      exactly if the settings are silent and the user has decided about the clipboard for this frame. */
  lemma SanitizedNeverRemembered(persistent: map<(QtType, string), bool>, steps: seq<Step>, token: Token, frame: Frame)
    requires forall key :: key in persistent ==> key.0 != ClipboardReadWrite
    requires forall i :: 0 <= i < |steps| ==> NamesFrame(steps[i])
    ensures var s := Run(Initial(persistent, false), steps).store;
            var t := CLIPBOARD_SANITIZED_WRITE;
            var asked := AskOne(s, t, frame.origin, token, frame.settings).0;
            && asked == StatusFromSettings(t, frame.settings)
            && (asked != DocumentStatus(s, t, token, frame).0
                <==> && StatusFromSettings(t, frame.settings) == ASK
                     && TransientStatus(s, CLIPBOARD_READ_WRITE, frame.origin, token) != ASK)
  {
    RunKeepsPlain(Initial(persistent, false), steps);
    PlainRequests(Run(Initial(persistent, false), steps).store, token, frame);
  }

  // ---- whole requests ----

  /** What queries of the types report, one after the other. */
  function Reports(s: Store, types: seq<BlinkType>, token: Token, frame: Frame): (r: seq<Status>)
    ensures |r| == |types| && forall i :: 0 <= i < |r| ==> r[i] == DocumentStatus(s, types[i], token, frame).0
  {
    seq(|types|, i requires 0 <= i < |types| => DocumentStatus(s, types[i], token, frame).0)
  }

  /** A type whose request and query go alike, whatever the store holds. */
  ghost predicate Alike(s: Store, types: seq<BlinkType>) {
    s.persistence || CLIPBOARD_SANITIZED_WRITE !in types
  }

  lemma AskOneIsQuery(s: Store, t: BlinkType, token: Token, frame: Frame)
    requires s.persistence || t != CLIPBOARD_SANITIZED_WRITE
    ensures AskOne(s, t, frame.origin, token, frame.settings) == DocumentStatus(s, t, token, frame)
  {
  }

  /** Without the exception a request is answered at once exactly if no query reports ASK, and then with what
      the queries report. */
  lemma {:induction false} AskAllReports(s: Store, types: seq<BlinkType>, token: Token, frame: Frame)
    requires Alike(s, types)
    ensures AskAll(s, types, frame.origin, token, frame.settings).0
         == if ASK in Reports(s, types, token, frame) then None else Some(Reports(s, types, token, frame))
    decreases |types|
  {
    if types != [] {
      var head, tail := types[0], types[1..];
      var s' := DocumentStatus(s, head, token, frame).1;
      AskOneIsQuery(s, head, token, frame);
      DocumentStatusFrame(s, head, token, frame);
      AskAllReports(s', tail, token, frame);
      forall i | 0 <= i < |tail| ensures Reports(s', tail, token, frame)[i] == Reports(s, types, token, frame)[i + 1] {
        DocumentStatusIndependent(s, head, tail[i], token, frame);
      }
      assert Reports(s, types, token, frame)
          == [DocumentStatus(s, head, token, frame).0] + Reports(s', tail, token, frame);
    }
  }

  /** The same for the whole operation: either the callback is run at once with what the queries report, or the
      request waits. */
  lemma RequestFollowsQueries(m: Manager, types: seq<BlinkType>, token: Token, frame: Frame)
    requires Alike(m.store, types) && !IsEmpty(frame.origin)
    ensures var m' := RequestPermissions(m, types, frame.origin, token, frame.settings);
            var reports := Reports(m.store, types, token, frame);
            if ASK in reports
            then m'.answers == m.answers
              && m'.waiting == m.waiting + [Request(m.requestIdCount + 1, types, frame.origin, |m.asked|)]
            else m'.waiting == m.waiting && m'.answers == m.answers + [Answer(|m.asked|, reports)]
  {
    AskAllReports(m.store, types, token, frame);
  }

  /** A request without an origin is denied at once, type by type, and leaves everything else as it was. */
  lemma WithoutOriginDenied(m: Manager, types: seq<BlinkType>, token: Token, settings: Settings)
    ensures var m' := RequestPermissions(m, types, Url("", ""), token, settings);
            && m' == m.(answers := m'.answers, asked := m.asked + [types])
            && |m'.answers| == |m.answers| + 1 && m.answers <= m'.answers
            && var answer := m'.answers[|m.answers|];
               && answer.callback == |m.asked| && |answer.statuses| == |types|
               && forall i :: 0 <= i < |types| ==> answer.statuses[i] == DENIED
  {
  }

  /** The exception: with AskEveryTime a frame that was granted the clipboard reads GRANTED for the sanitized
      write, and yet a request for it waits. */
  lemma GrantedButAskedAgain(url: Url, token: Token, frames: Frames)
    requires AtOrigin(url, token, frames) && frames[token].settings == Settings(false, false)
    ensures var m := SetPermission(Initial(map[], false), url, ClipboardReadWrite, Granted, token, frames);
            var frame := frames[token];
            var m' := RequestPermissions(m, [CLIPBOARD_SANITIZED_WRITE], frame.origin, token, frame.settings);
            && DocumentStatus(m.store, CLIPBOARD_SANITIZED_WRITE, token, frames[token]).0 == GRANTED
            && m'.answers == [] && |m'.waiting| == 1
  {
    var m := SetPermission(Initial(map[], false), url, ClipboardReadWrite, Granted, token, frames);
    var origin, settings := frames[token].origin, frames[token].settings;
    ClipboardGranted(url, token, frames);
    var entry := Entry(origin, CLIPBOARD_READ_WRITE, true);
    assert Lookup([entry][1..], origin, CLIPBOARD_SANITIZED_WRITE) == ASK;
    assert AskOne(m.store, CLIPBOARD_SANITIZED_WRITE, origin, token, settings).0 == ASK;
    assert AskAll(m.store, [CLIPBOARD_SANITIZED_WRITE], origin, token, settings).0 == None;
  }

  lemma ClipboardGranted(url: Url, token: Token, frames: Frames)
    requires AtOrigin(url, token, frames)
    ensures var m := SetPermission(Initial(map[], false), url, ClipboardReadWrite, Granted, token, frames);
            && m.waiting == [] && m.answers == [] && m.store.persistent == map[] && !m.store.persistence
            && ListOf(m.store, token) == [Entry(frames[token].origin, CLIPBOARD_READ_WRITE, true)]
  {
  }
}
