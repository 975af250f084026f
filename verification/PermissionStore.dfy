/** The two-level permission store: per origin in the preferences, per frame in memory
    (src/core/permission_manager_qt.cpp:440-471, 702-778 and 809-915). */
module PermissionStore {
  import opened PermissionTypes

  /** A URL is its origin, empty for a URL without one, and what follows. */
  datatype Url = Url(origin: string, rest: string)

  function OriginOf(u: Url): Url {
    Url(u.origin, "")
  }

  predicate IsEmpty(u: Url) {
    u == Url("", "")
  }

  /** `url::Origin::Create(u).Serialize()`. */
  function Key(u: Url): string {
    if u.origin == "" then "null" else u.origin
  }

  datatype Token = NoFrame | FrameToken(id: nat)

  /** A live frame: the URL of its last committed origin and the settings of its page. */
  datatype Frame = Frame(origin: Url, settings: Settings)

  type Frames = map<Token, Frame>

  /** An element of the list kept for a frame. */
  datatype Entry = Entry(origin: Url, kind: BlinkType, granted: bool)

  datatype Store = Store(
    persistent: map<(QtType, string), bool>,
    transient: map<Token, seq<Entry>>,
    persistence: bool)

  function Decision(granted: bool): Status {
    if granted then GRANTED else DENIED
  }

  // ---- the list of one frame ----

  predicate Matches(e: Entry, origin: Url, kind: BlinkType) {
    e.origin == origin && e.kind == kind
  }

  function Lookup(list: seq<Entry>, origin: Url, kind: BlinkType): Status {
    if list == [] then ASK
    else if Matches(list[0], origin, kind) then Decision(list[0].granted)
    else Lookup(list[1..], origin, kind)
  }

  function Put(list: seq<Entry>, origin: Url, kind: BlinkType, granted: bool): seq<Entry> {
    if list == [] then [Entry(origin, kind, granted)]
    else if Matches(list[0], origin, kind) then [list[0].(granted := granted)] + list[1..]
    else [list[0]] + Put(list[1..], origin, kind, granted)
  }

  function Erase(list: seq<Entry>, origin: Url, kind: BlinkType): seq<Entry> {
    if list == [] then []
    else if Matches(list[0], origin, kind) then list[1..]
    else [list[0]] + Erase(list[1..], origin, kind)
  }

  function ListOf(s: Store, token: Token): seq<Entry> {
    if token in s.transient then s.transient[token] else []
  }

  /** At most one entry for an origin and a type. */
  ghost predicate Unique(list: seq<Entry>) {
    forall i, j :: 0 <= i < j < |list| ==> list[i].origin != list[j].origin || list[i].kind != list[j].kind
  }

  lemma LookupFirst(head: Entry, rest: seq<Entry>, origin: Url, kind: BlinkType)
    ensures Lookup([head] + rest, origin, kind)
         == if Matches(head, origin, kind) then Decision(head.granted) else Lookup(rest, origin, kind)
  {
    assert ([head] + rest)[1..] == rest;
  }

  lemma PutFirst(head: Entry, rest: seq<Entry>, origin: Url, kind: BlinkType, granted: bool)
    ensures Put([head] + rest, origin, kind, granted)
         == if Matches(head, origin, kind) then [head.(granted := granted)] + rest
            else [head] + Put(rest, origin, kind, granted)
  {
    assert ([head] + rest)[1..] == rest;
  }

  lemma {:induction false} PutLooksUp(list: seq<Entry>, origin: Url, kind: BlinkType, granted: bool, o: Url,
                                      k: BlinkType)
    ensures Lookup(Put(list, origin, kind, granted), o, k)
         == if o == origin && k == kind then Decision(granted) else Lookup(list, o, k)
    decreases |list|
  {
    if list == [] {
      LookupFirst(Entry(origin, kind, granted), [], o, k);
      assert [Entry(origin, kind, granted)] + [] == [Entry(origin, kind, granted)];
    } else {
      var head, tail := list[0], list[1..];
      assert list == [head] + tail;
      PutFirst(head, tail, origin, kind, granted);
      LookupFirst(head, tail, o, k);
      LookupFirst(head.(granted := granted), tail, o, k);
      LookupFirst(head, Put(tail, origin, kind, granted), o, k);
      if !Matches(head, origin, kind) { PutLooksUp(tail, origin, kind, granted, o, k); }
    }
  }

  /** Whatever Put adds is the new entry, and every other entry was there before. */
  lemma {:induction false} PutMembers(list: seq<Entry>, origin: Url, kind: BlinkType, granted: bool, e: Entry)
    ensures e in Put(list, origin, kind, granted) ==> e in list || Matches(e, origin, kind)
    decreases |list|
  {
    if list != [] && !Matches(list[0], origin, kind) {
      PutMembers(list[1..], origin, kind, granted, e);
    }
  }

  lemma UniqueTail(list: seq<Entry>)
    requires list != []
    ensures Unique(list)
       <==> Unique(list[1..]) && forall e :: e in list[1..] ==> !Matches(e, list[0].origin, list[0].kind)
  {
    var tail := list[1..];
    if Unique(list) {
      forall e | e in tail ensures !Matches(e, list[0].origin, list[0].kind) {
        var i :| 0 <= i < |tail| && tail[i] == e;
        assert list[i + 1] == e;
      }
      forall i, j | 0 <= i < j < |tail| ensures tail[i].origin != tail[j].origin || tail[i].kind != tail[j].kind {
        assert tail[i] == list[i + 1] && tail[j] == list[j + 1];
      }
    }
    if Unique(tail) && forall e :: e in tail ==> !Matches(e, list[0].origin, list[0].kind) {
      forall i, j | 0 <= i < j < |list| ensures list[i].origin != list[j].origin || list[i].kind != list[j].kind {
        assert list[j] == tail[j - 1];
        if i > 0 { assert list[i] == tail[i - 1]; } else { assert list[j] in tail; }
      }
    }
  }

  lemma {:induction false} PutKeepsUnique(list: seq<Entry>, origin: Url, kind: BlinkType, granted: bool)
    requires Unique(list)
    ensures Unique(Put(list, origin, kind, granted))
    decreases |list|
  {
    if list != [] {
      var r := Put(list, origin, kind, granted);
      UniqueTail(list);
      UniqueTail(r);
      if Matches(list[0], origin, kind) {
        assert r[1..] == list[1..];
      } else {
        assert r[1..] == Put(list[1..], origin, kind, granted);
        PutKeepsUnique(list[1..], origin, kind, granted);
        forall e | e in r[1..] ensures !Matches(e, r[0].origin, r[0].kind) {
          PutMembers(list[1..], origin, kind, granted, e);
        }
      }
    }
  }

  lemma {:induction false} EraseMembers(list: seq<Entry>, origin: Url, kind: BlinkType, e: Entry)
    ensures e in Erase(list, origin, kind) ==> e in list
    decreases |list|
  {
    if list != [] && !Matches(list[0], origin, kind) {
      EraseMembers(list[1..], origin, kind, e);
    }
  }

  /** Erasing from a list with unique entries removes the entry for good. */
  lemma {:induction false} EraseLooksUp(list: seq<Entry>, origin: Url, kind: BlinkType, o: Url, k: BlinkType)
    requires Unique(list)
    ensures Unique(Erase(list, origin, kind))
    ensures Lookup(Erase(list, origin, kind), o, k)
         == if o == origin && k == kind then ASK else Lookup(list, o, k)
    decreases |list|
  {
    if list != [] {
      var r := Erase(list, origin, kind);
      UniqueTail(list);
      if Matches(list[0], origin, kind) {
        NotFound(list[1..], origin, kind);
      } else {
        assert r[1..] == Erase(list[1..], origin, kind);
        EraseLooksUp(list[1..], origin, kind, o, k);
        UniqueTail(r);
        forall e | e in r[1..] ensures !Matches(e, r[0].origin, r[0].kind) {
          EraseMembers(list[1..], origin, kind, e);
        }
      }
    }
  }

  lemma {:induction false} NotFound(list: seq<Entry>, origin: Url, kind: BlinkType)
    requires forall e :: e in list ==> !Matches(e, origin, kind)
    ensures Lookup(list, origin, kind) == ASK
    decreases |list|
  {
    if list != [] { NotFound(list[1..], origin, kind); }
  }

  // ---- the operations on the store ----

  function TransientStatus(s: Store, kind: BlinkType, origin: Url, token: Token): Status {
    if !Supported(kind) then DENIED else Lookup(ListOf(s, token), origin, kind)
  }

  function SetTransient(s: Store, kind: BlinkType, origin: Url, granted: bool, token: Token): Store {
    if !Supported(kind) then s
    else s.(transient := s.transient[token := Put(ListOf(s, token), origin, kind, granted)])
  }

  function ResetTransient(s: Store, kind: BlinkType, origin: Url, token: Token): Store {
    if !Supported(kind) then s
    else s.(transient := s.transient[token := Erase(ListOf(s, token), origin, kind)])
  }

  /** GetPermissionStatus. */
  function PersistentStatus(s: Store, kind: BlinkType, origin: Url): Status {
    if !Supported(kind) then DENIED
    else if (ToQt(kind), Key(origin)) !in s.persistent then ASK
    else Decision(s.persistent[(ToQt(kind), Key(origin))])
  }

  function SetPersistent(s: Store, kind: BlinkType, origin: Url, granted: bool): Store {
    if !Supported(kind) then s
    else s.(persistent := s.persistent[(ToQt(kind), Key(origin)) := granted])
  }

  /** ResetPermission. */
  function ResetPersistent(s: Store, kind: BlinkType, origin: Url): Store {
    if !Supported(kind) then s
    else s.(persistent := s.persistent - {(ToQt(kind), Key(origin))})
  }

  /** The types whose decisions belong to frames. */
  predicate InTransientStore(s: Store, q: QtType) {
    !IsPersistent(q) || !s.persistence
  }

  /** A decision found in the preferences is moved to the frame's list (lines 657-662 and 770-775). */
  function Adopt(s: Store, kind: BlinkType, origin: Url, granted: bool, token: Token): Store {
    SetTransient(ResetPersistent(s, kind, origin), kind, origin, granted, token)
  }

  /** GetPermissionStatusForCurrentDocument: the status and the store it leaves. */
  function DocumentStatus(s: Store, kind: BlinkType, token: Token, frame: Frame): (Status, Store) {
    var fromSettings := StatusFromSettings(kind, frame.settings);
    var k := Normal(kind);
    if fromSettings != ASK then (fromSettings, s)
    else if !Supported(k) then (DENIED, s)
    else
      var own := TransientStatus(s, k, frame.origin, token);
      var stored := PersistentStatus(s, kind, frame.origin);
      if !InTransientStore(s, ToQt(k)) then (stored, s)
      else if own != ASK then (own, s)
      else if stored != ASK then (stored, Adopt(s, k, frame.origin, stored == GRANTED, token))
      else (ASK, s)
  }

  /** getPermissionState for one type that Blink knows. */
  function TypeState(s: Store, url: Url, q: QtType, token: Token, frames: Frames): (State, Store)
    requires q != MediaAudioVideoCapture
  {
    if token in frames then
      var r := DocumentStatus(s, ToBlink(q), token, frames[token]);
      (ToState(r.0), r.1)
    else (ToState(PersistentStatus(s, ToBlink(q), url)), s)
  }

  /** getPermissionState. */
  function PermissionState(s: Store, url: Url, q: QtType, token: Token, frames: Frames): (State, Store) {
    if q != MediaAudioVideoCapture then TypeState(s, url, q, token, frames)
    else
      var audio := TypeState(s, url, MediaAudioCapture, token, frames);
      var video := TypeState(audio.1, url, MediaVideoCapture, token, frames);
      (if audio.0 == video.0 then audio.0 else Ask, video.1)
  }

  // ---- queries are stable ----

  /** Every frame's list is a map. */
  ghost predicate UniqueStore(s: Store) {
    forall t :: t in s.transient ==> Unique(s.transient[t])
  }

  lemma AdoptEffect(s: Store, kind: BlinkType, origin: Url, granted: bool, token: Token, k: BlinkType, o: Url, t: Token)
    requires Supported(kind)
    ensures var s' := Adopt(s, kind, origin, granted, token);
            && PersistentStatus(s', k, o)
               == (if ToQt(k) == ToQt(kind) && Key(o) == Key(origin) then ASK else PersistentStatus(s, k, o))
            && TransientStatus(s', k, o, t)
               == (if k == kind && o == origin && t == token then Decision(granted) else TransientStatus(s, k, o, t))
  {
    PutLooksUp(ListOf(s, token), origin, kind, granted, o, k);
  }

  /** Asking again gives the same answer and changes nothing. */
  lemma DocumentStatusStable(s: Store, kind: BlinkType, token: Token, frame: Frame)
    ensures var (status, s') := DocumentStatus(s, kind, token, frame);
            DocumentStatus(s', kind, token, frame) == (status, s')
  {
    var k := Normal(kind);
    var stored := PersistentStatus(s, kind, frame.origin);
    if Supported(k) {
      AdoptEffect(s, k, frame.origin, stored == GRANTED, token, k, frame.origin, token);
    }
  }

  /** Moving a decision that the frame would find there anyway changes none of its answers. */
  lemma AdoptIndependent(s: Store, k: BlinkType, other: BlinkType, token: Token, frame: Frame)
    requires Supported(k) && Normal(k) == k && InTransientStore(s, ToQt(k))
    requires TransientStatus(s, k, frame.origin, token) == ASK != PersistentStatus(s, k, frame.origin)
    ensures DocumentStatus(Adopt(s, k, frame.origin, PersistentStatus(s, k, frame.origin) == GRANTED, token),
                           other, token, frame).0
         == DocumentStatus(s, other, token, frame).0
  {
    var granted := PersistentStatus(s, k, frame.origin) == GRANTED;
    AdoptEffect(s, k, frame.origin, granted, token, Normal(other), frame.origin, token);
    AdoptEffect(s, k, frame.origin, granted, token, other, frame.origin, token);
    if ToQt(k) == ToQt(other) {
      assert Normal(other) == k;
    }
  }

  /** Asking for one type does not change what the same frame sees for any other. */
  lemma DocumentStatusIndependent(s: Store, asked: BlinkType, other: BlinkType, token: Token, frame: Frame)
    ensures DocumentStatus(DocumentStatus(s, asked, token, frame).1, other, token, frame).0
         == DocumentStatus(s, other, token, frame).0
  {
    var k, s' := Normal(asked), DocumentStatus(s, asked, token, frame).1;
    if s' != s {
      assert s' == Adopt(s, k, frame.origin, PersistentStatus(s, k, frame.origin) == GRANTED, token);
      AdoptIndependent(s, k, other, token, frame);
    }
  }

  /** A decision made before any frame asked goes to the first frame that asks: it has the answer,
      and another frame of the same origin without an entry of its own must ask. */
  lemma PreGrantServesOneFrame(s: Store, kind: BlinkType, token: Token, frame: Frame, token2: Token, frame2: Frame)
    requires Supported(kind) && InTransientStore(s, ToQt(kind))
    requires StatusFromSettings(kind, frame.settings) == ASK == StatusFromSettings(kind, frame2.settings)
    requires TransientStatus(s, Normal(kind), frame.origin, token) == ASK
    requires token2 != token && Key(frame2.origin) == Key(frame.origin)
    requires TransientStatus(s, Normal(kind), frame2.origin, token2) == ASK
    requires PersistentStatus(s, kind, frame.origin) != ASK
    ensures var (status, s') := DocumentStatus(s, kind, token, frame);
            && status == PersistentStatus(s, kind, frame.origin) != ASK
            && DocumentStatus(s', kind, token, frame).0 == status
            && DocumentStatus(s', kind, token2, frame2).0 == ASK
  {
    var k, stored := Normal(kind), PersistentStatus(s, kind, frame.origin);
    DocumentStatusStable(s, kind, token, frame);
    AdoptEffect(s, k, frame.origin, stored == GRANTED, token, kind, frame2.origin, token2);
    AdoptEffect(s, k, frame.origin, stored == GRANTED, token, k, frame2.origin, token2);
  }

  lemma SetTransientKeepsUnique(s: Store, kind: BlinkType, origin: Url, granted: bool, token: Token)
    requires UniqueStore(s)
    ensures UniqueStore(SetTransient(s, kind, origin, granted, token))
  {
    PutKeepsUnique(ListOf(s, token), origin, kind, granted);
  }

  lemma ResetTransientKeepsUnique(s: Store, kind: BlinkType, origin: Url, token: Token)
    requires UniqueStore(s)
    ensures UniqueStore(ResetTransient(s, kind, origin, token))
  {
    EraseLooksUp(ListOf(s, token), origin, kind, origin, kind);
  }

  /** A query touches no list but its own frame's and keeps every list a map. */
  lemma DocumentStatusFrame(s: Store, kind: BlinkType, token: Token, frame: Frame)
    ensures var s' := DocumentStatus(s, kind, token, frame).1;
            && s'.persistence == s.persistence
            && (forall t :: t != token ==> ListOf(s', t) == ListOf(s, t))
            && (UniqueStore(s) ==> UniqueStore(s'))
  {
    var k, stored := Normal(kind), PersistentStatus(s, kind, frame.origin);
    if UniqueStore(s) {
      SetTransientKeepsUnique(ResetPersistent(s, k, frame.origin), k, frame.origin, stored == GRANTED, token);
    }
  }
}
