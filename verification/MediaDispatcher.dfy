/** MediaCaptureDevicesDispatcher: the queues of all web contents in one map
    (src/core/media_capture_devices_dispatcher.cpp:358-512, 559-591 and 629-652). */
module MediaDispatcher {
  import opened Wrappers
  import opened MediaFlags
  import opened MediaDevices
  import opened MediaQueue

  /** What the calls made for a WebContents have led to elsewhere: questions in the permission manager,
      tasks in the message loop, and callbacks run or dropped. */
  datatype Ledger = Ledger(questions: seq<Question>, tasks: nat, entered: nat, replies: seq<Reply>, dropped: set<nat>)

  const CLEAN: Ledger := Ledger([], 0, 0, [], {})

  datatype Page = Page(screenCaptureEnabled: bool, originIsSecure: bool)

  /** How processMediaAccessRequest ends. `chosen` is the desktop that a device id in the request
      names, if it names one. */
  datatype Outcome = NotSupported | InvalidState | Streamed(devices: StreamDevices) | Queued

  /** hasDeviceId. */
  predicate HasDeviceId(request: Request) {
    request.videoIds != [] && request.videoIds[0] != ""
  }

  /** processDesktopCaptureAccessRequest. */
  function DesktopCapture(request: Request, chosen: Option<DesktopId>, loopback: bool): Outcome {
    if chosen == None then InvalidState
    else
      var audioRequested := request.audio.GUM_DESKTOP_AUDIO_CAPTURE? || request.audio.DISPLAY_AUDIO_CAPTURE?;
      Streamed(DesktopDevices(request, chosen.value, audioRequested && chosen.value.kind.Screen? && loopback))
  }

  /** The picture of the desktop that the request names, and its sound exactly if that desktop is a screen, the
      request has a stream type for desktop sound and the platform can loop it back. */
  predicate IsCaptureOf(request: Request, chosen: DesktopId, loopback: bool, d: StreamDevices) {
    && d.video == Some(Device(request.video, Named(chosen.text)))
    && (d.audio.Some? <==> && chosen.kind == Screen && loopback
                           && request.audio in {GUM_DESKTOP_AUDIO_CAPTURE, DISPLAY_AUDIO_CAPTURE})
    && (d.audio.Some? ==> IsSoundOf(request, chosen, d.audio.value))
  }

  /** A request that names a desktop is answered without asking, if the id is a valid one. */
  lemma CapturedDesktop(request: Request, chosen: Option<DesktopId>, loopback: bool)
    ensures var outcome := DesktopCapture(request, chosen, loopback);
            if chosen == None then outcome == InvalidState
            else outcome.Streamed? && IsCaptureOf(request, chosen.value, loopback, outcome.devices)
  {
  }

  /** A request has to wait for the user exactly if it is for something supported and, when it is for
      the desktop, the page may capture it and only the chooser has picked a source. */
  predicate MustAsk(request: Request, media: Option<DesktopId>, page: Page) {
    && request.Flags() != {}
    && (DesktopVideo in request.Flags() ==>
          && page.screenCaptureEnabled && page.originIsSecure && media.Some?
          && (request.videoIds == [] || request.videoIds[0] == ""))
  }

  class MediaCaptureDevicesDispatcher {
    /** Web contents are numbered in the order of the map's keys. */
    var pendingRequests: map<nat, seq<Pending>>
    var ledgers: map<nat, Ledger>
    const loopbackAudioSupported: bool

    ghost function LineOf(w: nat): Line
      reads this
    {
      var queue := if w in pendingRequests then pendingRequests[w] else [];
      var l := LedgerOf(w);
      Line(queue, l.questions, l.tasks, l.entered, l.replies, l.dropped)
    }

    function LedgerOf(w: nat): Ledger
      reads this`ledgers
    {
      if w in ledgers then ledgers[w] else CLEAN
    }

    constructor (loopbackAudioSupported: bool)
      ensures forall w :: LineOf(w) == EMPTY
    {
      pendingRequests, ledgers, this.loopbackAudioSupported := map[], map[], loopbackAudioSupported;
    }

    method ProcessMediaAccessRequest(w: nat, request: Request, media: Option<DesktopId>, page: Page,
                                     chosen: Option<DesktopId>)
      returns (outcome: Outcome)
      modifies this
      ensures outcome.Queued? <==> MustAsk(request, media, page)
      ensures outcome.NotSupported? <==> request.Flags() == {}
      ensures outcome.Streamed? <==> && IsDesktopVideo(request.video)
                                     && page.screenCaptureEnabled && page.originIsSecure
                                     && request.videoIds != [] && request.videoIds[0] != "" && chosen.Some?
      ensures outcome.Streamed? ==> IsCaptureOf(request, chosen.value, loopbackAudioSupported, outcome.devices)
      ensures LineOf(w) == if outcome.Queued? then Enqueue(old(LineOf(w)), request, media) else old(LineOf(w))
      ensures forall o :: o != w ==> LineOf(o) == old(LineOf(o))
    {
      var flags := RequestFlags(request.audio, request.video);
      RequestFlagsExactlyWhen(request.audio, request.video);
      if flags == {} { return NotSupported; }
      if DesktopVideo in flags {
        if !page.screenCaptureEnabled || !page.originIsSecure || (media.None? && !HasDeviceId(request)) {
          return InvalidState;
        }
        if HasDeviceId(request) {
          CapturedDesktop(request, chosen, loopbackAudioSupported);
          return DesktopCapture(request, chosen, loopbackAudioSupported);
        }
      }
      var p := EnqueueMediaAccessRequest(w, request, media);
      RequestMediaPermissions(w, p);
      outcome := Queued;
    }

    method EnqueueMediaAccessRequest(w: nat, request: Request, media: Option<DesktopId>) returns (p: Pending)
      modifies this
      ensures p == Pending(old(LedgerOf(w)).entered, request, media)
      ensures var l := old(LineOf(w)); LineOf(w) == l.(queue := l.queue + [p], entered := l.entered + 1)
      ensures forall o :: o != w ==> LineOf(o) == old(LineOf(o))
    {
      var queue := if w in pendingRequests then pendingRequests[w] else [];
      p := Pending(LedgerOf(w).entered, request, media);
      pendingRequests := pendingRequests[w := queue + [p]];
      ledgers := ledgers[w := LedgerOf(w).(entered := LedgerOf(w).entered + 1)];
    }

    /** The call into the permission manager. */
    method RequestMediaPermissions(w: nat, p: Pending)
      modifies this`ledgers
      ensures LineOf(w) == old(LineOf(w).(questions := LineOf(w).questions + [QuestionOf(p)]))
      ensures forall o :: o != w ==> LineOf(o) == old(LineOf(o))
    {
      ledgers := ledgers[w := LedgerOf(w).(questions := LedgerOf(w).questions + [QuestionOf(p)])];
    }

    /** The answer to the i-th question. */
    method HandleMediaAccessPermissionResponse(w: nat, i: nat, authorised: Flags, platform: Platform)
      returns (devices: Option<StreamDevices>)
      requires i < |LedgerOf(w).questions|
      modifies this
      ensures var step := Responded(i, old(LedgerOf(w)).questions[i].origin, authorised, platform, devices);
              Enabled(old(LineOf(w)), step) && LineOf(w) == MediaQueue.Apply(old(LineOf(w)), step)
      ensures forall o :: o != w ==> LineOf(o) == old(LineOf(o))
    {
      var ledger := LedgerOf(w);
      var securityOrigin := ledger.questions[i].origin;
      ledgers := ledgers[w := ledger.(questions := Without(ledger.questions, i))];
      devices := None;
      if w !in pendingRequests || pendingRequests[w] == [] { return; }
      var queue := pendingRequests[w];
      devices := DevicesFor(queue[0].request, queue[0].media, securityOrigin, authorised, platform);
      pendingRequests := pendingRequests[w := queue[1..]];
      if queue[1..] != [] {
        ledgers := ledgers[w := LedgerOf(w).(tasks := LedgerOf(w).tasks + 1)];
      }
      var reply := Reply(queue[0].ticket, ledger.questions[i].ticket, devices);
      ledgers := ledgers[w := LedgerOf(w).(replies := LedgerOf(w).replies + [reply])];
    }

    /** A posted task. */
    method ProcessQueuedAccessRequest(w: nat)
      requires LedgerOf(w).tasks > 0
      modifies this`ledgers
      ensures LineOf(w) == MediaQueue.Apply(old(LineOf(w)), TaskRun)
      ensures forall o :: o != w ==> LineOf(o) == old(LineOf(o))
    {
      ledgers := ledgers[w := LedgerOf(w).(tasks := LedgerOf(w).tasks - 1)];
      if w !in pendingRequests || pendingRequests[w] == [] { return; }
      RequestMediaPermissions(w, pendingRequests[w][0]);
    }

    method WebContentsDestroyed(w: nat)
      modifies this
      ensures w !in pendingRequests
      ensures LineOf(w) == MediaQueue.Apply(old(LineOf(w)), Destroyed)
      ensures forall o :: o != w ==> LineOf(o) == old(LineOf(o))
    {
      var queue := if w in pendingRequests then pendingRequests[w] else [];
      ledgers := ledgers[w := LedgerOf(w).(dropped := LedgerOf(w).dropped + set k | k in Tickets(queue))];
      pendingRequests := pendingRequests - {w};
    }

    /** A request that changes to closing leaves whichever queue it is in, and no other does. */
    method UpdateMediaRequestState(key: Key, closing: bool) returns (found: Option<(nat, nat)>)
      modifies this
      ensures found.Some? <==> closing && exists w: nat :: HasKey(old(LineOf(w)).queue, key)
      ensures found == None ==> forall w :: LineOf(w) == old(LineOf(w))
      ensures found.Some? ==>
                var (w, i) := found.value;
                && FirstWithKey(old(LineOf(w)).queue, key, i)
                && (forall o: nat :: o < w ==> !HasKey(old(LineOf(o)).queue, key))
                && LineOf(w) == MediaQueue.Apply(old(LineOf(w)), Closed(i))
                && forall o :: o != w ==> LineOf(o) == old(LineOf(o))
    {
      found := None;
      if !closing { return; }
      var left := pendingRequests.Keys;
      while left != {}
        invariant left <= pendingRequests.Keys && pendingRequests == old(pendingRequests) && ledgers == old(ledgers)
        invariant forall o, l :: o in pendingRequests.Keys - left && l in left ==> o < l
        invariant forall o :: o in pendingRequests.Keys - left ==> !HasKey(pendingRequests[o], key)
        decreases left
      {
        var w := Least(left);
        var i := PositionOf(pendingRequests[w], key);
        if i < |pendingRequests[w]| {
          assert HasKey(old(LineOf(w)).queue, key);
          ledgers := ledgers[w := LedgerOf(w).(dropped := LedgerOf(w).dropped + {pendingRequests[w][i].ticket})];
          pendingRequests := pendingRequests[w := Without(pendingRequests[w], i)];
          return Some((w, i));
        }
        forall o, l | o in pendingRequests.Keys - (left - {w}) && l in left - {w} ensures o < l {
          if o != w { assert o in pendingRequests.Keys - left && l in left; }
        }
        left := left - {w};
      }
    }
  }

  ghost predicate HasKey(queue: seq<Pending>, key: Key) {
    exists k :: 0 <= k < |queue| && queue[k].request.key == key
  }

  ghost predicate FirstWithKey(queue: seq<Pending>, key: Key, i: nat) {
    && i < |queue| && queue[i].request.key == key
    && forall k :: 0 <= k < i ==> queue[k].request.key != key
  }

  method PositionOf(queue: seq<Pending>, key: Key) returns (i: nat)
    ensures HasKey(queue, key) ==> FirstWithKey(queue, key, i)
    ensures !HasKey(queue, key) ==> i == |queue|
  {
    i := 0;
    while i < |queue|
      invariant i <= |queue| && forall k :: 0 <= k < i ==> queue[k].request.key != key
    {
      if queue[i].request.key.process == key.process && queue[i].request.key.frame == key.frame
         && queue[i].request.key.page == key.page { return; }
      i := i + 1;
    }
  }

  /** The first of the keys, in the order of the map. */
  method Least(keys: set<nat>) returns (w: nat)
    requires keys != {}
    ensures w in keys && forall o :: o in keys ==> w <= o
  {
    w := Next(keys);
    var left := keys - {w};
    while left != {}
      invariant w in keys && left <= keys && forall o :: o in keys && o !in left ==> w <= o
      decreases left
    {
      var o := Next(left);
      if o < w { w := o; }
      left := left - {o};
    }
  }
}
