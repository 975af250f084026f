/** Which devices an answered media request is given
    (src/core/media_capture_devices_dispatcher.cpp:55-64, 223-255, 296-306, 358-433 and 593-618). */
module MediaDevices {
  import opened Wrappers
  import opened MediaFlags

  /** What getDefaultDevices and getDevicesForDesktopCapture name a device by. */
  datatype DeviceId = Named(name: string) | TabAudio(tab: string, mute: bool) | Loopback(mute: bool)

  datatype Device = Device(kind: StreamType, id: DeviceId)

  datatype StreamDevices = StreamDevices(audio: Option<Device>, video: Option<Device>)

  datatype DesktopKind = Screen | Window | WebContents

  /** A DesktopMediaID that is not null. */
  datatype DesktopId = DesktopId(kind: DesktopKind, text: string)

  datatype Origin = Origin(scheme: string, host: string, port: int)

  /** What identifies a request when it is closed. */
  datatype Key = Key(process: int, frame: int, page: int)

  datatype Request = Request(
    key: Key,
    audio: StreamType,
    video: StreamType,
    pepperOnly: bool,
    securityOrigin: Origin,
    urlOrigin: Origin,
    audioIds: seq<string>,
    videoIds: seq<string>,
    disableLocalEcho: bool)
  {
    function Flags(): Flags { RequestFlags(audio, video) }
  }

  /** What the platform offers. */
  datatype Platform = Platform(audioDevices: seq<Device>, videoDevices: seq<Device>, loopback: bool)

  // ---- picking a device ----

  ghost predicate HasId(devices: seq<Device>, name: string) {
    exists i :: 0 <= i < |devices| && devices[i].id == Named(name)
  }

  /** The first device with that id. */
  ghost predicate FirstWithId(devices: seq<Device>, name: string, k: int) {
    && 0 <= k < |devices| && devices[k].id == Named(name)
    && forall i :: 0 <= i < k ==> devices[i].id != Named(name)
  }

  method FindDeviceWithId(devices: seq<Device>, name: string) returns (device: Option<Device>)
    ensures device.None? <==> !HasId(devices, name)
    ensures device.Some? ==> exists k :: FirstWithId(devices, name, k) && devices[k] == device.value
  {
    for i := 0 to |devices|
      invariant forall j :: 0 <= j < i ==> devices[j].id != Named(name)
    {
      if devices[i].id == Named(name) {
        assert FirstWithId(devices, name, i);
        return Some(devices[i]);
      }
    }
    device := None;
  }

  /** The device with the requested id, or else the first one there is. */
  ghost predicate Chosen(devices: seq<Device>, name: string, device: Option<Device>) {
    if HasId(devices, name) then device.Some? && exists k :: FirstWithId(devices, name, k) && devices[k] == device.value
    else if devices == [] then device == None
    else device == Some(devices[0])
  }

  method ChooseDevice(devices: seq<Device>, name: string) returns (device: Option<Device>)
    ensures Chosen(devices, name, device)
  {
    device := FindDeviceWithId(devices, name);
    if device == None && devices != [] {
      device := Some(devices[0]);
    }
  }

  /** There is one choice, it is one of the devices, and there is none only if there are no devices. */
  lemma ChosenIsUnique(devices: seq<Device>, name: string, a: Option<Device>, b: Option<Device>)
    requires Chosen(devices, name, a) && Chosen(devices, name, b)
    ensures a == b && (a == None <==> devices == []) && (a.Some? ==> a.value in devices)
  {
    if HasId(devices, name) {
      var i :| FirstWithId(devices, name, i) && devices[i] == a.value;
      var j :| FirstWithId(devices, name, j) && devices[j] == b.value;
      assert i <= j && j <= i;
    }
  }

  function RequestedId(pepperOnly: bool, ids: seq<string>): string {
    if pepperOnly || ids == [] then "" else ids[0]
  }

  // ---- answering a request ----

  /** The flags acted on (line 382). */
  function FinalFlags(request: Request, authorised: Flags): Flags {
    request.Flags() * authorised
  }

  /** Lines 392-405: a microphone or a camera. */
  ghost predicate DefaultDevices(request: Request, flags: Flags, platform: Platform, d: StreamDevices) {
    && (if Microphone in flags
        then Chosen(platform.audioDevices, RequestedId(request.pepperOnly, request.audioIds), d.audio)
        else d.audio == None)
    && (if Camera in flags
        then Chosen(platform.videoDevices, RequestedId(request.pepperOnly, request.videoIds), d.video)
        else d.video == None)
  }

  /** getDevicesForDesktopCapture. */
  function DesktopDevices(request: Request, id: DesktopId, captureAudio: bool): StreamDevices {
    StreamDevices(
      if !captureAudio then None
      else if id.kind.WebContents? then Some(Device(request.audio, TabAudio(id.text, request.disableLocalEcho)))
      else Some(Device(request.audio, Loopback(request.disableLocalEcho))),
      Some(Device(request.video, Named(id.text))))
  }

  /** What a request may be answered with: no devices for INVALID_STATE, otherwise OK with devices. */
  ghost predicate Answers(request: Request, media: Option<DesktopId>, securityOrigin: Origin, authorised: Flags,
                          platform: Platform, r: Option<StreamDevices>)
  {
    var flags := FinalFlags(request, authorised);
    if securityOrigin != request.securityOrigin then r == None
    else if Microphone in flags || Camera in flags then r.Some? && DefaultDevices(request, flags, platform, r.value)
    else if DesktopVideo in flags && media.Some? then
      r == Some(DesktopDevices(request, media.value, DesktopAudio in flags && platform.loopback))
    else r == None
  }

  /** Lines 593-618. */
  method GetDefaultDevices(request: Request, audio: bool, video: bool, platform: Platform) returns (d: StreamDevices)
    ensures DefaultDevices(request, (if audio then {Microphone} else {}) + (if video then {Camera} else {}),
                           platform, d)
  {
    d := StreamDevices(None, None);
    if audio {
      var device := ChooseDevice(platform.audioDevices, RequestedId(request.pepperOnly, request.audioIds));
      d := d.(audio := device);
    }
    if video {
      var device := ChooseDevice(platform.videoDevices, RequestedId(request.pepperOnly, request.videoIds));
      d := d.(video := device);
    }
  }

  /** Lines 370-413. */
  method DevicesFor(request: Request, media: Option<DesktopId>, securityOrigin: Origin, authorised: Flags,
                    platform: Platform)
    returns (r: Option<StreamDevices>)
    ensures Answers(request, media, securityOrigin, authorised, platform, r)
  {
    var securityOriginsMatch := request.securityOrigin.host == securityOrigin.host
                                && request.securityOrigin.scheme == securityOrigin.scheme
                                && request.securityOrigin.port == securityOrigin.port;
    var finalFlags := request.Flags() * authorised;
    if !securityOriginsMatch { return None; }
    if Microphone in finalFlags || Camera in finalFlags {
      var d := GetDefaultDevices(request, Microphone in finalFlags, Camera in finalFlags, platform);
      r := Some(d);
    } else if DesktopVideo in finalFlags && media.Some? {
      r := Some(DesktopDevices(request, media.value, DesktopAudio in finalFlags && platform.loopback));
    } else {
      r := None;
    }
  }

  // ---- what that means ----

  /** Nothing is attached without being asked for, authorised, and from the same origin. */
  lemma AttachedWasAuthorised(request: Request, media: Option<DesktopId>, origin: Origin, authorised: Flags,
                              platform: Platform, d: StreamDevices)
    requires Answers(request, media, origin, authorised, platform, Some(d))
    ensures origin == request.securityOrigin
    ensures d.audio.Some? ==> exists f :: f in {Microphone, DesktopAudio} && f in request.Flags() && f in authorised
    ensures d.video.Some? ==> exists f :: f in {Camera, DesktopVideo} && f in request.Flags() && f in authorised
  {
    RequestFlagsKinds(request.audio, request.video);
    var flags := FinalFlags(request, authorised);
    assert Microphone in flags || Camera in flags || DesktopVideo in flags;
    assert d.audio.Some? ==> Microphone in flags || DesktopAudio in flags;
    assert d.video.Some? ==> Camera in flags || DesktopVideo in flags;
  }

  /** A request for devices gets a microphone exactly when its stream types ask for one, it was authorised, comes
      from the same origin and there is one; and it is one of the platform's. */
  lemma MicrophoneAttached(request: Request, media: Option<DesktopId>, origin: Origin, authorised: Flags,
                           platform: Platform, r: Option<StreamDevices>)
    requires Answers(request, media, origin, authorised, platform, r)
    requires !IsDesktopVideo(request.video)
    ensures r.Some? && r.value.audio.Some?
       <==> && origin == request.securityOrigin && Microphone in authorised && platform.audioDevices != []
            && request.audio == DEVICE_AUDIO_CAPTURE && request.video in {DEVICE_VIDEO_CAPTURE, NO_SERVICE}
    ensures r.Some? && r.value.audio.Some? ==>
              Picked(platform.audioDevices, request.pepperOnly, request.audioIds, r.value.audio.value)
  {
    RequestFlagsExactlyWhen(request.audio, request.video);
    if r.Some? && Microphone in FinalFlags(request, authorised) {
      ChosenIsPicked(platform.audioDevices, request.pepperOnly, request.audioIds, r.value.audio);
    }
  }

  /** The same for a camera. */
  lemma CameraAttached(request: Request, media: Option<DesktopId>, origin: Origin, authorised: Flags,
                       platform: Platform, r: Option<StreamDevices>)
    requires Answers(request, media, origin, authorised, platform, r)
    requires !IsDesktopVideo(request.video)
    ensures r.Some? && r.value.video.Some?
       <==> && origin == request.securityOrigin && Camera in authorised && platform.videoDevices != []
            && request.video == DEVICE_VIDEO_CAPTURE && request.audio in {DEVICE_AUDIO_CAPTURE, NO_SERVICE}
    ensures r.Some? && r.value.video.Some? ==>
              Picked(platform.videoDevices, request.pepperOnly, request.videoIds, r.value.video.value)
  {
    RequestFlagsExactlyWhen(request.audio, request.video);
    if r.Some? && Camera in FinalFlags(request, authorised) {
      ChosenIsPicked(platform.videoDevices, request.pepperOnly, request.videoIds, r.value.video);
    }
  }

  /** The device the request names first, if there is one with that id, or else the platform's first; a pepper
      request and one that names none get the first, unless some device has the empty id. */
  ghost predicate Picked(devices: seq<Device>, pepperOnly: bool, ids: seq<string>, device: Device) {
    && device in devices
    && (!pepperOnly && ids != [] && HasId(devices, ids[0]) ==> device.id == Named(ids[0]))
    && (!pepperOnly && ids != [] && !HasId(devices, ids[0]) ==> device == devices[0])
    && ((pepperOnly || ids == []) && !HasId(devices, "") ==> device == devices[0])
    && ((pepperOnly || ids == []) && HasId(devices, "") ==> device.id == Named(""))
  }

  lemma ChosenIsPicked(devices: seq<Device>, pepperOnly: bool, ids: seq<string>, device: Option<Device>)
    requires Chosen(devices, RequestedId(pepperOnly, ids), device)
    ensures device == None <==> devices == []
    ensures device.Some? ==> Picked(devices, pepperOnly, ids, device.value)
  {
    ChosenIsUnique(devices, RequestedId(pepperOnly, ids), device, device);
  }

  /** What an authorised request for the desktop gets: the picture of the chosen source under the request's own
      stream type; and sound, under its own stream type too, exactly if that was asked for and authorised and the
      platform can loop it back. The sound is that of the tab if a tab was chosen and else the system's, and it is
      muted locally exactly if the request disables the local echo. */
  lemma DesktopAttached(request: Request, id: DesktopId, authorised: Flags, platform: Platform,
                        r: Option<StreamDevices>)
    requires Answers(request, Some(id), request.securityOrigin, authorised, platform, r)
    requires IsDesktopVideo(request.video) && DesktopVideo in authorised
    ensures r.Some? && r.value.video == Some(Device(request.video, Named(id.text)))
    ensures r.value.audio.Some? <==> DesktopSound(request) && DesktopAudio in authorised && platform.loopback
    ensures r.value.audio.Some? ==> IsSoundOf(request, id, r.value.audio.value)
  {
    RequestFlagsExactlyWhen(request.audio, request.video);
  }

  /** The stream types ask for desktop sound along with the picture. */
  predicate DesktopSound(request: Request) {
    || (request.audio == GUM_DESKTOP_AUDIO_CAPTURE && request.video == GUM_DESKTOP_VIDEO_CAPTURE)
    || (request.audio == DISPLAY_AUDIO_CAPTURE
        && request.video in {DISPLAY_VIDEO_CAPTURE, DISPLAY_VIDEO_CAPTURE_THIS_TAB, DISPLAY_VIDEO_CAPTURE_SET})
  }

  predicate IsSoundOf(request: Request, id: DesktopId, device: Device) {
    && device.kind == request.audio
    && (device.id.TabAudio? <==> id.kind == WebContents) && (device.id.Loopback? <==> id.kind != WebContents)
    && (device.id.TabAudio? ==> device.id.tab == id.text)
    && (device.id.TabAudio? || device.id.Loopback?) && device.id.mute == request.disableLocalEcho
  }

  /** Nothing is attached for a stream the request does not have. */
  lemma AttachedHasType(request: Request, media: Option<DesktopId>, origin: Origin, authorised: Flags,
                        platform: Platform, d: StreamDevices)
    requires Answers(request, media, origin, authorised, platform, Some(d))
    ensures d.audio.Some? ==> request.audio != NO_SERVICE
    ensures d.video.Some? ==> request.video != NO_SERVICE
  {
    RequestFlagsExactlyWhen(request.audio, request.video);
  }

  /** A request is answered with OK exactly if the answer comes from its origin and grants it a device it asked for,
      or the desktop it asked for when one was chosen. */
  lemma AnsweredOkExactlyWhen(request: Request, media: Option<DesktopId>, origin: Origin, authorised: Flags,
                              platform: Platform, r: Option<StreamDevices>)
    requires Answers(request, media, origin, authorised, platform, r)
    ensures r.Some?
       <==> && origin == request.securityOrigin
            && (|| (Microphone in request.Flags() && Microphone in authorised)
                || (Camera in request.Flags() && Camera in authorised)
                || (IsDesktopVideo(request.video) && DesktopVideo in authorised && media.Some?))
  {
    RequestFlagsExactlyWhen(request.audio, request.video);
  }

  /** The indicator of a stream demands a device (lines 304-305). */
  predicate HasDevice(d: StreamDevices) {
    d.audio.Some? || d.video.Some?
  }

  /** An OK answer meets that demand exactly when it is for the desktop or the platform has a device
      of some kind that was requested and authorised. */
  lemma IndicatorHasDevice(request: Request, media: Option<DesktopId>, origin: Origin, authorised: Flags,
                           platform: Platform, d: StreamDevices)
    requires Answers(request, media, origin, authorised, platform, Some(d))
    ensures HasDevice(d)
       <==> var flags := FinalFlags(request, authorised);
            || DesktopVideo in flags
            || (Microphone in flags && platform.audioDevices != [])
            || (Camera in flags && platform.videoDevices != [])
  {
    RequestFlagsExactlyWhen(request.audio, request.video);
    if !IsDesktopVideo(request.video) {
      MicrophoneAttached(request, media, origin, authorised, platform, Some(d));
      CameraAttached(request, media, origin, authorised, platform, Some(d));
    }
  }

  /** An authorised request for a microphone on a machine without one is answered with OK and no
      device. */
  lemma OkWithoutDevice(request: Request, authorised: Flags, platform: Platform, r: Option<StreamDevices>)
    requires request.audio == DEVICE_AUDIO_CAPTURE && request.video == NO_SERVICE
    requires Microphone in authorised && platform.audioDevices == []
    requires Answers(request, None, request.securityOrigin, authorised, platform, r)
    ensures r == Some(StreamDevices(None, None))
  {
    ChosenIsUnique(platform.audioDevices, RequestedId(request.pepperOnly, request.audioIds), r.value.audio,
                   r.value.audio);
  }
}
