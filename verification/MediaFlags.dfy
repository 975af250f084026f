/** From a media request to the permissions asked for, and from the statuses back to what may be
    captured (src/core/media_capture_devices_dispatcher.cpp:257-294 and 381-387,
    src/core/permission_manager_qt.cpp:525-579). */
module MediaFlags {
  import P = PermissionTypes
  import R = PermissionRequests
  import S = PermissionStore

  /** `OtherStream` stands for the stream types no branch mentions. */
  datatype StreamType =
    | NO_SERVICE
    | DEVICE_AUDIO_CAPTURE
    | DEVICE_VIDEO_CAPTURE
    | GUM_DESKTOP_AUDIO_CAPTURE
    | GUM_DESKTOP_VIDEO_CAPTURE
    | DISPLAY_AUDIO_CAPTURE
    | DISPLAY_VIDEO_CAPTURE
    | DISPLAY_VIDEO_CAPTURE_THIS_TAB
    | DISPLAY_VIDEO_CAPTURE_SET
    | OtherStream(code: nat)

  datatype Flag = Microphone | Camera | DesktopAudio | DesktopVideo

  type Flags = set<Flag>

  /** mediaRequestFlagsForRequest. */
  function RequestFlags(audio: StreamType, video: StreamType): Flags {
    if audio.DEVICE_AUDIO_CAPTURE? && video.DEVICE_VIDEO_CAPTURE? then {Microphone, Camera}
    else if audio.DEVICE_AUDIO_CAPTURE? && video.NO_SERVICE? then {Microphone}
    else if audio.NO_SERVICE? && video.DEVICE_VIDEO_CAPTURE? then {Camera}
    else if audio.GUM_DESKTOP_AUDIO_CAPTURE? && video.GUM_DESKTOP_VIDEO_CAPTURE? then {DesktopAudio, DesktopVideo}
    else if audio.DISPLAY_AUDIO_CAPTURE? && video.DISPLAY_VIDEO_CAPTURE? then {DesktopAudio, DesktopVideo}
    else if audio.DISPLAY_AUDIO_CAPTURE? && video.DISPLAY_VIDEO_CAPTURE_THIS_TAB? then {DesktopAudio, DesktopVideo}
    else if audio.DISPLAY_AUDIO_CAPTURE? && video.DISPLAY_VIDEO_CAPTURE_SET? then {DesktopAudio, DesktopVideo}
    else if IsDesktopVideo(video) then {DesktopVideo}
    else {}
  }

  predicate IsDesktopVideo(video: StreamType) {
    || video.GUM_DESKTOP_VIDEO_CAPTURE?
    || video.DISPLAY_VIDEO_CAPTURE?
    || video.DISPLAY_VIDEO_CAPTURE_SET?
    || video.DISPLAY_VIDEO_CAPTURE_THIS_TAB?
  }

  /** A request is for devices or for the desktop, never for both, and desktop sound comes only with
      a desktop picture and a stream type for it. */
  lemma RequestFlagsKinds(audio: StreamType, video: StreamType)
    ensures var flags := RequestFlags(audio, video);
            && (flags <= {Microphone, Camera} || flags <= {DesktopAudio, DesktopVideo})
            && (DesktopAudio in flags ==> DesktopVideo in flags && audio != NO_SERVICE)
            && (DesktopVideo in flags <==> IsDesktopVideo(video))
  {
  }

  /** What each kind of capture is asked for by: a microphone or a camera by its stream type, unless the other
      stream is of another kind; a desktop picture by any of its four types; desktop sound only along with a
      picture of the same kind. */
  lemma RequestFlagsExactlyWhen(audio: StreamType, video: StreamType)
    ensures Microphone in RequestFlags(audio, video)
       <==> audio == DEVICE_AUDIO_CAPTURE && video in {DEVICE_VIDEO_CAPTURE, NO_SERVICE}
    ensures Camera in RequestFlags(audio, video)
       <==> video == DEVICE_VIDEO_CAPTURE && audio in {DEVICE_AUDIO_CAPTURE, NO_SERVICE}
    ensures DesktopVideo in RequestFlags(audio, video)
       <==> video in {GUM_DESKTOP_VIDEO_CAPTURE, DISPLAY_VIDEO_CAPTURE, DISPLAY_VIDEO_CAPTURE_THIS_TAB,
                      DISPLAY_VIDEO_CAPTURE_SET}
    ensures DesktopAudio in RequestFlags(audio, video)
       <==> || (audio == GUM_DESKTOP_AUDIO_CAPTURE && video == GUM_DESKTOP_VIDEO_CAPTURE)
            || (audio == DISPLAY_AUDIO_CAPTURE
                && video in {DISPLAY_VIDEO_CAPTURE, DISPLAY_VIDEO_CAPTURE_THIS_TAB, DISPLAY_VIDEO_CAPTURE_SET})
  {
  }

  /** The permissions requestMediaPermissions asks for. A second screen permission stands for sound. */
  function PermissionsFor(flags: Flags): seq<P.BlinkType> {
    (if Microphone in flags then [P.AUDIO_CAPTURE] else []) +
    (if Camera in flags then [P.VIDEO_CAPTURE] else []) +
    (if DesktopAudio in flags || DesktopVideo in flags then
       if DesktopAudio in flags then [P.DISPLAY_CAPTURE, P.DISPLAY_CAPTURE] else [P.DISPLAY_CAPTURE]
     else [])
  }

  /** One permission is asked for a microphone, one for a camera, one for a desktop picture and a second for its
      sound; and nothing else. */
  lemma PermissionsAskedFor(flags: Flags, t: P.BlinkType)
    ensures multiset(PermissionsFor(flags))[t]
         == match t
            case AUDIO_CAPTURE => if Microphone in flags then 1 else 0
            case VIDEO_CAPTURE => if Camera in flags then 1 else 0
            case DISPLAY_CAPTURE => if DesktopAudio in flags then 2 else if DesktopVideo in flags then 1 else 0
            case _ => 0
  {
  }

  /** What the grant of one permission authorises. Other types do not reach the switch. */
  function FlagsOf(t: P.BlinkType): Flags {
    match t
    case AUDIO_CAPTURE => {Microphone}
    case VIDEO_CAPTURE => {Camera}
    case DISPLAY_CAPTURE => {DesktopAudio, DesktopVideo}
    case _ => {}
  }

  predicate IsMediaType(t: P.BlinkType) {
    t == P.AUDIO_CAPTURE || t == P.VIDEO_CAPTURE || t == P.DISPLAY_CAPTURE
  }

  /** The permission a flag depends on. */
  function TypeOf(flag: Flag): (t: P.BlinkType)
    ensures flag in FlagsOf(t) && IsMediaType(t)
  {
    match flag case Microphone => P.AUDIO_CAPTURE case Camera => P.VIDEO_CAPTURE case _ => P.DISPLAY_CAPTURE
  }

  lemma PermissionsAreMedia(flags: Flags, i: nat)
    requires i < |PermissionsFor(flags)|
    ensures IsMediaType(PermissionsFor(flags)[i])
  {
  }

  /** Some copy of the permission was granted. */
  ghost predicate GrantedFor(types: seq<P.BlinkType>, statuses: seq<P.Status>, t: P.BlinkType)
    requires |types| == |statuses|
  {
    exists i :: 0 <= i < |types| && types[i] == t && statuses[i] == P.GRANTED
  }

  /** The callback of requestMediaPermissions: the flags authorised by the statuses. */
  method Authorise(types: seq<P.BlinkType>, statuses: seq<P.Status>) returns (flags: Flags)
    requires |types| == |statuses|
    requires forall i :: 0 <= i < |types| ==> IsMediaType(types[i])
    ensures forall f :: f in flags <==> GrantedFor(types, statuses, TypeOf(f))
  {
    flags := {};
    for i := 0 to |statuses|
      invariant forall f :: f in flags <==> exists j :: 0 <= j < i && types[j] == TypeOf(f) && statuses[j] == P.GRANTED
    {
      if statuses[i] == P.GRANTED {
        match types[i] {
          case AUDIO_CAPTURE => flags := flags + {Microphone};
          case VIDEO_CAPTURE => flags := flags + {Camera};
          case DISPLAY_CAPTURE => flags := flags + {DesktopAudio, DesktopVideo};
          case _ => assert false;
        }
      }
    }
  }

  ghost function Authorised(types: seq<P.BlinkType>, statuses: seq<P.Status>): (flags: Flags)
    requires |types| == |statuses|
    ensures forall f :: f in flags <==> GrantedFor(types, statuses, TypeOf(f))
  {
    set f | f in {Microphone, Camera, DesktopAudio, DesktopVideo} && GrantedFor(types, statuses, TypeOf(f))
  }

  lemma PermissionAskedFor(flags: Flags, f: Flag)
    requires f in flags
    ensures exists i :: 0 <= i < |PermissionsFor(flags)| && PermissionsFor(flags)[i] == TypeOf(f)
  {
    var types := PermissionsFor(flags);
    match f {
      case Microphone => assert types[0] == P.AUDIO_CAPTURE;
      case Camera => assert types[if Microphone in flags then 1 else 0] == P.VIDEO_CAPTURE;
      case DesktopAudio => assert types[|types| - 1] == P.DISPLAY_CAPTURE;
      case DesktopVideo => assert types[|types| - 1] == P.DISPLAY_CAPTURE;
    }
  }

  /** When everything asked for is granted, everything requested is acted on. */
  lemma AllGranted(flags: Flags, statuses: seq<P.Status>)
    requires |statuses| == |PermissionsFor(flags)|
    requires forall i :: 0 <= i < |statuses| ==> statuses[i] == P.GRANTED
    ensures flags * Authorised(PermissionsFor(flags), statuses) == flags
  {
    forall f | f in flags ensures GrantedFor(PermissionsFor(flags), statuses, TypeOf(f)) {
      PermissionAskedFor(flags, f);
    }
  }

  /** The answer that one decision gives to a question waiting in the permission manager authorises all
      flags of the question if it is a grant, and none of them otherwise. */
  lemma DecisionReachesFlags(flags: Flags, c: R.Setting, s: S.Store)
    requires c.status != P.ASK
    ensures var types := PermissionsFor(flags);
            var statuses := R.Evaluate(c, s, types).0;
            statuses.Some? ==>
              && |statuses.value| == |types|
              && flags * Authorised(types, statuses.value) == if c.status == P.GRANTED then flags else {}
  {
    var types := PermissionsFor(flags);
    R.EvaluateDecides(c, s, types);
    var statuses := R.Evaluate(c, s, types).0;
    if statuses.Some? {
      forall i | 0 <= i < |types| ensures statuses.value[i] == c.status {
        PermissionsAreMedia(flags, i);
      }
      if c.status == P.GRANTED {
        AllGranted(flags, statuses.value);
      }
    }
  }
}
