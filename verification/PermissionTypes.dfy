/** The permission types and states of Qt and Blink and the conversions between them
    (src/core/permission_manager_qt.cpp:35-169 and 200-215,
    src/core/api/qwebenginepermission.cpp:277-297). */
module PermissionTypes {

  datatype QtType =
    | Unsupported
    | MediaAudioCapture
    | MediaVideoCapture
    | MediaAudioVideoCapture
    | DesktopVideoCapture
    | DesktopAudioVideoCapture
    | MouseLock
    | Notifications
    | Geolocation
    | ClipboardReadWrite
    | LocalFontsAccess

  /** `OtherType` stands for the types Qt does not support, other than NUM. */
  datatype BlinkType =
    | GEOLOCATION
    | AUDIO_CAPTURE
    | VIDEO_CAPTURE
    | DISPLAY_CAPTURE
    | CLIPBOARD_READ_WRITE
    | CLIPBOARD_SANITIZED_WRITE
    | NOTIFICATIONS
    | LOCAL_FONTS
    | POINTER_LOCK
    | NUM
    | OtherType(code: nat)

  datatype Status = ASK | GRANTED | DENIED

  datatype State = Invalid | Ask | Granted | Denied

  function ToQt(t: BlinkType): QtType {
    match t
    case GEOLOCATION => Geolocation
    case AUDIO_CAPTURE => MediaAudioCapture
    case VIDEO_CAPTURE => MediaVideoCapture
    case DISPLAY_CAPTURE => DesktopVideoCapture
    case CLIPBOARD_READ_WRITE => ClipboardReadWrite
    case CLIPBOARD_SANITIZED_WRITE => ClipboardReadWrite
    case NOTIFICATIONS => Notifications
    case LOCAL_FONTS => LocalFontsAccess
    case POINTER_LOCK => MouseLock
    case NUM => Unsupported
    case OtherType(_) => Unsupported
  }

  /** MediaAudioVideoCapture has no Blink counterpart; callers split it first. */
  function ToBlink(q: QtType): BlinkType
    requires q != MediaAudioVideoCapture
  {
    match q
    case Notifications => NOTIFICATIONS
    case Geolocation => GEOLOCATION
    case MediaAudioCapture => AUDIO_CAPTURE
    case MediaVideoCapture => VIDEO_CAPTURE
    case DesktopVideoCapture => DISPLAY_CAPTURE
    case DesktopAudioVideoCapture => DISPLAY_CAPTURE
    case ClipboardReadWrite => CLIPBOARD_READ_WRITE
    case LocalFontsAccess => LOCAL_FONTS
    case MouseLock => POINTER_LOCK
    case Unsupported => NUM
  }

  predicate Supported(t: BlinkType) {
    ToQt(t) != Unsupported
  }

  /** Merged and unsupported types filtered out (lines 714 and 749). */
  function Normal(t: BlinkType): (r: BlinkType)
    ensures ToQt(r) == ToQt(t)
    ensures r == t <==> t != CLIPBOARD_SANITIZED_WRITE && !t.OtherType?
  {
    ToBlink(ToQt(t))
  }

  function ToState(s: Status): State {
    match s case ASK => Ask case GRANTED => Granted case DENIED => Denied
  }

  function ToStatus(s: State): Status {
    match s case Invalid => ASK case Ask => ASK case Granted => GRANTED case Denied => DENIED
  }

  predicate IsPersistent(q: QtType) {
    q == Notifications || q == Geolocation || q == ClipboardReadWrite || q == LocalFontsAccess
  }

  /** The two settings attributes that getStatusFromSettings tests. */
  datatype Settings = Settings(canPaste: bool, canAccessClipboard: bool)

  function StatusFromSettings(t: BlinkType, s: Settings): Status {
    match t
    case CLIPBOARD_READ_WRITE => if s.canPaste && s.canAccessClipboard then GRANTED else ASK
    case CLIPBOARD_SANITIZED_WRITE => if s.canAccessClipboard then GRANTED else ASK
    case _ => ASK
  }

  /** Each type stands for the one of the same name, the two clipboard types for one, and no other is supported. */
  lemma TypesCorrespond(t: BlinkType)
    ensures Supported(t) <==> t != NUM && !t.OtherType?
    ensures ToQt(t) == Geolocation <==> t == GEOLOCATION
    ensures ToQt(t) == Notifications <==> t == NOTIFICATIONS
    ensures ToQt(t) == LocalFontsAccess <==> t == LOCAL_FONTS
    ensures ToQt(t) == MouseLock <==> t == POINTER_LOCK
    ensures ToQt(t) == ClipboardReadWrite <==> t == CLIPBOARD_READ_WRITE || t == CLIPBOARD_SANITIZED_WRITE
    ensures ToQt(t) == MediaAudioCapture <==> t == AUDIO_CAPTURE
    ensures ToQt(t) == MediaVideoCapture <==> t == VIDEO_CAPTURE
    ensures ToQt(t) == DesktopVideoCapture <==> t == DISPLAY_CAPTURE
    ensures ToQt(t) != MediaAudioVideoCapture && ToQt(t) != DesktopAudioVideoCapture
  {
  }

  /** Back and forth: every Qt type but the two joint ones comes back. */
  lemma QtTypeReturns(q: QtType)
    requires q != MediaAudioVideoCapture
    ensures ToQt(ToBlink(q)) == if q == DesktopAudioVideoCapture then DesktopVideoCapture else q
  {
  }
}
