/** The features the user is prompted for when permissions are requested
    (src/core/permission_manager_qt.cpp:121-144 and 688-691). */
module PermissionPrompts {
  import opened PermissionTypes

  /** The features the user is prompted for: two screen captures stand for screen and sound, a
      microphone and a camera are asked for together. */
  function Prompts(types: seq<BlinkType>): multiset<QtType> {
    MergeMedia(MergeDesktop(Features(types)))
  }

  /** Lines 131-134. */
  function MergeDesktop(features: multiset<QtType>): multiset<QtType> {
    if features[DesktopVideoCapture] > 1
    then features[DesktopVideoCapture := 0] + multiset{DesktopAudioVideoCapture} else features
  }

  /** Lines 136-141. */
  function MergeMedia(features: multiset<QtType>): multiset<QtType> {
    if MediaAudioCapture in features && MediaVideoCapture in features
    then features[MediaAudioCapture := 0][MediaVideoCapture := 0] + multiset{MediaAudioVideoCapture} else features
  }

  function Features(types: seq<BlinkType>): multiset<QtType>
    decreases |types|
  {
    if types == [] then multiset{} else multiset{ToQt(types[0])} + Features(types[1..])
  }

  /** The types that a decision about a feature settles (lines 288-292 and 317). */
  function Settles(q: QtType): set<BlinkType> {
    if q == MediaAudioVideoCapture then {AUDIO_CAPTURE, VIDEO_CAPTURE} else {ToBlink(q)}
  }

  lemma {:induction false} FeaturesAre(types: seq<BlinkType>, q: QtType)
    ensures q in Features(types) <==> exists k :: k in types && ToQt(k) == q
    decreases |types|
  {
    if types != [] {
      assert types == [types[0]] + types[1..];
      FeaturesAre(types[1..], q);
    }
  }

  /** The type is among those asked for, once merged and unsupported types are filtered out. */
  ghost predicate AskedFor(types: seq<BlinkType>, t: BlinkType) {
    exists k :: k in types && Normal(k) == t
  }

  /** A decision about one of the features settles the type. */
  ghost predicate Settled(features: multiset<QtType>, t: BlinkType) {
    exists q :: q in features && t in Settles(q)
  }

  lemma MergeDesktopSettles(features: multiset<QtType>, t: BlinkType)
    ensures Settled(MergeDesktop(features), t) <==> Settled(features, t)
  {
    var merged := MergeDesktop(features);
    if q :| q in features && t in Settles(q) {
      assert (if q in merged then q else DesktopAudioVideoCapture) in merged;
    }
    if q :| q in merged && t in Settles(q) {
      assert (if q in features then q else DesktopVideoCapture) in features;
    }
  }

  lemma MergeMediaSettles(features: multiset<QtType>, t: BlinkType)
    ensures Settled(MergeMedia(features), t) <==> Settled(features, t)
  {
    var merged := MergeMedia(features);
    if q :| q in features && t in Settles(q) {
      assert (if q in merged then q else MediaAudioVideoCapture) in merged;
    }
    if q :| q in merged && t in Settles(q) {
      var half := if t == AUDIO_CAPTURE then MediaAudioCapture else MediaVideoCapture;
      assert (if q in features then q else half) in features;
    }
  }

  /** Deciding every prompt settles exactly the requested types, whatever the merging did. */
  lemma PromptsSettleRequest(types: seq<BlinkType>, t: BlinkType)
    ensures Settled(Prompts(types), t) <==> AskedFor(types, t)
  {
    MergeDesktopSettles(Features(types), t);
    MergeMediaSettles(MergeDesktop(Features(types)), t);
    FeaturesSettle(types, t);
  }

  lemma FeaturesSettle(types: seq<BlinkType>, t: BlinkType)
    ensures Settled(Features(types), t) <==> AskedFor(types, t)
  {
    if q :| q in Features(types) && t in Settles(q) {
      FeatureRequested(types, q, t);
    }
    if k :| k in types && Normal(k) == t {
      FeaturesAre(types, ToQt(k));
      assert t in Settles(ToQt(k));
    }
  }

  lemma FeatureRequested(types: seq<BlinkType>, q: QtType, t: BlinkType)
    requires q in Features(types) && t in Settles(q)
    ensures AskedFor(types, t)
  {
    FeaturesAre(types, q);
    var k :| k in types && ToQt(k) == q;
    assert Normal(k) == t;
  }

  /** A feature that one Blink type stands for is there as often as that type. */
  lemma {:induction false} FeatureCount(types: seq<BlinkType>, q: QtType, t: BlinkType)
    requires forall k :: ToQt(k) == q <==> k == t
    ensures Features(types)[q] == multiset(types)[t]
    decreases |types|
  {
    if types != [] {
      var head, tail := types[0], types[1..];
      FeatureCount(tail, q, t);
      assert types == [head] + tail;
      assert multiset(types)[t] == multiset{head}[t] + multiset(tail)[t];
    }
  }

  lemma FeatureCounts(types: seq<BlinkType>)
    ensures Features(types)[MediaAudioCapture] == multiset(types)[AUDIO_CAPTURE]
    ensures Features(types)[MediaVideoCapture] == multiset(types)[VIDEO_CAPTURE]
    ensures Features(types)[DesktopVideoCapture] == multiset(types)[DISPLAY_CAPTURE]
    ensures DesktopAudioVideoCapture !in Features(types) && MediaAudioVideoCapture !in Features(types)
  {
    FeatureCount(types, MediaAudioCapture, AUDIO_CAPTURE);
    FeatureCount(types, MediaVideoCapture, VIDEO_CAPTURE);
    FeatureCount(types, DesktopVideoCapture, DISPLAY_CAPTURE);
    FeaturesAre(types, DesktopAudioVideoCapture);
  }

  /** How often each prompt is made. Microphone and camera are one prompt as soon as both are requested, two screen
      captures are one for screen and sound; all others are made as often as requested. */
  function Count(types: seq<BlinkType>, q: QtType): nat {
    var joint := AUDIO_CAPTURE in types && VIDEO_CAPTURE in types;
    var screens := multiset(types)[DISPLAY_CAPTURE];
    match q
    case MediaAudioVideoCapture => if joint then 1 else 0
    case MediaAudioCapture => if joint then 0 else multiset(types)[AUDIO_CAPTURE]
    case MediaVideoCapture => if joint then 0 else multiset(types)[VIDEO_CAPTURE]
    case DesktopAudioVideoCapture => if screens > 1 then 1 else 0
    case DesktopVideoCapture => if screens > 1 then 0 else screens
    case ClipboardReadWrite => multiset(types)[CLIPBOARD_READ_WRITE] + multiset(types)[CLIPBOARD_SANITIZED_WRITE]
    case Geolocation => multiset(types)[GEOLOCATION]
    case Notifications => multiset(types)[NOTIFICATIONS]
    case LocalFontsAccess => multiset(types)[LOCAL_FONTS]
    case MouseLock => multiset(types)[POINTER_LOCK]
    case Unsupported => Features(types)[Unsupported]
  }

  lemma {:induction false} ClipboardCount(types: seq<BlinkType>)
    ensures Features(types)[ClipboardReadWrite]
         == multiset(types)[CLIPBOARD_READ_WRITE] + multiset(types)[CLIPBOARD_SANITIZED_WRITE]
    decreases |types|
  {
    if types != [] {
      var head, tail := types[0], types[1..];
      ClipboardCount(tail);
      assert types == [head] + tail;
      CountFirst(head, tail, CLIPBOARD_READ_WRITE);
      CountFirst(head, tail, CLIPBOARD_SANITIZED_WRITE);
    }
  }

  lemma CountFirst(head: BlinkType, tail: seq<BlinkType>, t: BlinkType)
    ensures multiset([head] + tail)[t] == (if head == t then 1 else 0) + multiset(tail)[t]
  {
  }

  lemma OtherCounts(types: seq<BlinkType>, q: QtType)
    requires q in {Geolocation, Notifications, LocalFontsAccess, MouseLock, ClipboardReadWrite}
    ensures Features(types)[q] == Count(types, q)
  {
    match q
    case Geolocation => FeatureCount(types, q, GEOLOCATION);
    case Notifications => FeatureCount(types, q, NOTIFICATIONS);
    case LocalFontsAccess => FeatureCount(types, q, LOCAL_FONTS);
    case MouseLock => FeatureCount(types, q, POINTER_LOCK);
    case ClipboardReadWrite => ClipboardCount(types);
  }

  lemma MergeDesktopCounts(features: multiset<QtType>, q: QtType)
    requires DesktopAudioVideoCapture !in features
    ensures MergeDesktop(features)[q]
         == if q == DesktopVideoCapture then if features[q] > 1 then 0 else features[q]
            else if q == DesktopAudioVideoCapture then if features[DesktopVideoCapture] > 1 then 1 else 0
            else features[q]
  {
  }

  predicate Joint(features: multiset<QtType>) {
    features[MediaAudioCapture] > 0 && features[MediaVideoCapture] > 0
  }

  lemma MergeMediaCounts(features: multiset<QtType>, q: QtType)
    requires MediaAudioVideoCapture !in features
    ensures MergeMedia(features)[q]
         == if q == MediaAudioCapture || q == MediaVideoCapture then if Joint(features) then 0 else features[q]
            else if q == MediaAudioVideoCapture then if Joint(features) then 1 else 0
            else features[q]
  {
  }

  lemma MergedCounts(features: multiset<QtType>, q: QtType)
    requires DesktopAudioVideoCapture !in features && MediaAudioVideoCapture !in features
    ensures MergeMedia(MergeDesktop(features))[q]
         == if q in {MediaAudioCapture, MediaVideoCapture, MediaAudioVideoCapture} then MergeMedia(features)[q]
            else MergeDesktop(features)[q]
  {
    MergeDesktopCounts(features, MediaAudioCapture);
    MergeDesktopCounts(features, MediaVideoCapture);
    MergeDesktopCounts(features, MediaAudioVideoCapture);
    MergeMediaCounts(features, q);
    MergeMediaCounts(MergeDesktop(features), q);
    MergeDesktopCounts(features, q);
  }

  lemma PromptCounts(types: seq<BlinkType>, q: QtType)
    ensures Prompts(types)[q] == Count(types, q)
  {
    FeatureCounts(types);
    CountsOf(types, Features(types), q);
  }

  lemma CountsOf(types: seq<BlinkType>, features: multiset<QtType>, q: QtType)
    requires features == Features(types) && DesktopAudioVideoCapture !in features && MediaAudioVideoCapture !in features
    requires features[MediaAudioCapture] == multiset(types)[AUDIO_CAPTURE]
    requires features[MediaVideoCapture] == multiset(types)[VIDEO_CAPTURE]
    requires features[DesktopVideoCapture] == multiset(types)[DISPLAY_CAPTURE]
    ensures MergeMedia(MergeDesktop(features))[q] == Count(types, q)
  {
    MergedCounts(features, q);
    MergeDesktopCounts(features, q);
    MergeMediaCounts(features, q);
    if q in {Geolocation, Notifications, LocalFontsAccess, MouseLock, ClipboardReadWrite} { OtherCounts(types, q); }
    assert AUDIO_CAPTURE in types <==> multiset(types)[AUDIO_CAPTURE] > 0;
    assert VIDEO_CAPTURE in types <==> multiset(types)[VIDEO_CAPTURE] > 0;
  }

  /** A microphone and a camera are asked for together and then not apart; two or more screen captures
      are one prompt, for screen and sound. */
  lemma PromptsMerge(types: seq<BlinkType>)
    ensures var prompts := Prompts(types);
            && (MediaAudioVideoCapture in prompts <==> AUDIO_CAPTURE in types && VIDEO_CAPTURE in types)
            && (MediaAudioVideoCapture in prompts ==> MediaAudioCapture !in prompts && MediaVideoCapture !in prompts)
            && (DesktopAudioVideoCapture in prompts <==> multiset(types)[DISPLAY_CAPTURE] > 1)
            && prompts[DesktopVideoCapture] + prompts[DesktopAudioVideoCapture] <= 1
            && (DISPLAY_CAPTURE in types ==> prompts[DesktopVideoCapture] + prompts[DesktopAudioVideoCapture] == 1)
  {
    PromptCounts(types, MediaAudioVideoCapture);
    PromptCounts(types, MediaAudioCapture);
    PromptCounts(types, MediaVideoCapture);
    PromptCounts(types, DesktopAudioVideoCapture);
    PromptCounts(types, DesktopVideoCapture);
    assert DISPLAY_CAPTURE in types <==> multiset(types)[DISPLAY_CAPTURE] > 0;
  }
}
