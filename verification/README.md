# Proofs about Qt WebEngine's core

A Dafny model of the state machines and text algorithms in `src/core` of Qt WebEngine, with proofs of
what they keep over every run. `dafny verify dfyconfig.toml` checks the whole project.

Code that only computes is modelled by functions. Code that updates fields is modelled twice: by a
function on a value that holds those fields, and by a class whose methods update them as the C++ does.
Each method's contract ties its new state to the function of its old one, and the theorems are about
the function. Besides the C++ fields the state holds a history, such as the motion events sent or the
callbacks run, so that the theorems can speak of whole runs.

| files | subject |
|---|---|
| `TouchIds`, `TouchEvents`, `Touch`, `TouchClient`, `TouchLimit` | one Qt touch event with many points becomes a stream of motion events |
| `ImeEvents` | input method events, and the empty ones posted again |
| `PermissionTypes`, `PermissionStore`, `PermissionRequests`, `PermissionRuns`, `PermissionReadBack`, `PermissionPrompts`, `PermissionDecisions`, `PermissionQueries`, `PermissionReset`, `PermissionLifetime`, `PermissionManager` | the two-level permission store and the requests that wait for decisions |
| `MediaFlags`, `MediaDevices`, `MediaQueue`, `MediaDispatcher` | media requests, from the request to the devices attached |
| `StdString`, `CFHtml`, `CFHtmlRoundTrip`, `ClipboardHtml`, `CFHtmlTaggedUrl`, `ClipboardRead` | Microsoft's CF_HTML clipboard format, printed and parsed |
| `NextPermutation`, `NextArrangement`, `ArrangementCycle`, `BrandLists`, `ClientHints` | the shuffled brand version lists of the client hints |
| `FindText`, `FindRuns`, `FindSessions`, `FindTextHelper` | find in page with one counter for all helpers |
| `WheelQueue` | wheel events that wait for an acknowledgement |
| `WebAuthDialog` | the WebAuthn dialog controller |
| `CacheClearing` | the cycle that clears the HTTP cache |
| `Wrappers` | options and choices from collections |

Runs are sequences of steps of an environment that may do anything the surrounding libraries may do:
permission answers and posted tasks arrive in any order, `std::sort` leaves equal elements in any
order, the user and the renderer act at any time. What each environment may not do is stated in a
predicate beside it (`WellFormed`, `Enabled`, `Allowed`, `ValidRun`).

Where the code does something its own comments or names do not lead one to expect, there is a lemma
with an input that shows it, and one that says for all inputs exactly when it happens:

- The assertion in `mapTouchPointIds` is made before a finger is added, so it lets 17 fingers through,
  not 16 (`TouchLimit.SeventeenFingers`, `TouchLimit.AssertionExactlyWhen`).
- With persistent permissions a request for two types waits on when one is granted and the other
  denied (`MixedVerdictsKeepWaiting`, `TwoVerdictsKeepWaiting`), and when a transient type is granted
  before a persistent one (`PersistentDecisionLast`), but not in the other order
  (`TransientDecisionLast`). `AnsweredExactlyWhenRead` says for any decisions when a request is answered
  and with what.
- With AskEveryTime a frame that was granted the clipboard is told so by a query for the sanitized
  write, and yet a request for it prompts again (`GrantedButAskedAgain`). That is so exactly if the
  settings are silent and the user has decided about the clipboard for the frame
  (`SanitizedNeverRemembered`; on any store `RequestAgreesExactlyWhen`).
- `ClipboardQt::WriteHTML` meets its own checks unless there is no markup (`WriteChecksHold`). A source
  URL that contains "<html" moves the start of the markup into the URL line (`HtmlStart`); it moves the
  start of the fragment too if it contains a fragment comment behind that (`FragmentStartExactlyWhen`,
  `WriteThenReadExactlyWhen`).
- The brand lists part exactly if two entries of the short list compare otherwise than the entries of
  the full list that they stand for (`AlignedExactlyWhen`), as can be when one brand is a prefix of
  another (`PrefixedBrandsDiverge`).
- The answer to one media request is applied to whichever request is at the head of the queue, after a
  request was closed (`AnswerMeetsAnotherRequest`) and without that too (`SecondQuestionDecidesThird`).
  Each request gets its own answer for sure exactly if none enters while another waits or an answer is
  on its way (`OwnAnswersExactlyWhen`).
- An authorised request for a kind of device the machine lacks is answered with success and no device,
  against the check in `MediaStreamUIQt` (`OkWithoutDevice`, `IndicatorHasDevice`).
- The callback given to a search is lost exactly if a stop or the end of its helper comes before its
  final reply and before the next search (`GivenCallbackDecided`, `CanRunExactlyWhen`).
- A cancelled WebAuthn request that is cancelled again shows a second dialog
  (`SecondCancelShowsDialog`, `CancelOpensDialog`).
- An empty input method event that was posted again cancels a composition started since
  (`PostedEventCancelsNewComposition`), exactly if it is still on its way when that one starts
  (`CompositionCancelledExactlyWhen`).
- A key event cancels a composition and leaves the flag that says one is in progress (`KeyLeavesFlag`).
  Flag and renderer differ exactly while such a key was the last to call the renderer
  (`FlagMirrorsRenderer`).
- A navigation to another origin keeps the frame's decisions if the first of them was made for that origin, and
  forgets them all if not (`NavigationForgets`).
- Clearing the cache never completes exactly if no storage partition was loaded when the remover was
  done, or the last one awaited was unloaded (`StuckExactlyWhen`, `CompletesExactlyWhen`).

## Model

| member | source | states |
|---|---|---|
| TouchIds.FirstUnmarked | src/core/render_widget_host_view_qt_delegate_client.cpp:33-40 | the id given out is free and every smaller one is taken |
| TouchIds.InsertKeepsBound | src/core/render_widget_host_view_qt_delegate_client.cpp:42-57 | adding a finger keeps the map injective, and its ids below the bound while no more fingers than that are mapped (pigeonhole on the least free id) |
| TouchIds.AssignKeepsBound | src/core/render_widget_host_view_qt_delegate_client.cpp:42-60 | the same for all fingers of an event, whatever was released before |
| TouchIds.NewFingerGetsLeastId | src/core/render_widget_host_view_qt_delegate_client.cpp:48-56 | each new finger gets the least id unused at its turn |
| TouchEvents.PressesAccepted | src/core/render_widget_host_view_qt_delegate_client.cpp:667-686 | a receiver with the old pointers down accepts DOWN and the POINTER_DOWNs, each adding one pointer, and then has every pointer of the event down |
| TouchEvents.ReleasesAccepted | src/core/render_widget_host_view_qt_delegate_client.cpp:692-703 | each POINTER_UP removes one pointer, the last one leaves with UP, the rest stay |
| TouchEvents.EmittedAccepted | src/core/render_widget_host_view_qt_delegate_client.cpp:660-703 | the receiver accepts all motion events of one event, so the constructor's assertions hold, and ends with the pointers not released |
| TouchEvents.DownsThenMovesThenUps | src/core/render_widget_host_view_qt_delegate_client.cpp:660-703 | within one event: downs, then moves, then ups, for every list of points |
| TouchEvents.MovesExactlyWhen | src/core/render_widget_host_view_qt_delegate_client.cpp:688-689 | a begin or an update sends one move with all points if and only if one of them is updated; an end sends none |
| Touch.SortKeepsPoints | src/core/render_widget_host_view_qt_delegate_client.cpp:575-577 | whatever permutation the sort leaves, each finger occurs once with its mapped id |
| Touch.EventAccepted | src/core/render_widget_host_view_qt_delegate_client.cpp:563-709 | one event that follows Qt's rules keeps map and fingers in step, and takes the receiver from the old mapped ids to the new ones |
| Touch.CancelAccepted | src/core/render_widget_host_view_qt_delegate_client.cpp:579-618 | a cancel, with or without points, ends the sequence and forgets every finger |
| Touch.RunKeepsInv | src/core/render_widget_host_view_qt_delegate_client.cpp:563-709 | over every run the map knows exactly the fingers on the screen, injectively and below the bound |
| Touch.RunAccepted | src/core/render_widget_host_view_qt_delegate_client.cpp:83-107 | over every run from the start the whole stream is a valid pointer protocol and none of the constructor's assertions fails; the live pointers are the ids of the fingers, all below the bound |
| Touch.FingerKeepsId | src/core/render_widget_host_view_qt_delegate_client.cpp:48-64 | over every run from its press to its release a finger keeps one id, whatever other fingers come and go |
| TouchClient.DelegateClient.FirstAvailableId | src/core/render_widget_host_view_qt_delegate_client.cpp:33-40 | the loop over the map finds the least free id |
| TouchClient.DelegateClient.MapTouchPointIds | src/core/render_widget_host_view_qt_delegate_client.cpp:42-67 | the points with the ids assigned in order; released fingers leave the map; both assertions hold for at most 17 fingers |
| TouchClient.DelegateClient.HandleTouchEvent | src/core/render_widget_host_view_qt_delegate_client.cpp:563-709 | the handler has the effect the theorems are about, for one of the orders the sort may leave |
| TouchClient.HandledMoves | src/core/render_widget_host_view_qt_delegate_client.cpp:563-709 | what the handler sends for a Qt event contains a move if and only if the event is a begin or an update with an updated point; then it is one, with each point of the event |
| TouchClient.HandledCancel | src/core/render_widget_host_view_qt_delegate_client.cpp:579-618 | a cancel is sent once, with the points of the event or else those of the event before, if a sequence has started and there are any |
| TouchClient.DelegateClient.SendPresses | src/core/render_widget_host_view_qt_delegate_client.cpp:667-686 | the prefix scan, the fall-through from TouchBegin and the countdown send the presses |
| TouchClient.DelegateClient.SendReleases | src/core/render_widget_host_view_qt_delegate_client.cpp:692-703 | the loop that pops released points sends the releases and leaves the others |
| TouchClient.WellFormedIsHandled | src/core/render_widget_host_view_qt_delegate_client.cpp:52-53 | in every reachable state Qt's rules meet what the handler asks for, up to 17 fingers at once |
| TouchLimit.AssertionExactlyWhen | src/core/render_widget_host_view_qt_delegate_client.cpp:46-57 | the assertion on the size of the map holds for every new finger of an event if and only if none is new or at most 17 are then mapped |
| TouchLimit.SeventeenFingers | src/core/render_widget_host_view_qt_delegate_client.cpp:52-56 | one allowed event maps 17 fingers and gives out the id 16 with the assertion holding; with one finger more it fails |
| TouchLimit.IdsBelowExactlyWhen | src/core/render_widget_host_view_qt_delegate_client.cpp:33-57 | over every run no id reaches a bound if and only if the map never holds more fingers than that, so none exceeds 15 if and only if it never holds more than 16 |
| ImeEvents.FlagMirrorsRenderer | src/core/render_widget_host_view_qt_delegate_client.cpp:877-907 | over every run the in-progress flag is set wherever the renderer shows a composition; it is set without one if and only if the last call to the renderer was made for a key other than 0 that found an empty event remembered and the flag set; then a posted event is on its way, and receiving it makes the two agree |
| ImeEvents.DifferExactlyWhen | src/core/render_widget_host_view_qt_delegate_client.cpp:485-502 | the same condition for the runs from every state the events can lead to |
| ImeEvents.KeyLeavesFlag | src/core/render_widget_host_view_qt_delegate_client.cpp:485-492 | the case in which they differ: a key that cancels the composition leaves the flag set |
| ImeEvents.DrainSettles | src/core/render_widget_host_view_qt_delegate_client.cpp:877-890 | receiving the posted events ends, clears both flags and cancels a composition in progress exactly once |
| ImeEvents.NothingRemembered | src/core/render_widget_host_view_qt_delegate_client.cpp:485-502 | after every run, once the posted events are received no empty event is remembered |
| ImeEvents.EmptyEventCancelsLater | src/core/render_widget_host_view_qt_delegate_client.cpp:866-890 | an empty event cancels the composition when the event loop has run dry, and not before |
| ImeEvents.PostedEventCancelsNewComposition | src/core/render_widget_host_view_qt_delegate_client.cpp:877-907 | a posted event that outlives its composition cancels the next one |
| ImeEvents.CompositionCancelledExactlyWhen | src/core/render_widget_host_view_qt_delegate_client.cpp:877-907 | a composition that an event starts or updates is cancelled when the event loop runs dry if and only if a posted event was on its way |
| ImeEvents.PostedExactlyWhen | src/core/render_widget_host_view_qt_delegate_client.cpp:877-892 | an event is posted again and remembered if and only if it is empty, has no selection and meets a composition that no other is about to end; every other event forgets what was remembered |
| ImeEvents.SelectionCancelsNow | src/core/render_widget_host_view_qt_delegate_client.cpp:877-890 | an empty event with a selection cancels at once, and once |
| ImeEvents.KeyAnswersOnce | src/core/render_widget_host_view_qt_delegate_client.cpp:485-502 | one key event answers a remembered empty event, and none after it does anything |
| ImeEvents.PressCommits | src/core/render_widget_host_view_qt_delegate_client.cpp:452-455 | a press commits the composition once and ends it |
| ImeEvents.TextsArrive | src/core/render_widget_host_view_qt_delegate_client.cpp:892-907 | over every run the renderer gets the texts to commit and to compose that the events carry, each once and in order |
| PermissionTypes.Normal | src/core/permission_manager_qt.cpp:714-714 | normalising a type keeps what Qt makes of it, and changes exactly the merged and the unsupported types |
| PermissionTypes.TypesCorrespond | src/core/permission_manager_qt.cpp:35-90 | which Blink types each Qt type stands for, and which are supported |
| PermissionTypes.QtTypeReturns | src/core/permission_manager_qt.cpp:35-119 | every Qt type but the two joint ones comes back from Blink |
| PermissionStore.PutLooksUp | src/core/permission_manager_qt.cpp:863-881 | after an entry is written a lookup finds it, and every other entry as before |
| PermissionStore.PutKeepsUnique | src/core/permission_manager_qt.cpp:863-881 | writing keeps at most one entry for an origin and a type |
| PermissionStore.EraseLooksUp | src/core/permission_manager_qt.cpp:899-915 | after a reset the entry is gone for good and all others are found as before |
| PermissionStore.DocumentStatusStable | src/core/permission_manager_qt.cpp:731-778 | asking again gives the same status and changes nothing |
| PermissionStore.DocumentStatusIndependent | src/core/permission_manager_qt.cpp:731-778 | asking for one type changes the answer for no other type of that frame |
| PermissionStore.PreGrantServesOneFrame | src/core/permission_manager_qt.cpp:326-331 | a decision made before any frame asked goes to the first one that asks; another frame of that origin then has to ask |
| PermissionStore.DocumentStatusFrame | src/core/permission_manager_qt.cpp:731-778 | a query touches no other frame's list and keeps every list a map |
| PermissionRequests.EvaluateDecides | src/core/permission_manager_qt.cpp:396-428 | the inner loop answers exactly the answerable requests: DENIED for unsupported positions, the state just set elsewhere |
| PermissionRequests.ProcessDecides | src/core/permission_manager_qt.cpp:393-437 | the outer loop answers in order exactly those, judged on the store the decision left, although its lookups keep moving decisions |
| PermissionRuns.AnsweredExactlyWhenDecided | src/core/permission_manager_qt.cpp:393-437 | with persistence a request is answered if and only if it is of that origin and every supported type in it has that status; with AskEveryTime the origin suffices |
| PermissionRuns.NothingLeftWaiting | src/core/permission_manager_qt.cpp:420-422 | with AskEveryTime a decision, also one about microphone and camera together, leaves no request of the origin waiting |
| PermissionRuns.TwinsAnsweredTogether | src/core/permission_manager_qt.cpp:393-437 | two waiting requests for the same types of one origin are answered by the same decision |
| PermissionRuns.OtherOriginsUntouched | src/core/permission_manager_qt.cpp:393-437 | the requests of other origins stay, in their order |
| PermissionRuns.DecisionOnlyList | src/core/permission_manager_qt.cpp:311-438 | a decision changes the list of no frame but its own |
| PermissionRuns.DecisionKeepsInv | src/core/permission_manager_qt.cpp:311-438 | a decision keeps every callback accounted for and the queue ordered |
| PermissionRuns.RequestKeepsInv | src/core/permission_manager_qt.cpp:606-692 | so does a request, answered at once or queued |
| PermissionRuns.EveryCallbackOnce | src/core/permission_manager_qt.cpp:393-692 | over every run each callback has run exactly once, with one decided status per requested type in order, or waits exactly once; waiting ids increase strictly |
| PermissionReadBack.DecideIsSeen | src/core/permission_manager_qt.cpp:326-345 | the frame sees the decision, and what it saw before for every other type |
| PermissionReadBack.DecisionReadBack | src/core/permission_manager_qt.cpp:282-471 | after a Granted or Denied decision and the loop behind it a live frame at that origin reads the state back, also for MediaAudioVideoCapture, which is split and joined again |
| PermissionReadBack.MixedVerdictsKeepWaiting | src/core/permission_manager_qt.cpp:413-427 | grant one type and deny the other: the request waits on |
| PermissionReadBack.PersistentDecisionLast | src/core/permission_manager_qt.cpp:405-411 | transient grant first, persistent grant last: the request waits on |
| PermissionReadBack.TransientDecisionLast | src/core/permission_manager_qt.cpp:405-411 | the other order: it is answered |
| PermissionReset.ResetForgets | src/core/permission_manager_qt.cpp:333-338 | a reset answers no request; it forgets exactly the types it is about, in the frame's list or for the origin in the preferences, also for microphone and camera together |
| PermissionReset.ResetReads | src/core/permission_manager_qt.cpp:731-778 | after a reset by a live frame it reads ASK if and only if the settings do not answer and, for a transient type, no decision made in advance is left; all other types, and for a transient type all other frames, read as before |
| PermissionReset.ResetInPreferences | src/core/permission_manager_qt.cpp:333-338 | a reset without a frame, or of a type the preferences keep, makes these report ASK |
| PermissionReset.ResetState | src/core/permission_manager_qt.cpp:440-471 | the state read back is Ask under the same condition; for microphone and camera together also if the decisions made in advance differ |
| PermissionLifetime.KeptInPreferences | src/core/permission_manager_qt.cpp:326-345 | a decision without a frame, or about a type the preferences keep, is still in them after the loop over the requests |
| PermissionLifetime.ReadBackWithoutFrame | src/core/permission_manager_qt.cpp:440-471 | and is read back without a live frame |
| PermissionLifetime.FirstFrameTakes | src/core/permission_manager_qt.cpp:326-331 | a transient decision made without a frame goes to the first frame that asks, and a second one has to ask again |
| PermissionLifetime.SharedExactlyWhen | src/core/permission_manager_qt.cpp:326-345 | another frame of the origin sees a frame's decision if and only if the policy is persistent and the type is one of the four that the preferences keep |
| PermissionLifetime.DecidedByOrigin | src/core/permission_manager_qt.cpp:319-324 | what follows the origin in the url of a decision makes no difference |
| PermissionLifetime.DecidedWithoutOrigin | src/core/permission_manager_qt.cpp:319-324 | an empty url changes nothing; another one without origin is kept in the preferences and answers only requests that give it as their origin |
| PermissionLifetime.NavigationForgets | src/core/permission_manager_qt.cpp:584-597 | a navigation forgets all decisions of the frame if and only if the first of them is for another origin, and else none |
| PermissionLifetime.CleaningForgets | src/core/permission_manager_qt.cpp:885-897 | the clean-up of dead frames forgets their decisions and no others |
| PermissionLifetime.ChromiumResetForgets | src/core/permission_manager_qt.cpp:809-820 | a reset by Chromium forgets the type for the origin in the preferences and nothing else |
| PermissionLifetime.ReadsWithoutDecision | src/core/permission_manager_qt.cpp:200-215 | without decisions a frame reads GRANTED for the clipboard if and only if the settings allow it, DENIED for unsupported types and else ASK |
| PermissionManager.Position | src/core/permission_manager_qt.cpp:834-840 | the loop over a frame's list stops at the first entry of that origin and type |
| PermissionManager.PermissionManagerQt.GetTransientPermissionStatus | src/core/permission_manager_qt.cpp:822-843 | the lookup of the theorems |
| PermissionManager.PermissionManagerQt.SetTransientPermission | src/core/permission_manager_qt.cpp:863-881 | overwrites the entry or appends one, and nothing else changes |
| PermissionManager.PermissionManagerQt.ResetTransientPermission | src/core/permission_manager_qt.cpp:899-915 | erases the entry, and nothing else changes |
| PermissionManager.PermissionManagerQt.GetPermissionStatusForCurrentDocument | src/core/permission_manager_qt.cpp:731-778 | status and stores as the theorems have them |
| PermissionManager.PermissionManagerQt.GetPermissionState | src/core/permission_manager_qt.cpp:440-471 | the states of the parts joined, Ask if they differ |
| PermissionManager.PermissionManagerQt.SetPermission | src/core/permission_manager_qt.cpp:282-295 | the whole new state after a decision |
| PermissionManager.PermissionManagerQt.AnswerWaiting | src/core/permission_manager_qt.cpp:393-437 | the while loop that erases in place is the loop of the theorems |
| PermissionManager.PermissionManagerQt.RequestPermissions | src/core/permission_manager_qt.cpp:606-692 | the whole new state after a request, and the prompts shown exactly if it was queued |
| PermissionPrompts.PromptsSettleRequest | src/core/permission_manager_qt.cpp:121-144 | the prompts stand for exactly the requested types, whatever was merged |
| PermissionPrompts.PromptsMerge | src/core/permission_manager_qt.cpp:131-141 | microphone and camera are asked for together if and only if both are requested, and then not apart; screen captures are one prompt, for screen and sound if and only if there is more than one |
| PermissionPrompts.PromptCounts | src/core/permission_manager_qt.cpp:121-144 | how often each prompt is made |
| PermissionDecisions.DecisionSettles | src/core/permission_manager_qt.cpp:282-345 | a decision about a prompt makes the frame read the verdict for exactly the types that prompt stands for, and leaves what it reads for every other type |
| PermissionDecisions.AnsweredExactlyWhenRead | src/core/permission_manager_qt.cpp:282-437 | a live frame decides any prompts in any order, each as it likes: a waiting request is answered if and only if after some decision the last verdict on each of its types, or else what the frame read before, is that decision's, and the decision is about a transient type or none of its types is; the first such decision gives the answer |
| PermissionDecisions.TwoVerdictsKeepWaiting | src/core/permission_manager_qt.cpp:413-427 | so a request stays waiting, whatever else is decided, if two of its types are decided once each and differently |
| PermissionDecisions.AnsweredExactlyWhenSettled | src/core/permission_manager_qt.cpp:282-437 | with one verdict for all prompts and types the frame still had to ask for, that is so if and only if at some decision all of its types are settled, and that decision is about a transient type or none of its types is |
| PermissionDecisions.DecidingAllAnswers | src/core/permission_manager_qt.cpp:121-144 | deciding all prompts of a request answers it if the last one is about a transient type or none of its types is; if no prompt is made twice, only then |
| PermissionQueries.RequestAgreesExactlyWhen | src/core/permission_manager_qt.cpp:622-674 | a request for a type finds the status a query reports if and only if it is not the sanitized write, or the settings answer it, or its decisions are persistent, or the frame's entries for the two clipboard types are the same, or one is missing and the other is what the preferences hold |
| PermissionQueries.PlainRequests | src/core/permission_manager_qt.cpp:622-674 | with AskEveryTime, no clipboard decision made in advance and no entry under the sanitized type, a request for the sanitized write finds what the settings say, and agrees with a query if and only if these answer or the frame has no clipboard decision |
| PermissionQueries.SanitizedNeverRemembered | src/core/permission_manager_qt.cpp:282-915 | over every run with AskEveryTime whose decisions are made for frames that is how it stays: what the user decides about the clipboard is never found by a request for the sanitized write |
| PermissionQueries.RequestFollowsQueries | src/core/permission_manager_qt.cpp:606-692 | apart from that a request of any types is answered at once with what queries for them report, if none reports ASK, and else waits |
| PermissionQueries.WithoutOriginDenied | src/core/permission_manager_qt.cpp:611-615 | a request without an origin is denied at once, one DENIED for each type, and nothing else changes |
| PermissionQueries.GrantedButAskedAgain | src/core/permission_manager_qt.cpp:644-663 | with AskEveryTime, the clipboard granted: a query says GRANTED and the request waits |
| MediaFlags.RequestFlagsKinds | src/core/media_capture_devices_dispatcher.cpp:257-294 | a request is for devices or for the desktop, never both; desktop sound comes only with a picture |
| MediaFlags.RequestFlagsExactlyWhen | src/core/media_capture_devices_dispatcher.cpp:257-294 | for each of the four flags, the stream types that ask for it |
| MediaFlags.PermissionsAskedFor | src/core/permission_manager_qt.cpp:530-545 | one permission for each flag and a second screen permission for desktop sound, and no other |
| MediaFlags.Authorise | src/core/permission_manager_qt.cpp:549-578 | the callback authorises a flag if and only if a copy of its permission was granted |
| MediaFlags.AllGranted | src/core/permission_manager_qt.cpp:525-579 | if all types are granted, what is acted on equals the request |
| MediaQueue.DecisionReachesHead | src/core/permission_manager_qt.cpp:525-579 | a decision about a media request that is at the head when the answer comes is acted on in full if it is a grant, and not at all if it is a denial |
| MediaDevices.FindDeviceWithId | src/core/media_capture_devices_dispatcher.cpp:55-64 | the first device with that id, or none if there is none |
| MediaDevices.GetDefaultDevices | src/core/media_capture_devices_dispatcher.cpp:593-618 | the requested device or else the first, for each kind asked for and no other |
| MediaDevices.DevicesFor | src/core/media_capture_devices_dispatcher.cpp:368-413 | the devices an authorised answer leads to |
| MediaDevices.AttachedWasAuthorised | src/core/media_capture_devices_dispatcher.cpp:370-413 | nothing is attached that was not requested, authorised and from a matching origin |
| MediaDevices.MicrophoneAttached | src/core/media_capture_devices_dispatcher.cpp:370-405 | a microphone is attached if and only if the stream types ask for it, it was authorised, the origins match and there is one; it is the one named first by the request, or else the platform's first |
| MediaDevices.CameraAttached | src/core/media_capture_devices_dispatcher.cpp:370-405 | the same for a camera |
| MediaDevices.DesktopAttached | src/core/media_capture_devices_dispatcher.cpp:223-255 | a granted desktop is attached under the request's stream types; its sound if and only if that was asked for, authorised and can be looped back, of the tab or of the system, and muted as the request says |
| MediaDevices.AttachedHasType | src/core/media_capture_devices_dispatcher.cpp:239-240 | nothing is attached for a stream the request does not have, so the check before desktop sound holds |
| MediaDevices.AnsweredOkExactlyWhen | src/core/media_capture_devices_dispatcher.cpp:370-431 | an answer is OK if and only if the origins match and a device that was asked for, or the chosen desktop, was authorised |
| MediaDevices.IndicatorHasDevice | src/core/media_capture_devices_dispatcher.cpp:300-306 | the indicator's check holds if and only if the answer is for the desktop or there is a device of a requested and authorised kind |
| MediaDevices.OkWithoutDevice | src/core/media_capture_devices_dispatcher.cpp:593-608 | an input for which it fails |
| MediaQueue.EveryRequestOnce | src/core/media_capture_devices_dispatcher.cpp:358-433 | over every run replies come in queue order, each request is answered at most once or dropped, never both, and none waits without an answer or a task on its way |
| MediaQueue.OnlyClosingDrops | src/core/media_capture_devices_dispatcher.cpp:460-464 | only closing and destruction drop a request |
| MediaQueue.DrainingDecreases | src/core/media_capture_devices_dispatcher.cpp:415-425 | without new requests every answer or task decreases (queue length, 2 * tasks + answers) |
| MediaQueue.Drains | src/core/media_capture_devices_dispatcher.cpp:569-591 | so only so many can follow, and when none is left every queued request has been answered, in order |
| MediaQueue.NeverStuck | src/core/media_capture_devices_dispatcher.cpp:418-425 | while a request waits an answer or a task is outstanding |
| MediaQueue.AnswerMeetsAnotherRequest | src/core/media_capture_devices_dispatcher.cpp:367-382 | the answer for a closed request is taken for the next one |
| MediaQueue.SecondQuestionDecidesThird | src/core/media_capture_devices_dispatcher.cpp:415-425 | without any closing: of three waiting requests the second is asked for twice, and its second answer decides the third |
| MediaQueue.DestroyOnlyDrops | src/core/media_capture_devices_dispatcher.cpp:460-464 | destruction drops the queued requests and leaves questions and tasks on their way |
| MediaQueue.RepliesToAsker | src/core/media_capture_devices_dispatcher.cpp:367-415 | an answer is for the request that asked if and only if that one is at the head |
| MediaQueue.EnteringIsSafeWhen | src/core/media_capture_devices_dispatcher.cpp:559-567 | a request that enters, and the one that waits, get their own answers whatever follows if and only if nothing waits and nothing is on its way |
| MediaQueue.OwnAnswersExactlyWhen | src/core/media_capture_devices_dispatcher.cpp:358-591 | over every run: all requests are at all times sure of their own answers if and only if each enters only while nothing waits and nothing is on its way |
| MediaDispatcher.MediaCaptureDevicesDispatcher.ProcessMediaAccessRequest | src/core/media_capture_devices_dispatcher.cpp:466-557 | a request is queued if and only if it is supported and, for the desktop, allowed and without a device id; no other queue changes |
| MediaDispatcher.CapturedDesktop | src/core/media_capture_devices_dispatcher.cpp:514-556 | a request that names a desktop gets it without asking; sound only of a screen, for a stream type of desktop sound, where it can be looped back; an invalid id is refused |
| MediaDispatcher.MediaCaptureDevicesDispatcher.HandleMediaAccessPermissionResponse | src/core/media_capture_devices_dispatcher.cpp:358-433 | the head of the queue gets the reply for its own flags and the answer's, and a task is posted if more wait |
| MediaDispatcher.MediaCaptureDevicesDispatcher.ProcessQueuedAccessRequest | src/core/media_capture_devices_dispatcher.cpp:569-591 | a task asks for the request now at the head, if there is one |
| MediaDispatcher.MediaCaptureDevicesDispatcher.WebContentsDestroyed | src/core/media_capture_devices_dispatcher.cpp:460-464 | the queue is dropped, what is on its way stays |
| MediaDispatcher.MediaCaptureDevicesDispatcher.UpdateMediaRequestState | src/core/media_capture_devices_dispatcher.cpp:629-652 | closing removes the first match in the order of the map, and only that |
| StdString.Find | src/core/clipboard_util_win.cpp:74-76 | `std::string::find` with npos: the first match from there on, none before it |
| StdString.RFind | src/core/clipboard_util_win.cpp:111-112 | `std::string::rfind` with npos: the last match up to there, none behind it |
| StdString.TrimIs | src/core/clipboard_util_win.cpp:81-81 | trimming takes off the white space at both ends and nothing else |
| StdString.AtoiOfNumber | src/core/clipboard_util_win.cpp:25-37 | atoi reads back the ten digits the header prints, if the number fits an int |
| StdString.AtoiSigned | src/core/clipboard_util_win.cpp:99-108 | atoi skips white space, takes a sign, and clamps what does not fit an int |
| CFHtml.FragmentScan | src/core/clipboard_util_win.cpp:86-112 | the comment scan finds the fragment whatever precedes the markup and whatever comments the html contains |
| CFHtml.ScanWithoutEnds | src/core/clipboard_util_win.cpp:110-112 | a comment that is not closed starts the fragment at 0, and without an end comment it ends at the last bracket |
| CFHtmlRoundTrip.TagInAnyCase | src/core/clipboard_util_win.cpp:89-90 | the html tag is found in upper and lower case |
| CFHtmlRoundTrip.PrintedText | src/core/clipboard_util_win.cpp:20-58 | the text that is printed, with offsets counted from its beginning |
| CFHtmlRoundTrip.HeaderText | src/core/clipboard_util_win.cpp:31-35 | the text of the header with its four numbers |
| CFHtmlRoundTrip.HtmlStart | src/core/clipboard_util_win.cpp:90-93 | the markup is found where it was printed if and only if the URL does not contain "<html" in any case |
| CFHtmlRoundTrip.RoundTrip | src/core/clipboard_util_win.cpp:20-114 | for every non-empty html, also one with fragment comments, and every URL: the parser returns the printed end of the fragment; the printed start of the html if and only if the URL does not contain "<html"; and then also the printed start of the fragment, so that the slice is the html |
| CFHtmlRoundTrip.UrlRoundTrip | src/core/clipboard_util_win.cpp:70-83 | a non-empty URL comes back unchanged if and only if it has no newline and no white space at its ends |
| CFHtmlRoundTrip.NoUrlFound | src/core/clipboard_util_win.cpp:72-83 | without a URL the out-parameter keeps whatever value it had if and only if the html does not contain "SourceURL:"; if it does, the result no longer depends on that value |
| CFHtmlRoundTrip.HeaderAgreesWithScan | src/core/clipboard_util_win.cpp:41-58 | the numbers in the header, read as the fallback does, are the offsets the scan finds, and EndHTML is the length; StartHTML agrees if and only if the URL does not contain "<html" |
| CFHtmlRoundTrip.FallbackReadsNumbers | src/core/clipboard_util_win.cpp:94-109 | without comments the parser takes the fragment from the numbers of the header |
| ClipboardHtml.WriteChecksHold | src/core/clipboard_qt.cpp:154-166 | both checks of WriteHTML hold if and only if there is markup |
| ClipboardHtml.Clipboard.WriteHTML | src/core/clipboard_qt.cpp:154-168 | the document from its first "<html" on; the markup part if the URL has none |
| ClipboardHtml.ReadHTML | src/core/clipboard_qt.cpp:279-316 | for every clipboard 0 <= fragment start <= fragment end <= length of the markup |
| ClipboardRead.ReadsSlice | src/core/clipboard_qt.cpp:293-316 | for all offsets of the parser: if they are ordered, the markup is the document from the start of the html to the first NUL and the fragment the slice between the offsets as far as the markup reaches; else nothing |
| ClipboardRead.ReadsWithoutNul | src/core/clipboard_qt.cpp:293-316 | for every text without NUL with ordered offsets within it, the whole of both |
| ClipboardRead.PrintThenReadExactlyWhen | src/core/clipboard_qt.cpp:293-316 | a printed document read with its header yields the html up to its first NUL if and only if the URL has no fragment comment behind an html tag |
| ClipboardRead.PrintThenRead | src/core/clipboard_qt.cpp:293-316 | so it does for every URL without html tag, and the URL comes back if and only if it is clean |
| ClipboardRead.PlainTextReadsNothing | src/core/clipboard_qt.cpp:302-309 | a text without html, or without comments and offsets, reads as nothing |
| ClipboardHtml.WriteThenRead | src/core/clipboard_qt.cpp:293-316 | what was written is read back as the fragment up to its first NUL, so exactly if it has none |
| CFHtmlTaggedUrl.FragmentStartExactlyWhen | src/core/clipboard_util_win.cpp:90-112 | for every html and URL the start of the fragment is the printed one if and only if the URL has no fragment comment behind an html tag; else it lies before the end of the printed html tag |
| CFHtmlTaggedUrl.WrittenIs | src/core/clipboard_qt.cpp:154-168 | what WriteHTML puts on the clipboard: the URL from its first html tag on, if it has one, and the markup |
| CFHtmlTaggedUrl.WriteThenReadExactlyWhen | src/core/clipboard_qt.cpp:293-316 | reading that back gives the html up to its first NUL if and only if the URL has no fragment comment behind an html tag |
| NextPermutation.NextIsPermutation | src/core/profile_adapter.cpp:85-90 | a step permutes the list |
| NextArrangement.NextIsLeastGreater | src/core/profile_adapter.cpp:85-90 | it is the least arrangement that follows the list in lexicographical order; if no element is less than its successor it is the one that ascends |
| NextArrangement.TurnsAtTheEnd | src/core/profile_adapter.cpp:85-90 | then nothing follows the list and nothing precedes the result |
| ArrangementCycle.ComesBack | src/core/profile_adapter.cpp:77-90 | a list without ties is back after as many steps as the factorial of its length |
| ArrangementCycle.ReachesEvery | src/core/profile_adapter.cpp:77-90 | and every arrangement is reached from every other within that many steps |
| NextPermutation.NextKeepsImages | src/core/profile_adapter.cpp:85-90 | two lists whose elements compare alike move alike |
| NextPermutation.InStepExactlyWhen | src/core/profile_adapter.cpp:85-90 | two lists that are permuted by their own comparisons stay in step forever if and only if they compare alike at every pair of positions |
| BrandLists.AlignedExactlyWhen | src/core/profile_adapter.cpp:66-90 | the short and the full list stay aligned for any number of steps if and only if there are fewer than three brands or any two entries compare alike in both |
| BrandLists.LessIs | src/core/profile_adapter.cpp:83-83 | the comparison of strings is the lexicographical one |
| BrandLists.ShuffledListsStayAligned | src/core/profile_adapter.cpp:66-90 | if no brand is a prefix of another, after any number of steps both lists name the brands in the same order and each short version is the part before the dot |
| BrandLists.HintRoundTrip | src/core/profile_adapter.cpp:735-739 | after any number of steps reading the list back yields the object |
| BrandLists.PrefixedBrandsDiverge | src/core/profile_adapter.cpp:82-90 | three brands, one a prefix of another, whose lists part after three steps |
| ClientHints.FactorialFitsInt | src/core/profile_adapter.cpp:77-79 | the product fits an int if and only if there are at most 12 brands |
| ClientHints.Permutations | src/core/profile_adapter.cpp:77-79 | the loop computes the factorial |
| ClientHints.MajorVersionModulo | src/core/profile_adapter.cpp:76-90 | taking the major version modulo the factorial leads to the same order as that many steps, if no two entries compare equal |
| ClientHints.EveryOrderIsUsed | src/core/profile_adapter.cpp:76-90 | and every order of them is that of some major version |
| ClientHints.UserAgentMetadata.PopulateBrandVersionLists | src/core/profile_adapter.cpp:63-91 | both lists are those of the object after the same number of steps |
| ClientHints.UserAgentMetadata.SetThenGet | src/core/profile_adapter.cpp:780-782 | set the hint and read it back: the same object |
| FindText.AcceptedReplyIsCurrent | src/core/find_text_helper.cpp:113-116 | an accepted final reply is for the current request |
| FindText.StartKeepsInv | src/core/find_text_helper.cpp:33-92 | a start keeps ids, callbacks and the count of signals in order, also when it gives up a search |
| FindText.ReplyKeepsInv | src/core/find_text_helper.cpp:106-138 | so does every reply to a request made |
| FindRuns.EveryHelperInOrder | src/core/find_text_helper.cpp:16-138 | over every run of any number of helpers: accepted replies are for the current request, whose id no other helper uses; callbacks run at most once; signals = starts - in progress - given up by stop |
| FindRuns.StopAbandonsCallbacks | src/core/find_text_helper.cpp:94-99 | a stop leaves every kept callback behind |
| FindRuns.DeadNeverRuns | src/core/find_text_helper.cpp:128-138 | such a callback never runs |
| FindRuns.ReplyRunsLive | src/core/find_text_helper.cpp:106-138 | the final reply runs the callback kept for the search in progress, with its matches |
| FindRuns.CanRunExactlyWhen | src/core/find_text_helper.cpp:33-138 | in every reachable state a kept callback runs in some continuation if and only if its request is the search in progress |
| FindRuns.FateDecides | src/core/find_text_helper.cpp:33-138 | over every run the callback of a search runs if a final reply or the next search comes before any stop and the end of the helper, is lost for good if one of these comes first, and else still waits |
| FindRuns.GivenCallbackDecided | src/core/find_text_helper.cpp:33-138 | so it is over every run for each callback given to a search with text, from that search on |
| FindSessions.NewSessionExactlyWhen | src/core/find_text_helper.cpp:62-92 | after every run a search asks for a new session if and only if the last one with text was for another text or case, or was stopped or followed by a load; a search in progress is stopped only for a new session, and signalled as unsuccessful either way |
| FindSessions.ReplySignals | src/core/find_text_helper.cpp:106-120 | a final reply to the search in progress is signalled with its numbers, and no other reply is |
| FindSessions.StopSignals | src/core/find_text_helper.cpp:33-99 | a stop signals nothing; a search without text stops, signals that nothing is found, and tells its own callback |
| FindSessions.CallbacksInTune | src/core/find_text_helper.cpp:33-138 | a callback runs with the number of matches that is signalled with it |
| FindTextClient.FindTextHelper.StartFinding | src/core/find_text_helper.cpp:33-92 | the whole new state, the id drawn from the shared counter if and only if there is text |
| FindTextClient.FindTextHelper.HandleFindReply | src/core/find_text_helper.cpp:106-120 | the whole new state; the assertion holds |
| FindTextClient.FindTextHelper.InvokeResultCallback | src/core/find_text_helper.cpp:128-138 | if a callback is kept for that id it runs once, with the matches, and no other does; the others stay kept, each for a different id |
| WheelQueue.WheelHandler.HandleWheelEvent | src/core/render_widget_host_view_qt.cpp:966-983 | the whole new state; the assertion holds |
| WheelQueue.WheelHandler.WheelEventAck | src/core/render_widget_host_view_qt.cpp:985-999 | the loop stops only on an empty queue or a new pending acknowledgement |
| WheelQueue.DrainSendsBatch | src/core/render_widget_host_view_qt.cpp:992-998 | it sends the queue up to the first event that is acknowledged, or all of it |
| WheelQueue.AckSendsBatch | src/core/render_widget_host_view_qt.cpp:985-999 | every acknowledgement that is waited for and not of an ended event counts and does that; all others do nothing |
| WheelQueue.QueueUnpacks | src/core/web_event_factory.cpp:1608-1636 | queueing appends the input, combined only with an equal neighbour |
| WheelQueue.NothingLost | src/core/render_widget_host_view_qt.cpp:966-999 | over every run sent and queued events hold the inputs in order, none lost or repeated; at most one event is unacknowledged, and events are queued only then |
| WebAuthDialog.EveryRunBalances | src/core/authenticator_request_dialog_controller.cpp:104-128 | started if and only if the state is not NotStarted; dialogs shown less terminal signals is 1 if a dialog is created, else 0 |
| WebAuthDialog.StartEntersLast | src/core/authenticator_request_dialog_controller.cpp:182-194 | starting enters the last step requested beforehand, or Discovery |
| WebAuthDialog.ApplicationSees | src/core/authenticator_request_dialog_controller.cpp:104-128 | after a state is set the application is told if and only if the request has started with its own UI and has a dialog or a page to show one; then it sees that state |
| WebAuthDialog.ViewIsCurrent | src/core/authenticator_request_dialog_controller.cpp:104-128 | over every run with its own UI, while the page is there, what the application sees is the current state |
| WebAuthDialog.AuthenticatorRequestDialogController.OnTransportAvailabilityEnumerated | src/core/authenticator_request_client_delegate_qt.cpp:168-181 | the guard is enough for the check of the start |
| WebAuthDialog.CancelOpensDialog | src/core/authenticator_request_dialog_controller.cpp:115-120 | a cancel opens a dialog if and only if the request has started with its own UI and none is there |
| WebAuthDialog.DialogEndsExactlyWhen | src/core/authenticator_request_dialog_controller.cpp:118-126 | a dialog is over if and only if it is told of being cancelled or completed |
| WebAuthDialog.FinishCompletes | src/core/authenticator_request_dialog_controller.cpp:97-102 | finishing completes a request with a dialog and does nothing without one |
| WebAuthDialog.StartsExactlyWhen | src/core/authenticator_request_client_delegate_qt.cpp:168-181 | a request that has not started starts if and only if its UI is not disabled |
| WebAuthDialog.SecondCancelShowsDialog | src/core/authenticator_request_dialog_controller.cpp:118-133 | cancelling twice shows two dialogs |
| CacheClearing.EveryClearAccounted | src/core/profile_io_data_qt.cpp:86-172 | the remover is observed exactly while it runs; clears accepted = completions + in progress + given up at shutdown |
| CacheClearing.AcceptedExactlyWhen | src/core/profile_io_data_qt.cpp:86-99 | a clear is accepted if and only if none is in progress, and asking twice is asking once |
| CacheClearing.ResetAwaitsLoaded | src/core/profile_io_data_qt.cpp:114-147 | resetting the contexts awaits exactly the loaded partitions |
| CacheClearing.ShutdownGivesUp | src/core/profile_io_data_qt.cpp:48-62 | shutting down gives up a clear whose remover runs, unannounced, and no other |
| CacheClearing.AnnouncedWhenNoneAwaits | src/core/profile_io_data_qt.cpp:158-171 | a completion is announced only when no loaded partition awaits a context |
| CacheClearing.CreatingAllCompletes | src/core/profile_io_data_qt.cpp:149-172 | creating the contexts of the loaded partitions, in any order, completes the clear once |
| CacheClearing.CompletesExactlyWhen | src/core/profile_io_data_qt.cpp:149-172 | in every reachable state a clear that resets the contexts completes in some continuation if and only if a partition is awaited |
| CacheClearing.NeedsPartition | src/core/profile_io_data_qt.cpp:136-172 | when the remover is done that is so if and only if a partition is loaded |
| CacheClearing.StuckExactlyWhen | src/core/profile_io_data_qt.cpp:86-172 | over every run a clear is stuck for good if and only if the remover was done with no partition loaded, or the last one awaited was unloaded |
| CacheClearing.ProfileIOData.OnNetworkContextCreated | src/core/profile_io_data_qt.cpp:149-172 | the loop over the loaded partitions, and the whole new state |

## Left out

- Touch: points have a finger, a state and nothing else; positions, timestamps, modifiers and the macOS branch are not modelled. The touch selection controller never consumes an event (the early return at line 618), and `clearPreviousTouchMotionState` has no caller.
- TouchClient.DelegateClient.MapTouchPointIds: asks for at most 17 fingers, where the source's assertion stops (AssertionExactlyWhen); the id set of the source has room for 32.
- PermissionRuns.EveryCallbackOnce: decisions with the state `Invalid` are excluded; `QWebEnginePermission` passes only Granted, Denied and Ask. The same holds for OtherOriginsUntouched and DecisionKeepsInv.
- PermissionRuns.AnsweredExactlyWhenDecided: for the Granted and Denied decisions; Ask returns before the loop (ResetForgets), and MediaAudioVideoCapture is two decisions.
- PermissionDecisions.AnsweredExactlyWhenRead: for the persistent policies; with AskEveryTime the first decision answers (NothingLeftWaiting). Prompts for unsupported types cannot be decided, and types that the settings of the frame answer are left out, as are requests with a transient type for which a decision made in advance still lies in the preferences: which of these a lookup moves to the frame depends on the other requests that wait (AnsweredExactlyWhenDecided covers them decision by decision).
- PermissionQueries.SanitizedNeverRemembered: without clipboard decisions made in advance; RequestAgreesExactlyWhen covers these.
- PermissionManager.PermissionManagerQt.RequestPermissions: the prompts are a multiset, since the source's unordered set has no order.
- Permissions: subscriptions, `listPermissions`, `m_requests` (which nothing fills), the preference file and its lossy writes are not modelled. Origin normalisation drops everything behind the origin. The posted clean-up of dead frames is a step that removes some lists. Callbacks do not re-enter.
- Media requests: how a device id in a request names a desktop source, and the display information of a desktop device, are parameters. The stream objects live elsewhere.
- Clipboard text is ASCII and only the Windows branches are modelled; the conversion to UTF-16 is the identity up to the first NUL. `atoi` outside the range of an int clamps as the Windows runtime does. Offsets beyond 32 bits, which ReadHTML refuses with a checked cast, are not modelled.
- CFHtmlTaggedUrl.WriteThenReadExactlyWhen: for a URL without NUL; the specification of a GURL holds none.
- CFHtmlRoundTrip.HeaderAgreesWithScan: for documents whose length fits an int, which is all `atoi` can read.
- ClientHints.MajorVersionModulo: for lists in which no two entries compare equal, as EveryOrderIsUsed; two entries do only if a brand followed by its version spells another brand followed by its own.
- ClientHints.UserAgentMetadata.PopulateBrandVersionLists: at most 12 brands; beyond that the product overflows (FactorialFitsInt).
- Find in page: the request counter is unbounded, and what the renderer finds is a parameter. The `id` of a reply is one of a request made to that web contents.
- Wheel events: positions and deltas are one opaque input; the phase handler may change the phase of an event it sends, but never to an ended one. The extra conditions of macOS are not modelled.
- WebAuthn: accounts, PINs and failure reasons are not modelled; the web contents always have a client, since without one `showWebAuthDialog` and `cancelRequest` call each other.
- Cache clearing: what the remover and the partitions do, apart from calling back.
- Dialogs, context menus, accessibility, file pickers, screens, certificates, device lists and network set-up are wrappers or tables and are not part of this model.
