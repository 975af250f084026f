/** FindTextHelper with its fields updated in place (src/core/find_text_helper.cpp). */
module FindTextClient {
  import opened Wrappers
  import opened FindText

  /** The static member that all helpers count with. */
  class RequestIdCounter {
    var next: int

    constructor ()
      ensures next == -1
    {
      next := -1;
    }
  }

  class FindTextHelper {
    const findRequestIdCounter: RequestIdCounter
    var currentFindRequestId: int
    var lastCompletedFindRequestId: int
    var previousFindText: string
    var previousCaseSensitively: bool
    var quickCallbacks: map<int, nat>
    var widgetCallbacks: map<int, Option<nat>>
    /** The calls of startFinding so far. */
    var starts: nat
    ghost var abandoned: nat
    /** The calls of Find and StopFinding, the signals and the callbacks so far. */
    var finds: seq<Find>
    var stops: nat
    var signals: seq<Finished>
    var runs: seq<CallbackRun>

    ghost function State(): Helper
      reads this
    {
      Helper(currentFindRequestId, lastCompletedFindRequestId, previousFindText, previousCaseSensitively,
             quickCallbacks, widgetCallbacks, starts, abandoned, finds, stops, signals, runs)
    }

    constructor (counter: RequestIdCounter)
      modifies counter
      ensures findRequestIdCounter == counter && counter.next == old(counter.next) + 1
      ensures State() == New(old(counter.next)) && Valid()
    {
      findRequestIdCounter := counter;
      currentFindRequestId, lastCompletedFindRequestId := counter.next, counter.next;
      previousFindText, previousCaseSensitively := "", false;
      quickCallbacks, widgetCallbacks, starts, abandoned := map[], map[], 0, 0;
      finds, stops, signals, runs := [], 0, [], [];
      new;
      counter.next := counter.next + 1;
      assert Ids([]) == [] && Tickets([]) == [] && Kept(State()) == map[];
    }

    predicate IsFindTextInProgress()
      reads this
    {
      currentFindRequestId != lastCompletedFindRequestId
    }

    /** Everything the theorems ask of a helper, and the counter is ahead of it. */
    ghost predicate Valid()
      reads this, findRequestIdCounter
    {
      Inv(State()) && currentFindRequestId < findRequestIdCounter.next
    }

    /** The overloads of lines 33-63. */
    method StartFinding(flavour: Flavour, findText: string, caseSensitively: bool, findBackward: bool,
                        hasCallback: bool)
      requires Valid()
      modifies this, findRequestIdCounter
      ensures Valid()
      ensures State() == Start(old(State()), old(findRequestIdCounter.next), flavour, findText,
                               caseSensitively, findBackward, hasCallback)
      ensures findRequestIdCounter.next == old(findRequestIdCounter.next) + if findText == "" then 0 else 1
    {
      StartKeepsInv(State(), findRequestIdCounter.next, flavour, findText, caseSensitively, findBackward, hasCallback);
      StartOverload(flavour, findText, caseSensitively, findBackward, hasCallback);
    }

    method StartOverload(flavour: Flavour, findText: string, caseSensitively: bool, findBackward: bool,
                         hasCallback: bool)
      requires KeysFit(State())
      modifies this, findRequestIdCounter
      ensures State() == Start(old(State()), old(findRequestIdCounter.next), flavour, findText,
                               caseSensitively, findBackward, hasCallback)
      ensures findRequestIdCounter.next == old(findRequestIdCounter.next) + if findText == "" then 0 else 1
    {
      var ticket := starts;
      if findText == "" {
        StopFinding();
        signals := signals + [Finished(0, 0)];
        if hasCallback {
          runs := runs + [CallbackRun(ticket, 0)];
        }
      } else {
        StartFindingText(findText, caseSensitively, findBackward);
        KeepCallback(flavour, ticket, hasCallback);
      }
      starts := starts + 1;
    }

    /** Lines 44 and 61-62. */
    method KeepCallback(flavour: Flavour, ticket: nat, hasCallback: bool)
      modifies this`widgetCallbacks, this`quickCallbacks
      ensures State() == Store(old(State()), flavour, ticket, hasCallback)
    {
      match flavour {
        case Widget =>
          widgetCallbacks := widgetCallbacks[currentFindRequestId := if hasCallback then Some(ticket) else None];
        case Quick =>
          if hasCallback {
            quickCallbacks := quickCallbacks[currentFindRequestId := ticket];
          }
      }
    }

    /** Lines 65-92. */
    method StartFindingText(findText: string, caseSensitively: bool, findBackward: bool)
      requires findText != "" && KeysFit(State())
      modifies this, findRequestIdCounter
      ensures State() == StartText(old(State()), old(findRequestIdCounter.next), findText, caseSensitively,
                                   findBackward)
      ensures findRequestIdCounter.next == old(findRequestIdCounter.next) + 1
    {
      var findNext := previousFindText != "" && findText == previousFindText
                      && caseSensitively == previousCaseSensitively;
      GiveUpSearch(findNext);
      previousFindText, previousCaseSensitively := findText, caseSensitively;
      currentFindRequestId := findRequestIdCounter.next;
      findRequestIdCounter.next := findRequestIdCounter.next + 1;
      finds := finds + [Find(currentFindRequestId, findText, !findBackward, caseSensitively, !findNext)];
    }

    /** Lines 70-81. */
    method GiveUpSearch(findNext: bool)
      requires KeysFit(State())
      modifies this
      ensures State() == GiveUp(old(State()), findNext)
    {
      if IsFindTextInProgress() {
        lastCompletedFindRequestId := currentFindRequestId;
        if !findNext {
          stops := stops + 1;
        }
        signals := signals + [Finished(0, 0)];
        InvokeResultCallback(currentFindRequestId, 0);
      }
    }

    /** No callback that is kept then will ever run. */
    method StopFinding()
      modifies this
      ensures State() == Stop(old(State()))
      ensures old(Inv(State())) ==> Inv(State())
    {
      if Inv(State()) { StopKeepsInv(State()); }
      if IsFindTextInProgress() {
        abandoned := abandoned + 1;
      }
      lastCompletedFindRequestId := currentFindRequestId;
      previousFindText := "";
      stops := stops + 1;
    }

    /** The reply to one of this helper's requests. The assertion of line 116 holds by the invariant. */
    method HandleFindReply(requestId: int, numberOfMatches: int, activeMatch: int, finalUpdate: bool)
      requires Inv(State()) && requestId in Ids(finds)
      modifies this
      ensures State() == Reply(old(State()), requestId, numberOfMatches, activeMatch, finalUpdate)
      ensures Inv(State())
    {
      ReplyKeepsInv(State(), requestId, numberOfMatches, activeMatch, finalUpdate);
      if !finalUpdate || requestId <= lastCompletedFindRequestId { return; }
      AcceptedReplyIsCurrent(State(), requestId);
      assert currentFindRequestId == requestId;
      lastCompletedFindRequestId := requestId;
      signals := signals + [Finished(numberOfMatches, activeMatch)];
      InvokeResultCallback(requestId, numberOfMatches);
    }

    method HandleLoadCommitted()
      modifies this`previousFindText
      ensures State() == old(State()).(previousText := "")
    {
      previousFindText := "";
    }

    /** What the destructor does. */
    method Destroy()
      modifies this
      ensures State() == if InProgress(old(State())) then Stop(old(State())) else old(State())
    {
      if IsFindTextInProgress() {
        StopFinding();
      }
    }

    /** The callback kept for that request runs, and no other; it is kept no longer. */
    method InvokeResultCallback(requestId: int, numberOfMatches: int)
      requires KeysFit(State())
      modifies this
      ensures State() == Invoke(old(State()), requestId, numberOfMatches)
      ensures KeysFit(State()) && Kept(State()) == old(Kept(State())) - {requestId}
      ensures runs == if requestId in old(Kept(State()))
                      then old(runs) + [CallbackRun(old(Kept(State()))[requestId], numberOfMatches)] else old(runs)
    {
      InvokeRuns(State(), requestId, numberOfMatches);
      if requestId in quickCallbacks {
        var callback := quickCallbacks[requestId];
        quickCallbacks := quickCallbacks - {requestId};
        runs := runs + [CallbackRun(callback, numberOfMatches)];
      } else if requestId in widgetCallbacks {
        var func := widgetCallbacks[requestId];
        widgetCallbacks := widgetCallbacks - {requestId};
        if func.Some? {
          runs := runs + [CallbackRun(func.value, numberOfMatches)];
        }
      }
    }
  }
}
