/** The queue of media requests of one WebContents, with the permission answers and posted tasks it
    waits for (src/core/media_capture_devices_dispatcher.cpp:358-433, 460-512, 559-591, 629-652). */
module MediaQueue {
  import opened Wrappers
  import opened MediaFlags
  import opened MediaDevices
  import P = PermissionTypes
  import R = PermissionRequests
  import S = PermissionStore

  /** A PendingAccessRequest; `ticket` numbers the requests queued for its WebContents. */
  datatype Pending = Pending(ticket: nat, request: Request, media: Option<DesktopId>)

  /** A permission question on its way: which request asked it, the flags asked for, and the origin
      bound to its callback. */
  datatype Question = Question(ticket: nat, flags: Flags, origin: Origin)

  /** The run of a request's callback; `asker` is the request whose question was answered. */
  datatype Reply = Reply(ticket: nat, asker: nat, devices: Option<StreamDevices>)

  /** The queue of a WebContents, the questions and tasks outstanding for it, and its history: how
      many requests were queued, which replies were given and which requests were dropped. */
  datatype Line = Line(
    queue: seq<Pending>,
    questions: seq<Question>,
    tasks: nat,
    entered: nat,
    replies: seq<Reply>,
    dropped: set<nat>)

  const EMPTY: Line := Line([], [], 0, 0, [], {})

  function QuestionOf(p: Pending): Question {
    Question(p.ticket, p.request.Flags(), p.request.urlOrigin)
  }

  function Tickets(queue: seq<Pending>): (r: seq<nat>)
    ensures |r| == |queue| && forall i :: 0 <= i < |r| ==> r[i] == queue[i].ticket
  {
    seq(|queue|, i requires 0 <= i < |queue| => queue[i].ticket)
  }

  function ReplyTickets(replies: seq<Reply>): (r: seq<nat>)
    ensures |r| == |replies| && forall i :: 0 <= i < |r| ==> r[i] == replies[i].ticket
  {
    seq(|replies|, i requires 0 <= i < |replies| => replies[i].ticket)
  }

  /** enqueueMediaAccessRequest and the question asked right after it. */
  function Enqueue(l: Line, request: Request, media: Option<DesktopId>): Line {
    var p := Pending(l.entered, request, media);
    l.(queue := l.queue + [p], questions := l.questions + [QuestionOf(p)], entered := l.entered + 1)
  }

  function Without<T>(s: seq<T>, i: nat): (r: seq<T>)
    requires i < |s|
    ensures |r| == |s| - 1
  {
    s[..i] + s[i + 1..]
  }

  /** handleMediaAccessPermissionResponse for the i-th question: the head of the queue gets the reply. */
  function Respond(l: Line, i: nat, devices: Option<StreamDevices>): Line
    requires i < |l.questions|
  {
    var l1 := l.(questions := Without(l.questions, i));
    if l.queue == [] then l1
    else l1.(queue := l.queue[1..], replies := l.replies + [Reply(l.queue[0].ticket, l.questions[i].ticket, devices)],
             tasks := if |l.queue| > 1 then l.tasks + 1 else l.tasks)
  }

  /** ProcessQueuedAccessRequest, run as a posted task. */
  function RunTask(l: Line): Line
    requires l.tasks > 0
  {
    var l1 := l.(tasks := l.tasks - 1);
    if l.queue == [] then l1 else l1.(questions := l.questions + [QuestionOf(l.queue[0])])
  }

  /** Closing the i-th queued request. */
  function Close(l: Line, i: nat): Line
    requires i < |l.queue|
  {
    l.(queue := Without(l.queue, i), dropped := l.dropped + {l.queue[i].ticket})
  }

  /** WebContentsDestroyed. Questions and tasks stay on their way. */
  function Destroy(l: Line): Line {
    l.(queue := [], dropped := l.dropped + set k | k in Tickets(l.queue))
  }

  datatype Step =
    | Entered(request: Request, media: Option<DesktopId>)
    | Responded(question: nat, origin: Origin, authorised: Flags, platform: Platform, devices: Option<StreamDevices>)
    | TaskRun
    | Closed(at: nat)
    | Destroyed

  /** A step the environment may take: an answer to an outstanding question, with devices as
      the dispatcher picks them for the head of the queue, a task that was posted, the closing of a
      queued request. */
  ghost predicate Enabled(l: Line, step: Step) {
    match step
    case Responded(i, origin, authorised, platform, devices) =>
      && i < |l.questions| && origin == l.questions[i].origin
      && (l.queue != [] ==> Answers(l.queue[0].request, l.queue[0].media, origin, authorised, platform, devices))
    case TaskRun => l.tasks > 0
    case Closed(i) => i < |l.queue|
    case _ => true
  }

  function Apply(l: Line, step: Step): Line
    requires match step case Responded(i, _, _, _, _) => i < |l.questions| case TaskRun => l.tasks > 0
                        case Closed(i) => i < |l.queue| case _ => true
  {
    match step
    case Entered(request, media) => Enqueue(l, request, media)
    case Responded(i, _, _, _, devices) => Respond(l, i, devices)
    case TaskRun => RunTask(l)
    case Closed(i) => Close(l, i)
    case Destroyed => Destroy(l)
  }

  ghost predicate ValidRun(l: Line, steps: seq<Step>)
    decreases |steps|
  {
    steps == [] || (Enabled(l, steps[0]) && ValidRun(Apply(l, steps[0]), steps[1..]))
  }

  ghost function Run(l: Line, steps: seq<Step>): Line
    requires ValidRun(l, steps)
    decreases |steps|
  {
    if steps == [] then l else Run(Apply(l, steps[0]), steps[1..])
  }

  // ---- the invariant ----

  /** The requests served and still to serve, in order. */
  function Served(l: Line): seq<nat> {
    ReplyTickets(l.replies) + Tickets(l.queue)
  }

  ghost predicate Increasing(s: seq<nat>) {
    forall i, j :: 0 <= i < j < |s| ==> s[i] < s[j]
  }

  /** Of the numbers below n each is served or dropped, never both, and the served ones once and in
      order. */
  ghost predicate Accounted(served: seq<nat>, dropped: set<nat>, n: nat) {
    && Increasing(served)
    && (forall k :: k in served ==> k < n && k !in dropped)
    && (forall k :: 0 <= k < n ==> k in served || k in dropped)
    && (forall k :: k in dropped ==> k < n)
  }

  lemma AccountedAppend(served: seq<nat>, dropped: set<nat>, n: nat)
    requires Accounted(served, dropped, n)
    ensures Accounted(served + [n], dropped, n + 1)
  {
    var r := served + [n];
    forall i, j | 0 <= i < j < |r| ensures r[i] < r[j] {
      assert r[i] in served;
    }
    forall k | 0 <= k < n + 1 ensures k in r || k in dropped {
      if k == n { assert r[|served|] == n; }
    }
  }

  lemma AccountedWithout(served: seq<nat>, dropped: set<nat>, n: nat, i: nat, served': seq<nat>, dropped': set<nat>)
    requires Accounted(served, dropped, n) && i < |served|
    requires served' == Without(served, i) && dropped' == dropped + {served[i]}
    ensures Accounted(served', dropped', n)
  {
    WithoutIncreasing(served, i);
  }

  lemma AccountedPrefix(head: seq<nat>, tail: seq<nat>, dropped: set<nat>, n: nat)
    requires Accounted(head + tail, dropped, n)
    ensures Accounted(head, dropped + (set k | k in tail), n)
  {
    var all := head + tail;
    forall i, j | 0 <= i < j < |head| ensures head[i] < head[j] {
      assert all[i] < all[j];
    }
    forall k | k in head ensures k < n && k !in dropped && k !in tail {
      var i :| 0 <= i < |head| && head[i] == k;
      assert all[i] == k && k in all;
      assert forall j :: 0 <= j < |tail| ==> all[i] < all[|head| + j] == tail[j];
    }
    assert forall k :: k in tail ==> k in all;
    assert forall k :: k in all ==> k in head || k in tail;
  }

  /** Taking an element out of an increasing sequence removes that element alone. */
  lemma WithoutIncreasing(s: seq<nat>, i: nat)
    requires i < |s| && Increasing(s)
    ensures Increasing(Without(s, i))
    ensures forall k :: k in Without(s, i) <==> k in s && k != s[i]
  {
    var r := Without(s, i);
    assert forall j :: 0 <= j < |r| ==> r[j] == if j < i then s[j] else s[j + 1];
    forall k | k in s && k != s[i] ensures k in r {
      var j :| 0 <= j < |s| && s[j] == k;
      assert r[if j < i then j else j - 1] == k;
    }
  }

  /** Requests are answered in the order in which they were queued and at most once; what was neither
      answered nor is queued was dropped; and no queued request is stranded. */
  ghost predicate Inv(l: Line) {
    Accounted(Served(l), l.dropped, l.entered) && |l.questions| + l.tasks >= |l.queue|
  }

  lemma EnqueueKeepsInv(l: Line, request: Request, media: Option<DesktopId>)
    requires Inv(l)
    ensures Inv(Enqueue(l, request, media))
  {
    AccountedAppend(Served(l), l.dropped, l.entered);
    assert Served(Enqueue(l, request, media)) == Served(l) + [l.entered];
  }

  lemma RespondKeepsServed(l: Line, i: nat, devices: Option<StreamDevices>)
    requires i < |l.questions|
    ensures Served(Respond(l, i, devices)) == Served(l)
  {
    if l.queue != [] {
      HeadMoves(l.replies, l.queue, l.questions[i].ticket, devices);
    }
  }

  lemma HeadMoves(replies: seq<Reply>, queue: seq<Pending>, asker: nat, devices: Option<StreamDevices>)
    requires queue != []
    ensures ReplyTickets(replies + [Reply(queue[0].ticket, asker, devices)]) + Tickets(queue[1..])
         == ReplyTickets(replies) + Tickets(queue)
  {
    var head := queue[0].ticket;
    assert Tickets(queue) == [head] + Tickets(queue[1..]);
    assert ReplyTickets(replies + [Reply(head, asker, devices)]) == ReplyTickets(replies) + [head];
    Regroup(ReplyTickets(replies), head, Tickets(queue[1..]));
  }

  lemma Regroup<T>(a: seq<T>, x: T, b: seq<T>)
    ensures a + [x] + b == a + ([x] + b)
  {
  }

  lemma RespondKeepsInv(l: Line, i: nat, devices: Option<StreamDevices>)
    requires Inv(l) && i < |l.questions|
    ensures Inv(Respond(l, i, devices))
  {
    RespondKeepsServed(l, i, devices);
  }

  lemma CloseKeepsInv(l: Line, i: nat)
    requires Inv(l) && i < |l.queue|
    ensures Inv(Close(l, i))
  {
    CloseServes(l.replies, l.queue, i);
    AccountedWithout(Served(l), l.dropped, l.entered, |l.replies| + i, Served(Close(l, i)), Close(l, i).dropped);
  }

  lemma CloseServes(replies: seq<Reply>, queue: seq<Pending>, i: nat)
    requires i < |queue|
    ensures (ReplyTickets(replies) + Tickets(queue))[|replies| + i] == queue[i].ticket
    ensures ReplyTickets(replies) + Tickets(Without(queue, i))
         == Without(ReplyTickets(replies) + Tickets(queue), |replies| + i)
  {
    TicketsWithout(queue, i);
    WithoutInTail(ReplyTickets(replies), Tickets(queue), i);
  }

  lemma TicketsWithout(queue: seq<Pending>, i: nat)
    requires i < |queue|
    ensures Tickets(Without(queue, i)) == Without(Tickets(queue), i)
  {
  }

  lemma WithoutInTail<T>(a: seq<T>, b: seq<T>, i: nat)
    requires i < |b|
    ensures Without(a + b, |a| + i) == a + Without(b, i)
  {
  }

  lemma DestroyKeepsInv(l: Line)
    requires Inv(l)
    ensures Inv(Destroy(l))
  {
    AccountedPrefix(ReplyTickets(l.replies), Tickets(l.queue), l.dropped, l.entered);
    assert Tickets([]) == [] && Served(Destroy(l)) == ReplyTickets(l.replies);
  }

  lemma {:induction false} RunKeepsInv(l: Line, steps: seq<Step>)
    requires Inv(l) && ValidRun(l, steps)
    ensures Inv(Run(l, steps))
    decreases |steps|
  {
    if steps != [] {
      match steps[0] {
        case Entered(request, media) => EnqueueKeepsInv(l, request, media);
        case Responded(i, _, _, _, devices) => RespondKeepsInv(l, i, devices);
        case TaskRun =>
        case Closed(i) => CloseKeepsInv(l, i);
        case Destroyed => DestroyKeepsInv(l);
      }
      RunKeepsInv(Apply(l, steps[0]), steps[1..]);
    }
  }

  /** In every run: replies come in queue order, every queued request is answered at most once or
      dropped, never both, and while one waits an answer or a task is on its way for it. */
  lemma EveryRequestOnce(steps: seq<Step>)
    requires ValidRun(EMPTY, steps)
    ensures var l := Run(EMPTY, steps);
            && (forall i, j :: 0 <= i < j < |l.replies| ==> l.replies[i].ticket < l.replies[j].ticket)
            && (forall i, j :: 0 <= i < |l.replies| && 0 <= j < |l.queue| ==> l.replies[i].ticket < l.queue[j].ticket)
            && (forall k :: 0 <= k < l.entered ==> (k in Served(l) <==> k !in l.dropped))
            && (l.questions == [] && l.tasks == 0 ==> l.queue == [])
  {
    RunKeepsInv(EMPTY, steps);
    ServedInOrder(Run(EMPTY, steps));
  }

  lemma ServedInOrder(l: Line)
    requires Increasing(Served(l))
    ensures forall i, j :: 0 <= i < j < |l.replies| ==> l.replies[i].ticket < l.replies[j].ticket
    ensures forall i, j :: 0 <= i < |l.replies| && 0 <= j < |l.queue| ==> l.replies[i].ticket < l.queue[j].ticket
  {
    var served, m := Served(l), |l.replies|;
    forall i, j | 0 <= i < j < m ensures l.replies[i].ticket < l.replies[j].ticket {
      assert served[i] < served[j];
    }
    forall i, j | 0 <= i < m && 0 <= j < |l.queue| ensures l.replies[i].ticket < l.queue[j].ticket {
      assert served[i] < served[m + j];
    }
  }

  /** Only closing and destroying drop a request, and nothing takes back a reply. */
  lemma {:induction false} OnlyClosingDrops(l: Line, steps: seq<Step>)
    requires ValidRun(l, steps)
    ensures l.replies <= Run(l, steps).replies && l.dropped <= Run(l, steps).dropped
    ensures (forall i :: 0 <= i < |steps| ==> !steps[i].Closed? && !steps[i].Destroyed?) ==>
              Run(l, steps).dropped == l.dropped
    decreases |steps|
  {
    if steps != [] {
      var tail := steps[1..];
      assert forall i :: 0 <= i < |tail| ==> tail[i] == steps[i + 1];
      OnlyClosingDrops(Apply(l, steps[0]), tail);
    }
  }

  // ---- draining ----

  /** An answer or a task, the steps that need nothing new. */
  predicate IsDraining(step: Step) {
    step.Responded? || step.TaskRun?
  }

  /** The queue, then the work outstanding: every answer and task makes the pair smaller. */
  lemma DrainingDecreases(l: Line, step: Step)
    requires Enabled(l, step) && IsDraining(step)
    ensures var l' := Apply(l, step);
            || |l'.queue| < |l.queue|
            || (|l'.queue| == |l.queue| && 2 * l'.tasks + |l'.questions| < 2 * l.tasks + |l.questions|)
  {
  }

  function Work(l: Line): nat {
    3 * |l.queue| + 2 * l.tasks + |l.questions|
  }

  lemma DrainingStep(l: Line, step: Step)
    requires Inv(l) && Enabled(l, step) && IsDraining(step)
    ensures var l' := Apply(l, step);
            Inv(l') && Work(l') < Work(l) && Served(l') == Served(l)
  {
    if step.Responded? {
      RespondKeepsServed(l, step.question, step.devices);
    }
  }

  /** Without new requests only so many answers and tasks can follow; and once none is left, every
      request that was queued has been answered, in order. */
  lemma {:induction false} Drains(l: Line, steps: seq<Step>)
    requires Inv(l) && ValidRun(l, steps) && forall i :: 0 <= i < |steps| ==> IsDraining(steps[i])
    ensures |steps| + Work(Run(l, steps)) <= Work(l)
    ensures var l' := Run(l, steps);
            && Served(l') == Served(l)
            && (l'.questions == [] && l'.tasks == 0 ==> ReplyTickets(l'.replies) == Served(l))
    decreases |steps|
  {
    if steps != [] {
      var tail := steps[1..];
      assert forall i :: 0 <= i < |tail| ==> tail[i] == steps[i + 1];
      DrainingStep(l, steps[0]);
      Drains(Apply(l, steps[0]), tail);
    }
  }

  /** As long as a request waits there is a next step for it, whatever the authorisation. */
  lemma NeverStuck(l: Line)
    requires Inv(l) && l.queue != []
    ensures l.questions != [] || Enabled(l, TaskRun)
  {
  }

  // ---- whose answer it is ----

  /** The head of the queue gets the reply, so it is for the request that asked exactly if that one is
      at the head. */
  lemma RepliesToAsker(l: Line, i: nat, devices: Option<StreamDevices>)
    requires i < |l.questions| && l.queue != []
    ensures var replies := Respond(l, i, devices).replies;
            && |replies| == |l.replies| + 1
            && (replies[|l.replies|].ticket == replies[|l.replies|].asker
                <==> l.queue[0].ticket == l.questions[i].ticket)
  {
  }

  /** Every reply so far was the answer to the request's own question. */
  ghost predicate Own(l: Line) {
    forall i :: 0 <= i < |l.replies| ==> l.replies[i].ticket == l.replies[i].asker
  }

  /** At most one request waits, and every question on its way is its own. */
  ghost predicate Matching(l: Line) {
    && Own(l) && |l.queue| <= 1
    && (forall i :: 0 <= i < |l.queue| ==> l.queue[i].ticket < l.entered)
    && (forall i :: 0 <= i < |l.questions| ==> l.questions[i].ticket < l.entered)
    && (l.queue != [] ==> forall i :: 0 <= i < |l.questions| ==> l.questions[i] == QuestionOf(l.queue[0]))
  }

  /** No request waits and no question is on its way. */
  predicate Quiet(l: Line) {
    l.queue == [] && l.questions == []
  }

  /** Whatever happens to the requests entered so far, each is answered with its own answer. */
  ghost predicate AlwaysOwn(l: Line) {
    forall steps :: ValidRun(l, steps) && NoneEnters(steps) ==> Own(Run(l, steps))
  }

  ghost predicate NoneEnters(steps: seq<Step>) {
    forall i :: 0 <= i < |steps| ==> !steps[i].Entered?
  }

  lemma RespondKeepsMatching(l: Line, i: nat, devices: Option<StreamDevices>)
    requires Matching(l) && i < |l.questions|
    ensures Matching(Respond(l, i, devices))
  {
    var l' := Respond(l, i, devices);
    assert forall k :: 0 <= k < |l'.questions| ==> l'.questions[k] in l.questions;
  }

  lemma QuietStepKeepsMatching(l: Line, step: Step)
    requires Matching(l) && Enabled(l, step) && (step.Entered? ==> Quiet(l))
    ensures Matching(Apply(l, step))
  {
    match step
    case Responded(i, _, _, _, devices) => RespondKeepsMatching(l, i, devices);
    case Closed(i) => assert Without(l.queue, i) == [];
    case _ =>
  }

  lemma {:induction false} MatchingStaysOwn(l: Line, steps: seq<Step>)
    requires Matching(l) && ValidRun(l, steps) && NoneEnters(steps)
    ensures Own(Run(l, steps))
    decreases |steps|
  {
    if steps != [] {
      var tail := steps[1..];
      assert forall i :: 0 <= i < |tail| ==> tail[i] == steps[i + 1];
      assert !steps[0].Entered?;
      QuietStepKeepsMatching(l, steps[0]);
      MatchingStaysOwn(Apply(l, steps[0]), tail);
    }
  }

  /** The i-th question answered with a refusal. */
  function Refused(l: Line, i: nat, platform: Platform): Step
    requires i < |l.questions|
  {
    Responded(i, l.questions[i].origin, {}, platform, None)
  }

  /** A question of another request than the head can be answered at once, and the head gets it. */
  lemma OthersQuestionMeetsHead(l: Line, i: nat)
    requires i < |l.questions| && l.queue != [] && l.queue[0].ticket != l.questions[i].ticket
    ensures !AlwaysOwn(l)
  {
    var step := Refused(l, i, Platform([], [], false));
    var steps := [step];
    assert Enabled(l, step);
    RunStep(l, step, Respond(l, i, None), []);
    assert [step] + [] == steps;
    RepliesToAsker(l, i, None);
    assert ValidRun(l, steps) && NoneEnters(steps) && !Own(Run(l, steps));
  }

  /** When every question on its way is for the request that waits, a request that enters now, and
      the one that waits, are sure to be answered with their own answers exactly if nothing waits and
      nothing is on its way. */
  lemma EnteringIsSafeWhen(l: Line, request: Request, media: Option<DesktopId>)
    requires Matching(l)
    ensures AlwaysOwn(Enqueue(l, request, media)) <==> Quiet(l)
  {
    var l' := Enqueue(l, request, media);
    if Quiet(l) {
      QuietStepKeepsMatching(l, Entered(request, media));
      forall steps | ValidRun(l', steps) && NoneEnters(steps) ensures Own(Run(l', steps)) {
        MatchingStaysOwn(l', steps);
      }
    } else if l.queue == [] {
      assert l'.questions[0] == l.questions[0] && l'.queue[0].ticket == l.entered;
      OthersQuestionMeetsHead(l', 0);
    } else {
      assert l'.queue[0] == l.queue[0] && l'.questions[|l.questions|].ticket == l.entered;
      OthersQuestionMeetsHead(l', |l.questions|);
    }
  }

  /** Requests enter only while nothing waits and nothing is on its way. */
  ghost predicate EnterQuietly(l: Line, steps: seq<Step>)
    requires ValidRun(l, steps)
    decreases |steps|
  {
    steps == [] || ((steps[0].Entered? ==> Quiet(l)) && EnterQuietly(Apply(l, steps[0]), steps[1..]))
  }

  /** At no point of the run can an answer go to another request than its own. */
  ghost predicate SafeThroughout(l: Line, steps: seq<Step>)
    requires ValidRun(l, steps)
    decreases |steps|
  {
    AlwaysOwn(l) && (steps == [] || SafeThroughout(Apply(l, steps[0]), steps[1..]))
  }

  /** Over every run: requests are always sure to be answered with their own answers exactly if each
      one enters only while nothing waits and nothing is on its way. */
  lemma {:induction false} OwnAnswersExactlyWhen(l: Line, steps: seq<Step>)
    requires Matching(l) && ValidRun(l, steps)
    ensures SafeThroughout(l, steps) <==> EnterQuietly(l, steps)
    decreases |steps|
  {
    forall more | ValidRun(l, more) && NoneEnters(more) ensures Own(Run(l, more)) {
      MatchingStaysOwn(l, more);
    }
    if steps != [] {
      var step, next, tail := steps[0], Apply(l, steps[0]), steps[1..];
      if step.Entered? && !Quiet(l) {
        EnteringIsSafeWhen(l, step.request, step.media);
        SafeStartsSafe(next, tail);
      } else {
        QuietStepKeepsMatching(l, step);
        OwnAnswersExactlyWhen(next, tail);
      }
    }
  }

  lemma SafeStartsSafe(l: Line, steps: seq<Step>)
    requires ValidRun(l, steps)
    ensures SafeThroughout(l, steps) ==> AlwaysOwn(l)
  {
  }

  /** The decision of the permission manager about a request that is at the head when it comes is acted
      on in full if it is a grant, and not at all otherwise. */
  lemma DecisionReachesHead(l: Line, i: nat, c: R.Setting, s: S.Store)
    requires i < |l.questions| && l.queue != [] && l.questions[i] == QuestionOf(l.queue[0]) && c.status != P.ASK
    ensures var types := PermissionsFor(l.questions[i].flags);
            var statuses := R.Evaluate(c, s, types).0;
            statuses.Some? ==>
              && |statuses.value| == |types|
              && FinalFlags(l.queue[0].request, Authorised(types, statuses.value))
                 == if c.status == P.GRANTED then l.queue[0].request.Flags() else {}
  {
    DecisionReachesFlags(l.questions[i].flags, c, s);
  }

  /** The answer to a closed request's question is taken for the next request: its devices follow the
      decision about another one. */
  lemma AnswerMeetsAnotherRequest(a: Request, b: Request, authorised: Flags, platform: Platform,
                                  devices: Option<StreamDevices>)
    requires Answers(b, None, a.urlOrigin, authorised, platform, devices)
    ensures var steps := [Entered(a, None), Entered(b, None), Closed(0),
                          Responded(0, a.urlOrigin, authorised, platform, devices)];
            && ValidRun(EMPTY, steps)
            && Run(EMPTY, steps).replies == [Reply(1, 0, devices)]
            && Run(EMPTY, steps).questions == [Question(1, b.Flags(), b.urlOrigin)]
  {
    var l1 := Enqueue(EMPTY, a, None);
    var l2 := Enqueue(l1, b, None);
    var l3 := Close(l2, 0);
    var step := Responded(0, a.urlOrigin, authorised, platform, devices);
    var l4 := Respond(l3, 0, devices);
    assert l3.queue == [Pending(1, b, None)];
    assert l3.questions == [Question(0, a.Flags(), a.urlOrigin), Question(1, b.Flags(), b.urlOrigin)];
    RunFour(EMPTY, Entered(a, None), l1, Entered(b, None), l2, Closed(0), l3, step, l4);
  }

  /** Closing the page drops its requests and nothing else: what was asked for them is still answered, and what was
      posted is still run. */
  lemma DestroyOnlyDrops(l: Line)
    ensures var l' := Destroy(l);
            && l'.queue == [] && l'.questions == l.questions && l'.tasks == l.tasks
            && l'.entered == l.entered && l'.replies == l.replies
            && forall k: nat :: k in l'.dropped <==> k in l.dropped || exists p :: p in l.queue && p.ticket == k
  {
    forall k: nat ensures k in Tickets(l.queue) <==> exists p :: p in l.queue && p.ticket == k {
      if k in Tickets(l.queue) {
        var i :| 0 <= i < |l.queue| && Tickets(l.queue)[i] == k;
        assert l.queue[i] in l.queue && l.queue[i].ticket == k;
      }
      if p :| p in l.queue && p.ticket == k {
        var i :| 0 <= i < |l.queue| && l.queue[i] == p;
        assert Tickets(l.queue)[i] == k;
      }
    }
  }

  lemma RunStep(l: Line, step: Step, next: Line, rest: seq<Step>)
    requires Enabled(l, step) && next == Apply(l, step) && ValidRun(next, rest)
    ensures ValidRun(l, [step] + rest) && Run(l, [step] + rest) == Run(next, rest)
  {
    assert ([step] + rest)[1..] == rest;
  }

  /** No closing is needed: with three requests waiting, the posted task asks for the second one again,
      and the answer to that second question decides the third, which never got its own. */
  lemma SecondQuestionDecidesThird(a: Request, b: Request, c: Request, platform: Platform,
                                   flagsA: Flags, flagsB: Flags, flagsC: Flags,
                                   da: Option<StreamDevices>, db: Option<StreamDevices>, dc: Option<StreamDevices>)
    requires Answers(a, None, a.urlOrigin, flagsA, platform, da)
    requires Answers(b, None, b.urlOrigin, flagsB, platform, db)
    requires Answers(c, None, b.urlOrigin, flagsC, platform, dc)
    ensures var steps := [Entered(a, None), Entered(b, None), Entered(c, None)]
                         + [Responded(0, a.urlOrigin, flagsA, platform, da), TaskRun,
                            Responded(0, b.urlOrigin, flagsB, platform, db),
                            Responded(1, b.urlOrigin, flagsC, platform, dc)];
            && ValidRun(EMPTY, steps)
            && Run(EMPTY, steps).replies == [Reply(0, 0, da), Reply(1, 1, db), Reply(2, 1, dc)]
            && Run(EMPTY, steps).dropped == {}
  {
    var pa, pb, pc := Pending(0, a, None), Pending(1, b, None), Pending(2, c, None);
    var qa, qb, qc := QuestionOf(pa), QuestionOf(pb), QuestionOf(pc);
    var l3 := Line([pa, pb, pc], [qa, qb, qc], 0, 3, [], {});
    var l4 := Line([pb, pc], [qb, qc], 1, 3, [Reply(0, 0, da)], {});
    var l5 := Line([pb, pc], [qb, qc, qb], 0, 3, [Reply(0, 0, da)], {});
    var l6 := Line([pc], [qc, qb], 1, 3, [Reply(0, 0, da), Reply(1, 1, db)], {});
    var l7 := Line([], [qc], 1, 3, [Reply(0, 0, da), Reply(1, 1, db), Reply(2, 1, dc)], {});
    FirstReply(pa, pb, pc, da);
    SecondReply(pb, pc, l5.replies, db);
    ThirdReply(pb, pc, l6.replies, dc);
    assert RunTask(l4) == l5;
    var s4, s5 := Responded(0, a.urlOrigin, flagsA, platform, da), Responded(0, b.urlOrigin, flagsB, platform, db);
    var s6 := Responded(1, b.urlOrigin, flagsC, platform, dc);
    RunFour(l3, s4, l4, TaskRun, l5, s5, l6, s6, l7);
    ThreeEnter(a, b, c);
    RunThree(EMPTY, a, b, c, l3, [s4, TaskRun, s5, s6]);
  }

  lemma FirstReply(a: Pending, b: Pending, c: Pending, d: Option<StreamDevices>)
    ensures Respond(Line([a, b, c], [QuestionOf(a), QuestionOf(b), QuestionOf(c)], 0, 3, [], {}), 0, d)
         == Line([b, c], [QuestionOf(b), QuestionOf(c)], 1, 3, [Reply(a.ticket, a.ticket, d)], {})
  {
  }

  lemma SecondReply(b: Pending, c: Pending, replies: seq<Reply>, d: Option<StreamDevices>)
    ensures Respond(Line([b, c], [QuestionOf(b), QuestionOf(c), QuestionOf(b)], 0, 3, replies, {}), 0, d)
         == Line([c], [QuestionOf(c), QuestionOf(b)], 1, 3, replies + [Reply(b.ticket, b.ticket, d)], {})
  {
  }

  lemma ThirdReply(b: Pending, c: Pending, replies: seq<Reply>, d: Option<StreamDevices>)
    ensures Respond(Line([c], [QuestionOf(c), QuestionOf(b)], 1, 3, replies, {}), 1, d)
         == Line([], [QuestionOf(c)], 1, 3, replies + [Reply(c.ticket, b.ticket, d)], {})
  {
  }

  lemma ThreeEnter(a: Request, b: Request, c: Request)
    ensures var pa, pb, pc := Pending(0, a, None), Pending(1, b, None), Pending(2, c, None);
            Enqueue(Enqueue(Enqueue(EMPTY, a, None), b, None), c, None)
            == Line([pa, pb, pc], [QuestionOf(pa), QuestionOf(pb), QuestionOf(pc)], 0, 3, [], {})
  {
  }

  lemma RunThree(l: Line, a: Request, b: Request, c: Request, l3: Line, rest: seq<Step>)
    requires l3 == Enqueue(Enqueue(Enqueue(l, a, None), b, None), c, None) && ValidRun(l3, rest)
    ensures var steps := [Entered(a, None), Entered(b, None), Entered(c, None)] + rest;
            ValidRun(l, steps) && Run(l, steps) == Run(l3, rest)
  {
    var ea, eb, ec := Entered(a, None), Entered(b, None), Entered(c, None);
    var l1 := Enqueue(l, a, None);
    var l2 := Enqueue(l1, b, None);
    RunStep(l2, ec, l3, rest);
    RunStep(l1, eb, l2, [ec] + rest);
    RunStep(l, ea, l1, [eb] + ([ec] + rest));
    assert [ea] + ([eb] + ([ec] + rest)) == [ea, eb, ec] + rest;
  }

  lemma RunFour(l0: Line, s0: Step, l1: Line, s1: Step, l2: Line, s2: Step, l3: Line, s3: Step, l4: Line)
    requires Enabled(l0, s0) && Apply(l0, s0) == l1 && Enabled(l1, s1) && Apply(l1, s1) == l2
    requires Enabled(l2, s2) && Apply(l2, s2) == l3 && Enabled(l3, s3) && Apply(l3, s3) == l4
    ensures ValidRun(l0, [s0, s1, s2, s3]) && Run(l0, [s0, s1, s2, s3]) == l4
  {
    RunStep(l3, s3, l4, []);
    assert [s3] + [] == [s3] && [s2] + [s3] == [s2, s3] && [s1] + [s2, s3] == [s1, s2, s3];
    RunStep(l2, s2, l3, [s3]);
    RunStep(l1, s1, l2, [s2, s3]);
    RunStep(l0, s0, l1, [s1, s2, s3]);
    assert [s0] + [s1, s2, s3] == [s0, s1, s2, s3];
  }
}
