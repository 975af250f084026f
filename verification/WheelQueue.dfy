/** Wheel events wait for the acknowledgement of the one before
    (src/core/render_widget_host_view_qt.cpp:966-999, src/core/web_event_factory.cpp:1608-1636). */
module WheelQueue {

  datatype Phase = PhaseEnded | OtherPhase(code: nat)

  /** What must agree for two events to be combined. */
  datatype Kind = Kind(eventType: int, modifiers: int, phase: Phase)

  /** A wheel event from Qt; `input` stands for its position and deltas. */
  datatype WheelInput = WheelInput(kind: Kind, input: int)

  /** A web event and the inputs combined in it. */
  datatype WebWheelEvent = WebWheelEvent(kind: Kind, inputs: seq<int>)

  function ToWebWheelEvent(e: WheelInput): WebWheelEvent {
    WebWheelEvent(e.kind, [e.input])
  }

  /** coalesceWebWheelEvent, when it can. */
  function Coalesced(last: WebWheelEvent, e: WheelInput): WebWheelEvent
    requires e.kind == last.kind
  {
    last.(inputs := last.inputs + [e.input])
  }

  /** The queue, the events sent, the acknowledgements that were waited for, and the inputs so far. */
  datatype Wheel = Wheel(
    ackPending: bool,
    pending: seq<WebWheelEvent>,
    sent: seq<WebWheelEvent>,
    acks: nat,
    inputs: seq<WheelInput>)

  const IDLE: Wheel := Wheel(false, [], [], 0, [])

  function Send(w: Wheel, e: WebWheelEvent): Wheel {
    w.(ackPending := e.kind.phase != PhaseEnded, sent := w.sent + [e])
  }

  function Queue(pending: seq<WebWheelEvent>, e: WheelInput): seq<WebWheelEvent> {
    var n := |pending|;
    if n > 0 && pending[n - 1].kind == e.kind then pending[..n - 1] + [Coalesced(pending[n - 1], e)]
    else pending + [ToWebWheelEvent(e)]
  }

  /** handleWheelEvent. */
  function Handle(w: Wheel, e: WheelInput): Wheel {
    var w1 := w.(inputs := w.inputs + [e]);
    if !w.ackPending then Send(w1, ToWebWheelEvent(e)) else w1.(pending := Queue(w.pending, e))
  }

  /** Lines 992-998. */
  function Drain(w: Wheel): Wheel
    decreases |w.pending|
  {
    if w.pending == [] || w.ackPending then w
    else Drain(Send(w.(pending := w.pending[1..]), w.pending[0]))
  }

  /** WheelEventAck for an event with that phase. */
  function Ack(w: Wheel, phase: Phase): Wheel {
    if phase == PhaseEnded || !w.ackPending then w
    else Drain(w.(ackPending := false, acks := w.acks + 1))
  }

  class WheelHandler {
    var wheelAckPending: bool
    var pendingWheelEvents: seq<WebWheelEvent>
    /** The events routed, the acknowledgements that were waited for, and the events from Qt so far. */
    var sent: seq<WebWheelEvent>
    ghost var acks: nat
    ghost var inputs: seq<WheelInput>

    ghost function State(): Wheel
      reads this
    {
      Wheel(wheelAckPending, pendingWheelEvents, sent, acks, inputs)
    }

    constructor ()
      ensures State() == IDLE
    {
      wheelAckPending, pendingWheelEvents, sent, acks, inputs := false, [], [], 0, [];
    }

    method HandleWheelEvent(event: WheelInput)
      requires Inv(State())
      modifies this
      ensures State() == Handle(old(State()), event) && Inv(State())
    {
      HandleKeepsInv(State(), event);
      inputs := inputs + [event];
      if !wheelAckPending {
        assert pendingWheelEvents == [];
        RouteWheelEvent(ToWebWheelEvent(event));
        return;
      }
      if pendingWheelEvents != [] {
        var n := |pendingWheelEvents| - 1;
        if pendingWheelEvents[n].kind == event.kind {
          pendingWheelEvents := pendingWheelEvents[..n] + [Coalesced(pendingWheelEvents[n], event)];
          return;
        }
      }
      pendingWheelEvents := pendingWheelEvents + [ToWebWheelEvent(event)];
    }

    method WheelEventAck(phase: Phase)
      requires Inv(State())
      modifies this
      ensures State() == Ack(old(State()), phase) && Inv(State())
      ensures old(wheelAckPending) && phase != PhaseEnded ==> wheelAckPending || pendingWheelEvents == []
    {
      AckKeepsInv(State(), phase);
      if phase == PhaseEnded { return; }
      if !wheelAckPending { return; }
      wheelAckPending := false;
      acks := acks + 1;
      while pendingWheelEvents != [] && !wheelAckPending
        invariant Drain(State()) == Ack(old(State()), phase)
        decreases |pendingWheelEvents|
      {
        var webEvent := pendingWheelEvents[0];
        pendingWheelEvents := pendingWheelEvents[1..];
        RouteWheelEvent(webEvent);
      }
    }

    method RouteWheelEvent(webEvent: WebWheelEvent)
      modifies this`wheelAckPending, this`sent
      ensures State() == Send(old(State()), webEvent)
    {
      wheelAckPending := webEvent.kind.phase != PhaseEnded;
      sent := sent + [webEvent];
    }
  }

  // ---- what the queue keeps ----

  /** The inputs in a sequence of events, each with the kind of its event. */
  function Unpack(events: seq<WebWheelEvent>): seq<WheelInput>
    decreases |events|
  {
    if events == [] then [] else Inputs(events[0]) + Unpack(events[1..])
  }

  function Inputs(e: WebWheelEvent): (r: seq<WheelInput>)
    ensures |r| == |e.inputs|
  {
    seq(|e.inputs|, i requires 0 <= i < |e.inputs| => WheelInput(e.kind, e.inputs[i]))
  }

  /** The events that are acknowledged. */
  function NotEnded(events: seq<WebWheelEvent>): nat
    decreases |events|
  {
    if events == [] then 0
    else (if events[0].kind.phase == PhaseEnded then 0 else 1) + NotEnded(events[1..])
  }

  /** Neighbours in the queue could not be combined. */
  ghost predicate Apart(pending: seq<WebWheelEvent>) {
    forall i :: 0 <= i < |pending| - 1 ==> pending[i].kind != pending[i + 1].kind
  }

  /** Without an acknowledgement pending the queue is empty; at most one event that gets one has not
      been acknowledged; the events sent and queued hold exactly the inputs, in order. */
  ghost predicate Inv(w: Wheel) {
    && (!w.ackPending ==> w.pending == [])
    && NotEnded(w.sent) == w.acks + (if w.ackPending then 1 else 0)
    && Unpack(w.sent) + Unpack(w.pending) == w.inputs
    && Apart(w.pending)
  }

  lemma {:induction false} UnpackAppend(a: seq<WebWheelEvent>, e: WebWheelEvent)
    ensures Unpack(a + [e]) == Unpack(a) + Inputs(e)
    ensures NotEnded(a + [e]) == NotEnded(a) + if e.kind.phase == PhaseEnded then 0 else 1
    decreases |a|
  {
    if a == [] {
      assert [] + [e] == [e] && [e][1..] == [];
    } else {
      UnpackAppend(a[1..], e);
      assert (a + [e])[1..] == a[1..] + [e];
      assert Inputs(a[0]) + (Unpack(a[1..]) + Inputs(e)) == Inputs(a[0]) + Unpack(a[1..]) + Inputs(e);
    }
  }

  lemma CoalescedInputs(last: WebWheelEvent, e: WheelInput)
    requires e.kind == last.kind
    ensures Inputs(Coalesced(last, e)) == Inputs(last) + [e]
    ensures Inputs(ToWebWheelEvent(e)) == [e]
  {
  }

  lemma QueueUnpacks(pending: seq<WebWheelEvent>, e: WheelInput)
    ensures Unpack(Queue(pending, e)) == Unpack(pending) + [e]
    ensures Apart(pending) ==> Apart(Queue(pending, e))
  {
    var n := |pending|;
    CoalescedInputs(ToWebWheelEvent(e), e);
    if n > 0 && pending[n - 1].kind == e.kind {
      var rest, last := pending[..n - 1], pending[n - 1];
      assert pending == rest + [last];
      UnpackAppend(rest, last);
      UnpackAppend(rest, Coalesced(last, e));
      CoalescedInputs(last, e);
      assert Unpack(rest) + (Inputs(last) + [e]) == Unpack(rest) + Inputs(last) + [e];
    } else {
      UnpackAppend(pending, ToWebWheelEvent(e));
    }
  }

  lemma HandleKeepsInv(w: Wheel, e: WheelInput)
    requires Inv(w)
    ensures Inv(Handle(w, e))
  {
    if !w.ackPending {
      UnpackAppend(w.sent, ToWebWheelEvent(e));
      CoalescedInputs(ToWebWheelEvent(e), e);
      assert Unpack([]) == [];
    } else {
      QueueUnpacks(w.pending, e);
      assert Unpack(w.sent) + (Unpack(w.pending) + [e]) == w.inputs + [e];
    }
  }

  /** The invariant but for the empty queue, as the loop of an acknowledgement has it. */
  ghost predicate Draining(w: Wheel) {
    && NotEnded(w.sent) == w.acks + (if w.ackPending then 1 else 0)
    && Unpack(w.sent) + Unpack(w.pending) == w.inputs
    && Apart(w.pending)
  }

  lemma SendKeepsDraining(w: Wheel)
    requires Draining(w) && !w.ackPending && w.pending != []
    ensures Draining(Send(w.(pending := w.pending[1..]), w.pending[0]))
  {
    var head, rest := w.pending[0], w.pending[1..];
    UnpackAppend(w.sent, head);
    assert Unpack(w.sent) + (Inputs(head) + Unpack(rest)) == Unpack(w.sent) + Inputs(head) + Unpack(rest);
    assert forall i :: 0 <= i < |rest| ==> rest[i] == w.pending[i + 1];
  }

  lemma {:induction false} DrainKeepsInv(w: Wheel)
    requires Draining(w)
    ensures Inv(Drain(w))
    decreases |w.pending|
  {
    if w.pending != [] && !w.ackPending {
      SendKeepsDraining(w);
      DrainKeepsInv(Send(w.(pending := w.pending[1..]), w.pending[0]));
    }
  }

  lemma AckKeepsInv(w: Wheel, phase: Phase)
    requires Inv(w)
    ensures Inv(Ack(w, phase))
  {
    if phase != PhaseEnded && w.ackPending {
      DrainKeepsInv(w.(ackPending := false, acks := w.acks + 1));
    }
  }

  predicate IsEnded(e: WebWheelEvent) {
    e.kind.phase == PhaseEnded
  }

  /** The number of events up to the first one that is acknowledged itself, or all if there is none. */
  function Batch(pending: seq<WebWheelEvent>): (n: nat)
    ensures n <= |pending|
    ensures forall i :: 0 <= i < n - 1 ==> IsEnded(pending[i])
    ensures n < |pending| ==> n > 0 && !IsEnded(pending[n - 1])
    decreases |pending|
  {
    if pending == [] then 0
    else if IsEnded(pending[0]) then 1 + Batch(pending[1..])
    else 1
  }

  /** An acknowledgement that is waited for sends just these events, and then one is awaited exactly
      if the last of them gets one. */
  lemma {:induction false} DrainSendsBatch(w: Wheel)
    requires !w.ackPending
    ensures var n := Batch(w.pending);
            Drain(w) == w.(sent := w.sent + w.pending[..n], pending := w.pending[n..],
                           ackPending := n > 0 && !IsEnded(w.pending[n - 1]))
    decreases |w.pending|
  {
    if w.pending == [] {
      assert w.sent + w.pending[..0] == w.sent;
    } else {
      var head, rest := w.pending[0], w.pending[1..];
      var next := Send(w.(pending := rest), head);
      if IsEnded(head) {
        DrainSendsBatch(next);
        BatchBehind(w.sent, head, rest, Batch(rest));
        assert w.pending == [head] + rest;
      } else {
        assert Drain(w) == Drain(next) == next;
        assert w.pending[..1] == [head];
      }
    }
  }

  lemma BatchBehind<T>(sent: seq<T>, head: T, rest: seq<T>, n: nat)
    requires n <= |rest|
    ensures sent + [head] + rest[..n] == sent + ([head] + rest)[..n + 1]
    ensures rest[n..] == ([head] + rest)[n + 1..]
    ensures n > 0 ==> rest[n - 1] == ([head] + rest)[n]
  {
  }

  datatype Step = Wheeled(event: WheelInput) | Acked(phase: Phase)

  function Run(w: Wheel, steps: seq<Step>): Wheel
    decreases |steps|
  {
    if steps == [] then w
    else Run(match steps[0] case Wheeled(e) => Handle(w, e) case Acked(phase) => Ack(w, phase), steps[1..])
  }

  function Wheeling(steps: seq<Step>): seq<WheelInput>
    decreases |steps|
  {
    if steps == [] then []
    else if steps[0].Wheeled? then [steps[0].event] + Wheeling(steps[1..])
    else Wheeling(steps[1..])
  }

  lemma {:induction false} AckKeepsInputs(w: Wheel)
    ensures Drain(w).inputs == w.inputs
    decreases |w.pending|
  {
    if w.pending != [] && !w.ackPending {
      AckKeepsInputs(Send(w.(pending := w.pending[1..]), w.pending[0]));
    }
  }

  lemma {:induction false} RunKeepsInv(w: Wheel, steps: seq<Step>)
    requires Inv(w)
    ensures Inv(Run(w, steps)) && Run(w, steps).inputs == w.inputs + Wheeling(steps)
    decreases |steps|
  {
    if steps != [] {
      match steps[0] {
        case Wheeled(e) =>
          HandleKeepsInv(w, e);
          RunKeepsInv(Handle(w, e), steps[1..]);
          assert w.inputs + [e] + Wheeling(steps[1..]) == w.inputs + ([e] + Wheeling(steps[1..]));
        case Acked(phase) =>
          AckKeepsInv(w, phase);
          AckKeepsInputs(w.(ackPending := false, acks := w.acks + 1));
          RunKeepsInv(Ack(w, phase), steps[1..]);
      }
    }
  }

  /** An acknowledgement of an ended event, or one that is not waited for, does nothing; any other counts, and sends
      the queue up to the first event that is acknowledged itself. */
  lemma AckSendsBatch(w: Wheel, phase: Phase)
    ensures var n := Batch(w.pending);
            && (phase == PhaseEnded || !w.ackPending ==> Ack(w, phase) == w)
            && (phase != PhaseEnded && w.ackPending ==>
                  Ack(w, phase) == w.(sent := w.sent + w.pending[..n], pending := w.pending[n..], acks := w.acks + 1,
                                      ackPending := n > 0 && !IsEnded(w.pending[n - 1])))
  {
    if phase != PhaseEnded && w.ackPending { DrainSendsBatch(w.(ackPending := false, acks := w.acks + 1)); }
  }

  /** Whatever wheel events and acknowledgements come, in whatever order: the events sent and queued
      hold the wheel events in order, none lost or repeated; at most one event that gets an
      acknowledgement is without one; and then only may events be queued. */
  lemma NothingLost(steps: seq<Step>)
    ensures var w := Run(IDLE, steps);
            && Unpack(w.sent) + Unpack(w.pending) == Wheeling(steps)
            && w.acks <= NotEnded(w.sent) <= w.acks + 1
            && (w.pending != [] ==> NotEnded(w.sent) == w.acks + 1)
  {
    assert Unpack([]) == [] && NotEnded([]) == 0;
    RunKeepsInv(IDLE, steps);
  }
}
