/**
 The one-slot mailbox between the L1 receive and transmit threads of the LTE base station (wakeup_tx and L1_thread_tx
 in executables/lte-enb.c, wait_on_condition in openair1/PHY/defs_common.h). Every critical section under the mutex is
 one step; both threads sleep on the same condition variable.
 */
module LteMailbox {
  import opened Options

  /** The fields wakeup_tx hands over. */
  datatype Payload = Payload(frameRx: int, subframeRx: int, frameTx: int, subframeTx: int, timestampTx: int)

  const BUSY := 0
  const FREE := -1

  // -------------------------------------------------------------------------------------------
  // The critical sections
  // -------------------------------------------------------------------------------------------

  datatype Box = Box(instanceCnt: int, slot: Payload)

  /** The contents of the mailbox seen as a queue. */
  function Queue(box: Box): seq<Payload> {
    if box.instanceCnt == BUSY then [box.slot] else []
  }

  /** The producer's section: the box after it, and whether the payload went in. */
  function Stored(box: Box, p: Payload): (Box, bool) {
    if box.instanceCnt == BUSY then (box, false) else (Box(BUSY, p), true)
  }

  /** The consumer's section after processing. */
  function Freed(box: Box): Box {
    box.(instanceCnt := FREE)
  }

  class L1RxtxProc {
    var instanceCnt: int
    var payload: Payload

    function View(): Box
      reads this
    {
      Box(instanceCnt, payload)
    }

    constructor (initial: Payload)
      ensures View() == Box(FREE, initial) && Queue(View()) == []
    {
      instanceCnt := FREE;
      payload := initial;
    }

    /** One pass of the producer's section: it enqueues into an empty queue, and else leaves the queue alone. */
    method TryWakeupTx(p: Payload) returns (accepted: bool)
      modifies this
      ensures (View(), accepted) == Stored(old(View()), p)
      ensures accepted <==> Queue(old(View())) == []
      ensures Queue(View()) == if accepted then [p] else Queue(old(View()))
    {
      if instanceCnt == BUSY {
        return false;
      }
      instanceCnt := BUSY;
      payload := p;
      return true;
    }

    /** The consumer's section: it reads the payload for the fronthaul and dequeues it. */
    method Complete() returns (p: Payload)
      modifies this`instanceCnt
      ensures View() == Freed(old(View()))
      ensures Queue(old(View())) != [] ==> Queue(old(View())) == [p] + Queue(View())
    {
      p := payload;
      instanceCnt := FREE;
    }
  }

  // -------------------------------------------------------------------------------------------
  // Every interleaving
  // -------------------------------------------------------------------------------------------

  datatype Producer = Idle | Trying(p: Payload) | Asleep(p: Payload)

  datatype Consumer =
    | Checking                 // about to test instance_cnt
    | Sleeping
    | Starting                 // the test succeeded, processing not begun
    | Processing(p: Payload)   // working on the payload it read, without the mutex

  /** The mailbox, both threads, and what was offered, processed and completed so far. */
  datatype State = State(
    box: Box,
    producer: Producer,
    consumer: Consumer,
    offered: seq<Payload>,
    accepted: seq<Payload>,
    processed: seq<Payload>,
    completed: seq<Payload>
  )

  datatype Step =
    | SkipUplink(p: Payload)       // wakeup_tx returns at once for an uplink subframe
    | Offer(p: Payload)            // wakeup_tx is called for any other subframe
    | Put                          // the producer's critical section
    | Check                        // wait_on_condition's test
    | Begin                        // phy_procedures_eNB_TX starts on the payload
    | Complete                     // the consumer's critical section
    | WakeProducer | WakeConsumer  // spurious wake-ups

  ghost predicate Enabled(uplink: int -> bool, s: State, step: Step) {
    match step
    case SkipUplink(p) => s.producer.Idle? && uplink(p.subframeTx)
    case Offer(p) => s.producer.Idle? && !uplink(p.subframeTx)
    case Put => s.producer.Trying?
    case Check => s.consumer.Checking?
    case Begin => s.consumer.Starting?
    case Complete => s.consumer.Processing?
    case WakeProducer => s.producer.Asleep?
    case WakeConsumer => s.consumer.Sleeping?
  }

  /** pthread_cond_signal by the producer: the only other thread on the condition is the consumer. */
  function SignalConsumer(c: Consumer): Consumer {
    if c.Sleeping? then Checking else c
  }

  function SignalProducer(p: Producer): Producer {
    if p.Asleep? then Trying(p.p) else p
  }

  ghost function Next(uplink: int -> bool, s: State, step: Step): State
    requires Enabled(uplink, s, step)
  {
    match step
    case SkipUplink(_) => s
    case Offer(p) => s.(producer := Trying(p), offered := s.offered + [p])
    case Put =>
      var (box, accepted) := Stored(s.box, s.producer.p);
      if !accepted then s.(producer := Asleep(s.producer.p))
      else s.(box := box, producer := Idle, consumer := SignalConsumer(s.consumer),
              accepted := s.accepted + [s.producer.p])
    case Check => s.(consumer := if s.box.instanceCnt < 0 then Sleeping else Starting)
    case Begin => s.(consumer := Processing(s.box.slot), processed := s.processed + [s.box.slot])
    case Complete =>
      s.(box := Freed(s.box), consumer := Checking, producer := SignalProducer(s.producer),
         completed := s.completed + [s.box.slot])
    case WakeProducer => s.(producer := Trying(s.producer.p))
    case WakeConsumer => s.(consumer := Checking)
  }

  function Initial(slot: Payload): State {
    State(Box(FREE, slot), Idle, Checking, [], [], [], [])
  }

  ghost predicate Run(uplink: int -> bool, s: State, steps: seq<Step>, end: State)
    decreases steps
  {
    if steps == [] then end == s
    else Enabled(uplink, s, steps[0]) && Run(uplink, Next(uplink, s, steps[0]), steps[1..], end)
  }

  /** What the producer has been asked to pass on and not yet passed on. */
  function Pending(p: Producer): seq<Payload> {
    if p.Idle? then [] else [p.p]
  }

  ghost predicate Inv(s: State) {
    && s.box.instanceCnt in {BUSY, FREE}
    && s.offered == s.accepted + Pending(s.producer)
    && s.accepted == s.completed + Queue(s.box)
    && s.processed == (if s.consumer.Processing? then s.accepted else s.completed)
    && (s.producer.Asleep? ==> s.box.instanceCnt == BUSY)
    && (s.consumer.Sleeping? ==> s.box.instanceCnt == FREE)
    && (s.consumer.Starting? ==> s.box.instanceCnt == BUSY)
    && (s.consumer.Processing? ==> s.box.instanceCnt == BUSY && s.consumer.p == s.box.slot)
  }

  lemma NextKeepsInv(uplink: int -> bool, s: State, step: Step)
    requires Inv(s) && Enabled(uplink, s, step)
    ensures Inv(Next(uplink, s, step))
  {
    var t := Next(uplink, s, step);
    match step
    case Put =>
      if s.box.instanceCnt != BUSY {
        assert t.accepted == t.completed + [s.producer.p];
      }
    case Begin => assert t.processed == s.completed + [s.box.slot];
    case Complete => assert t.accepted == t.completed + [];
    case _ =>
  }

  lemma {:induction false} RunKeepsInv(uplink: int -> bool, s: State, steps: seq<Step>, end: State)
    requires Inv(s) && Run(uplink, s, steps, end)
    ensures Inv(end)
    decreases steps
  {
    if steps != [] {
      NextKeepsInv(uplink, s, steps[0]);
      RunKeepsInv(uplink, Next(uplink, s, steps[0]), steps[1..], end);
    }
  }

  // -------------------------------------------------------------------------------------------
  // Refinement of a queue of capacity one
  // -------------------------------------------------------------------------------------------

  datatype QueueStep = Stutter | Enqueue(p: Payload) | Dequeue(p: Payload)

  ghost predicate QueueNext(before: seq<Payload>, step: QueueStep, after: seq<Payload>) {
    match step
    case Stutter => after == before
    case Enqueue(p) => before == [] && after == [p]
    case Dequeue(p) => before == [p] && after == []
  }

  /** The queue operation a step stands for. */
  function Abstract(s: State, step: Step): QueueStep {
    if step.Put? && s.producer.Trying? && s.box.instanceCnt != BUSY then Enqueue(s.producer.p)
    else if step.Complete? then Dequeue(s.box.slot)
    else Stutter
  }

  /** Each step is a queue operation; the payload taken out is the one put in and the one that was processed. */
  lemma RefinesQueue(uplink: int -> bool, s: State, step: Step)
    requires Inv(s) && Enabled(uplink, s, step)
    ensures QueueNext(Queue(s.box), Abstract(s, step), Queue(Next(uplink, s, step).box))
    ensures step.Complete? ==> s.consumer.p == s.box.slot
  {
  }

  /**
   In every interleaving the payloads processed are the payloads offered, each once and in order, at most the last
   two still on their way; what is completed is what was processed; and the threads never sleep both.
   */
  lemma FifoOfCapacityOne(uplink: int -> bool, slot: Payload, steps: seq<Step>, end: State)
    requires Run(uplink, Initial(slot), steps, end)
    ensures end.completed <= end.processed <= end.accepted <= end.offered
    ensures |end.offered| <= |end.accepted| + 1 && |end.accepted| <= |end.completed| + 1
    ensures !(end.producer.Asleep? && end.consumer.Sleeping?)
    ensures end.producer.Idle? && end.consumer.Sleeping? ==> end.completed == end.offered
  {
    RunKeepsInv(uplink, Initial(slot), steps, end);
  }

  /** The payloads of all calls of wakeup_tx in a run. */
  function Calls(steps: seq<Step>): seq<Payload>
    decreases steps
  {
    if steps == [] then []
    else (if steps[0].Offer? || steps[0].SkipUplink? then [steps[0].p] else []) + Calls(steps[1..])
  }

  /** Those for subframes that have a downlink part. */
  function OutsideUplink(uplink: int -> bool, calls: seq<Payload>): seq<Payload> {
    if calls == [] then []
    else (if uplink(calls[0].subframeTx) then [] else [calls[0]]) + OutsideUplink(uplink, calls[1..])
  }

  /** What is offered is what wakeup_tx is called with outside uplink subframes, in order. */
  lemma {:induction false} OfferedAreTheCalls(uplink: int -> bool, s: State, steps: seq<Step>, end: State)
    requires Run(uplink, s, steps, end)
    ensures end.offered == s.offered + OutsideUplink(uplink, Calls(steps))
    decreases steps
  {
    if steps != [] {
      var t := Next(uplink, s, steps[0]);
      OfferedAreTheCalls(uplink, t, steps[1..], end);
      StepOffers(uplink, s, steps, t);
    }
  }

  lemma OutsideFirst(uplink: int -> bool, p: Payload, rest: seq<Payload>)
    ensures OutsideUplink(uplink, [p] + rest) == (if uplink(p.subframeTx) then [] else [p]) + OutsideUplink(uplink, rest)
  {
    assert ([p] + rest)[1..] == rest;
  }

  lemma Appended(all: seq<Payload>, p: Payload, rest: seq<Payload>)
    ensures all + ([p] + rest) == (all + [p]) + rest
  {
  }

  lemma StepOffers(uplink: int -> bool, s: State, steps: seq<Step>, t: State)
    requires steps != [] && Enabled(uplink, s, steps[0]) && t == Next(uplink, s, steps[0])
    ensures s.offered + OutsideUplink(uplink, Calls(steps)) == t.offered + OutsideUplink(uplink, Calls(steps[1..]))
  {
    var rest := Calls(steps[1..]);
    match steps[0]
    case Offer(p) =>
      OutsideFirst(uplink, p, rest);
      Appended(s.offered, p, OutsideUplink(uplink, rest));
    case SkipUplink(p) =>
      OutsideFirst(uplink, p, rest);
      assert [] + OutsideUplink(uplink, rest) == OutsideUplink(uplink, rest);
    case _ =>
      assert Calls(steps) == rest && t.offered == s.offered;
  }

  /** Steps the consumer needs before it frees the slot. */
  function Remaining(c: Consumer): nat {
    match c
    case Sleeping => 4
    case Checking => 3
    case Starting => 2
    case Processing(_) => 1
  }

  function ConsumerStep(c: Consumer): Step {
    match c
    case Sleeping => WakeConsumer
    case Checking => Check
    case Starting => Begin
    case Processing(_) => Complete
  }

  /** A sleeping producer is never forgotten: the consumer can run, and after at most three steps it wakes it. */
  lemma SleepingProducerIsWoken(uplink: int -> bool, s: State)
    requires Inv(s) && s.producer.Asleep?
    ensures !s.consumer.Sleeping? && Remaining(s.consumer) <= 3
    ensures Enabled(uplink, s, ConsumerStep(s.consumer))
    ensures var t := Next(uplink, s, ConsumerStep(s.consumer));
      && (s.consumer.Processing? ==> t.producer == Trying(s.producer.p) && t.box.instanceCnt == FREE)
      && (!s.consumer.Processing? ==> t.producer == s.producer && Remaining(t.consumer) < Remaining(s.consumer))
  {
  }

  /** A sleeping consumer is never forgotten: the slot is free, so the next call goes through and wakes it. */
  lemma SleepingConsumerIsWoken(uplink: int -> bool, s: State)
    requires Inv(s) && s.consumer.Sleeping?
    ensures !s.producer.Asleep?
    ensures s.producer.Trying? ==>
        Next(uplink, s, Put).accepted == s.accepted + [s.producer.p] && Next(uplink, s, Put).consumer.Checking?
  {
  }
}
