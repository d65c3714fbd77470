/**
 The chain of barriers that orders uplink slots in the NR UE (executables/nr-ue.c, UE_thread and
 processSlotTX; common/utils/barrier/barrier.c).

 The main thread issues one uplink slot per iteration. A slot starts once its predecessor and every PDSCH
 decoding whose feedback it carries have joined its barrier. Decodings, uplink slots and the main thread
 run concurrently; a step below is one section under a barrier's lock, or one part of the main loop.
 */
module UeTxBarriers {
  import opened CInts
  import opened Options

  /** An uplink slot, and the barrier it joins when its scheduling section is over. */
  datatype TxJob = TxJob(slot: nat, nextBarrier: nat)

  // -------------------------------------------------------------------------------------------
  // dynamic_barrier
  // -------------------------------------------------------------------------------------------

  datatype Barrier = Barrier(completed: nat, maxJoins: nat, callback: Option<TxJob>)

  const EMPTY_BARRIER := Barrier(0, 0, None)

  /** The barrier after a join, and the job it starts if the join was the last one expected. */
  function Join(b: Barrier): (Barrier, Option<TxJob>) {
    var b1 := b.(completed := b.completed + 1);
    if b.callback.Some? && b1.completed == b.maxJoins then (b1.(completed := 0, callback := None), b.callback)
    else (b1, None)
  }

  /** The barrier after a job is left with it; the job starts at once if all joins came first. */
  function Update(b: Barrier, maxJoins: nat, job: TxJob): (Barrier, Option<TxJob>) {
    if b.completed == maxJoins then (b.(completed := 0), Some(job))
    else (b.(maxJoins := maxJoins, callback := Some(job)), None)
  }

  class DynamicBarrier {
    var completedJobs: nat
    var maxJoins: nat
    var callback: Option<TxJob>

    function View(): Barrier
      reads this
    {
      Barrier(completedJobs, maxJoins, callback)
    }

    constructor ()
      ensures View() == EMPTY_BARRIER
    {
      completedJobs, maxJoins, callback := 0, 0, None;
    }

    method JoinBarrier() returns (started: Option<TxJob>)
      modifies this
      ensures (View(), started) == Join(old(View()))
    {
      started := None;
      completedJobs := completedJobs + 1;
      if callback.Some? {
        if completedJobs == maxJoins {
          completedJobs := 0;
          started := callback;
          callback := None;
        }
      }
    }

    method UpdateBarrier(joins: nat, job: TxJob) returns (started: Option<TxJob>)
      modifies this
      ensures (View(), started) == Update(old(View()), joins, job)
    {
      if completedJobs == joins {
        completedJobs := 0;
        started := Some(job);
      } else {
        maxJoins := joins;
        callback := Some(job);
        started := None;
      }
    }
  }

  // -------------------------------------------------------------------------------------------
  // The protocol
  // -------------------------------------------------------------------------------------------

  /** slots_per_frame, MAX_FRAME_NUMBER, NUM_PROCESS_SLOT_TX_BARRIERS and duration_rx_to_tx. */
  datatype Config = Config(slots: nat, frames: nat, barriers: nat, duration: nat) {

    ghost predicate Positive() {
      0 < slots && 0 < frames && 0 < barriers
    }

    /** The barriers wrap around with the frame number. */
    ghost predicate Valid() {
      Positive() && (frames * slots) % barriers == 0
    }

    /** slot_and_frame of a slot, the form in which it is looked up: it restarts with the frame number. */
    function SlotAndFrame(slot: nat): nat
      requires Positive()
    {
      MulLe(0, (slot / slots) % frames, slots);
      slot % slots + ((slot / slots) % frames) * slots
    }

    /** The barrier the main thread leaves the uplink slot with. */
    function IssueIndex(rxSlot: nat): nat
      requires Positive()
    {
      SlotAndFrame(rxSlot + duration) % barriers
    }

    /** The barrier the uplink slot issued at `rxSlot` joins. */
    function ChainIndex(rxSlot: nat): nat
      requires Positive()
    {
      (rxSlot + duration + 1) % barriers
    }

    /** The barrier a decoding received at `rxSlot` joins for its feedback `k1` slots later. */
    function FeedbackIndex(rxSlot: nat, k1: nat): nat
      requires Positive()
    {
      (SlotAndFrame(rxSlot) + k1) % barriers
    }

    /** The uplink slot at which the count made in tx_wait_for_dlsch for that feedback is used up. */
    function ChargedSlot(rxSlot: nat, k1: nat): nat
      requires Positive()
    {
      rxSlot + duration + (k1 - duration) % slots
    }
  }

  /** A PDSCH decoding under way: the uplink slot that counts it and the barrier it will join. */
  datatype Decoding = Decoding(target: nat, barrier: nat)

  datatype State = State(
    barriers: seq<Barrier>,
    waits: seq<nat>,                // tx_wait_for_dlsch
    rxSlot: nat,                    // absolute slot of the current iteration
    received: bool,                 // its downlink part is done
    synced: bool,                   // stream_status == STREAM_STATUS_SYNCED
    decodings: multiset<Decoding>,
    running: seq<TxJob>,            // uplink slots started and not yet past their join
    started: seq<nat>,              // every uplink slot started so far
    granted: multiset<nat>          // slots that count the decodings so far
  )

  datatype Step =
    | Receive(k1: nat, codewords: nat)   // downlink part of an iteration; k1 is 0 without feedback
    | Issue                         // uplink part of the iteration
    | Decoded(decoding: Decoding)
    | Joined(index: nat)            // a running uplink slot reaches its join

  /** Right after a resynchronisation. */
  function Init(c: Config, rxSlot: nat): State {
    State(seq(c.barriers, _ => EMPTY_BARRIER), seq(c.slots, _ => 0), rxSlot, false, false, multiset{}, [], [], multiset{})
  }

  ghost predicate Enabled(s: State, step: Step) {
    match step
    case Receive(_, _) => !s.received
    case Issue => s.received
    case Decoded(d) => d in s.decodings
    case Joined(i) => i < |s.running|
  }

  function Start(s: State, job: Option<TxJob>): State {
    match job
    case None => s
    case Some(j) => s.(running := s.running + [j], started := s.started + [j.slot])
  }

  ghost predicate WellFormed(c: Config, s: State) {
    && c.Positive()
    && |s.barriers| == c.barriers && |s.waits| == c.slots
    && (forall d :: d in s.decodings ==> d.barrier < c.barriers)
    && (forall i :: 0 <= i < |s.running| ==> s.running[i].nextBarrier < c.barriers)
  }

  function JoinAt(s: State, index: nat): State
    requires index < |s.barriers|
  {
    var (b, job) := Join(s.barriers[index]);
    Start(s.(barriers := s.barriers[index := b]), job)
  }

  /** Decodings begin, one for each codeword; uplink slot `target` counts one of them. */
  function Grant(s: State, target: nat, entry: nat, barrier: nat, codewords: nat): State
    requires entry < |s.waits|
  {
    var d := Decoding(target, barrier);
    s.(received := true,
       waits := s.waits[entry := s.waits[entry] + 1],
       decodings := s.decodings[d := s.decodings[d] + codewords],
       granted := s.granted + multiset{target})
  }

  /** An uplink slot is left with its barrier. */
  function Leave(s: State, job: TxJob, entry: nat, barrier: nat): State
    requires entry < |s.waits| && barrier < |s.barriers|
  {
    var joins := s.waits[entry] + (if s.synced then 1 else 0);
    var (b, started) := Update(s.barriers[barrier], joins, job);
    Start(s.(barriers := s.barriers[barrier := b], waits := s.waits[entry := 0],
             rxSlot := s.rxSlot + 1, received := false, synced := true), started)
  }

  ghost function Next(c: Config, s: State, step: Step): State
    requires WellFormed(c, s) && Enabled(s, step)
  {
    match step
    case Receive(k1, codewords) =>
      if k1 == 0 || codewords == 0 then s.(received := true)
      else
        var entry := (s.rxSlot % c.slots + k1) % c.slots;
        Grant(s, c.ChargedSlot(s.rxSlot, k1), entry, c.FeedbackIndex(s.rxSlot, k1), codewords)
    case Issue =>
      var entry := (s.rxSlot + c.duration) % c.slots;
      Leave(s, TxJob(s.rxSlot + c.duration, c.ChainIndex(s.rxSlot)), entry, c.IssueIndex(s.rxSlot))
    case Decoded(d) =>
      JoinAt(s.(decodings := s.decodings - multiset{d}), d.barrier)
    case Joined(i) =>
      JoinAt(s.(running := s.running[..i] + s.running[i + 1..]), s.running[i].nextBarrier)
  }

  // -------------------------------------------------------------------------------------------
  // Barrier indices
  // -------------------------------------------------------------------------------------------

  lemma SlotAndFrameIsRemainder(c: Config, slot: nat)
    requires c.Positive()
    ensures 0 < c.frames * c.slots
    ensures c.SlotAndFrame(slot) == slot % (c.frames * c.slots)
  {
    var q := slot / c.slots;
    MulLe(1, c.frames, c.slots);
    MulLe(q % c.frames + 1, c.frames, c.slots);
    DivModUnique(q / c.frames, c.SlotAndFrame(slot), c.frames * c.slots);
    assert slot == (q / c.frames) * (c.frames * c.slots) + c.SlotAndFrame(slot) by {
      assert slot == q * c.slots + slot % c.slots;
      assert q == (q / c.frames) * c.frames + q % c.frames;
      FactorOut(q / c.frames, c.frames, q % c.frames, c.slots);
    }
  }

  lemma FactorOut(a: int, b: int, r: int, s: int)
    ensures (a * b + r) * s == a * (b * s) + r * s
  {
  }

  /** The barrier a slot joins is the one the next slot is left with, across the frame number's wrap. */
  lemma IndicesAgree(c: Config, rxSlot: nat, k1: nat)
    requires c.Valid()
    ensures c.IssueIndex(rxSlot) == (rxSlot + c.duration) % c.barriers
    ensures c.IssueIndex(rxSlot + 1) == c.ChainIndex(rxSlot)
    ensures c.FeedbackIndex(rxSlot, k1) == (rxSlot + k1) % c.barriers
  {
    IndexOfRemainder(c, rxSlot + c.duration, 0);
    IndexOfRemainder(c, rxSlot + c.duration + 1, 0);
    IndexOfRemainder(c, rxSlot, k1);
  }

  lemma IndexOfRemainder(c: Config, slot: nat, k1: nat)
    requires c.Valid()
    ensures (c.SlotAndFrame(slot) + k1) % c.barriers == (slot + k1) % c.barriers
  {
    SlotAndFrameIsRemainder(c, slot);
    var m := c.frames * c.slots;
    var k := m / c.barriers;
    assert m == k * c.barriers;
    var q := slot / m;
    DivModShift(slot % m + k1, q * k, c.barriers);
    assert slot + k1 == slot % m + k1 + (q * k) * c.barriers by {
      assert slot == q * m + slot % m;
      assert q * (k * c.barriers) == (q * k) * c.barriers;
    }
  }

  /** The indices agree for every slot exactly when the number of barriers divides the frame cycle. */
  lemma IndicesAgreeIffDivides(c: Config)
    requires c.Positive()
    ensures (forall slot: nat :: c.SlotAndFrame(slot) % c.barriers == slot % c.barriers) <==> c.Valid()
  {
    var m := c.frames * c.slots;
    SlotAndFrameIsRemainder(c, 0);
    SlotAndFrameIsRemainder(c, m);
    if c.Valid() {
      forall slot: nat ensures c.SlotAndFrame(slot) % c.barriers == slot % c.barriers {
        IndexOfRemainder(c, slot, 0);
      }
    } else {
      DivModUnique(1, 0, m);
      assert c.SlotAndFrame(m) % c.barriers != m % c.barriers;
    }
  }

  /**
   tx_wait_for_dlsch has one entry per slot of a frame. The count is taken by the first slot issued from now
   on that uses the entry, and that is the slot of the feedback only for these delays.
   */
  lemma FeedbackIsChargedToItsSlot(c: Config, rxSlot: nat, k1: nat, slot: nat)
    requires c.Positive()
    ensures c.ChargedSlot(rxSlot, k1) % c.slots == (rxSlot % c.slots + k1) % c.slots
    ensures rxSlot + c.duration <= slot && slot % c.slots == (rxSlot % c.slots + k1) % c.slots ==>
      c.ChargedSlot(rxSlot, k1) <= slot
    ensures c.ChargedSlot(rxSlot, k1) == rxSlot + k1 <==> c.duration <= k1 < c.duration + c.slots
  {
    ModOfSum(rxSlot, k1, c.slots);
    FirstCongruent(rxSlot + c.duration, rxSlot + k1, c.slots, slot);
  }

  // -------------------------------------------------------------------------------------------
  // The invariant
  // -------------------------------------------------------------------------------------------

  /** First uplink slot not started yet. */
  ghost function Waiting(first: nat, s: State): nat {
    first + |s.started|
  }

  /** First uplink slot not issued yet. */
  ghost function Issuing(c: Config, s: State): nat {
    s.rxSlot + c.duration
  }

  /** Joins that have not been made yet for an uplink slot: decodings, and its predecessor. */
  ghost function DecodingsFor(c: Config, s: State, slot: nat): nat
    requires c.Positive()
  {
    s.decodings[Decoding(slot, slot % c.barriers)]
  }

  ghost predicate PredecessorJoined(first: nat, s: State, slot: nat) {
    slot == Waiting(first, s) && s.started != [] && s.running == []
  }

  ghost predicate BarrierOk(c: Config, first: nat, s: State, slot: nat)
    requires c.Positive() && |s.barriers| == c.barriers
  {
    var b := s.barriers[slot % c.barriers];
    && b.completed + DecodingsFor(c, s, slot) == s.granted[slot] + (if PredecessorJoined(first, s, slot) then 1 else 0)
    && (if slot < Issuing(c, s) then
          && b.callback == Some(TxJob(slot, (slot + 1) % c.barriers))
          && b.maxJoins == s.granted[slot] + (if slot == first then 0 else 1)
        else b.callback == None)
  }

  /** Something is still missing for a slot that is issued and not started. */
  ghost predicate Incomplete(c: Config, s: State, slot: nat)
    requires c.Positive() && |s.barriers| == c.barriers
  {
    slot < Issuing(c, s) ==> s.barriers[slot % c.barriers].completed != s.barriers[slot % c.barriers].maxJoins
  }

  ghost predicate OrderOk(c: Config, first: nat, s: State)
    requires c.Positive()
  {
    var u := Waiting(first, s);
    && u <= Issuing(c, s) <= u + c.barriers
    && (s.synced <==> first < Issuing(c, s))
    && (forall i :: 0 <= i < |s.started| ==> s.started[i] == first + i)
    && (s.running == [] || (s.started != [] && s.running == [TxJob(u - 1, u % c.barriers)]))
  }

  /** The facts the invariant consists of. */
  datatype Fact =
    | Order                        // slots have started in order, and the last one runs until it joins
    | Count(slot: nat)             // tx_wait_for_dlsch is right for a slot not issued yet
    | Granted(slot: nat)           // decodings are counted within the windows of both tables
    | Pending(d: Decoding)         // a decoding under way belongs to a slot not started
    | Window(slot: nat)            // the barrier of a slot not started
    | Missing                      // the next slot is not complete

  ghost predicate Holds(c: Config, first: nat, s: State, fact: Fact) {
    && WellFormed(c, s)
    && var u := Waiting(first, s);
       match fact
       case Order => OrderOk(c, first, s)
       case Count(slot) =>
         Issuing(c, s) <= slot < Issuing(c, s) + c.slots ==> s.waits[slot % c.slots] == s.granted[slot]
       case Granted(slot) => slot in s.granted ==> slot < u + c.barriers && slot < Issuing(c, s) + c.slots
       case Pending(d) =>
         d in s.decodings ==> d.barrier == d.target % c.barriers && u <= d.target && s.decodings[d] <= s.granted[d.target]
       case Window(slot) => u <= slot < u + c.barriers ==> BarrierOk(c, first, s, slot)
       case Missing => Incomplete(c, s, u)
  }

  /** All but the incompleteness of the slot that comes next. */
  ghost predicate Core(c: Config, first: nat, s: State) {
    forall fact :: fact != Missing ==> Holds(c, first, s, fact)
  }

  ghost predicate Inv(c: Config, first: nat, s: State) {
    forall fact :: Holds(c, first, s, fact)
  }

  /**
   What the surroundings are relied on for. There is one codeword, its decoding joins the barrier of the slot that
   counts it (see FeedbackIsChargedToItsSlot and UeTxStrays.FeedbackKeepsOrderIff), and every slot issued or counting
   a decoding is less than the number of barriers ahead of the first slot not started.
   */
  ghost predicate Assumed(c: Config, first: nat, s: State, step: Step)
    requires c.Positive()
  {
    match step
    case Receive(k1, codewords) =>
      var charged := c.ChargedSlot(s.rxSlot, k1);
      || k1 == 0 || codewords == 0
      || (&& codewords == 1
          && charged % c.barriers == (s.rxSlot + k1) % c.barriers && charged < Waiting(first, s) + c.barriers)
    case Issue => Issuing(c, s) < Waiting(first, s) + c.barriers
    case _ => true
  }

  lemma InitInv(c: Config, rxSlot: nat)
    requires c.Valid()
    ensures Inv(c, rxSlot + c.duration, Init(c, rxSlot))
  {
  }

  lemma SameBarrier(c: Config, a: nat, b: nat)
    requires c.Positive() && a % c.barriers == b % c.barriers && a < b + c.barriers && b < a + c.barriers
    ensures a == b
  {
    CongruentAndClose(a, b, c.barriers);
  }

  lemma CoreAndMissing(c: Config, first: nat, s: State)
    requires Core(c, first, s) && Holds(c, first, s, Missing)
    ensures Inv(c, first, s)
  {
    forall fact ensures Holds(c, first, s, fact) {
      if fact == Missing {
      }
    }
  }

  /** Only the slot that comes next can have all its joins. */
  lemma LaterIsIncomplete(c: Config, first: nat, s: State, slot: nat)
    requires Holds(c, first, s, Window(slot)) && Waiting(first, s) < slot < Waiting(first, s) + c.barriers
    ensures Incomplete(c, s, slot)
  {
  }

  lemma NotCounted(c: Config, first: nat, s: State, slot: nat)
    requires Core(c, first, s) && c.Positive()
    requires Waiting(first, s) + c.barriers <= slot || Issuing(c, s) + c.slots <= slot
    ensures s.granted[slot] == 0 && DecodingsFor(c, s, slot) == 0
  {
    assert Holds(c, first, s, Granted(slot));
    assert Holds(c, first, s, Pending(Decoding(slot, slot % c.barriers)));
  }

  lemma DecodingsAreGranted(c: Config, first: nat, s: State, slot: nat)
    requires Core(c, first, s) && c.Positive()
    ensures DecodingsFor(c, s, slot) <= s.granted[slot]
  {
    assert Holds(c, first, s, Pending(Decoding(slot, slot % c.barriers)));
  }

  // Starting a slot

  /** The next slot has all its joins. */
  ghost predicate Complete(c: Config, first: nat, s: State) {
    WellFormed(c, s) && s.running == [] && Waiting(first, s) < Issuing(c, s) && DecodingsFor(c, s, Waiting(first, s)) == 0
  }

  /** The next slot starts, and its barrier is emptied. */
  ghost predicate Starts(c: Config, first: nat, s: State, t: State) {
    var u := Waiting(first, s);
    && WellFormed(c, s)
    && exists b: Barrier ::
         && b.completed == 0 && b.callback == None
         && t == Start(s.(barriers := s.barriers[u % c.barriers := b]), Some(TxJob(u, (u + 1) % c.barriers)))
  }

  lemma StartOrder(c: Config, first: nat, s: State, t: State)
    requires Holds(c, first, s, Order) && Complete(c, first, s) && Starts(c, first, s, t)
    ensures WellFormed(c, t) && Holds(c, first, t, Order)
  {
    var u := Waiting(first, s);
    assert t.started == s.started + [u] && t.running == [TxJob(u, (u + 1) % c.barriers)];
  }

  lemma StartTables(c: Config, first: nat, s: State, t: State, fact: Fact)
    requires Holds(c, first, s, fact) && (fact.Count? || fact.Granted? || fact.Pending?)
    requires Complete(c, first, s) && Starts(c, first, s, t) && WellFormed(c, t)
    ensures Holds(c, first, t, fact)
  {
  }

  /** The emptied barrier is that of the slot `barriers` later. */
  lemma StartWindow(c: Config, first: nat, s: State, t: State, slot: nat)
    requires Core(c, first, s) && Complete(c, first, s) && Starts(c, first, s, t) && WellFormed(c, t)
    ensures Holds(c, first, t, Window(slot))
  {
    var u := Waiting(first, s);
    assert Holds(c, first, s, Order);
    if slot == u + c.barriers {
      DivModShift(u, 1, c.barriers);
      NotCounted(c, first, s, slot);
    } else if u < slot < u + c.barriers {
      assert Holds(c, first, s, Window(slot));
      if slot % c.barriers == u % c.barriers {
        SameBarrier(c, slot, u);
      }
    }
  }

  lemma StartKeepsInv(c: Config, first: nat, s: State, t: State)
    requires Core(c, first, s) && Complete(c, first, s) && Starts(c, first, s, t)
    ensures Inv(c, first, t)
  {
    assert Holds(c, first, s, Order);
    StartOrder(c, first, s, t);
    forall fact | fact != Missing ensures Holds(c, first, t, fact) {
      match fact
      case Order =>
      case Window(slot) => StartWindow(c, first, s, t, slot);
      case _ => StartTables(c, first, s, t, fact);
    }
    NextIsMissing(c, first, t);
  }

  lemma NextIsMissing(c: Config, first: nat, t: State)
    requires Core(c, first, t) && t.running != []
    ensures Inv(c, first, t)
  {
    assert Holds(c, first, t, Order) && Holds(c, first, t, Window(Waiting(first, t)));
    CoreAndMissing(c, first, t);
  }

  // Joins

  /** The join written down, before a job is started because of it. */
  function Recorded(s: State, index: nat): State
    requires index < |s.barriers|
  {
    var b := s.barriers[index];
    s.(barriers := s.barriers[index := b.(completed := b.completed + 1)])
  }

  /** A join at the barrier of a slot in the window. */
  lemma JoinKeepsInv(c: Config, first: nat, s: State, slot: nat, s1: State, t: State)
    requires WellFormed(c, s) && s1 == Recorded(s, slot % c.barriers) && Core(c, first, s1)
    requires Waiting(first, s) <= slot < Waiting(first, s) + c.barriers
    requires slot != Waiting(first, s) ==> Incomplete(c, s, Waiting(first, s))
    requires t == JoinAt(s, slot % c.barriers)
    ensures Inv(c, first, t)
  {
    var u, i := Waiting(first, s), slot % c.barriers;
    var b := s.barriers[i];
    if b.callback.Some? && b.completed + 1 == b.maxJoins {
      LastJoin(c, first, s1, slot);
      var b2 := b.(completed := 0, callback := None);
      assert s1.barriers[i := b2] == s.barriers[i := b2];
      assert Starts(c, first, s1, t);
      StartKeepsInv(c, first, s1, t);
    } else {
      assert t == s1;
      NotLastJoin(c, first, s, slot, s1);
    }
  }

  /** The barrier that has all its joins is that of the next slot, whose callback is stored. */
  lemma LastJoin(c: Config, first: nat, s1: State, slot: nat)
    requires Core(c, first, s1) && WellFormed(c, s1) && Waiting(first, s1) <= slot < Waiting(first, s1) + c.barriers
    requires var b := s1.barriers[slot % c.barriers]; b.callback.Some? && b.completed == b.maxJoins
    ensures slot == Waiting(first, s1) && Complete(c, first, s1)
    ensures s1.barriers[slot % c.barriers].callback == Some(TxJob(slot, (slot + 1) % c.barriers))
  {
    assert Holds(c, first, s1, Order) && Holds(c, first, s1, Window(slot));
    if slot != Waiting(first, s1) {
      LaterIsIncomplete(c, first, s1, slot);
    }
  }

  lemma NotLastJoin(c: Config, first: nat, s: State, slot: nat, s1: State)
    requires WellFormed(c, s) && s1 == Recorded(s, slot % c.barriers) && Core(c, first, s1)
    requires Waiting(first, s) <= slot < Waiting(first, s) + c.barriers
    requires slot != Waiting(first, s) ==> Incomplete(c, s, Waiting(first, s))
    requires var b := s1.barriers[slot % c.barriers]; !(b.callback.Some? && b.completed == b.maxJoins)
    ensures Inv(c, first, s1)
  {
    var u := Waiting(first, s);
    assert Holds(c, first, s1, Window(u));
    if slot != u && u % c.barriers == slot % c.barriers {
      SameBarrier(c, slot, u);
    }
    CoreAndMissing(c, first, s1);
  }

  /** A decoding that finishes. */
  lemma DecodedKeepsInv(c: Config, first: nat, s: State, d: Decoding, s0: State, t: State)
    requires Inv(c, first, s) && d in s.decodings && s0 == s.(decodings := s.decodings - multiset{d})
    requires d.barrier < |s0.barriers| && t == JoinAt(s0, d.barrier)
    ensures Inv(c, first, t)
  {
    assert Holds(c, first, s, Pending(d)) && Holds(c, first, s, Granted(d.target)) && Holds(c, first, s, Missing);
    assert WellFormed(c, s0) && Incomplete(c, s0, Waiting(first, s0));
    var s1 := Recorded(s0, d.barrier);
    RecordDecoding(c, first, s, d, s1);
    JoinKeepsInv(c, first, s0, d.target, s1, t);
  }

  lemma RecordDecoding(c: Config, first: nat, s: State, d: Decoding, s1: State)
    requires Core(c, first, s) && d in s.decodings && d.barrier < |s.barriers|
    requires s1 == Recorded(s.(decodings := s.decodings - multiset{d}), d.barrier)
    ensures Core(c, first, s1)
  {
    assert Holds(c, first, s, Pending(d)) && Holds(c, first, s, Granted(d.target));
    assert WellFormed(c, s1);
    forall fact | fact != Missing ensures Holds(c, first, s1, fact) {
      match fact
      case Window(slot) => RecordedWindow(c, first, s, d, s1, slot);
      case _ => RecordedOther(c, first, s, d, s1, fact);
    }
  }

  lemma RecordedOther(c: Config, first: nat, s: State, d: Decoding, s1: State, fact: Fact)
    requires Holds(c, first, s, fact) && !fact.Window? && !fact.Missing?
    requires d in s.decodings && WellFormed(c, s1)
    requires s1 == Recorded(s.(decodings := s.decodings - multiset{d}), d.barrier)
    ensures Holds(c, first, s1, fact)
  {
  }

  lemma RecordedWindow(c: Config, first: nat, s: State, d: Decoding, s1: State, slot: nat)
    requires Holds(c, first, s, Window(slot)) && Holds(c, first, s, Pending(d)) && Holds(c, first, s, Granted(d.target))
    requires d in s.decodings && WellFormed(c, s1)
    requires s1 == Recorded(s.(decodings := s.decodings - multiset{d}), d.barrier)
    ensures Holds(c, first, s1, Window(slot))
  {
    assert d.target in s.granted;
    if Waiting(first, s) <= slot < Waiting(first, s) + c.barriers && slot != d.target && slot % c.barriers == d.barrier {
      SameBarrier(c, slot, d.target);
    }
  }

  /** An uplink slot that reaches its join. */
  lemma JoinedKeepsInv(c: Config, first: nat, s: State, i: nat, s0: State, t: State)
    requires Inv(c, first, s) && i < |s.running| && s0 == s.(running := s.running[..i] + s.running[i + 1..])
    requires s.running[i].nextBarrier < |s0.barriers| && t == JoinAt(s0, s.running[i].nextBarrier)
    ensures Inv(c, first, t)
  {
    var u := Waiting(first, s);
    assert Holds(c, first, s, Order);
    assert s0.running == [] && s.running[i].nextBarrier == u % c.barriers;
    var s1 := Recorded(s0, u % c.barriers);
    assert WellFormed(c, s1);
    forall fact | fact != Missing ensures Holds(c, first, s1, fact) {
      assert Holds(c, first, s, fact);
      if fact.Window? && u <= fact.slot < u + c.barriers && fact.slot != u && fact.slot % c.barriers == u % c.barriers {
        SameBarrier(c, fact.slot, u);
      }
    }
    JoinKeepsInv(c, first, s0, u, s1, t);
  }

  // Receiving

  lemma GrantKeepsInv(c: Config, first: nat, s: State, target: nat, t: State)
    requires Inv(c, first, s) && c.Positive() && |s.waits| == c.slots
    requires Issuing(c, s) <= target < Issuing(c, s) + c.slots && target < Waiting(first, s) + c.barriers
    requires t == Grant(s, target, target % c.slots, target % c.barriers, 1)
    ensures Inv(c, first, t)
  {
    assert Holds(c, first, s, Order);
    assert WellFormed(c, t);
    forall fact ensures Holds(c, first, t, fact) {
      assert Holds(c, first, s, fact);
      match fact
      case Count(slot) => GrantCount(c, first, s, target, t, slot);
      case Pending(d) => GrantPending(c, first, s, target, t, d);
      case Window(slot) => GrantWindow(c, first, s, target, t, slot);
      case _ =>
    }
  }

  lemma GrantCount(c: Config, first: nat, s: State, target: nat, t: State, slot: nat)
    requires Holds(c, first, s, Count(slot)) && WellFormed(c, t)
    requires Issuing(c, s) <= target < Issuing(c, s) + c.slots
    requires t == Grant(s, target, target % c.slots, target % c.barriers, 1)
    ensures Holds(c, first, t, Count(slot))
  {
    if Issuing(c, s) <= slot < Issuing(c, s) + c.slots && slot != target && slot % c.slots == target % c.slots {
      CongruentAndClose(slot, target, c.slots);
    }
  }

  lemma GrantPending(c: Config, first: nat, s: State, target: nat, t: State, d: Decoding)
    requires Core(c, first, s) && WellFormed(c, s) && WellFormed(c, t) && Waiting(first, s) <= target
    requires t == Grant(s, target, target % c.slots, target % c.barriers, 1)
    ensures Holds(c, first, t, Pending(d))
  {
    assert Holds(c, first, s, Pending(d));
    DecodingsAreGranted(c, first, s, target);
  }

  lemma GrantWindow(c: Config, first: nat, s: State, target: nat, t: State, slot: nat)
    requires Holds(c, first, s, Window(slot)) && WellFormed(c, t) && Issuing(c, s) <= target
    requires t == Grant(s, target, target % c.slots, target % c.barriers, 1)
    ensures Holds(c, first, t, Window(slot))
  {
  }

  lemma NoGrantKeepsInv(c: Config, first: nat, s: State, t: State)
    requires Inv(c, first, s) && t == s.(received := true)
    ensures Inv(c, first, t)
  {
    forall fact ensures Holds(c, first, t, fact) {
      assert Holds(c, first, s, fact);
    }
  }

  // Issuing

  /** The barrier of the slot being issued, holding its job. */
  ghost function Filled(c: Config, first: nat, s: State): Barrier
    requires WellFormed(c, s)
  {
    var slot := Issuing(c, s);
    s.barriers[slot % c.barriers].(maxJoins := s.granted[slot] + (if slot == first then 0 else 1),
                                   callback := Some(TxJob(slot, (slot + 1) % c.barriers)))
  }

  /** The slot being issued, left with its barrier. */
  ghost function Installed(c: Config, first: nat, s: State): State
    requires WellFormed(c, s)
  {
    var slot := Issuing(c, s);
    s.(barriers := s.barriers[slot % c.barriers := Filled(c, first, s)], waits := s.waits[slot % c.slots := 0],
       rxSlot := s.rxSlot + 1, received := false, synced := true)
  }

  lemma LeaveKeepsInv(c: Config, first: nat, s: State, slot: nat, t: State)
    requires Inv(c, first, s) && WellFormed(c, s)
    requires Issuing(c, s) == slot < Waiting(first, s) + c.barriers
    requires t == Leave(s, TxJob(slot, (slot + 1) % c.barriers), slot % c.slots, slot % c.barriers)
    ensures Inv(c, first, t)
  {
    var i, s1 := slot % c.barriers, Installed(c, first, s);
    assert Holds(c, first, s, Order) && Holds(c, first, s, Count(slot)) && Holds(c, first, s, Window(slot));
    assert Filled(c, first, s).maxJoins == s.waits[slot % c.slots] + (if s.synced then 1 else 0);
    InstallKeepsCore(c, first, s, s1);
    if s.barriers[i].completed == Filled(c, first, s).maxJoins {
      assert s1.barriers[i := s.barriers[i].(completed := 0)] == s.barriers[i := s.barriers[i].(completed := 0)];
      LeaveStarts(c, first, s, slot, s1, t);
    } else {
      assert t == s1;
      LeaveStores(c, first, s, slot, t, Filled(c, first, s));
    }
  }

  /** All joins came first, so the slot is the next one and starts at once. */
  lemma LeaveStarts(c: Config, first: nat, s: State, slot: nat, s1: State, t: State)
    requires Inv(c, first, s) && WellFormed(c, s) && Issuing(c, s) == slot < Waiting(first, s) + c.barriers
    requires s1 == Installed(c, first, s) && Core(c, first, s1) && WellFormed(c, s1)
    requires s.barriers[slot % c.barriers].completed == Filled(c, first, s).maxJoins
    requires var b := s.barriers[slot % c.barriers].(completed := 0);
      t == Start(s1.(barriers := s1.barriers[slot % c.barriers := b]), Some(TxJob(slot, (slot + 1) % c.barriers)))
    ensures Inv(c, first, t)
  {
    assert Holds(c, first, s, Order) && Holds(c, first, s, Window(slot));
    DecodingsAreGranted(c, first, s, slot);
    StartKeepsInv(c, first, s1, t);
  }

  /** Joins are missing, and the slot waits. */
  lemma LeaveStores(c: Config, first: nat, s: State, slot: nat, t: State, b: Barrier)
    requires Inv(c, first, s) && Core(c, first, t) && WellFormed(c, t)
    requires Issuing(c, s) == slot < Waiting(first, s) + c.barriers
    requires b.completed != b.maxJoins && |s.barriers| == c.barriers && t.barriers == s.barriers[slot % c.barriers := b]
    requires t.rxSlot == s.rxSlot + 1 && t.started == s.started
    ensures Inv(c, first, t)
  {
    var u := Waiting(first, s);
    assert Holds(c, first, s, Missing) && Holds(c, first, s, Order);
    if slot != u && u % c.barriers == slot % c.barriers {
      SameBarrier(c, slot, u);
    }
    CoreAndMissing(c, first, t);
  }

  lemma InstallKeepsCore(c: Config, first: nat, s: State, s1: State)
    requires Inv(c, first, s) && WellFormed(c, s) && Issuing(c, s) < Waiting(first, s) + c.barriers
    requires s1 == Installed(c, first, s)
    ensures Core(c, first, s1)
  {
    assert WellFormed(c, s1);
    forall fact | fact != Missing ensures Holds(c, first, s1, fact) {
      match fact
      case Window(slot) => InstalledWindow(c, first, s, s1, slot);
      case Count(slot) => InstalledCount(c, first, s, s1, slot);
      case Order => InstalledOrder(c, first, s, s1);
      case _ => InstalledTables(c, first, s, s1, fact);
    }
  }

  lemma InstalledOrder(c: Config, first: nat, s: State, s1: State)
    requires Inv(c, first, s) && WellFormed(c, s) && Issuing(c, s) < Waiting(first, s) + c.barriers
    requires s1 == Installed(c, first, s) && WellFormed(c, s1)
    ensures Holds(c, first, s1, Order)
  {
    assert Holds(c, first, s, Order);
  }

  lemma InstalledTables(c: Config, first: nat, s: State, s1: State, fact: Fact)
    requires Holds(c, first, s, fact) && (fact.Granted? || fact.Pending?)
    requires s1 == Installed(c, first, s) && WellFormed(c, s1)
    ensures Holds(c, first, s1, fact)
  {
  }

  lemma InstalledWindow(c: Config, first: nat, s: State, s1: State, slot: nat)
    requires Inv(c, first, s) && WellFormed(c, s) && Issuing(c, s) < Waiting(first, s) + c.barriers
    requires s1 == Installed(c, first, s) && WellFormed(c, s1)
    ensures Holds(c, first, s1, Window(slot))
  {
    var u, issued := Waiting(first, s), Issuing(c, s);
    assert Holds(c, first, s, Order) && Holds(c, first, s, Window(slot));
    if u <= slot < u + c.barriers && slot != issued && slot % c.barriers == issued % c.barriers {
      SameBarrier(c, slot, issued);
    }
  }

  lemma InstalledCount(c: Config, first: nat, s: State, s1: State, slot: nat)
    requires Inv(c, first, s) && WellFormed(c, s) && s1 == Installed(c, first, s) && WellFormed(c, s1)
    ensures Holds(c, first, s1, Count(slot))
  {
    var issued := Issuing(c, s);
    assert Holds(c, first, s, Count(slot));
    if slot == issued + c.slots {
      DivModShift(issued, 1, c.slots);
      NotCounted(c, first, s, slot);
    } else if issued < slot < issued + c.slots && slot % c.slots == issued % c.slots {
      CongruentAndClose(slot, issued, c.slots);
    }
  }

  // -------------------------------------------------------------------------------------------
  // Every interleaving
  // -------------------------------------------------------------------------------------------

  /** A run: each step is enabled, and the surroundings behave as assumed. */
  ghost predicate Run(c: Config, first: nat, s: State, steps: seq<Step>, end: State)
    decreases steps
  {
    if steps == [] then end == s
    else
      && WellFormed(c, s) && Enabled(s, steps[0]) && Assumed(c, first, s, steps[0])
      && Run(c, first, Next(c, s, steps[0]), steps[1..], end)
  }

  /** The same step with every barrier found by the absolute slot number, however long the run. */
  ghost predicate Moves(c: Config, s: State, step: Step, t: State)
    requires WellFormed(c, s) && Enabled(s, step)
  {
    match step
    case Receive(k1, codewords) =>
      t == if k1 == 0 || codewords == 0 then s.(received := true)
           else var charged := c.ChargedSlot(s.rxSlot, k1);
                Grant(s, charged, charged % c.slots, (s.rxSlot + k1) % c.barriers, codewords)
    case Issue =>
      var slot := s.rxSlot + c.duration;
      t == Leave(s, TxJob(slot, (slot + 1) % c.barriers), slot % c.slots, slot % c.barriers)
    case Decoded(d) => t == JoinAt(s.(decodings := s.decodings - multiset{d}), d.barrier)
    case Joined(i) => t == JoinAt(s.(running := s.running[..i] + s.running[i + 1..]), s.running[i].nextBarrier)
  }

  lemma NextMoves(c: Config, s: State, step: Step)
    requires c.Valid() && WellFormed(c, s) && Enabled(s, step)
    ensures Moves(c, s, step, Next(c, s, step))
  {
    if step.Receive? {
      IndicesAgree(c, s.rxSlot, step.k1);
      FeedbackIsChargedToItsSlot(c, s.rxSlot, step.k1, 0);
    } else if step.Issue? {
      IndicesAgree(c, s.rxSlot, 0);
    }
  }

  lemma ReceiveKeepsInv(c: Config, first: nat, s: State, step: Step, t: State)
    requires c.Valid() && WellFormed(c, s) && Inv(c, first, s) && step.Receive?
    requires Enabled(s, step) && Assumed(c, first, s, step) && t == Next(c, s, step)
    ensures Inv(c, first, t)
  {
    assert Holds(c, first, s, Order);
    NextMoves(c, s, step);
    if step.k1 == 0 || step.codewords == 0 {
      NoGrantKeepsInv(c, first, s, t);
    } else {
      GrantKeepsInv(c, first, s, c.ChargedSlot(s.rxSlot, step.k1), t);
    }
  }

  lemma IssueKeepsInv(c: Config, first: nat, s: State)
    requires c.Valid() && WellFormed(c, s) && Inv(c, first, s) && Enabled(s, Issue) && Assumed(c, first, s, Issue)
    ensures Inv(c, first, Next(c, s, Issue))
  {
    NextMoves(c, s, Issue);
    LeaveKeepsInv(c, first, s, s.rxSlot + c.duration, Next(c, s, Issue));
  }

  lemma {:induction false} RunKeepsInv(c: Config, first: nat, s: State, steps: seq<Step>, end: State)
    requires c.Valid() && Inv(c, first, s) && Run(c, first, s, steps, end)
    ensures Inv(c, first, end)
    decreases steps
  {
    if steps != [] {
      var t := Next(c, s, steps[0]);
      match steps[0] {
        case Receive(_, _) => ReceiveKeepsInv(c, first, s, steps[0], t);
        case Issue => IssueKeepsInv(c, first, s);
        case Decoded(d) => DecodedKeepsInv(c, first, s, d, s.(decodings := s.decodings - multiset{d}), t);
        case Joined(i) => JoinedKeepsInv(c, first, s, i, s.(running := s.running[..i] + s.running[i + 1..]), t);
      }
      RunKeepsInv(c, first, t, steps[1..], end);
    }
  }

  /** The states of all interleavings from `s0` on. */
  ghost predicate From(c: Config, first: nat, s0: State, s: State) {
    exists steps :: Run(c, first, s0, steps, s)
  }

  lemma FromKeepsInv(c: Config, first: nat, s0: State, s: State)
    requires c.Valid() && Inv(c, first, s0) && From(c, first, s0, s)
    ensures Inv(c, first, s)
  {
    var steps :| Run(c, first, s0, steps, s);
    RunKeepsInv(c, first, s0, steps, s);
  }

  /** The states of all interleavings that follow a resynchronisation at `rxSlot`. */
  ghost predicate Reachable(c: Config, rxSlot: nat, s: State) {
    c.Valid() && From(c, rxSlot + c.duration, Init(c, rxSlot), s)
  }

  lemma ReachableInv(c: Config, rxSlot: nat, s: State)
    requires Reachable(c, rxSlot, s)
    ensures Inv(c, rxSlot + c.duration, s)
  {
    InitInv(c, rxSlot);
    FromKeepsInv(c, rxSlot + c.duration, Init(c, rxSlot), s);
  }

  /** Uplink slots from `first` on have started once each, in order, at most one is before its join, and none is stuck. */
  ghost predicate Ordered(c: Config, first: nat, s: State) {
    && (forall i :: 0 <= i < |s.started| ==> s.started[i] == first + i)
    && (s.started != [] ==> |s.running| <= 1)
    && (s.started != [] && s.running != [] ==> s.running[0].slot == s.started[|s.started| - 1])
    && (Waiting(first, s) < Issuing(c, s) ==>
          s.running != [] || exists d :: d in s.decodings && d.target == Waiting(first, s))
  }

  lemma InvOrdered(c: Config, first: nat, s: State)
    requires Inv(c, first, s)
    ensures Ordered(c, first, s)
  {
    assert Holds(c, first, s, Order);
    if Waiting(first, s) < Issuing(c, s) {
      SomethingIsMissing(c, first, s);
    }
  }

  /**
   In every interleaving uplink slots start once each, in order, and schedule one at a time; none starts before the
   decodings it counts are over.
   */
  lemma SlotsStartInOrder(c: Config, rxSlot: nat, s: State)
    requires Reachable(c, rxSlot, s)
    ensures forall i :: 0 <= i < |s.started| ==> s.started[i] == rxSlot + c.duration + i
    ensures |s.running| <= 1
    ensures forall i :: 0 <= i < |s.running| ==> 0 < |s.started| && s.running[i].slot == s.started[|s.started| - 1]
    ensures forall d :: d in s.decodings ==> d.target !in s.started
  {
    ReachableInv(c, rxSlot, s);
    assert Holds(c, rxSlot + c.duration, s, Order);
    forall d | d in s.decodings ensures d.target !in s.started {
      assert Holds(c, rxSlot + c.duration, s, Pending(d));
    }
  }

  /** A slot issued and not started is waiting for a decoding or an uplink slot that can still take a step. */
  lemma NeverStuck(c: Config, rxSlot: nat, s: State)
    requires Reachable(c, rxSlot, s)
    requires |s.started| < s.rxSlot - rxSlot
    ensures s.running != [] || exists d :: d in s.decodings && d.target == rxSlot + c.duration + |s.started|
  {
    ReachableInv(c, rxSlot, s);
    SomethingIsMissing(c, rxSlot + c.duration, s);
  }

  lemma SomethingIsMissing(c: Config, first: nat, s: State)
    requires Inv(c, first, s) && c.Positive() && Waiting(first, s) < Issuing(c, s)
    ensures s.running != [] || Decoding(Waiting(first, s), Waiting(first, s) % c.barriers) in s.decodings
  {
    assert Holds(c, first, s, Order) && Holds(c, first, s, Missing) && Holds(c, first, s, Window(Waiting(first, s)));
  }
}
