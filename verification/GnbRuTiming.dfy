/**
 Reception timestamps and slot counters of the gNB radio unit (executables/nr-ru.c, rx_rf and the part of
 ru_thread that numbers slots). The device may return any timestamps; the program absorbs their drift.
 */
module GnbRuTiming {
  import opened CInts
  import opened SlotClock

  const FRAME_CYCLE := 1024

  /** The fields of RU_proc_t and RU_t that rx_rf keeps, and the counters of ru_thread. */
  datatype Ru = Ru(
    firstRx: bool,
    timestampRx: int,
    tsOffset: int,
    frameRx: int,
    ttiRx: int,
    frame: int,        // counter of ru_thread
    slot: int,         // counter of ru_thread
    exited: bool       // one of the mismatch exits was taken
  )

  /** Number of the frame that holds a timestamp. */
  function FrameOf(c: Clock, timestamp: int): int
    requires c.Valid()
  {
    CDiv(timestamp, c.SamplesPerFrame()) % FRAME_CYCLE
  }

  /** Absolute slot that holds a timestamp. */
  function SlotHolding(c: Clock, timestamp: nat): nat
    requires c.Valid()
  {
    assert c.FoundAt(timestamp);
    MulLe(0, timestamp / c.SamplesPerFrame(), c.SlotsPerFrame());
    (timestamp / c.SamplesPerFrame()) * c.SlotsPerFrame() + c.slotOf(timestamp)
  }

  /** The counters ru_thread advances before each reception. */
  function Tick(c: Clock, ru: Ru): Ru
    requires c.Valid()
  {
    if ru.slot == c.SlotsPerFrame() - 1 then ru.(slot := 0, frame := (ru.frame + 1) % FRAME_CYCLE)
    else ru.(slot := ru.slot + 1)
  }

  /** A reception after the first one, whatever timestamp `ts` the device returns. */
  function Later(c: Clock, ru: Ru, ts: int): Ru
    requires c.Valid()
  {
    var t := ru.timestampRx + c.length(CRem(ru.slot - 1, c.SlotsPerFrame()));
    ru.(timestampRx := t,
        tsOffset := ts - t,
        frameRx := FrameOf(c, t),
        ttiRx := c.slotOf(t),
        exited := ru.exited || c.slotOf(t) != ru.slot || FrameOf(c, t) != ru.frame)
  }

  /** The first reception takes the counters from the timestamp and moves on to a slot boundary. */
  function First(c: Clock, ru: Ru, ts: int): Ru
    requires c.Valid() && ru.tsOffset <= ts
  {
    var t := ts - ru.tsOffset;
    var slot := c.slotOf(t);
    var frame := FrameOf(c, t);
    assert c.FoundAt(t);
    Aligned(c, ru.(firstRx := false, timestampRx := t, frameRx := frame, ttiRx := slot, frame := frame, slot := slot))
  }

  /** The counters and the timestamp, moved on to the next slot boundary. */
  function Aligned(c: Clock, ru: Ru): Ru
    requires c.Valid() && 0 <= ru.slot
  {
    var into := ru.timestampRx % c.SamplesPerFrame() - c.timestamp(ru.slot);
    if into == 0 then ru
    else ru.(timestampRx := ru.timestampRx + c.length(ru.slot) - into,
             frame := if ru.slot + 1 >= c.SlotsPerFrame() then ru.frame + 1 else ru.frame,
             slot := (ru.slot + 1) % c.SlotsPerFrame())
  }

  function Received(c: Clock, ru: Ru, ts: int): Ru
    requires c.Valid() && (ru.firstRx ==> ru.tsOffset <= ts)
  {
    if ru.firstRx then First(c, ru, ts) else Later(c, ru, ts)
  }

  // -------------------------------------------------------------------------------------------
  // The code
  // -------------------------------------------------------------------------------------------

  class RuProc {
    var firstRx: bool
    var timestampRx: int
    var tsOffset: int
    var frameRx: int
    var ttiRx: int
    var frame: int
    var slot: int
    var exited: bool

    function View(): Ru
      reads this
    {
      Ru(firstRx, timestampRx, tsOffset, frameRx, ttiRx, frame, slot, exited)
    }

    /** State at the start of ru_thread. */
    constructor (c: Clock)
      requires c.Valid()
      ensures View() == Ru(true, 0, 0, 0, 0, FRAME_CYCLE - 1, c.SlotsPerFrame() - 1, false)
    {
      firstRx, timestampRx, tsOffset, frameRx, ttiRx := true, 0, 0, 0, 0;
      frame, slot, exited := FRAME_CYCLE - 1, c.SlotsPerFrame() - 1, false;
    }

    method TickCounters(c: Clock)
      requires c.Valid()
      modifies this`slot, this`frame
      ensures View() == Tick(c, old(View()))
    {
      if slot == c.SlotsPerFrame() - 1 {
        slot := 0;
        frame := frame + 1;
        frame := frame % FRAME_CYCLE;
      } else {
        slot := slot + 1;
      }
    }

    /** rx_rf; `ts` is what the device returns, with the alignment read that may follow. */
    method RxRf(c: Clock, ts: int)
      requires c.Valid() && (firstRx ==> tsOffset <= ts)
      modifies this
      ensures View() == Received(c, old(View()), ts)
    {
      if firstRx {
        FirstRx(c, ts);
      } else {
        LaterRx(c, ts);
      }
    }

    /** rx_rf with first_rx set. */
    method FirstRx(c: Clock, ts: int)
      requires c.Valid() && firstRx && tsOffset <= ts
      modifies this
      ensures View() == First(c, old(View()), ts)
    {
      timestampRx := ts - tsOffset;
      frameRx := FrameOf(c, timestampRx);
      ttiRx := c.slotOf(timestampRx);
      firstRx := false;
      frame := frameRx;
      slot := ttiRx;
      assert c.FoundAt(timestampRx);
      Align(c);
    }

    /** rx_rf from the second reception on. */
    method LaterRx(c: Clock, ts: int)
      requires c.Valid() && !firstRx
      modifies this
      ensures View() == Later(c, old(View()), ts)
    {
      var oldTs := timestampRx;
      timestampRx := ts - tsOffset;
      AbsorbDrift(c, ts, oldTs);
      frameRx := FrameOf(c, timestampRx);
      ttiRx := c.slotOf(timestampRx);
      if ttiRx != slot {
        exited := true;
      }
      if frameRx != frame {
        exited := true;
      }
    }

    /** The offset follows the device, so that the timestamp advances by the length of the previous slot. */
    method AbsorbDrift(c: Clock, ts: int, oldTs: int)
      requires c.Valid() && timestampRx == ts - tsOffset
      modifies this`tsOffset, this`timestampRx
      ensures timestampRx == oldTs + c.length(CRem(slot - 1, c.SlotsPerFrame())) && tsOffset == ts - timestampRx
    {
      var previous := c.length(CRem(slot - 1, c.SlotsPerFrame()));
      if timestampRx - oldTs != previous {
        tsOffset := tsOffset + (timestampRx - oldTs - previous);
        timestampRx := ts - tsOffset;
      }
    }

    /** The read that moves the first reception on to a slot boundary. */
    method Align(c: Clock)
      requires c.Valid() && 0 <= timestampRx && 0 <= slot == c.slotOf(timestampRx)
      modifies this`timestampRx, this`frame, this`slot
      ensures View() == Aligned(c, old(View()))
    {
      assert c.FoundAt(timestampRx);
      var into := timestampRx % c.SamplesPerFrame() - c.timestamp(slot);
      if 0 < into {
        timestampRx := timestampRx + (c.length(slot) - into);
        if slot + 1 >= c.SlotsPerFrame() {
          frame := frame + 1;
        }
        slot := (slot + 1) % c.SlotsPerFrame();
      }
    }
  }

  // -------------------------------------------------------------------------------------------
  // Every sequence of device timestamps
  // -------------------------------------------------------------------------------------------

  /** Reception stands at the start of absolute slot `k`, and the counters say so. */
  ghost predicate OnGrid(c: Clock, ru: Ru, k: nat)
    requires c.Valid()
  {
    && !ru.firstRx && !ru.exited
    && ru.timestampRx == c.timestamp(k)
    && ru.slot == k % c.SlotsPerFrame()
    && ru.frame == (k / c.SlotsPerFrame()) % FRAME_CYCLE
  }

  /** The numbers handed on to the rest of the gNB name the same slot. */
  ghost predicate Numbered(c: Clock, ru: Ru, k: nat)
    requires c.Valid()
  {
    ru.ttiRx == k % c.SlotsPerFrame() && ru.frameRx == (k / c.SlotsPerFrame()) % FRAME_CYCLE
  }

  lemma PreviousLength(c: Clock, k: nat)
    requires c.Valid()
    ensures c.length(CRem((k + 1) % c.SlotsPerFrame() - 1, c.SlotsPerFrame())) == c.length(k)
  {
    var n := c.SlotsPerFrame();
    DivModSucc(k, n);
    SplitByFrame(c, k);
    DivModUnique(0, k % n, n);
    if k % n == n - 1 {
      DivModUnique(0, 1, n);
    }
  }

  lemma TickFollows(c: Clock, ru: Ru, k: nat)
    requires c.Valid() && OnGrid(c, ru, k)
    ensures Tick(c, ru).slot == (k + 1) % c.SlotsPerFrame()
    ensures Tick(c, ru).frame == ((k + 1) / c.SlotsPerFrame()) % FRAME_CYCLE
  {
    DivModSucc(k, c.SlotsPerFrame());
    ModOfSum(k / c.SlotsPerFrame(), 1, FRAME_CYCLE);
  }

  /** Whatever the device returns, the next reception stands at the start of the next slot. */
  lemma NextReception(c: Clock, ru: Ru, k: nat, ts: int)
    requires c.Valid() && OnGrid(c, ru, k)
    ensures OnGrid(c, Received(c, Tick(c, ru), ts), k + 1) && Numbered(c, Received(c, Tick(c, ru), ts), k + 1)
  {
    TickFollows(c, ru, k);
    PreviousLength(c, k);
    assert c.RunningSumAt(k) && c.RunningSumAt(k + 1);
    FrameAndSlotOf(c, k + 1, c.timestamp(k + 1));
  }

  lemma SlotHoldingBounds(c: Clock, t: nat)
    requires c.Valid()
    ensures var k := SlotHolding(c, t);
      && c.timestamp(k) <= t < c.timestamp(k + 1)
      && k % c.SlotsPerFrame() == c.slotOf(t)
      && k / c.SlotsPerFrame() == t / c.SamplesPerFrame()
      && t % c.SamplesPerFrame() - c.timestamp(c.slotOf(t)) == t - c.timestamp(k)
  {
    var n, q, slot := c.SlotsPerFrame(), t / c.SamplesPerFrame(), c.slotOf(t);
    assert c.FoundAt(t) && c.PeriodicAt(SUBFRAMES_PER_FRAME, 0);
    if n <= slot {
      TimestampMonotone(c, n, slot);
    }
    DivModUnique(q, slot, n);
    var k := SlotHolding(c, t);
    SplitByFrame(c, k);
    assert c.RunningSumAt(k) && c.RunningSumAt(slot);
  }

  /** The first sample lies strictly inside the last slot of the frame cycle. */
  ghost predicate CrossesCycle(c: Clock, t: nat)
    requires c.Valid()
  {
    var k := SlotHolding(c, t);
    && t != c.timestamp(k)
    && k % c.SlotsPerFrame() == c.SlotsPerFrame() - 1
    && (k / c.SlotsPerFrame()) % FRAME_CYCLE == FRAME_CYCLE - 1
  }

  /** Slot at whose start the first reception ends. */
  ghost function AlignedSlot(c: Clock, t: nat): nat
    requires c.Valid()
  {
    var k := SlotHolding(c, t);
    if t == c.timestamp(k) then k else k + 1
  }

  /** The first reception is on the grid exactly when it does not cross the end of the frame cycle. */
  lemma FirstReception(c: Clock, ru: Ru, ts: int)
    requires c.Valid() && ru.firstRx && !ru.exited && ru.tsOffset <= ts
    ensures var t := ts - ru.tsOffset;
      var after := Received(c, ru, ts);
      && after.timestampRx == c.timestamp(AlignedSlot(c, t))
      && Numbered(c, after, SlotHolding(c, t))
      && (OnGrid(c, after, AlignedSlot(c, t)) <==> !CrossesCycle(c, t))
      && (CrossesCycle(c, t) ==> after.frame == FRAME_CYCLE && after.slot == 0)
  {
    var t := ts - ru.tsOffset;
    SlotHoldingBounds(c, t);
    var k, n := SlotHolding(c, t), c.SlotsPerFrame();
    var after := First(c, ru, ts);
    assert after.ttiRx == k % n && after.frameRx == (k / n) % FRAME_CYCLE;
    if t != c.timestamp(k) {
      assert c.RunningSumAt(k);
      SplitByFrame(c, k);
      assert after.timestampRx == c.timestamp(k + 1);
      NextSlotNumbers(k, n);
    }
  }

  /** One slot on, numbered with and without the wrap of the frame cycle. */
  lemma NextSlotNumbers(k: nat, n: nat)
    requires 0 < n
    ensures (k % n + 1) % n == (k + 1) % n
    ensures k % n == n - 1 ==> (k + 1) % n == 0
    ensures var frame := (k / n) % FRAME_CYCLE;
      ((k + 1) / n) % FRAME_CYCLE == if k % n + 1 < n then frame
                                     else if frame == FRAME_CYCLE - 1 then 0 else frame + 1
  {
    DivModSucc(k, n);
    DivModUnique(0, k % n, n);
    DivModSucc(k % n, n);
    DivModSucc(k / n, FRAME_CYCLE);
  }

  /** The numbers of the first pass name the slot before the one received, unless it was aligned. */
  lemma FirstPassNumbers(c: Clock, ru: Ru, ts: int)
    requires c.Valid() && ru.firstRx && !ru.exited && ru.tsOffset <= ts
    ensures var t := ts - ru.tsOffset;
      Numbered(c, Received(c, ru, ts), AlignedSlot(c, t)) <==> t == c.timestamp(SlotHolding(c, t))
  {
    FirstReception(c, ru, ts);
    DivModSucc(SlotHolding(c, ts - ru.tsOffset), c.SlotsPerFrame());
  }

  /** After every reception but the first, the offset leads from the timestamp back to the device's. */
  lemma OffsetFollowsDevice(c: Clock, ru: Ru, ts: int)
    requires c.Valid() && (ru.firstRx ==> ru.tsOffset <= ts)
    ensures var after := Received(c, ru, ts);
      && (!ru.firstRx ==> after.timestampRx + after.tsOffset == ts)
      && (ru.firstRx ==> after.tsOffset == ru.tsOffset
                         && 0 <= after.timestampRx + after.tsOffset - ts < c.length(c.slotOf(ts - ru.tsOffset)))
  {
    if ru.firstRx {
      assert c.FoundAt(ts - ru.tsOffset) && c.RunningSumAt(c.slotOf(ts - ru.tsOffset));
    }
  }

  /**
   Device time of a transmission: the slot `ahead` slots after the received one is sent that many slot lengths after the
   samples just received, whatever the device's timestamps drift.
   */
  lemma TransmitOnDeviceTime(c: Clock, ru: Ru, k: nat, ts: int, ahead: nat)
    requires c.Valid() && OnGrid(c, ru, k)
    ensures var after := Received(c, Tick(c, ru), ts);
      TimestampAhead(c, after, ahead) + after.tsOffset - ts == c.timestamp(k + 1 + ahead) - c.timestamp(k + 1)
  {
    NextReception(c, ru, k, ts);
    OffsetFollowsDevice(c, Tick(c, ru), ts);
    TransmitAtSlotStart(c, Received(c, Tick(c, ru), ts), k + 1, ahead);
  }

  /** State after receptions with the given device timestamps. */
  function AfterReceptions(c: Clock, ru: Ru, timestamps: seq<int>): Ru
    requires c.Valid() && !ru.firstRx
    decreases timestamps
  {
    if timestamps == [] then ru
    else AfterReceptions(c, Received(c, Tick(c, ru), timestamps[0]), timestamps[1..])
  }

  lemma {:induction false} ReceptionsStayOnGrid(c: Clock, ru: Ru, k: nat, timestamps: seq<int>)
    requires c.Valid() && OnGrid(c, ru, k)
    ensures OnGrid(c, AfterReceptions(c, ru, timestamps), k + |timestamps|)
    ensures timestamps != [] ==> Numbered(c, AfterReceptions(c, ru, timestamps), k + |timestamps|)
    decreases timestamps
  {
    if timestamps != [] {
      NextReception(c, ru, k, timestamps[0]);
      ReceptionsStayOnGrid(c, Received(c, Tick(c, ru), timestamps[0]), k + 1, timestamps[1..]);
    }
  }

  lemma {:induction false} ExitIsFinal(c: Clock, ru: Ru, timestamps: seq<int>)
    requires c.Valid() && !ru.firstRx && ru.exited
    ensures AfterReceptions(c, ru, timestamps).exited
    decreases timestamps
  {
    if timestamps != [] {
      ExitIsFinal(c, Received(c, Tick(c, ru), timestamps[0]), timestamps[1..]);
    }
  }

  /**
   From the second reception on, for arbitrary device timestamps: the mismatch exits are taken if and only if
   the first sample lay strictly inside the last slot of the frame cycle; otherwise every reception stands at
   the start of the slot the counters and the handed-on numbers name, one slot after the previous one.
   */
  lemma MismatchExits(c: Clock, ru: Ru, ts: int, timestamps: seq<int>)
    requires c.Valid() && ru.firstRx && !ru.exited && ru.tsOffset <= ts && timestamps != []
    ensures var t := ts - ru.tsOffset;
      var end := AfterReceptions(c, Received(c, ru, ts), timestamps);
      && (end.exited <==> CrossesCycle(c, t))
      && (!CrossesCycle(c, t) ==>
            OnGrid(c, end, AlignedSlot(c, t) + |timestamps|) && Numbered(c, end, AlignedSlot(c, t) + |timestamps|))
  {
    var t := ts - ru.tsOffset;
    FirstReception(c, ru, ts);
    var first := Received(c, ru, ts);
    if CrossesCycle(c, t) {
      SecondReceptionExits(c, first, timestamps[0]);
      ExitIsFinal(c, Received(c, Tick(c, first), timestamps[0]), timestamps[1..]);
    } else {
      ReceptionsStayOnGrid(c, first, AlignedSlot(c, t), timestamps);
    }
  }

  /** Such a first sample exists for every clock: one sample into the last slot of the cycle. */
  lemma CycleIsCrossed(c: Clock, ru: Ru, ts: int, timestamps: seq<int>)
    requires c.Valid() && ru.firstRx && !ru.exited && timestamps != []
    requires 2 <= c.length(FRAME_CYCLE * c.SlotsPerFrame() - 1)
    requires ts == ru.tsOffset + c.timestamp(FRAME_CYCLE * c.SlotsPerFrame() - 1) + 1
    ensures ru.tsOffset <= ts && CrossesCycle(c, ts - ru.tsOffset)
    ensures AfterReceptions(c, Received(c, ru, ts), timestamps).exited
  {
    var n := c.SlotsPerFrame();
    var k := FRAME_CYCLE * n - 1;
    TimestampMonotone(c, 0, k);
    assert c.RunningSumAt(k);
    FrameAndSlotOf(c, k, c.timestamp(k) + 1);
    DivModUnique(FRAME_CYCLE - 1, n - 1, n);
    assert k == (FRAME_CYCLE - 1) * n + (n - 1);
    var t := ts - ru.tsOffset;
    assert k / n == FRAME_CYCLE - 1 && k % n == n - 1;
    assert SlotHolding(c, t) == k && t != c.timestamp(k);
    assert CrossesCycle(c, t);
    MismatchExits(c, ru, ts, timestamps);
  }

  lemma SecondReceptionExits(c: Clock, ru: Ru, ts: int)
    requires c.Valid() && !ru.firstRx && ru.frame == FRAME_CYCLE && ru.slot == 0
    ensures Received(c, Tick(c, ru), ts).exited
  {
  }

  // -------------------------------------------------------------------------------------------
  // Transmission
  // -------------------------------------------------------------------------------------------

  function FrameTx(frameRx: int, ttiRx: int, ttiTx: int): int {
    if ttiRx > ttiTx then (frameRx + 1) % FRAME_CYCLE else frameRx
  }

  /** timestamp_tx: the lengths of the slots ahead, added to the reception timestamp. */
  function TimestampAhead(c: Clock, ru: Ru, ahead: nat): int
    requires c.Valid()
  {
    if ahead == 0 then ru.timestampRx
    else TimestampAhead(c, ru, ahead - 1) + c.length((ru.ttiRx + ahead - 1) % c.SlotsPerFrame())
  }

  method TimestampTx(c: Clock, ru: Ru, ahead: nat) returns (timestampTx: int)
    requires c.Valid()
    ensures timestampTx == TimestampAhead(c, ru, ahead)
  {
    timestampTx := ru.timestampRx;
    for i := ru.ttiRx to ru.ttiRx + ahead
      invariant timestampTx == TimestampAhead(c, ru, i - ru.ttiRx)
    {
      timestampTx := timestampTx + c.length(i % c.SlotsPerFrame());
    }
  }

  /** It is the start of the slot `ahead` slots after the one received, across frames. */
  lemma {:induction false} TransmitAtSlotStart(c: Clock, ru: Ru, k: nat, ahead: nat)
    requires c.Valid() && OnGrid(c, ru, k) && Numbered(c, ru, k)
    ensures TimestampAhead(c, ru, ahead) == c.timestamp(k + ahead)
  {
    if ahead != 0 {
      TransmitAtSlotStart(c, ru, k, ahead - 1);
      assert c.RunningSumAt(k + ahead - 1);
      SplitByFrame(c, k + ahead - 1);
      ModOfSum(k, ahead - 1, c.SlotsPerFrame());
    }
  }

  /**
   The transmit slot number is right for any lead; the transmit frame number is right exactly when the lead is
   less than a frame (up to whole frame cycles).
   */
  lemma TransmitNumbers(c: Clock, ru: Ru, k: nat, ahead: nat)
    requires c.Valid() && Numbered(c, ru, k)
    ensures var n := c.SlotsPerFrame();
      var ttiTx := (ru.ttiRx + ahead) % n;
      && ttiTx == (k + ahead) % n
      && (FrameTx(ru.frameRx, ru.ttiRx, ttiTx) == ((k + ahead) / n) % FRAME_CYCLE <==> (ahead / n) % FRAME_CYCLE == 0)
  {
    TransmitArithmetic(c.SlotsPerFrame(), k, ahead);
  }

  lemma TransmitArithmetic(n: nat, k: nat, ahead: nat)
    requires 0 < n
    ensures (k % n + ahead) % n == (k + ahead) % n
    ensures FrameTx((k / n) % FRAME_CYCLE, k % n, (k + ahead) % n) == ((k + ahead) / n) % FRAME_CYCLE
      <==> (ahead / n) % FRAME_CYCLE == 0
  {
    SumOfSlots(n, k, ahead);
    FrameOfSum(n, k / n, ahead / n, k % n, ahead % n, (k + ahead) / n, (k + ahead) % n);
  }

  lemma FrameOfSum(n: nat, frame: nat, q: nat, tti: nat, r: nat, frameTx: nat, ttiTx: nat)
    requires tti < n && r < n
    requires frameTx == frame + q + (if tti + r < n then 0 else 1)
    requires ttiTx == if tti + r < n then tti + r else tti + r - n
    ensures FrameTx(frame % FRAME_CYCLE, tti, ttiTx) == frameTx % FRAME_CYCLE <==> q % FRAME_CYCLE == 0
  {
    FrameCycle(frame, q, if tti + r < n then 0 else 1);
  }

  lemma SumOfSlots(n: nat, k: nat, ahead: nat)
    requires 0 < n
    ensures (k % n + ahead) % n == (k + ahead) % n
    ensures var sum := k % n + ahead % n;
      && (k + ahead) / n == k / n + ahead / n + (if sum < n then 0 else 1)
      && (k + ahead) % n == if sum < n then sum else sum - n
  {
    SumOfParts(n, k / n, k % n, ahead / n, ahead % n, k + ahead);
    SumOfParts(n, 0, k % n, ahead / n, ahead % n, k % n + ahead);
  }

  lemma SumOfParts(n: nat, q1: int, r1: nat, q2: int, r2: nat, total: int)
    requires r1 < n && r2 < n && total == q1 * n + r1 + (q2 * n + r2)
    ensures total / n == q1 + q2 + (if r1 + r2 < n then 0 else 1)
    ensures total % n == if r1 + r2 < n then r1 + r2 else r1 + r2 - n
  {
    assert (q1 + q2) * n == q1 * n + q2 * n;
    if r1 + r2 < n {
      DivModUnique(q1 + q2, r1 + r2, n);
    } else {
      assert (q1 + q2 + 1) * n == (q1 + q2) * n + n;
      DivModUnique(q1 + q2 + 1, r1 + r2 - n, n);
    }
  }

  lemma FrameCycle(frame: nat, q: nat, carry: nat)
    ensures (frame % FRAME_CYCLE + carry) % FRAME_CYCLE == (frame + q + carry) % FRAME_CYCLE <==> q % FRAME_CYCLE == 0
  {
  }

  /** The next iteration transmits where this one ends, whatever timestamp the device returns in between. */
  lemma TransmitSlotsAbut(c: Clock, ru: Ru, k: nat, ahead: nat, ts: int)
    requires c.Valid() && OnGrid(c, ru, k) && Numbered(c, ru, k)
    ensures TimestampAhead(c, Received(c, Tick(c, ru), ts), ahead)
      == TimestampAhead(c, ru, ahead) + c.length((ru.ttiRx + ahead) % c.SlotsPerFrame())
  {
    NextReception(c, ru, k, ts);
    TransmitAtSlotStart(c, Received(c, Tick(c, ru), ts), k + 1, ahead);
    TransmitAtSlotStart(c, ru, k, ahead + 1);
    TransmitAtSlotStart(c, ru, k, ahead);
  }
}
