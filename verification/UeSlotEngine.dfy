/**
 Sample accounting of the NR UE slot loop (executables/nr-ue.c, UE_thread and RU_write).

 Each iteration reads one slot from a contiguous device and schedules one block of uplink samples
 `duration` slots later. Timing advance, N_TA offset and drift shift may change at every slot; the
 results here say that the uplink blocks nevertheless tile the time line.
 */
module UeSlotEngine {
  import opened CInts
  import opened Options
  import opened SlotClock

  /** The loop variables of UE_thread; `rxPosition` is the timestamp the next device read returns. */
  datatype Ue = Ue(
    absoluteSlot: nat,
    rxPosition: int,
    timingAdvance: int,
    nTaOffset: int,
    shiftForNextFrame: int
  )

  /** What the rest of the UE decides during one slot. */
  datatype SlotInput = SlotInput(
    timingAdvance: int,           // UE->timing_advance + UE->timing_advance_ntn
    nTaOffset: int,               // determine_N_TA_offset
    driftShift: int,              // -round(max_pos_acc * time_sync_I)
    measuredShift: Option<int>    // UE_dl_preprocessing, None for INT_MAX
  )

  datatype Block = Block(timestamp: int, size: int)

  // -------------------------------------------------------------------------------------------
  // What one slot does
  // -------------------------------------------------------------------------------------------

  function NextSlot(c: Clock, ue: Ue): nat
    requires c.Valid()
  {
    (ue.absoluteSlot + 1) % c.SlotsPerFrame()
  }

  /** Drift shift applied while the next slot is read: only the last slot of a frame is shortened. */
  function Shift(c: Clock, ue: Ue): int
    requires c.Valid()
  {
    if NextSlot(c, ue) == c.SlotsPerFrame() - 1 then ue.shiftForNextFrame else 0
  }

  /** Device time at which the next slot begins; its first symbol has been read already. */
  function RxSlotStart(c: Clock, ue: Ue): int
    requires c.Valid()
  {
    ue.rxPosition - c.firstSymbol(NextSlot(c, ue))
  }

  /** Timestamp of the next uplink block. */
  function WriteCursor(c: Clock, duration: nat, ue: Ue): int
    requires c.Valid()
  {
    RxSlotStart(c, ue) + c.Duration(NextSlot(c, ue), duration) - ue.nTaOffset - ue.timingAdvance
  }

  /** Length of the uplink slot scheduled now, less the drift shift. */
  function NetLength(c: Clock, duration: nat, ue: Ue): int
    requires c.Valid()
  {
    c.length((NextSlot(c, ue) + duration) % c.SlotsPerFrame()) - Shift(c, ue)
  }

  /** Block size before it is clamped at zero. */
  function WantedSize(c: Clock, duration: nat, ue: Ue, input: SlotInput): int
    requires c.Valid()
  {
    NetLength(c, duration, ue) - (input.timingAdvance - ue.timingAdvance) - (input.nTaOffset - ue.nTaOffset)
  }

  function BlockOf(c: Clock, duration: nat, ue: Ue, input: SlotInput): Block
    requires c.Valid()
  {
    Block(WriteCursor(c, duration, ue), Max(0, WantedSize(c, duration, ue, input)))
  }

  function AfterSlot(c: Clock, duration: nat, ue: Ue, input: SlotInput): Ue
    requires c.Valid()
  {
    var slot := NextSlot(c, ue);
    Ue(ue.absoluteSlot + 1,
       RxSlotStart(c, ue) + c.length(slot) - Shift(c, ue) + c.firstSymbol((slot + 1) % c.SlotsPerFrame()),
       input.timingAdvance + Min(0, WantedSize(c, duration, ue, input)),
       input.nTaOffset,
       if input.measuredShift.Some? then input.measuredShift.value
       else if slot == c.SlotsPerFrame() - 1 then input.driftShift
       else ue.shiftForNextFrame)
  }

  /** The slot loop itself, variable by variable as UE_thread updates them. */
  class UeThread {
    var absoluteSlot: nat
    var rxPosition: int
    var timingAdvance: int
    var nTaOffset: int
    var shiftForNextFrame: int

    function View(): Ue
      reads this
    {
      Ue(absoluteSlot, rxPosition, timingAdvance, nTaOffset, shiftForNextFrame)
    }

    constructor (ue: Ue)
      ensures View() == ue
    {
      absoluteSlot, rxPosition := ue.absoluteSlot, ue.rxPosition;
      timingAdvance, nTaOffset := ue.timingAdvance, ue.nTaOffset;
      shiftForNextFrame := ue.shiftForNextFrame;
    }

    /** A device read returns the position of its first sample. */
    method Read(samples: int) returns (timestamp: int)
      modifies this`rxPosition
      ensures timestamp == old(rxPosition) && rxPosition == old(rxPosition) + samples
    {
      timestamp := rxPosition;
      rxPosition := rxPosition + samples;
    }

    /** The reads of one slot: up to the first symbol of the next one, which may be in the next frame. */
    method ReadSlot(c: Clock, slot: nat, shift: int) returns (timestamp: int)
      requires c.Valid() && slot < c.SlotsPerFrame()
      modifies this`rxPosition
      ensures timestamp == old(rxPosition)
      ensures rxPosition == old(rxPosition) - c.firstSymbol(slot) + c.length(slot) - shift
                            + c.firstSymbol((slot + 1) % c.SlotsPerFrame())
    {
      NextInBlock(slot, c.SlotsPerFrame());
      DivModUnique(0, slot, c.SlotsPerFrame());
      // get_readBlockSize
      var size := c.length(slot) - c.firstSymbol(slot);
      if slot < c.SlotsPerFrame() - 1 {
        size := size + c.firstSymbol(slot + 1);
      }
      timestamp := Read(size - shift);
      if slot == c.SlotsPerFrame() - 1 {
        var ignored := Read(c.firstOfFrame);
      }
    }

    /** Size of the uplink block; what cannot be taken from it stays in timingAdvance. */
    method SizeBlock(length: int, input: SlotInput) returns (size: int)
      modifies this`timingAdvance, this`nTaOffset
      ensures var wanted := length - (input.timingAdvance - old(timingAdvance)) - (input.nTaOffset - old(nTaOffset));
        && size == Max(0, wanted)
        && timingAdvance == input.timingAdvance + Min(0, wanted)
        && nTaOffset == input.nTaOffset
    {
      size := length;
      if input.timingAdvance != timingAdvance {
        size := size - (input.timingAdvance - timingAdvance);
        timingAdvance := input.timingAdvance;
      }
      if input.nTaOffset != nTaOffset {
        size := size - (input.nTaOffset - nTaOffset);
        nTaOffset := input.nTaOffset;
      }
      if size < 0 {
        timingAdvance := timingAdvance + size;
        size := 0;
      }
    }

    /** The drift shift is applied in the last slot of a frame, and measured anew for the next one. */
    method TakeShift(last: bool, driftShift: int) returns (shift: int)
      modifies this`shiftForNextFrame
      ensures shift == if last then old(shiftForNextFrame) else 0
      ensures shiftForNextFrame == if last then driftShift else old(shiftForNextFrame)
    {
      shift := 0;
      if last {
        shift := shiftForNextFrame;
        shiftForNextFrame := driftShift;
      }
    }

    method ProcessSlot(c: Clock, duration: nat, input: SlotInput) returns (block: Block)
      requires c.Valid()
      modifies this
      ensures View() == AfterSlot(c, duration, old(View()), input)
      ensures block == BlockOf(c, duration, old(View()), input)
    {
      ghost var ue := View();
      absoluteSlot := absoluteSlot + 1;
      var slot := absoluteSlot % c.SlotsPerFrame();
      var shift := TakeShift(slot == c.SlotsPerFrame() - 1, input.driftShift);
      assert slot == NextSlot(c, ue) && shift == Shift(c, ue);
      var rxTimestamp := ReadSlot(c, slot, shift);
      var writeTimestamp := rxTimestamp + c.Duration(slot, duration) - c.firstSymbol(slot) - nTaOffset - timingAdvance;
      assert writeTimestamp == WriteCursor(c, duration, ue);
      var length := c.length((slot + duration) % c.SlotsPerFrame()) - shift;
      assert length == NetLength(c, duration, ue);
      var size := SizeBlock(length, input);
      if input.measuredShift.Some? {
        shiftForNextFrame := input.measuredShift.value;
      }
      block := Block(writeTimestamp, size);
    }
  }

  // -------------------------------------------------------------------------------------------
  // RU_write
  // -------------------------------------------------------------------------------------------

  /** Consecutive non-empty blocks that cover exactly the samples from `from` to `to`. */
  ghost predicate Tiles(blocks: seq<Block>, from: int, to: int) {
    if blocks == [] then from == to
    else
      && 0 < blocks[0].size
      && blocks[0].timestamp == from
      && Tiles(blocks[1..], from + blocks[0].size, to)
  }

  ghost predicate NoLongerThan(blocks: seq<Block>, limit: int) {
    forall i :: 0 <= i < |blocks| ==> blocks[i].size <= limit
  }

  /** The splitting loop: writes of at most one slot that together are the block; none at all for an empty block. */
  method RuWrite(block: Block, slotLength: nat) returns (chunks: seq<Block>)
    requires 0 <= block.size && 0 < slotLength
    ensures Tiles(chunks, block.timestamp, block.timestamp + block.size)
    ensures NoLongerThan(chunks, slotLength)
    ensures block.size == 0 <==> chunks == []
  {
    chunks := [];
    if block.size == 0 {
      return;
    }
    var timestamp, size := block.timestamp, block.size;
    while slotLength < size
      invariant 0 < size
      invariant timestamp + size == block.timestamp + block.size
      invariant Tiles(chunks, block.timestamp, timestamp)
      invariant NoLongerThan(chunks, slotLength)
    {
      var dummy := Min(size - slotLength, slotLength);
      TilesAppend(chunks, [Block(timestamp, dummy)], block.timestamp, timestamp, timestamp + dummy);
      chunks := chunks + [Block(timestamp, dummy)];
      timestamp := timestamp + dummy;
      size := size - dummy;
    }
    TilesAppend(chunks, [Block(timestamp, size)], block.timestamp, timestamp, timestamp + size);
    chunks := chunks + [Block(timestamp, size)];
  }

  lemma {:induction false} TilesAppend(left: seq<Block>, right: seq<Block>, from: int, mid: int, to: int)
    requires Tiles(left, from, mid) && Tiles(right, mid, to)
    ensures Tiles(left + right, from, to)
  {
    if left == [] {
      assert left + right == right;
    } else {
      assert (left + right)[1..] == left[1..] + right;
      TilesAppend(left[1..], right, from + left[0].size, mid, to);
    }
  }

  // -------------------------------------------------------------------------------------------
  // Whole runs between two resynchronisations
  // -------------------------------------------------------------------------------------------

  function AfterRun(c: Clock, duration: nat, ue: Ue, inputs: seq<SlotInput>): Ue
    requires c.Valid()
    decreases inputs
  {
    if inputs == [] then ue else AfterRun(c, duration, AfterSlot(c, duration, ue, inputs[0]), inputs[1..])
  }

  /** The device writes of a run are those of its slots, each split into pieces of at most one uplink slot. */
  ghost predicate WritesOf(c: Clock, duration: nat, ue: Ue, inputs: seq<SlotInput>, writes: seq<seq<Block>>)
    requires c.Valid()
    decreases inputs
  {
    && |writes| == |inputs|
    && (inputs != [] ==>
          && var b := BlockOf(c, duration, ue, inputs[0]);
          && Tiles(writes[0], b.timestamp, b.timestamp + b.size)
          && NoLongerThan(writes[0], c.length((NextSlot(c, ue) + duration) % c.SlotsPerFrame()))
          && WritesOf(c, duration, AfterSlot(c, duration, ue, inputs[0]), inputs[1..], writes[1..]))
  }

  function Flatten(writes: seq<seq<Block>>): seq<Block> {
    if writes == [] then [] else writes[0] + Flatten(writes[1..])
  }

  /** One slot later, sample durations and lengths ahead of the slot have moved by one slot. */
  lemma DurationStep(c: Clock, slot: nat, duration: nat)
    requires c.Valid() && slot < c.SlotsPerFrame()
    ensures c.Duration((slot + 1) % c.SlotsPerFrame(), duration)
      == c.Duration(slot, duration) - c.length(slot) + c.length((slot + duration) % c.SlotsPerFrame())
  {
    var n := c.SlotsPerFrame();
    assert c.RunningSumAt(slot) && c.RunningSumAt(slot + duration);
    SplitByFrame(c, slot + duration);
    NextInBlock(slot, n);
    DivModUnique(0, slot, n);
    if slot == n - 1 {
      assert c.PeriodicAt(SUBFRAMES_PER_FRAME, 0) && c.PeriodicAt(SUBFRAMES_PER_FRAME, duration);
    }
  }

  /** A slot's block ends where the next slot's block begins, clamped or not. */
  lemma BlocksAbut(c: Clock, duration: nat, ue: Ue, input: SlotInput)
    requires c.Valid()
    ensures WriteCursor(c, duration, AfterSlot(c, duration, ue, input))
      == WriteCursor(c, duration, ue) + BlockOf(c, duration, ue, input).size
  {
    var n := c.SlotsPerFrame();
    var slot := NextSlot(c, ue);
    NextInBlock(ue.absoluteSlot + 1, n);
    DurationStep(c, slot, duration);
  }

  /**
   However the timing changes, the writes of a whole run tile the time line without gap or overlap, and none is
   longer than the longest slot.
   */
  lemma {:induction false} UplinkTiles(c: Clock, duration: nat, ue: Ue, inputs: seq<SlotInput>, writes: seq<seq<Block>>,
                                       longest: int)
    requires c.Valid() && WritesOf(c, duration, ue, inputs, writes)
    requires forall slot: nat :: c.length(slot) <= longest
    ensures NoLongerThan(Flatten(writes), longest)
    ensures Tiles(Flatten(writes), WriteCursor(c, duration, ue), WriteCursor(c, duration, AfterRun(c, duration, ue, inputs)))
    decreases inputs
  {
    if inputs != [] {
      var next := AfterSlot(c, duration, ue, inputs[0]);
      BlocksAbut(c, duration, ue, inputs[0]);
      UplinkTiles(c, duration, next, inputs[1..], writes[1..], longest);
      TilesAppend(writes[0], Flatten(writes[1..]), WriteCursor(c, duration, ue), WriteCursor(c, duration, next),
                  WriteCursor(c, duration, AfterRun(c, duration, ue, inputs)));
    }
  }

  function TotalShift(c: Clock, duration: nat, ue: Ue, inputs: seq<SlotInput>): int
    requires c.Valid()
    decreases inputs
  {
    if inputs == [] then 0
    else Shift(c, ue) + TotalShift(c, duration, AfterSlot(c, duration, ue, inputs[0]), inputs[1..])
  }

  /** Reception stays on the slot grid, displaced by exactly the drift shifts applied. */
  lemma {:induction false} ReceptionFollowsGrid(c: Clock, duration: nat, ue: Ue, inputs: seq<SlotInput>)
    requires c.Valid()
    ensures AfterRun(c, duration, ue, inputs).absoluteSlot == ue.absoluteSlot + |inputs|
    ensures RxSlotStart(c, AfterRun(c, duration, ue, inputs)) == RxSlotStart(c, ue)
      + c.timestamp(ue.absoluteSlot + 1 + |inputs|) - c.timestamp(ue.absoluteSlot + 1)
      - TotalShift(c, duration, ue, inputs)
    decreases inputs
  {
    if inputs != [] {
      var next := AfterSlot(c, duration, ue, inputs[0]);
      NextInBlock(ue.absoluteSlot + 1, c.SlotsPerFrame());
      SplitByFrame(c, ue.absoluteSlot + 1);
      assert c.RunningSumAt(ue.absoluteSlot + 1);
      ReceptionFollowsGrid(c, duration, next, inputs[1..]);
    }
  }

  // -------------------------------------------------------------------------------------------
  // Where blocks lie
  // -------------------------------------------------------------------------------------------

  /** The uplink block of a received slot lies `duration` slots after that slot on the grid, earlier by both advances. */
  lemma BlockLiesOnGrid(c: Clock, duration: nat, ue: Ue, input: SlotInput)
    requires c.Valid()
    ensures var a := ue.absoluteSlot + 1;
      BlockOf(c, duration, ue, input).timestamp + ue.nTaOffset + ue.timingAdvance - (ue.rxPosition - c.firstSymbol(a))
      == c.timestamp(a + duration) - c.timestamp(a)
  {
    var a := ue.absoluteSlot + 1;
    var q, r := DivMod(a, c.SlotsPerFrame());
    FramesLater(c, q, r, a, q * c.SamplesPerFrame());
    FramesLater(c, q, r + duration, a + duration, q * c.SamplesPerFrame());
  }

  /** Over any run, every block starts at the grid time of its slot, counted from the slot the run began with. */
  lemma RunLiesOnGrid(c: Clock, duration: nat, ue: Ue, inputs: seq<SlotInput>, input: SlotInput)
    requires c.Valid()
    ensures var start, a, after := ue.absoluteSlot + 1, ue.absoluteSlot + 1 + |inputs|, AfterRun(c, duration, ue, inputs);
      BlockOf(c, duration, after, input).timestamp == ue.rxPosition - c.firstSymbol(start)
        + c.timestamp(a + duration) - c.timestamp(start)
        - TotalShift(c, duration, ue, inputs) - after.nTaOffset - after.timingAdvance
  {
    var after := AfterRun(c, duration, ue, inputs);
    ReceptionFollowsGrid(c, duration, ue, inputs);
    BlockLiesOnGrid(c, duration, after, input);
    SplitByFrame(c, ue.absoluteSlot + 1);
    SplitByFrame(c, after.absoluteSlot + 1);
  }

  /** The last shift measured in a sequence of slots, or the one in force before. */
  function LatestMeasured(shift: int, inputs: seq<SlotInput>): int {
    if inputs == [] then shift
    else
      var last := inputs[|inputs| - 1];
      if last.measuredShift.Some? then last.measuredShift.value else LatestMeasured(shift, inputs[..|inputs| - 1])
  }

  lemma {:induction false} LatestMeasuredFirst(shift: int, inputs: seq<SlotInput>)
    requires inputs != []
    ensures LatestMeasured(shift, inputs)
      == LatestMeasured(if inputs[0].measuredShift.Some? then inputs[0].measuredShift.value else shift, inputs[1..])
  {
    if 1 < |inputs| {
      LatestMeasuredFirst(shift, inputs[..|inputs| - 1]);
      assert inputs[1..][..|inputs| - 2] == inputs[..|inputs| - 1][1..];
    }
  }

  /** Inside a frame nothing is shifted, and the latest measurement is kept. */
  lemma {:induction false} NoShiftInsideFrame(c: Clock, duration: nat, ue: Ue, inputs: seq<SlotInput>)
    requires c.Valid() && NextSlot(c, ue) + |inputs| < c.SlotsPerFrame()
    ensures TotalShift(c, duration, ue, inputs) == 0
    ensures AfterRun(c, duration, ue, inputs).shiftForNextFrame == LatestMeasured(ue.shiftForNextFrame, inputs)
    ensures NextSlot(c, AfterRun(c, duration, ue, inputs)) == NextSlot(c, ue) + |inputs|
    decreases inputs
  {
    if inputs != [] {
      NextInBlock(ue.absoluteSlot + 1, c.SlotsPerFrame());
      LatestMeasuredFirst(ue.shiftForNextFrame, inputs);
      NoShiftInsideFrame(c, duration, AfterSlot(c, duration, ue, inputs[0]), inputs[1..]);
    }
  }

  lemma {:induction false} RunThenSlot(c: Clock, duration: nat, ue: Ue, inputs: seq<SlotInput>, last: SlotInput)
    requires c.Valid()
    ensures var before := AfterRun(c, duration, ue, inputs);
      && AfterRun(c, duration, ue, inputs + [last]) == AfterSlot(c, duration, before, last)
      && TotalShift(c, duration, ue, inputs + [last]) == TotalShift(c, duration, ue, inputs) + Shift(c, before)
    decreases inputs
  {
    var all := inputs + [last];
    if inputs == [] {
      assert all == [last] && all[1..] == [];
    } else {
      assert all[1..] == inputs[1..] + [last];
      RunThenSlot(c, duration, AfterSlot(c, duration, ue, inputs[0]), inputs[1..], last);
    }
  }

  /**
   Each frame is shifted once, by the last measurement before its last slot, or else by what the previous frame left; the
   last slot leaves its own measurement, or else the drift shift.
   */
  lemma FrameIsShiftedOnce(c: Clock, duration: nat, ue: Ue, inputs: seq<SlotInput>, last: SlotInput)
    requires c.Valid() && (ue.absoluteSlot + 1) % c.SlotsPerFrame() == 0 && |inputs| + 1 == c.SlotsPerFrame()
    ensures TotalShift(c, duration, ue, inputs + [last]) == LatestMeasured(ue.shiftForNextFrame, inputs)
    ensures AfterRun(c, duration, ue, inputs + [last]).shiftForNextFrame
      == if last.measuredShift.Some? then last.measuredShift.value else last.driftShift
  {
    NoShiftInsideFrame(c, duration, ue, inputs);
    RunThenSlot(c, duration, ue, inputs, last);
  }

  // -------------------------------------------------------------------------------------------
  // Timing-advance debt left by the clamp
  // -------------------------------------------------------------------------------------------

  ghost predicate Fixed(ue: Ue, inputs: seq<SlotInput>, timingAdvance: int) {
    forall i :: 0 <= i < |inputs| ==> inputs[i].timingAdvance == timingAdvance && inputs[i].nTaOffset == ue.nTaOffset
  }

  ghost predicate NetAtLeast(c: Clock, duration: nat, ue: Ue, inputs: seq<SlotInput>, least: int)
    requires c.Valid()
    decreases inputs
  {
    inputs != [] ==>
      && least <= NetLength(c, duration, ue)
      && NetAtLeast(c, duration, AfterSlot(c, duration, ue, inputs[0]), inputs[1..], least)
  }

  ghost function TotalNet(c: Clock, duration: nat, ue: Ue, inputs: seq<SlotInput>): int
    requires c.Valid()
    decreases inputs
  {
    if inputs == [] then 0
    else NetLength(c, duration, ue) + TotalNet(c, duration, AfterSlot(c, duration, ue, inputs[0]), inputs[1..])
  }

  /** While the request stays fixed, each slot pays its net length and the debt stops at zero. */
  lemma {:induction false} DebtAfterRun(c: Clock, duration: nat, ue: Ue, inputs: seq<SlotInput>, requested: int)
    requires c.Valid() && Fixed(ue, inputs, requested) && NetAtLeast(c, duration, ue, inputs, 0)
    requires ue.timingAdvance <= requested
    ensures 0 <= TotalNet(c, duration, ue, inputs)
    ensures requested - AfterRun(c, duration, ue, inputs).timingAdvance
      == Max(0, requested - ue.timingAdvance - TotalNet(c, duration, ue, inputs))
    decreases inputs
  {
    if inputs != [] {
      var next := AfterSlot(c, duration, ue, inputs[0]);
      assert next.nTaOffset == ue.nTaOffset;
      DebtAfterRun(c, duration, next, inputs[1..], requested);
    }
  }

  /** With every slot at least `least` samples long, a debt is gone after debt/least slots. */
  lemma DebtIsPaid(c: Clock, duration: nat, ue: Ue, inputs: seq<SlotInput>, requested: int, least: nat)
    requires c.Valid() && Fixed(ue, inputs, requested)
    requires 0 < least && NetAtLeast(c, duration, ue, inputs, least)
    requires ue.timingAdvance <= requested <= ue.timingAdvance + |inputs| * least
    ensures AfterRun(c, duration, ue, inputs).timingAdvance == requested
  {
    TotalNetAtLeast(c, duration, ue, inputs, least);
    NetWeaken(c, duration, ue, inputs, least);
    DebtAfterRun(c, duration, ue, inputs, requested);
  }

  lemma {:induction false} TotalNetAtLeast(c: Clock, duration: nat, ue: Ue, inputs: seq<SlotInput>, least: int)
    requires c.Valid() && NetAtLeast(c, duration, ue, inputs, least)
    ensures |inputs| * least <= TotalNet(c, duration, ue, inputs)
    decreases inputs
  {
    if inputs != [] {
      TotalNetAtLeast(c, duration, AfterSlot(c, duration, ue, inputs[0]), inputs[1..], least);
      OneMore(|inputs[1..]|, least);
    }
  }

  lemma {:induction false} NetWeaken(c: Clock, duration: nat, ue: Ue, inputs: seq<SlotInput>, least: nat)
    requires c.Valid() && NetAtLeast(c, duration, ue, inputs, least)
    ensures NetAtLeast(c, duration, ue, inputs, 0)
    decreases inputs
  {
    if inputs != [] {
      NetWeaken(c, duration, AfterSlot(c, duration, ue, inputs[0]), inputs[1..], least);
    }
  }
}
