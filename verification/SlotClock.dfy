/**
 The time grid the schedulers run on. A clock gives every slot a length in samples; the lengths repeat
 with the subframe, and slot timestamps are their running sum. `FrameParms.ClockIsValid` shows that the
 program's own sample functions form such a clock for every numerology.
 */
module SlotClock {
  import opened CInts

  const SUBFRAMES_PER_FRAME := 10

  datatype Clock = Clock(
    slotsPerSubframe: nat,
    samplesPerSubframe: nat,
    length: int -> nat,         // get_samples_per_slot
    timestamp: nat -> int,      // get_samples_slot_timestamp
    slotOf: int -> int,         // get_slot_from_timestamp
    firstSymbol: nat -> nat,    // get_firstSymSamp
    firstOfFrame: nat           // ofdm_symbol_size + nb_prefix_samples0
  ) {
    function SlotsPerFrame(): nat {
      SUBFRAMES_PER_FRAME * slotsPerSubframe
    }

    function SamplesPerFrame(): nat {
      SUBFRAMES_PER_FRAME * samplesPerSubframe
    }

    /** get_samples_slot_duration. */
    function Duration(start: nat, count: nat): int {
      if start == 0 && count == 0 then 0 else timestamp(start + count) - timestamp(start)
    }

    ghost predicate RunningSumAt(slot: nat) {
      timestamp(slot + 1) == timestamp(slot) + length(slot) && 0 < length(slot)
    }

    ghost predicate PeriodicAt(subframes: nat, slot: nat) {
      MulLe(0, subframes, slotsPerSubframe);
      && timestamp(subframes * slotsPerSubframe + slot) == subframes * samplesPerSubframe + timestamp(slot)
      && length(subframes * slotsPerSubframe + slot) == length(slot)
      && firstSymbol(subframes * slotsPerSubframe + slot) == firstSymbol(slot)
    }

    ghost predicate FoundAt(ts: nat)
      requires 0 < samplesPerSubframe
    {
      && 0 <= slotOf(ts)
      && timestamp(slotOf(ts)) <= ts % SamplesPerFrame() < timestamp(slotOf(ts) + 1)
    }

    ghost predicate Valid() {
      && 0 < slotsPerSubframe && 0 < samplesPerSubframe
      && timestamp(0) == 0
      && length(-1) == length(SlotsPerFrame() - 1)
      && firstSymbol(0) == firstOfFrame
      && (forall slot: nat :: RunningSumAt(slot))
      && (forall subframes: nat, slot: nat :: PeriodicAt(subframes, slot))
      && (forall ts: nat :: FoundAt(ts))
    }
  }

  lemma {:induction false} TimestampMonotone(c: Clock, a: nat, b: nat)
    requires c.Valid() && a <= b
    ensures c.timestamp(a) + (b - a) <= c.timestamp(b)
    decreases b - a
  {
    if a < b {
      assert c.RunningSumAt(a);
      TimestampMonotone(c, a + 1, b);
    }
  }

  lemma FramesToSubframes(frames: int, perSubframe: int)
    ensures (SUBFRAMES_PER_FRAME * frames) * perSubframe == frames * (SUBFRAMES_PER_FRAME * perSubframe)
  {
  }

  /** A frame later every timestamp is one frame of samples later, and lengths repeat. */
  lemma FramePeriodic(c: Clock, frames: nat, slot: nat)
    requires c.Valid()
    ensures 0 <= frames * c.SlotsPerFrame()
    ensures c.timestamp(frames * c.SlotsPerFrame() + slot) == frames * c.SamplesPerFrame() + c.timestamp(slot)
    ensures c.length(frames * c.SlotsPerFrame() + slot) == c.length(slot)
    ensures c.firstSymbol(frames * c.SlotsPerFrame() + slot) == c.firstSymbol(slot)
  {
    assert c.PeriodicAt(SUBFRAMES_PER_FRAME * frames, slot);
    FramesToSubframes(frames, c.slotsPerSubframe);
    FramesToSubframes(frames, c.samplesPerSubframe);
    MulLe(0, frames, c.SlotsPerFrame());
  }

  lemma WithinFrame(c: Clock, slot: nat)
    requires c.Valid() && slot < c.SlotsPerFrame()
    ensures 0 <= c.timestamp(slot) < c.SamplesPerFrame()
  {
    TimestampMonotone(c, 0, slot);
    TimestampMonotone(c, slot, c.SlotsPerFrame());
    FramePeriodic(c, 1, 0);
  }

  /** The same for a slot `later`, given as so many frames and a slot after them. */
  lemma FramesLater(c: Clock, frames: nat, slot: nat, later: nat, samples: int)
    requires c.Valid() && later == frames * c.SlotsPerFrame() + slot && samples == frames * c.SamplesPerFrame()
    ensures c.timestamp(later) == samples + c.timestamp(slot)
    ensures c.length(later) == c.length(slot) && c.firstSymbol(later) == c.firstSymbol(slot)
  {
    FramePeriodic(c, frames, slot);
  }

  /** Timestamps and lengths of a slot, from its frame number and its slot number within the frame. */
  lemma SplitByFrame(c: Clock, slot: nat)
    requires c.Valid()
    ensures c.timestamp(slot) == (slot / c.SlotsPerFrame()) * c.SamplesPerFrame() + c.timestamp(slot % c.SlotsPerFrame())
    ensures 0 <= c.timestamp(slot % c.SlotsPerFrame()) < c.SamplesPerFrame()
    ensures c.length(slot) == c.length(slot % c.SlotsPerFrame())
    ensures c.firstSymbol(slot) == c.firstSymbol(slot % c.SlotsPerFrame())
  {
    var n := c.SlotsPerFrame();
    var q, r := DivMod(slot, n);
    FramesLater(c, q, r, slot, q * c.SamplesPerFrame());
    WithinFrame(c, r);
  }

  /** slotOf finds the slot holding a timestamp, and that slot only. */
  lemma SlotOfInverts(c: Clock, ts: nat, slot: nat)
    requires c.Valid()
    ensures c.slotOf(ts) == slot <==> c.timestamp(slot) <= ts % c.SamplesPerFrame() < c.timestamp(slot + 1)
  {
    assert c.FoundAt(ts);
    if slot < c.slotOf(ts) {
      TimestampMonotone(c, slot + 1, c.slotOf(ts));
    } else if c.slotOf(ts) < slot {
      TimestampMonotone(c, c.slotOf(ts) + 1, slot);
    }
  }

  /** Any timestamp within a slot gives back the frame and the slot. */
  lemma FrameAndSlotOf(c: Clock, slot: nat, ts: int)
    requires c.Valid()
    requires c.timestamp(slot) <= ts < c.timestamp(slot + 1)
    ensures 0 <= ts
    ensures CDiv(ts, c.SamplesPerFrame()) == slot / c.SlotsPerFrame()
    ensures c.slotOf(ts) == slot % c.SlotsPerFrame()
    ensures ts % c.SamplesPerFrame() - c.timestamp(slot % c.SlotsPerFrame()) == ts - c.timestamp(slot)
  {
    var n := c.SlotsPerFrame();
    TimestampMonotone(c, 0, slot);
    SplitByFrame(c, slot);
    assert c.RunningSumAt(slot) && c.RunningSumAt(slot % n);
    var into := ts - (slot / n) * c.SamplesPerFrame();
    TimestampMonotone(c, slot % n + 1, n);
    assert c.PeriodicAt(SUBFRAMES_PER_FRAME, 0);
    DivModUnique(slot / n, into, c.SamplesPerFrame());
    SlotOfInverts(c, ts, slot % n);
  }
}
