/**
 A repeating pattern of slot lengths on plain integers: each run of `run` slots has a first slot of
 `first` samples followed by slots of `other` samples.
 */
module SlotGrid {
  import opened CInts

  function RunSamples(run: int, first: int, other: int): int {
    first + (run - 1) * other
  }

  function Length(run: int, first: int, other: int, slot: nat): int
    requires 0 < run
  {
    if slot % run == 0 then first else other
  }

  function Timestamp(run: int, first: int, other: int, slot: nat): int
    requires 0 < run
  {
    (slot / run) * RunSamples(run, first, other)
    + (if slot % run == 0 then 0 else first + (slot % run - 1) * other)
  }

  lemma Step(run: int, first: int, other: int, slot: nat)
    requires 0 < run
    ensures Timestamp(run, first, other, slot + 1) == Timestamp(run, first, other, slot) + Length(run, first, other, slot)
  {
    DivModSucc(slot, run);
    var q, r := slot / run, slot % run;
    if r == run - 1 {
      assert (q + 1) * RunSamples(run, first, other) == q * RunSamples(run, first, other) + RunSamples(run, first, other);
    } else {
      assert r * other == (r - 1) * other + other;
    }
  }

  lemma Periodic(run: int, first: int, other: int, k: nat, slot: nat)
    requires 0 < run
    ensures 0 <= k * run
    ensures Timestamp(run, first, other, k * run + slot) == k * RunSamples(run, first, other) + Timestamp(run, first, other, slot)
    ensures (k * run + slot) % run == slot % run
  {
    MulLe(0, k, run);
    DivModShift(slot, k, run);
    var q := slot / run;
    assert (q + k) * RunSamples(run, first, other) == q * RunSamples(run, first, other) + k * RunSamples(run, first, other);
  }

  /** The last part of get_slot_from_timestamp: a running sample index and a rounded-up quotient. */
  function Find(run: int, first: int, other: int, runSamples: int, ts: int): int
    requires 0 < runSamples && 0 < other
  {
    var halves := CDiv(ts, runSamples);
    var index := halves * runSamples - 1;
    var count := halves * run;
    var count1 := if index < ts then count + 1 else count;
    var index1 := if index < ts then index + first else index;
    var count2 := if index1 < ts then count1 + (ts - index1 + other - 1) / other else count1;
    count2 - 1
  }

  /** What the search computes, without the running index. */
  lemma FindValue(run: int, first: int, other: int, samples: int, ts: nat)
    requires 0 < samples && 0 < other
    ensures Find(run, first, other, samples, ts)
      == (ts / samples) * run + (if ts % samples < first then 0 else 1 + (ts % samples - first) / other)
  {
    var x := ts % samples - first;
    assert ts - ((ts / samples) * samples - 1 + first) == x + 1;
    if 0 <= x {
      DivModShift(x, 1, other);
      assert x + 1 + other - 1 == x + 1 * other;
    }
  }

  lemma ValueBounds(run: int, first: int, other: int, halves: nat, into: nat)
    requires 0 < run && 0 < other && into < RunSamples(run, first, other)
    ensures var slot := halves * run + (if into < first then 0 else 1 + (into - first) / other);
      && 0 <= slot
      && Timestamp(run, first, other, slot) <= halves * RunSamples(run, first, other) + into
      && halves * RunSamples(run, first, other) + into < Timestamp(run, first, other, slot) + Length(run, first, other, slot)
  {
    MulLe(0, halves, run);
    if into < first {
      DivModUnique(halves, 0, run);
    } else {
      WithinRun(run, first, other, halves, into - first);
    }
  }

  lemma FindBounds(run: int, first: int, other: int, samples: int, ts: nat, slot: int)
    requires 0 < run && 0 < other && 0 < samples == RunSamples(run, first, other)
    requires slot == Find(run, first, other, samples, ts)
    ensures 0 <= slot && Timestamp(run, first, other, slot) <= ts < Timestamp(run, first, other, slot) + Length(run, first, other, slot)
  {
    FindValue(run, first, other, samples, ts);
    ValueBounds(run, first, other, ts / samples, ts % samples);
    assert ts == (ts / samples) * samples + ts % samples;
  }

  /** Which slot of a run a sample past the first slot falls in. */
  lemma WithinRun(run: int, first: int, other: int, halves: nat, x: nat)
    requires 0 < run && 0 < other && x < (run - 1) * other
    ensures 0 <= halves * run + 1 + x / other
    ensures Timestamp(run, first, other, halves * run + 1 + x / other) <= halves * RunSamples(run, first, other) + first + x
    ensures halves * RunSamples(run, first, other) + first + x < Timestamp(run, first, other, halves * run + 1 + x / other) + other
    ensures Length(run, first, other, halves * run + 1 + x / other) == other
  {
    var k := x / other;
    if run - 1 <= k {
      MulLe(run - 1, k, other);
    }
    MulLe(0, halves, run);
    DivModUnique(halves, 1 + k, run);
    assert k * other <= x < k * other + other;
  }
}

/**
 Sample counts of an NR frame with the normal cyclic prefix (openair1/PHY/INIT/nr_parms.c).

 Every half subframe begins with one OFDM symbol whose cyclic prefix is longer than the others.
 The functions below are the closed forms the program evaluates; the lemmas say that they are the
 prefix sums of the slot lengths and, in the other direction, the search for the slot of a sample.
 */
module FrameParms {
  import opened CInts
  import SlotGrid
  import opened SlotClock

  const SYMBOLS_PER_SLOT := 14

  function Pow2(n: nat): (r: nat)
    ensures 1 <= r
  {
    if n == 0 then 1 else 2 * Pow2(n - 1)
  }

  /** numerology_index, ofdm_symbol_size, nb_prefix_samples and nb_prefix_samples0. */
  datatype Parms = Parms(mu: nat, fft: nat, cp: nat, cp0: nat) {

    ghost predicate Valid() {
      0 < fft && cp <= cp0
    }

    function SlotsPerSubframe(): nat {
      Pow2(mu)
    }

    function SlotsPerFrame(): nat {
      SUBFRAMES_PER_FRAME * SlotsPerSubframe()
    }

    function SamplesPerSubframe(): nat {
      (cp0 + fft) * 2 + (cp + fft) * (SYMBOLS_PER_SLOT * SlotsPerSubframe() - 2)
    }

    function SamplesPerFrame(): nat {
      SUBFRAMES_PER_FRAME * SamplesPerSubframe()
    }

    /** Length of the first slot of a half subframe (of the subframe in numerology 0). */
    function SamplesPerSlot0(): nat {
      if mu == 0 then SamplesPerSubframe() else cp0 + 13 * cp + SYMBOLS_PER_SLOT * fft
    }

    /** Length of the other slots. */
    function SamplesPerSlotN0(): nat {
      (cp + fft) * SYMBOLS_PER_SLOT
    }

    /** get_samples_per_slot; the argument may be -1, see rx_rf. */
    function SamplesPerSlot(slot: int): nat {
      if mu == 0 then SamplesPerSubframe()
      else
        HalvesAreWhole(this);
        if CRem(slot, SlotsPerSubframe() / 2) != 0 then SamplesPerSlotN0() else SamplesPerSlot0()
    }

    /** get_samples_slot_timestamp. */
    function SlotTimestamp(slot: nat): int {
      if slot == 0 then 0
      else if mu == 0 then slot * SamplesPerSubframe()
      else
        HalvesAreWhole(this);
        var halves := slot / (SlotsPerSubframe() / 2);
        var rem := slot % (SlotsPerSubframe() / 2);
        halves * SamplesPerSubframe() / 2
        + (if 0 < rem then SamplesPerSlot0() + (rem - 1) * SamplesPerSlotN0() else 0)
    }

    /** get_samples_symbol_duration of the first symbol of a slot. */
    function FirstSymbol(slot: nat): nat {
      if mu == 0 then cp0 + fft
      else
        HalvesAreWhole(this);
        (if slot % (SlotsPerSubframe() / 2) != 0 then cp else cp0) + fft
    }

    /** get_slot_from_timestamp. */
    function SlotFromTimestamp(timestamp: int): int
      requires Valid()
    {
      LengthsArePositive(this);
      SlotInFrame(this, CRem(timestamp, SamplesPerFrame()))
    }

    /** Number of slots between two long prefixes. */
    function Run(): nat {
      if mu == 0 then 1 else SlotsPerSubframe() / 2
    }

    /** Number of samples between two long prefixes. */
    function RunSamples(): nat {
      SamplesPerSlot0() + (Run() - 1) * SamplesPerSlotN0()
    }

    function RunsPerSubframe(): nat {
      if mu == 0 then 1 else 2
    }
  }

  /** get_slot_from_timestamp after its first line. */
  function SlotInFrame(p: Parms, ts: int): int
    requires p.Valid()
  {
    LengthsArePositive(p);
    if ts < p.SamplesPerSlot0() then 0
    else if p.mu == 0 then CDiv(ts, p.SamplesPerSubframe())
    else
      HalvesAreWhole(p);
      SlotGrid.Find(p.SlotsPerSubframe() / 2, p.SamplesPerSlot0(), p.SamplesPerSlotN0(), p.SamplesPerSubframe() / 2, ts)
  }

  lemma HalvesAreWhole(p: Parms)
    ensures 0 < p.mu ==> 1 <= p.SlotsPerSubframe() / 2 && p.SlotsPerSubframe() == 2 * (p.SlotsPerSubframe() / 2)
    ensures 1 <= p.Run() && p.SlotsPerSubframe() == p.RunsPerSubframe() * p.Run()
  {
  }

  lemma LengthsArePositive(p: Parms)
    requires p.Valid()
    ensures 0 < p.SamplesPerSlotN0() <= p.SamplesPerSlot0() <= p.SamplesPerSubframe()
    ensures 0 < p.SlotsPerFrame() && 0 < p.SamplesPerFrame()
    ensures p.SamplesPerSubframe() == p.RunsPerSubframe() * p.RunSamples()
  {
    var s := p.cp + p.fft;
    var h := p.Run();
    HalvesAreWhole(p);
    if p.mu == 0 {
    } else {
      assert p.SlotsPerSubframe() == 2 * h;
      calc {
        p.SamplesPerSubframe();
        (p.cp0 + p.fft) * 2 + s * (28 * h - 2);
        { assert s * (28 * h - 2) == s * (26 + 28 * (h - 1)) == 26 * s + 28 * (s * (h - 1)); }
        (p.cp0 + p.fft) * 2 + 26 * s + 28 * (s * (h - 1));
        { assert (h - 1) * (s * 14) == 14 * (s * (h - 1)); }
        2 * p.SamplesPerSlot0() + 2 * ((h - 1) * p.SamplesPerSlotN0());
      }
      assert 0 <= (h - 1) * p.SamplesPerSlotN0() by { MulLe(0, h - 1, p.SamplesPerSlotN0()); }
    }
  }

  /** The two branches of the source read the same way once slots are grouped by runs. */
  lemma SlotTimestampByRuns(p: Parms, slot: nat)
    requires p.Valid()
    ensures 0 < p.Run()
    ensures p.SlotTimestamp(slot) == SlotGrid.Timestamp(p.Run(), p.SamplesPerSlot0(), p.SamplesPerSlotN0(), slot)
    ensures p.SamplesPerSlot(slot) == SlotGrid.Length(p.Run(), p.SamplesPerSlot0(), p.SamplesPerSlotN0(), slot)
  {
    HalvesAreWhole(p);
    LengthsArePositive(p);
    if 0 < p.mu && slot != 0 {
      var q := slot / p.Run();
      assert q * p.SamplesPerSubframe() == 2 * (q * p.RunSamples());
    } else if slot == 0 {
      assert (0 / p.Run()) * p.RunSamples() == 0;
    }
  }

  /** get_samples_slot_timestamp is the running sum of get_samples_per_slot. */
  lemma SlotTimestampStep(p: Parms, slot: nat)
    requires p.Valid()
    ensures p.SlotTimestamp(slot + 1) == p.SlotTimestamp(slot) + p.SamplesPerSlot(slot)
    ensures 0 < p.SamplesPerSlot(slot)
  {
    SlotTimestampByRuns(p, slot);
    SlotTimestampByRuns(p, slot + 1);
    LengthsArePositive(p);
    SlotGrid.Step(p.Run(), p.SamplesPerSlot0(), p.SamplesPerSlotN0(), slot);
  }

  lemma RunsToSubframes(subframes: nat, runs: nat, run: nat, samples: int)
    ensures 0 <= subframes * (runs * run) == (subframes * runs) * run
    ensures (subframes * runs) * samples == subframes * (runs * samples)
  {
    MulLe(0, subframes, runs * run);
  }

  /** Slot lengths and timestamps repeat with the subframe. */
  lemma SubframePeriodic(p: Parms, subframes: nat, slot: nat)
    requires p.Valid()
    ensures 0 <= subframes * p.SlotsPerSubframe()
    ensures var later := subframes * p.SlotsPerSubframe() + slot;
      && p.SlotTimestamp(later) == subframes * p.SamplesPerSubframe() + p.SlotTimestamp(slot)
      && p.SamplesPerSlot(later) == p.SamplesPerSlot(slot)
      && p.FirstSymbol(later) == p.FirstSymbol(slot)
  {
    HalvesAreWhole(p);
    LengthsArePositive(p);
    RunsToSubframes(subframes, p.RunsPerSubframe(), p.Run(), p.RunSamples());
    SlotGrid.Periodic(p.Run(), p.SamplesPerSlot0(), p.SamplesPerSlotN0(), subframes * p.RunsPerSubframe(), slot);
    SlotTimestampByRuns(p, slot);
    SlotTimestampByRuns(p, subframes * p.SlotsPerSubframe() + slot);
  }

  /** get_slot_from_timestamp lands on a slot that holds the timestamp. */
  lemma SlotFromTimestampBounds(p: Parms, timestamp: nat)
    requires p.Valid()
    ensures 0 < p.SamplesPerFrame() && 0 <= p.SlotFromTimestamp(timestamp)
    ensures p.SlotTimestamp(p.SlotFromTimestamp(timestamp)) <= timestamp % p.SamplesPerFrame()
    ensures timestamp % p.SamplesPerFrame() < p.SlotTimestamp(p.SlotFromTimestamp(timestamp) + 1)
  {
    LengthsArePositive(p);
    SlotInFrameBounds(p, timestamp % p.SamplesPerFrame());
    assert p.SlotFromTimestamp(timestamp) == SlotInFrame(p, timestamp % p.SamplesPerFrame());
    SlotTimestampStep(p, SlotInFrame(p, timestamp % p.SamplesPerFrame()));
  }

  ghost predicate SlotHolds(p: Parms, ts: int, slot: int) {
    0 <= slot && p.SlotTimestamp(slot) <= ts < p.SlotTimestamp(slot) + p.SamplesPerSlot(slot)
  }

  /** The search within a frame finds the slot that holds the sample. */
  lemma SlotInFrameBounds(p: Parms, ts: nat)
    requires p.Valid()
    ensures SlotHolds(p, ts, SlotInFrame(p, ts))
  {
    LengthsArePositive(p);
    if ts < p.SamplesPerSlot0() {
      FoundInFirst(p, ts);
    } else if p.mu == 0 {
      FoundBySubframes(p, ts);
    } else {
      FoundByRuns(p, ts, SlotInFrame(p, ts));
    }
  }

  lemma FoundInFirst(p: Parms, ts: nat)
    requires p.Valid() && ts < p.SamplesPerSlot0()
    ensures SlotHolds(p, ts, 0)
  {
    SlotTimestampByRuns(p, 0);
  }

  lemma FoundBySubframes(p: Parms, ts: nat)
    requires p.Valid() && p.mu == 0 && 0 < p.SamplesPerSubframe()
    ensures SlotHolds(p, ts, ts / p.SamplesPerSubframe())
  {
    var n := p.SamplesPerSubframe();
    assert ts == (ts / n) * n + ts % n;
  }

  lemma FoundByRuns(p: Parms, ts: nat, slot: int)
    requires p.Valid() && 0 < p.RunSamples()
    requires slot == SlotGrid.Find(p.Run(), p.SamplesPerSlot0(), p.SamplesPerSlotN0(), p.RunSamples(), ts)
    ensures SlotHolds(p, ts, slot)
  {
    LengthsArePositive(p);
    SlotGrid.FindBounds(p.Run(), p.SamplesPerSlot0(), p.SamplesPerSlotN0(), p.RunSamples(), ts, slot);
    SlotTimestampByRuns(p, slot);
  }

  /** The clock made of the program's sample functions. */
  function ClockOf(p: Parms): Clock
    requires p.Valid()
  {
    Clock(p.SlotsPerSubframe(),
          p.SamplesPerSubframe(),
          slot => p.SamplesPerSlot(slot),
          (slot: nat) => p.SlotTimestamp(slot),
          ts => p.SlotFromTimestamp(ts),
          (slot: nat) => p.FirstSymbol(slot),
          p.fft + p.cp0)
  }

  /** C's remainder of -1 selects the length of the last slot of a frame. */
  lemma SlotBeforeFirst(p: Parms)
    requires p.Valid()
    ensures 0 < p.SlotsPerFrame()
    ensures p.SamplesPerSlot(-1) == p.SamplesPerSlot(p.SlotsPerFrame() - 1)
  {
    HalvesAreWhole(p);
    LengthsArePositive(p);
    if 0 < p.mu {
      var h := p.Run();
      assert p.SlotsPerFrame() - 1 == 19 * h + (h - 1);
      DivModUnique(19, h - 1, h);
      if h == 1 {
      } else {
        DivModUnique(0, 1, h);
      }
    }
  }

  /** For every numerology the program's closed forms are a clock. */
  lemma ClockIsValid(p: Parms)
    requires p.Valid()
    ensures ClockOf(p).Valid()
  {
    var c := ClockOf(p);
    LengthsArePositive(p);
    SlotBeforeFirst(p);
    forall slot: nat ensures c.RunningSumAt(slot) {
      SlotTimestampStep(p, slot);
    }
    forall subframes: nat, slot: nat ensures c.PeriodicAt(subframes, slot) {
      SubframePeriodic(p, subframes, slot);
    }
    forall ts: nat ensures c.FoundAt(ts) {
      SlotFromTimestampBounds(p, ts);
    }
  }
}
