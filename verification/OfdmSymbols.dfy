/**
 OFDM symbols one by one (section 5.3.1 of 3GPP TS 38.211, normal cyclic prefix), as the reference for
 two closed forms of the program: the length of a partly filled downlink slot (executables/nr-ru.c, tx_rf)
 and the position of the synchronisation block in a frame
 (openair1/PHY/NR_UE_TRANSPORT/nr_initial_sync.c).
 */
module OfdmSymbols {
  import opened CInts
  import opened FrameParms

  /** Symbols 0 and 7 * 2^mu of a subframe have the long prefix; symbols are counted on without end. */
  predicate IsLong(p: Parms, symbol: nat) {
    symbol % (7 * Pow2(p.mu)) == 0
  }

  function SymbolSamples(p: Parms, symbol: nat): nat {
    p.fft + (if IsLong(p, symbol) then p.cp0 else p.cp)
  }

  function Samples(p: Parms, from: nat, count: nat): nat {
    if count == 0 then 0 else Samples(p, from, count - 1) + SymbolSamples(p, from + count - 1)
  }

  // -------------------------------------------------------------------------------------------
  // Slots and partly filled slots
  // -------------------------------------------------------------------------------------------

  lemma LongWithinSlot(p: Parms, slot: nat, l: nat)
    requires l < SYMBOLS_PER_SLOT
    ensures 0 < p.Run()
    ensures IsLong(p, SYMBOLS_PER_SLOT * slot + l)
      <==> if p.mu == 0 then l == 0 || l == 7 else l == 0 && slot % p.Run() == 0
  {
    HalvesAreWhole(p);
    if p.mu == 0 {
      SymbolInSlot(slot, l);
    } else {
      var run := p.Run();
      assert 7 * Pow2(p.mu) == 14 * run;
      SymbolInRun(slot, l, run);
    }
  }

  lemma SymbolInSlot(slot: nat, l: nat)
    ensures (14 * slot + l) % 7 == l % 7
  {
    DivModShift(l, 2 * slot, 7);
  }

  lemma SymbolInRun(slot: nat, l: nat, run: nat)
    requires l < 14 && 0 < run
    ensures (14 * slot + l) % (14 * run) == 14 * (slot % run) + l
  {
    var q := slot / run;
    assert slot == q * run + slot % run;
    DivModUnique(q, 14 * (slot % run) + l, 14 * run);
    assert q * (14 * run) == 14 * (q * run);
  }

  /** get_firstSymSamp is the length of the slot's first symbol. */
  lemma FirstSymbolOfSlot(p: Parms, slot: nat)
    ensures p.FirstSymbol(slot) == SymbolSamples(p, SYMBOLS_PER_SLOT * slot)
  {
    LongWithinSlot(p, slot, 0);
    HalvesAreWhole(p);
  }

  /** Number of long symbols among the first `count` of a slot. */
  function LongInSlot(p: Parms, slot: nat, count: nat): int {
    HalvesAreWhole(p);
    if p.mu == 0 then (if 1 <= count then 1 else 0) + (if 8 <= count then 1 else 0)
    else if 1 <= count && slot % p.Run() == 0 then 1 else 0
  }

  lemma {:induction false} SamplesWithinSlot(p: Parms, slot: nat, count: nat)
    requires p.Valid() && count <= SYMBOLS_PER_SLOT
    ensures Samples(p, SYMBOLS_PER_SLOT * slot, count)
      == count * (p.fft + p.cp) + LongInSlot(p, slot, count) * (p.cp0 - p.cp)
  {
    if count != 0 {
      SamplesWithinSlot(p, slot, count - 1);
      LongWithinSlot(p, slot, count - 1);
      assert count * (p.fft + p.cp) == (count - 1) * (p.fft + p.cp) + (p.fft + p.cp);
    }
  }

  /** get_samples_per_slot is the length of its fourteen symbols. */
  lemma SlotIsItsSymbols(p: Parms, slot: nat)
    requires p.Valid()
    ensures p.SamplesPerSlot(slot) == Samples(p, SYMBOLS_PER_SLOT * slot, SYMBOLS_PER_SLOT)
  {
    SamplesWithinSlot(p, slot, SYMBOLS_PER_SLOT);
    HalvesAreWhole(p);
  }

  /** The closed form of tx_rf for `symbols` downlink symbols. */
  function SignalLength(p: Parms, slot: nat, symbols: nat): int {
    HalvesAreWhole(p);
    if p.SlotsPerSubframe() == 1 then
      if symbols <= 7 then (p.fft + p.cp0) + (symbols - 1) * (p.fft + p.cp)
      else 2 * (p.fft + p.cp0) + (symbols - 2) * (p.fft + p.cp)
    else
      if slot % (p.SlotsPerSubframe() / 2) != 0 then symbols * (p.fft + p.cp)
      else (p.fft + p.cp0) + (symbols - 1) * (p.fft + p.cp)
  }

  /** The closed form is the sum over the symbols sent, and never longer than the slot. */
  lemma SignalLengthIsSymbolSum(p: Parms, slot: nat, symbols: nat)
    requires p.Valid() && 1 <= symbols <= SYMBOLS_PER_SLOT
    ensures SignalLength(p, slot, symbols) == Samples(p, SYMBOLS_PER_SLOT * slot, symbols)
    ensures SignalLength(p, slot, symbols) <= p.SamplesPerSlot(slot)
  {
    SamplesWithinSlot(p, slot, symbols);
    HalvesAreWhole(p);
    SlotIsItsSymbols(p, slot);
    SamplesIncrease(p, SYMBOLS_PER_SLOT * slot, symbols, SYMBOLS_PER_SLOT);
  }

  lemma {:induction false} SamplesIncrease(p: Parms, from: nat, a: nat, b: nat)
    requires p.Valid() && a <= b
    ensures Samples(p, from, a) + (b - a) <= Samples(p, from, b)
    decreases b
  {
    if a < b {
      SamplesIncrease(p, from, a, b - 1);
    }
  }

  function Count(pattern: seq<bool>): nat {
    if pattern == [] then 0
    else Count(pattern[..|pattern| - 1]) + (if pattern[|pattern| - 1] then 1 else 0)
  }

  ghost predicate IsPrefix(pattern: seq<bool>) {
    forall i :: 0 <= i < |pattern| ==> (pattern[i] <==> i < Count(pattern))
  }

  /** The downlink symbols counted from the TDD table, and the length of the write. */
  method MixedSlotSignal(p: Parms, slot: nat, downlink: seq<bool>) returns (siglen: int)
    requires p.Valid() && |downlink| == SYMBOLS_PER_SLOT && 0 < Count(downlink)
    ensures siglen == Samples(p, SYMBOLS_PER_SLOT * slot, Count(downlink))
    ensures siglen <= p.SamplesPerSlot(slot)
  {
    var txsymb := 0;
    for symbol := 0 to SYMBOLS_PER_SLOT
      invariant txsymb == Count(downlink[..symbol]) <= symbol
    {
      assert downlink[..symbol + 1][..symbol] == downlink[..symbol];
      if downlink[symbol] {
        txsymb := txsymb + 1;
      }
    }
    assert downlink[..SYMBOLS_PER_SLOT] == downlink;
    siglen := SignalLength(p, slot, txsymb);
    SignalLengthIsSymbolSum(p, slot, txsymb);
  }

  lemma {:induction false} CountBelow(pattern: seq<bool>, n: nat)
    requires n <= |pattern| && forall i :: n <= i < |pattern| ==> !pattern[i]
    ensures Count(pattern) == Count(pattern[..n]) <= n
    ensures Count(pattern) == n ==> forall i :: 0 <= i < n ==> pattern[i]
    decreases |pattern|
  {
    if n < |pattern| {
      CountBelow(pattern[..|pattern| - 1], n);
      assert pattern[..|pattern| - 1][..n] == pattern[..n];
    } else {
      assert pattern[..n] == pattern;
      if 0 < n {
        CountBelow(pattern[..n - 1], n - 1);
        assert pattern[..n - 1][..n - 1] == pattern[..n - 1];
      }
    }
  }

  /** The write ends with the last downlink symbol exactly when the downlink symbols come first. */
  lemma SignalCoversDownlinkIffPrefix(p: Parms, slot: nat, downlink: seq<bool>, last: nat)
    requires p.Valid() && |downlink| == SYMBOLS_PER_SLOT
    requires last < SYMBOLS_PER_SLOT && downlink[last] && forall i :: last < i < SYMBOLS_PER_SLOT ==> !downlink[i]
    ensures 0 < Count(downlink)
    ensures SignalLength(p, slot, Count(downlink)) == Samples(p, SYMBOLS_PER_SLOT * slot, last + 1) <==> IsPrefix(downlink)
  {
    CountBelow(downlink, last + 1);
    assert downlink[..last + 1][..last] == downlink[..last];
    SignalLengthIsSymbolSum(p, slot, Count(downlink));
    if Count(downlink) < last + 1 {
      SamplesIncrease(p, SYMBOLS_PER_SLOT * slot, Count(downlink), last + 1);
    }
  }

  // -------------------------------------------------------------------------------------------
  // Position of the synchronisation block
  // -------------------------------------------------------------------------------------------

  /** sync_pos_frame: samples from the start of the frame to symbol `symbolOffset`. */
  function SyncPosition(p: Parms, symbolOffset: nat): int {
    Mixture(symbolOffset, symbolOffset / (7 * Pow2(p.mu)) + 1, p.fft + p.cp, p.fft + p.cp0)
  }

  /** Samples of so many symbols of which `long` are longer. */
  function Mixture(symbols: nat, long: int, short: int, longer: int): int {
    long * longer + (symbols - long) * short
  }

  function RoundUp(n: nat, period: nat): nat
    requires 0 < period
  {
    n / period + (if n % period == 0 then 0 else 1)
  }

  lemma RoundUpStep(n: nat, period: nat)
    requires 0 < period
    ensures RoundUp(n + 1, period) == RoundUp(n, period) + (if n % period == 0 then 1 else 0)
  {
    DivModSucc(n, period);
  }

  /** The first symbols of a frame as a mixture of long and short ones. */
  lemma {:induction false} SamplesFromStart(p: Parms, count: nat)
    requires p.Valid()
    ensures Samples(p, 0, count) == Mixture(count, RoundUp(count, 7 * Pow2(p.mu)), p.fft + p.cp, p.fft + p.cp0)
  {
    if count != 0 {
      SamplesFromStart(p, count - 1);
      RoundUpStep(count - 1, 7 * Pow2(p.mu));
      MixtureStep(count - 1, RoundUp(count - 1, 7 * Pow2(p.mu)), p.fft + p.cp, p.fft + p.cp0);
    }
  }

  lemma MixtureStep(symbols: nat, long: int, short: int, longer: int)
    ensures Mixture(symbols + 1, long, short, longer) == Mixture(symbols, long, short, longer) + short
    ensures Mixture(symbols + 1, long + 1, short, longer) == Mixture(symbols, long, short, longer) + longer
  {
  }

  /** The closed form is right for a block that does not start on a symbol with the long prefix, and only then. */
  lemma SyncPositionIsSymbolSum(p: Parms, symbolOffset: nat)
    requires p.Valid() && p.cp < p.cp0
    ensures SyncPosition(p, symbolOffset) == Samples(p, 0, symbolOffset) <==> !IsLong(p, symbolOffset)
  {
    var period := 7 * Pow2(p.mu);
    var a, b := RoundUp(symbolOffset, period), symbolOffset / period + 1;
    assert a == b <==> !IsLong(p, symbolOffset);
    SamplesFromStart(p, symbolOffset);
    MixtureDetermines(symbolOffset, a, b, p.fft + p.cp, p.fft + p.cp0);
  }

  /** With prefixes of different lengths the number of long symbols can be told from the samples. */
  lemma MixtureDetermines(symbols: nat, a: int, b: int, short: int, longer: int)
    requires short < longer
    ensures Mixture(symbols, a, short, longer) == Mixture(symbols, b, short, longer) <==> a == b
  {
    var d := longer - short;
    MixtureSum(symbols, a, short, longer);
    MixtureSum(symbols, b, short, longer);
    if a < b {
      MulLe(a + 1, b, d);
      OneMore(a, d);
    } else if b < a {
      MulLe(b + 1, a, d);
      OneMore(b, d);
    }
  }

  lemma MixtureSum(symbols: int, long: int, short: int, longer: int)
    ensures long * longer + (symbols - long) * short == symbols * short + long * (longer - short)
  {
  }

  // -------------------------------------------------------------------------------------------
  // Start symbols of synchronisation blocks
  // -------------------------------------------------------------------------------------------

  /** Numerologies with a synchronisation block; the program stops for any other. */
  predicate HasBlocks(p: Parms) {
    p.mu in {0, 1, 3, 4}
  }

  /** set_ssb_case: 0 to 4 for cases A to E; the band decides between B and C. */
  function BlockCase(p: Parms, bandOfCaseB: bool): nat
    requires HasBlocks(p)
  {
    if p.mu == 0 then 0 else if p.mu == 1 then (if bandOfCaseB then 1 else 2) else p.mu
  }

  /** First symbols of the blocks of a group, and the distance of groups; none for a case the numerology does not have. */
  function Pattern(p: Parms, blockCase: nat): (seq<nat>, nat)
    requires HasBlocks(p)
  {
    if p.mu == 0 || (p.mu == 1 && blockCase == 2) then ([2, 8], 14)
    else if p.mu == 1 && blockCase != 1 then ([], 0)
    else if p.mu == 4 then ([8, 12, 16, 20, 32, 36, 40, 44], 56)
    else ([4, 8, 16, 20], 28)
  }

  /** nr_get_ssb_start_symbol; above 6 GHz every fifth group is left out. */
  function StartSymbol(p: Parms, blockCase: nat, index: nat): nat
    requires HasBlocks(p)
  {
    var (starts, distance) := Pattern(p, blockCase);
    if starts == [] then 0
    else
      var group := index / |starts|;
      starts[index % |starts|] + distance * (if p.mu <= 1 then group else group + group / 4)
  }

  /** A block as PBCH decoding reports it. */
  datatype Ssb = Ssb(bandOfCaseB: bool, index: nat, secondHalf: bool) {

    /** Lmax blocks at most: 8 below 6 GHz, 64 above. */
    predicate Valid(p: Parms) {
      HasBlocks(p) && index < if p.mu <= 1 then 8 else 64
    }

    /** Its first symbol, counted from the start of the frame. */
    function SymbolOffset(p: Parms): nat
      requires HasBlocks(p)
    {
      StartSymbol(p, BlockCase(p, bandOfCaseB), index)
      + (if secondHalf then (p.SlotsPerFrame() / 2) * SYMBOLS_PER_SLOT else 0)
    }
  }

  /**
   Where blocks may start in a half frame, by section 4.1 of 3GPP TS 38.213: symbols modulo a group, with every fifth group
   left out above 6 GHz.
   */
  predicate MayStart(p: Parms, bandOfCaseB: bool, symbol: nat)
    requires HasBlocks(p)
  {
    match p.mu
    case 0 => symbol % 14 in {2, 8}
    case 1 => if bandOfCaseB then symbol % 28 in {4, 8, 16, 20} else symbol % 14 in {2, 8}
    case 3 => symbol % 28 in {4, 8, 16, 20} && symbol / 28 % 5 != 4
    case _ => symbol % 56 in {8, 12, 16, 20, 32, 36, 40, 44} && symbol / 56 % 5 != 4
  }

  /** A group of starts, increasing and within the distance of groups. */
  ghost predicate IsGroup(starts: seq<nat>, distance: nat) {
    && starts != [] && (forall i :: 0 <= i < |starts| ==> starts[i] < distance)
    && forall i, j :: 0 <= i < j < |starts| ==> starts[i] < starts[j]
  }

  lemma PatternIsGroup(p: Parms, bandOfCaseB: bool)
    requires HasBlocks(p)
    ensures var (starts, distance) := Pattern(p, BlockCase(p, bandOfCaseB));
      && IsGroup(starts, distance)
      && forall symbol: nat :: MayStart(p, bandOfCaseB, symbol)
           <==> symbol % distance in starts && (1 < p.mu ==> symbol / distance % 5 != 4)
  {
  }

  /** The group an index belongs to, with or without gaps. */
  function GroupOf(gaps: bool, group: nat): nat {
    if gaps then group + group / 4 else group
  }

  lemma StartParts(starts: seq<nat>, distance: nat, gaps: bool, index: nat)
    requires IsGroup(starts, distance)
    ensures var symbol := starts[index % |starts|] + distance * GroupOf(gaps, index / |starts|);
      && symbol % distance == starts[index % |starts|] && symbol / distance == GroupOf(gaps, index / |starts|)
  {
    DivModUnique(GroupOf(gaps, index / |starts|), starts[index % |starts|], distance);
  }

  /** And every start in a group is that of an index. */
  lemma PartsOfStart(starts: seq<nat>, distance: nat, gaps: bool, symbol: nat, i: nat) returns (index: nat)
    requires IsGroup(starts, distance) && i < |starts| && symbol % distance == starts[i]
    requires gaps ==> symbol / distance % 5 != 4
    ensures starts[index % |starts|] + distance * GroupOf(gaps, index / |starts|) == symbol
  {
    var x := symbol / distance;
    var group := if gaps then x - x / 5 else x;
    assert GroupOf(gaps, group) == x;
    MulLe(0, group, |starts|);
    index := group * |starts| + i;
    DivModUnique(group, i, |starts|);
    assert symbol == x * distance + symbol % distance;
  }

  lemma GapsAreLeftOut(group: nat)
    ensures GroupOf(true, group) % 5 != 4
  {
    assert group == 4 * (group / 4) + group % 4;
    DivModUnique(group / 4, group % 4, 5);
  }

  lemma BlockMayStart(p: Parms, bandOfCaseB: bool, index: nat)
    requires HasBlocks(p)
    ensures MayStart(p, bandOfCaseB, Ssb(bandOfCaseB, index, false).SymbolOffset(p))
  {
    PatternIsGroup(p, bandOfCaseB);
    var (starts, distance) := Pattern(p, BlockCase(p, bandOfCaseB));
    StartParts(starts, distance, 1 < p.mu, index);
    GapsAreLeftOut(index / |starts|);
  }

  lemma StartHasBlock(p: Parms, bandOfCaseB: bool, symbol: nat) returns (index: nat)
    requires HasBlocks(p) && MayStart(p, bandOfCaseB, symbol)
    ensures Ssb(bandOfCaseB, index, false).SymbolOffset(p) == symbol
  {
    PatternIsGroup(p, bandOfCaseB);
    var (starts, distance) := Pattern(p, BlockCase(p, bandOfCaseB));
    var i :| 0 <= i < |starts| && starts[i] == symbol % distance;
    index := PartsOfStart(starts, distance, 1 < p.mu, symbol, i);
  }

  /** Every start the standard gives belongs to a block, and blocks start nowhere else. */
  lemma BlocksStartThere(p: Parms, bandOfCaseB: bool, symbol: nat)
    requires HasBlocks(p)
    ensures MayStart(p, bandOfCaseB, symbol) <==> exists index: nat :: Ssb(bandOfCaseB, index, false).SymbolOffset(p) == symbol
  {
    if MayStart(p, bandOfCaseB, symbol) {
      var index := StartHasBlock(p, bandOfCaseB, symbol);
    }
    if index: nat :| Ssb(bandOfCaseB, index, false).SymbolOffset(p) == symbol {
      BlockMayStart(p, bandOfCaseB, index);
    }
  }

  /** Blocks are numbered in the order of time, and those of the second half follow five subframes later. */
  lemma BlocksStartInOrder(p: Parms, bandOfCaseB: bool, a: nat, b: nat)
    requires HasBlocks(p) && a < b
    ensures Ssb(bandOfCaseB, a, false).SymbolOffset(p) < Ssb(bandOfCaseB, b, false).SymbolOffset(p)
    ensures Ssb(bandOfCaseB, a, true).SymbolOffset(p)
      == Ssb(bandOfCaseB, a, false).SymbolOffset(p) + 5 * SYMBOLS_PER_SLOT * Pow2(p.mu)
  {
    PatternIsGroup(p, bandOfCaseB);
    Periods(p);
    var (starts, distance) := Pattern(p, BlockCase(p, bandOfCaseB));
    StartsIncrease(starts, distance, 1 < p.mu, a, b);
  }

  lemma StartsIncrease(starts: seq<nat>, distance: nat, gaps: bool, a: nat, b: nat)
    requires IsGroup(starts, distance) && a < b
    ensures starts[a % |starts|] + distance * GroupOf(gaps, a / |starts|)
      < starts[b % |starts|] + distance * GroupOf(gaps, b / |starts|)
  {
    var n := |starts|;
    assert a == (a / n) * n + a % n && b == (b / n) * n + b % n;
    if a / n < b / n {
      MulLe(GroupOf(gaps, a / n) + 1, GroupOf(gaps, b / n), distance);
      OneMore(GroupOf(gaps, a / n), distance);
    } else {
      MulLe(b / n, a / n, n);
      if b / n < a / n {
        MulLe(b / n + 1, a / n, n);
        OneMore(b / n, n);
      }
    }
  }

  /** No block starts on a symbol with the long prefix, for any case, index and half frame. */
  lemma BlocksStartShort(p: Parms, ssb: Ssb)
    requires HasBlocks(p)
    ensures !IsLong(p, ssb.SymbolOffset(p))
  {
    var start := StartSymbol(p, BlockCase(p, ssb.bandOfCaseB), ssb.index);
    Periods(p);
    StartWithinPeriod(p, BlockCase(p, ssb.bandOfCaseB), ssb.index);
    DivModShift(start, 10, 7 * Pow2(p.mu));
  }

  lemma Periods(p: Parms)
    requires HasBlocks(p)
    ensures Pow2(p.mu) == if p.mu == 0 then 1 else if p.mu == 1 then 2 else if p.mu == 3 then 8 else 16
    ensures (p.SlotsPerFrame() / 2) * SYMBOLS_PER_SLOT == 10 * (7 * Pow2(p.mu))
  {
    assert Pow2(1) == 2 && Pow2(2) == 4 && Pow2(3) == 8 && Pow2(4) == 16;
  }

  lemma StartWithinPeriod(p: Parms, blockCase: nat, index: nat)
    requires HasBlocks(p) && (p.mu == 1 ==> blockCase in {1, 2})
    ensures StartSymbol(p, blockCase, index) % (7 * (if p.mu == 0 then 1 else if p.mu == 1 then 2 else if p.mu == 3 then 8 else 16)) != 0
  {
    var (starts, distance) := Pattern(p, blockCase);
    var group := index / |starts|;
    var groups := if p.mu <= 1 then group else group + group / 4;
    PatternOff(starts[index % |starts|], distance, groups, if p.mu == 0 then 7 else if p.mu == 1 then 14 else distance);
  }

  lemma PatternOff(start: nat, distance: nat, groups: nat, b: nat)
    requires 0 < b && start % b != 0 && (distance == b || distance == 2 * b)
    ensures (start + distance * groups) % b != 0 && (start + distance * groups) % (2 * b) != 0
  {
    if distance == b {
      StaysOff(start, groups, b);
      assert groups * b == distance * groups;
    } else {
      StaysOff(start, 2 * groups, b);
      assert (2 * groups) * b == distance * groups;
    }
  }

  /** Blocks lie within the frame. */
  lemma BlocksLieInFrame(p: Parms, ssb: Ssb)
    requires p.Valid() && ssb.Valid(p)
    ensures Samples(p, 0, ssb.SymbolOffset(p)) < p.SamplesPerFrame()
  {
    assert Pow2(1) == 2 && Pow2(2) == 4 && Pow2(3) == 8 && Pow2(4) == 16;
    var symbols := SYMBOLS_PER_SLOT * p.SlotsPerFrame();
    assert ssb.SymbolOffset(p) < symbols;
    SamplesIncrease(p, 0, ssb.SymbolOffset(p), symbols);
    FrameIsItsSymbols(p);
  }

  lemma FrameIsItsSymbols(p: Parms)
    requires p.Valid()
    ensures Samples(p, 0, SYMBOLS_PER_SLOT * p.SlotsPerFrame()) == p.SamplesPerFrame()
  {
    var slots, period := p.SlotsPerSubframe(), 7 * Pow2(p.mu);
    var symbols := SYMBOLS_PER_SLOT * p.SlotsPerFrame();
    SamplesFromStart(p, symbols);
    DivModUnique(20, 0, period);
    assert symbols == 20 * period + 0;
    FrameSum(p.fft + p.cp, p.fft + p.cp0, slots);
  }

  lemma FrameSum(short: int, longer: int, slots: nat)
    ensures Mixture(140 * slots, 20, short, longer) == 10 * (longer * 2 + short * (14 * slots - 2))
  {
  }

  /** sync_pos_frame of every block is the number of samples before it in the frame. */
  lemma SyncPositionOfBlock(p: Parms, ssb: Ssb)
    requires p.Valid() && p.cp < p.cp0 && ssb.Valid(p)
    ensures SyncPosition(p, ssb.SymbolOffset(p)) == Samples(p, 0, ssb.SymbolOffset(p)) < p.SamplesPerFrame()
  {
    BlocksStartShort(p, ssb);
    SyncPositionIsSymbolSum(p, ssb.SymbolOffset(p));
    BlocksLieInFrame(p, ssb);
  }
}
