/**
 Timestamps and counters of the LTE radio unit (executables/lte-ru.c): reception with drift correction and
 frame resynchronisation (rx_rf and the counters of ru_thread), and the unwrapped transmit timestamps of the
 IF4p5 north interface (fh_if4p5_north_asynch_in).
 */
module LteRuTiming {
  import opened CInts
  import opened Options

  const FRAME_CYCLE := 1024
  const SUBFRAMES := 10
  const CYCLE := 10240   // subframes in a frame cycle

  datatype Ru = Ru(
    firstRx: bool,
    timestampRx: int,
    tsOffset: int,
    frameRx: int,
    ttiRx: int,
    frame: int,        // counter of ru_thread
    subframe: int,     // counter of ru_thread
    exited: bool       // one of the mismatch exits was taken
  )

  function FrameOf(tti: nat, timestamp: int): int
    requires 0 < tti
  {
    CDiv(timestamp, tti * SUBFRAMES) % FRAME_CYCLE
  }

  function SubframeOf(tti: nat, timestamp: int): int
    requires 0 < tti
  {
    CRem(CDiv(timestamp, tti), SUBFRAMES)
  }

  /** The counters ru_thread advances before each reception. */
  function Tick(ru: Ru): Ru {
    if ru.subframe == SUBFRAMES - 1 then ru.(subframe := 0, frame := (ru.frame + 1) % FRAME_CYCLE)
    else ru.(subframe := ru.subframe + 1)
  }

  /** Numbers taken from timestamp `t` and compared with the counters. */
  function Checked(tti: nat, ru: Ru, t: int): Ru
    requires 0 < tti
  {
    ru.(timestampRx := t,
        frameRx := FrameOf(tti, t),
        ttiRx := SubframeOf(tti, t),
        exited := ru.exited || SubframeOf(tti, t) != ru.subframe || FrameOf(tti, t) != ru.frame)
  }

  /** Offset after a RU_FRAME_RESYNCH to frame `target`, one formula for both directions. */
  function ShiftedOffset(tti: nat, ru: Ru, target: nat): int {
    ru.tsOffset + (ru.frameRx - target) * tti * SUBFRAMES
  }

  /** What rx_rf does for a device timestamp and a pending resynchronisation command, if any. */
  function Received(tti: nat, ru: Ru, ts: int, command: Option<nat>): Ru
    requires 0 < tti
  {
    var offset := if command.Some? then ShiftedOffset(tti, ru, command.value) else ru.tsOffset;
    if ru.firstRx then
      ru.(firstRx := false, timestampRx := 0, tsOffset := ts - offset, frameRx := 0, ttiRx := 0, frame := 0, subframe := 0)
    else if command.Some? then
      Checked(tti, ru.(tsOffset := offset, frame := command.value), ts - offset)
    else
      Checked(tti, ru.(tsOffset := ts - ru.timestampRx - tti), ru.timestampRx + tti)
  }

  class RuProc {
    var firstRx: bool
    var timestampRx: int
    var tsOffset: int
    var frameRx: int
    var ttiRx: int
    var frame: int
    var subframe: int
    var exited: bool

    function View(): Ru
      reads this
    {
      Ru(firstRx, timestampRx, tsOffset, frameRx, ttiRx, frame, subframe, exited)
    }

    /** State at the start of ru_thread. */
    constructor ()
      ensures View() == Ru(true, 0, 0, 0, 0, FRAME_CYCLE - 1, SUBFRAMES - 1, false)
    {
      firstRx, timestampRx, tsOffset, frameRx, ttiRx := true, 0, 0, 0, 0;
      frame, subframe, exited := FRAME_CYCLE - 1, SUBFRAMES - 1, false;
    }

    method TickCounters()
      modifies this`subframe, this`frame
      ensures View() == Tick(old(View()))
    {
      if subframe == SUBFRAMES - 1 {
        subframe := 0;
        frame := frame + 1;
        frame := frame % FRAME_CYCLE;
      } else {
        subframe := subframe + 1;
      }
    }

    method RxRf(tti: nat, ts: int, command: Option<nat>)
      requires 0 < tti
      modifies this
      ensures View() == Received(tti, old(View()), ts, command)
    {
      var oldTs := timestampRx;
      var resynch := false;
      if command.Some? {
        if frameRx > command.value {
          tsOffset := tsOffset + (frameRx - command.value) * tti * SUBFRAMES;
        } else {
          tsOffset := tsOffset - (-frameRx + command.value) * tti * SUBFRAMES;
          NegatedProduct(frameRx, command.value, tti);
        }
        frame := command.value;
        resynch := true;
      }
      timestampRx := ts - tsOffset;
      if firstRx {
        tsOffset := timestampRx;
        timestampRx := 0;
      } else if !resynch && timestampRx - oldTs != tti {
        tsOffset := tsOffset + (timestampRx - oldTs - tti);
        timestampRx := ts - tsOffset;
      }
      frameRx := CDiv(timestampRx, tti * SUBFRAMES) % FRAME_CYCLE;
      ttiRx := CRem(CDiv(timestampRx, tti), SUBFRAMES);
      if !firstRx {
        if ttiRx != subframe {
          exited := true;
        }
        if frameRx != frame {
          exited := true;
        }
      } else {
        DivModUnique(0, 0, tti);
        DivModUnique(0, 0, tti * SUBFRAMES);
        firstRx := false;
        frame := frameRx;
        subframe := ttiRx;
      }
    }
  }

  lemma NegatedProduct(a: int, b: int, tti: int)
    ensures -((-a + b) * tti * SUBFRAMES) == (a - b) * tti * SUBFRAMES
  {
  }

  // -------------------------------------------------------------------------------------------
  // Every sequence of device timestamps
  // -------------------------------------------------------------------------------------------

  /** Reception stands `into` samples into absolute subframe `k`, and all numbers say so. */
  ghost predicate OnGrid(tti: nat, ru: Ru, k: nat, into: nat) {
    && !ru.firstRx && !ru.exited && into < tti
    && ru.timestampRx == k * tti + into
    && ru.subframe == ru.ttiRx == k % SUBFRAMES
    && ru.frame == ru.frameRx == (k / SUBFRAMES) % FRAME_CYCLE
  }

  /** The numbers taken from a timestamp inside subframe `k`. */
  lemma NumbersOf(tti: nat, k: nat, into: nat, t: int)
    requires into < tti && t == k * tti + into
    ensures 0 <= t
    ensures SubframeOf(tti, t) == k % SUBFRAMES
    ensures FrameOf(tti, t) == (k / SUBFRAMES) % FRAME_CYCLE
  {
    MulLe(0, k, tti);
    DivModUnique(k, into, tti);
    var f, r := k / SUBFRAMES, k % SUBFRAMES;
    assert t == f * (tti * SUBFRAMES) + (r * tti + into) by {
      assert k == f * SUBFRAMES + r;
      SplitProduct(f, r, tti);
    }
    assert 0 <= r * tti + into < tti * SUBFRAMES by {
      MulLe(0, r, tti);
      MulLe(r + 1, SUBFRAMES, tti);
      assert (r + 1) * tti == r * tti + tti;
    }
    DivModUnique(f, r * tti + into, tti * SUBFRAMES);
  }

  lemma SplitProduct(f: int, r: int, tti: int)
    ensures (f * SUBFRAMES + r) * tti == f * (tti * SUBFRAMES) + r * tti
  {
  }

  /** A subframe count written as cycles, frames and subframes. */
  lemma Digits(k: nat, cycles: int, frame: int, subframe: int)
    requires 0 <= frame < FRAME_CYCLE && 0 <= subframe < SUBFRAMES
    requires k == cycles * CYCLE + frame * SUBFRAMES + subframe
    ensures k % SUBFRAMES == subframe
    ensures (k / SUBFRAMES) % FRAME_CYCLE == frame
    ensures k % CYCLE == frame * SUBFRAMES + subframe
  {
    assert k / SUBFRAMES == cycles * FRAME_CYCLE + frame;
  }

  function CyclesOf(k: nat): nat {
    k / SUBFRAMES / FRAME_CYCLE
  }

  lemma TickNumbers(k: nat, ru: Ru)
    requires ru.subframe == k % SUBFRAMES && ru.frame == (k / SUBFRAMES) % FRAME_CYCLE
    ensures Tick(ru).subframe == (k + 1) % SUBFRAMES && Tick(ru).frame == ((k + 1) / SUBFRAMES) % FRAME_CYCLE
  {
    var cycles := CyclesOf(k);
    if ru.subframe < SUBFRAMES - 1 {
      Digits(k + 1, cycles, ru.frame, ru.subframe + 1);
    } else if ru.frame < FRAME_CYCLE - 1 {
      Digits(k + 1, cycles, ru.frame + 1, 0);
    } else {
      Digits(k + 1, cycles + 1, 0, 0);
    }
  }

  /** A timestamp in the subframe the counters show passes the comparison. */
  lemma CheckedOnGrid(tti: nat, ru: Ru, k: nat, into: nat, t: int)
    requires !ru.firstRx && !ru.exited && into < tti && t == k * tti + into
    requires ru.subframe == k % SUBFRAMES && ru.frame == (k / SUBFRAMES) % FRAME_CYCLE
    ensures OnGrid(tti, Checked(tti, ru, t), k, into)
  {
    NumbersOf(tti, k, into, t);
  }

  /** Whatever the device returns, an ordinary reception advances by exactly one subframe. */
  lemma OrdinaryReception(tti: nat, ru: Ru, k: nat, into: nat, ts: int)
    requires OnGrid(tti, ru, k, into)
    ensures OnGrid(tti, Received(tti, Tick(ru), ts, None), k + 1, into)
  {
    TickNumbers(k, ru);
    assert (k + 1) * tti == k * tti + tti;
    CheckedOnGrid(tti, Tick(ru).(tsOffset := ts - ru.timestampRx - tti), k + 1, into, ru.timestampRx + tti);
  }

  /** Subframe reached by a resynchronisation at subframe `k` to frame `target`. */
  ghost function ResynchedTo(k: nat, target: nat): nat {
    k + 1 - ((k / SUBFRAMES) % FRAME_CYCLE - target) * SUBFRAMES
  }

  lemma ResynchedNumbers(k: nat, target: nat)
    requires target < FRAME_CYCLE
    ensures ResynchedTo(k, target) % SUBFRAMES == (k + 1) % SUBFRAMES
    ensures (ResynchedTo(k, target) / SUBFRAMES) % FRAME_CYCLE
      == if (k + 1) % SUBFRAMES != 0 then target else (target + 1) % FRAME_CYCLE
  {
    var cycles, s := CyclesOf(k), k % SUBFRAMES;
    var to := ResynchedTo(k, target);
    assert to == cycles * CYCLE + target * SUBFRAMES + s + 1;
    if s + 1 < SUBFRAMES {
      Digits(to, cycles, target, s + 1);
    } else if target + 1 < FRAME_CYCLE {
      Digits(to, cycles, target + 1, 0);
    } else {
      Digits(to, cycles + 1, 0, 0);
    }
  }

  /** Where the timestamp ends up, for a device that drifted by `drift` samples since the last call. */
  lemma ResynchTimestamp(tti: nat, ru: Ru, k: nat, into: nat, ts: int, target: nat, drift: int)
    requires OnGrid(tti, ru, k, into)
    requires drift == ts - ru.tsOffset - ru.timestampRx - tti
    ensures ts - ShiftedOffset(tti, ru, target) == ResynchedTo(k, target) * tti + into + drift
  {
    var d := (k / SUBFRAMES) % FRAME_CYCLE - target;
    ResynchProduct(k, d, tti);
  }

  lemma ResynchProduct(k: int, d: int, tti: int)
    ensures (k + 1 - d * SUBFRAMES) * tti == k * tti + tti - d * tti * SUBFRAMES
  {
  }

  /**
   A resynchronisation without drift is accepted exactly when it does not fall on subframe 0; it then keeps the
   subframe, takes the commanded frame number and leaves a non-negative timestamp.
   */
  lemma ResynchWithoutDrift(tti: nat, ru: Ru, k: nat, into: nat, ts: int, target: nat)
    requires OnGrid(tti, ru, k, into) && target < FRAME_CYCLE
    requires ts - ru.tsOffset == ru.timestampRx + tti
    ensures var after := Received(tti, Tick(ru), ts, Some(target));
      && (after.exited <==> (k + 1) % SUBFRAMES == 0)
      && (!after.exited ==>
            && after.subframe == (k + 1) % SUBFRAMES && after.frame == target && 0 <= after.timestampRx
            && OnGrid(tti, after, ResynchedTo(k, target), into))
  {
    var to := ResynchedTo(k, target);
    var t := ts - ShiftedOffset(tti, ru, target);
    ResynchTimestamp(tti, ru, k, into, ts, target, 0);
    ResynchedNumbers(k, target);
    NumbersOf(tti, to, into, t);
    TickNumbers(k, ru);
  }

  /**
   With drift the call is not corrected. Outside subframe 0 it is accepted only if the drift stays within the subframe;
   at subframe 0 only if the timestamp falls back by ten subframes (each modulo the frame cycle).
   */
  lemma ResynchWithDrift(tti: nat, ru: Ru, k: nat, into: nat, ts: int, target: nat, drift: int)
    requires OnGrid(tti, ru, k, into) && target < FRAME_CYCLE
    requires drift == ts - ru.tsOffset - ru.timestampRx - tti
    ensures (k + 1) % SUBFRAMES != 0 ==>
      (Received(tti, Tick(ru), ts, Some(target)).exited
       <==> ResynchedTo(k, target) + (into + drift) / tti < 0 || ((into + drift) / tti) % CYCLE != 0)
    ensures (k + 1) % SUBFRAMES == 0 ==>
      (Received(tti, Tick(ru), ts, Some(target)).exited
       <==> (Landing(tti, k, into, target, drift) - ResynchedTo(k, target) + SUBFRAMES) % CYCLE != 0)
  {
    var t := ts - ShiftedOffset(tti, ru, target);
    ResynchTimestamp(tti, ru, k, into, ts, target, drift);
    TickNumbers(k, ru);
    if (k + 1) % SUBFRAMES != 0 {
      DriftOutsideZero(tti, k, into, target, drift, t);
    } else {
      DriftAtZero(tti, k, target, t);
    }
  }

  /** Subframe the shifted timestamp lands on, as C truncates it. */
  ghost function Landing(tti: nat, k: nat, into: nat, target: nat, drift: int): int
    requires 0 < tti
  {
    CDiv(ResynchedTo(k, target) * tti + into + drift, tti)
  }

  lemma DriftOutsideZero(tti: nat, k: nat, into: nat, target: nat, drift: int, t: int)
    requires 0 < tti && target < FRAME_CYCLE && (k + 1) % SUBFRAMES != 0
    requires t == ResynchedTo(k, target) * tti + into + drift
    ensures SubframeOf(tti, t) != (k + 1) % SUBFRAMES || FrameOf(tti, t) != target
      <==> ResynchedTo(k, target) + (into + drift) / tti < 0 || ((into + drift) / tti) % CYCLE != 0
  {
    var to, m, rest := ResynchedTo(k, target), (into + drift) / tti, (into + drift) % tti;
    ResynchedNumbers(k, target);
    Regroup(to, into + drift, tti, t);
    if 0 <= to + m {
      NumbersOf(tti, to + m, rest, t);
      SameNumbers(to, m);
    } else {
      BeforeZero(tti, to + m, rest, t);
    }
  }

  lemma DriftAtZero(tti: nat, k: nat, target: nat, t: int)
    requires 0 < tti && target < FRAME_CYCLE && (k + 1) % SUBFRAMES == 0
    ensures SubframeOf(tti, t) != 0 || FrameOf(tti, t) != target
      <==> (CDiv(t, tti) - ResynchedTo(k, target) + SUBFRAMES) % CYCLE != 0
  {
    var q, to := CDiv(t, tti), ResynchedTo(k, target);
    TruncatedNumbers(tti, t, q);
    assert to == CyclesOf(k) * CYCLE + (target + 1) * SUBFRAMES;
    ZeroNumbers(q, target);
    CycleShift(q, to, CyclesOf(k), target);
  }

  /** Truncating by frames is truncating by subframes first. */
  lemma TruncatedNumbers(tti: nat, t: int, q: int)
    requires 0 < tti && q == CDiv(t, tti)
    ensures SubframeOf(tti, t) == CRem(q, SUBFRAMES) && FrameOf(tti, t) == CDiv(q, SUBFRAMES) % FRAME_CYCLE
  {
    if 0 <= t {
      DivOfDiv(t, tti);
    } else {
      DivOfDiv(-t, tti);
    }
  }

  lemma DivOfDiv(a: nat, tti: nat)
    requires 0 < tti
    ensures 0 <= a / tti && a / (tti * SUBFRAMES) == a / tti / SUBFRAMES
  {
    var q, r := a / tti, a % tti;
    assert a == q * tti + r;
    if q < 0 {
      MulLe(q, -1, tti);
    }
    NumbersOf(tti, q, r, a);
    var f, s := q / SUBFRAMES, q % SUBFRAMES;
    SplitProduct(f, s, tti);
    assert 0 <= s * tti + r < tti * SUBFRAMES by {
      MulLe(0, s, tti);
      MulLe(s + 1, SUBFRAMES, tti);
      OneMore(s, tti);
    }
    DivModUnique(f, s * tti + r, tti * SUBFRAMES);
    assert a == f * (tti * SUBFRAMES) + (s * tti + r);
  }

  lemma ZeroNumbers(q: int, target: nat)
    requires target < FRAME_CYCLE
    ensures CRem(q, SUBFRAMES) == 0 && CDiv(q, SUBFRAMES) % FRAME_CYCLE == target <==> q % CYCLE == target * SUBFRAMES
  {
    if q % SUBFRAMES == 0 {
      var f := q / SUBFRAMES;
      assert q == f * SUBFRAMES && CDiv(q, SUBFRAMES) == f && CRem(q, SUBFRAMES) == 0;
      var c, r := f / FRAME_CYCLE, f % FRAME_CYCLE;
      assert q == c * CYCLE + r * SUBFRAMES;
      DivModUnique(c, r * SUBFRAMES, CYCLE);
    } else {
      assert CRem(q, SUBFRAMES) != 0;
      var c := q / CYCLE;
      assert q == c * CYCLE + q % CYCLE;
    }
  }

  lemma CycleShift(q: int, to: int, cycles: int, target: nat)
    requires target < FRAME_CYCLE && to == cycles * CYCLE + (target + 1) * SUBFRAMES
    ensures (q - to + SUBFRAMES) % CYCLE == 0 <==> q % CYCLE == target * SUBFRAMES
  {
    var x := q - target * SUBFRAMES;
    assert q - to + SUBFRAMES == x + (-cycles) * CYCLE;
    DivModShift(x, -cycles, CYCLE);
    SameRemainder(target * SUBFRAMES, x);
    DivModUnique(0, target * SUBFRAMES, CYCLE);
  }

  lemma Regroup(to: int, extra: int, tti: nat, t: int)
    requires 0 < tti && t == to * tti + extra
    ensures t == (to + extra / tti) * tti + extra % tti
  {
    var m := extra / tti;
    assert extra == m * tti + extra % tti;
    assert (to + m) * tti == to * tti + m * tti;
  }

  /** A negative timestamp has no positive subframe number. */
  lemma BeforeZero(tti: nat, k: int, into: nat, t: int)
    requires into < tti && k < 0 && t == k * tti + into
    ensures SubframeOf(tti, t) <= 0
  {
    MulLe(k, -1, tti);
  }

  lemma SameNumbers(to: nat, m: int)
    requires 0 <= to + m
    ensures (to + m) % SUBFRAMES == to % SUBFRAMES && ((to + m) / SUBFRAMES) % FRAME_CYCLE == (to / SUBFRAMES) % FRAME_CYCLE
      <==> m % CYCLE == 0
  {
    var there := to + m;
    Digits(to, CyclesOf(to), (to / SUBFRAMES) % FRAME_CYCLE, to % SUBFRAMES);
    Digits(there, CyclesOf(there), (there / SUBFRAMES) % FRAME_CYCLE, there % SUBFRAMES);
    SameRemainder(to, m);
  }

  lemma SameRemainder(a: int, m: int)
    ensures (a + m) % CYCLE == a % CYCLE <==> m % CYCLE == 0
  {
    var q, r := m / CYCLE, m % CYCLE;
    DivModShift(a + r, q, CYCLE);
    assert a + m == (a + r) + q * CYCLE;
    if r != 0 {
      assert (a + r) % CYCLE != a % CYCLE;
    }
  }

  datatype Input = Input(ts: int, command: Option<nat>)

  /** Commands come only in drift-free calls outside subframe 0; timestamps are otherwise arbitrary. */
  ghost predicate CommandsAreClean(tti: nat, ru: Ru, inputs: seq<Input>)
    requires 0 < tti
    decreases inputs
  {
    inputs != [] ==>
      && (inputs[0].command.Some? ==>
            && inputs[0].command.value < FRAME_CYCLE
            && Tick(ru).subframe != 0
            && inputs[0].ts - ru.tsOffset == ru.timestampRx + tti)
      && CommandsAreClean(tti, Received(tti, Tick(ru), inputs[0].ts, inputs[0].command), inputs[1..])
  }

  function AfterRun(tti: nat, ru: Ru, inputs: seq<Input>): Ru
    requires 0 < tti
    decreases inputs
  {
    if inputs == [] then ru else AfterRun(tti, Received(tti, Tick(ru), inputs[0].ts, inputs[0].command), inputs[1..])
  }

  /** The absolute subframe a run ends in. */
  ghost function EndOf(k: nat, inputs: seq<Input>): nat
    decreases inputs
  {
    if inputs == [] then k else EndOf(NextSubframe(k, inputs[0].command), inputs[1..])
  }

  ghost function NextSubframe(k: nat, command: Option<nat>): nat {
    if command.Some? then ResynchedTo(k, command.value) else k + 1
  }

  lemma CleanStep(tti: nat, ru: Ru, k: nat, into: nat, input: Input, after: Ru)
    requires OnGrid(tti, ru, k, into) && after == Received(tti, Tick(ru), input.ts, input.command)
    requires input.command.Some? ==>
        input.command.value < FRAME_CYCLE && Tick(ru).subframe != 0 && input.ts - ru.tsOffset == ru.timestampRx + tti
    ensures OnGrid(tti, after, NextSubframe(k, input.command), into)
  {
    if input.command.None? {
      OrdinaryReception(tti, ru, k, into, input.ts);
    } else {
      TickNumbers(k, ru);
      ResynchWithoutDrift(tti, ru, k, into, input.ts, input.command.value);
    }
  }

  /** Over any run the timestamp stays in the counters' subframe and no mismatch exit is taken. */
  lemma {:induction false} CountersAgree(tti: nat, ru: Ru, k: nat, into: nat, inputs: seq<Input>)
    requires OnGrid(tti, ru, k, into) && CommandsAreClean(tti, ru, inputs)
    ensures OnGrid(tti, AfterRun(tti, ru, inputs), EndOf(k, inputs), into)
    decreases inputs
  {
    if inputs != [] {
      var after := Received(tti, Tick(ru), inputs[0].ts, inputs[0].command);
      CleanStep(tti, ru, k, into, inputs[0], after);
      CountersAgree(tti, after, NextSubframe(k, inputs[0].command), into, inputs[1..]);
    }
  }

  /**
   After a reception the offset leads from the timestamp back to the device's, whatever the device returned and with or
   without a command; after the very first one, exactly when the offset was zero before.
   */
  lemma OffsetFollowsDevice(tti: nat, ru: Ru, ts: int, command: Option<nat>)
    requires 0 < tti
    ensures var after := Received(tti, ru, ts, command);
      && (!ru.firstRx ==> after.timestampRx + after.tsOffset == ts)
      && (ru.firstRx && command.None? ==> (after.timestampRx + after.tsOffset == ts <==> ru.tsOffset == 0))
  {
  }

  /**
   Over any run, accepted or not, the offset leads from the timestamp to that of the samples just received; so what tx_rf
   sends at a timestamp plus the offset goes out as long after these samples as the timestamps say.
   */
  lemma {:induction false} OffsetFollowsRun(tti: nat, ru: Ru, inputs: seq<Input>)
    requires 0 < tti && !ru.firstRx && inputs != []
    ensures var after := AfterRun(tti, ru, inputs);
      after.timestampRx + after.tsOffset == inputs[|inputs| - 1].ts
    decreases inputs
  {
    var next := Received(tti, Tick(ru), inputs[0].ts, inputs[0].command);
    if |inputs| == 1 {
      OffsetFollowsDevice(tti, Tick(ru), inputs[0].ts, inputs[0].command);
      assert AfterRun(tti, next, inputs[1..]) == next;
    } else {
      OffsetFollowsRun(tti, next, inputs[1..]);
    }
  }

  /** Without commands each call is one subframe, for all device timestamps. */
  lemma {:induction false} EndWithoutCommands(tti: nat, ru: Ru, k: nat, inputs: seq<Input>)
    requires 0 < tti && forall i :: 0 <= i < |inputs| ==> inputs[i].command.None?
    ensures EndOf(k, inputs) == k + |inputs| && CommandsAreClean(tti, ru, inputs)
    decreases inputs
  {
    if inputs != [] {
      EndWithoutCommands(tti, Received(tti, Tick(ru), inputs[0].ts, None), k + 1, inputs[1..]);
    }
  }

  /** The first reception starts the run at frame 0, subframe 0, whatever the device returns. */
  lemma FirstReception(tti: nat, ru: Ru, ts: int, command: Option<nat>)
    requires 0 < tti && ru.firstRx && !ru.exited
    ensures OnGrid(tti, Received(tti, ru, ts, command), 0, 0)
  {
  }

  // -------------------------------------------------------------------------------------------
  // Unwrapped transmit timestamps
  // -------------------------------------------------------------------------------------------

  datatype SubframeType = SF_DL | SF_UL | SF_S

  /** subframe_select: None for FDD, else the TDD configurations the program supports. */
  function SubframeSelect(tdd: Option<nat>, subframe: nat): SubframeType
    requires tdd.Some? ==> tdd.value in {1, 3, 4, 5}
  {
    if tdd.None? then SF_DL
    else if tdd.value == 1 then
      if subframe in {0, 4, 5, 9} then SF_DL else if subframe in {2, 3, 7, 8} then SF_UL else SF_S
    else
      var lastUplink := if tdd.value == 3 then 4 else if tdd.value == 4 then 3 else 2;
      if subframe < 1 || subframe > lastUplink then SF_DL else if subframe > 1 then SF_UL else SF_S
  }

  /** Table 4.2-2 of 3GPP TS 36.211 for these configurations. */
  function Table(tdd: nat): string
    requires tdd in {1, 3, 4, 5}
  {
    match tdd
    case 1 => "DSUUDDSUUD"
    case 3 => "DSUUUDDDDD"
    case 4 => "DSUUDDDDDD"
    case _ => "DSUDDDDDDD"
  }

  lemma SubframesFollowTheTable(tdd: nat, subframe: nat)
    requires tdd in {1, 3, 4, 5} && subframe < SUBFRAMES
    ensures |Table(tdd)| == SUBFRAMES
    ensures SubframeSelect(Some(tdd), subframe) == SF_DL <==> Table(tdd)[subframe] == 'D'
    ensures SubframeSelect(Some(tdd), subframe) == SF_UL <==> Table(tdd)[subframe] == 'U'
    ensures SubframeSelect(Some(tdd), subframe) == SF_S <==> Table(tdd)[subframe] == 'S'
  {
  }

  /** The subframes of a frame for which the north side sends data. */
  function Delivered(tdd: Option<nat>): seq<bool>
    requires tdd.Some? ==> tdd.value in {1, 3, 4, 5}
  {
    seq(SUBFRAMES, s requires 0 <= s < SUBFRAMES => SubframeSelect(tdd, s) != SF_UL)
  }

  /** frame_tx_unwrap, and the timestamp (in subframes) of one received subframe. */
  function NextUnwrap(unwrap: int, frame: int, subframe: int): int {
    if frame == 0 && subframe == 0 then unwrap + FRAME_CYCLE else unwrap
  }

  class NorthInterface {
    var frameTxUnwrap: int

    constructor ()
      ensures frameTxUnwrap == 0
    {
      frameTxUnwrap := 0;
    }

    /**
     The subframe `a` of a stream that began at `start` gets the timestamp of the unwrapped count, and the interface
     is ready for the next subframe of the stream.
     */
    method Receive(frame: int, subframe: int, tti: nat, ghost delivered: seq<bool>, ghost start: nat, ghost a: nat)
      returns (timestampTx: int)
      requires |delivered| == SUBFRAMES && start <= a
      modifies this
      ensures frameTxUnwrap == NextUnwrap(old(frameTxUnwrap), frame, subframe)
      ensures Follows(delivered, start, a, old(frameTxUnwrap), frame, subframe) ==>
        && timestampTx == Unwrapped(delivered, start, a) * tti
        && frameTxUnwrap == UnwrapBefore(delivered, start, a + 1)
    {
      if frame == 0 && subframe == 0 {
        frameTxUnwrap := frameTxUnwrap + FRAME_CYCLE;
      }
      timestampTx := ((frame + frameTxUnwrap) * SUBFRAMES + subframe) * tti;
    }
  }

  /** The call for subframe `a`, made after the calls for all delivered subframes from `start` on. */
  ghost predicate Follows(delivered: seq<bool>, start: nat, a: nat, unwrap: int, frame: int, subframe: int)
    requires |delivered| == SUBFRAMES && start <= a
  {
    && IsDelivered(delivered, a) && unwrap == UnwrapBefore(delivered, start, a)
    && frame == (a / SUBFRAMES) % FRAME_CYCLE && subframe == a % SUBFRAMES
  }

  ghost predicate IsDelivered(delivered: seq<bool>, a: nat)
    requires |delivered| == SUBFRAMES
  {
    delivered[a % SUBFRAMES]
  }

  /** frame_tx_unwrap once the stream from subframe `start` has been received before subframe `a`. */
  ghost function UnwrapBefore(delivered: seq<bool>, start: nat, a: nat): int
    requires |delivered| == SUBFRAMES && start <= a
    decreases a
  {
    if a == start then 0
    else
      var before := UnwrapBefore(delivered, start, a - 1);
      if IsDelivered(delivered, a - 1)
      then NextUnwrap(before, ((a - 1) / SUBFRAMES) % FRAME_CYCLE, (a - 1) % SUBFRAMES) else before
  }

  /** The transmit timestamp of subframe `a`, in subframes. */
  ghost function Unwrapped(delivered: seq<bool>, start: nat, a: nat): int
    requires |delivered| == SUBFRAMES && start <= a
  {
    var frame, subframe := (a / SUBFRAMES) % FRAME_CYCLE, a % SUBFRAMES;
    (frame + NextUnwrap(UnwrapBefore(delivered, start, a), frame, subframe)) * SUBFRAMES + subframe
  }

  /** Wraps of the frame number seen from `start` up to, not including, `a`. */
  function Wraps(start: nat, a: nat): int {
    (a + CYCLE - 1) / CYCLE - (start + CYCLE - 1) / CYCLE
  }

  lemma {:induction false} UnwrapCountsWraps(delivered: seq<bool>, start: nat, a: nat)
    requires |delivered| == SUBFRAMES && delivered[0] && start <= a
    ensures UnwrapBefore(delivered, start, a) == FRAME_CYCLE * Wraps(start, a)
    decreases a
  {
    if start < a {
      UnwrapCountsWraps(delivered, start, a - 1);
      WrapStep(start, a - 1);
    }
  }

  lemma WrapStep(start: nat, a: nat)
    ensures Wraps(start, a + 1) == Wraps(start, a) + (if a % CYCLE == 0 then 1 else 0)
    ensures a % CYCLE == 0 <==> (a / SUBFRAMES) % FRAME_CYCLE == 0 && a % SUBFRAMES == 0
    ensures a % CYCLE == ((a / SUBFRAMES) % FRAME_CYCLE) * SUBFRAMES + a % SUBFRAMES
  {
    Digits(a, CyclesOf(a), (a / SUBFRAMES) % FRAME_CYCLE, a % SUBFRAMES);
  }

  lemma WrapsValue(start: nat, a: nat)
    ensures a % CYCLE + CYCLE * Wraps(start, a + 1)
      == a - start + start % CYCLE + (if start % CYCLE == 0 then CYCLE else 0)
  {
    assert (a + CYCLE) / CYCLE == a / CYCLE + 1;
    assert (start + CYCLE - 1) / CYCLE == start / CYCLE + (if start % CYCLE == 0 then 0 else 1);
  }

  lemma CyclesVanish(r: int, wraps: int)
    requires 0 <= r < CYCLE
    ensures (r + CYCLE * wraps) % CYCLE == r
  {
  }

  /** Over any number of wraps the timestamp is the true subframe count up to a constant. */
  lemma UnwrappedIsLinear(delivered: seq<bool>, start: nat, a: nat)
    requires |delivered| == SUBFRAMES && delivered[0] && start <= a
    ensures Unwrapped(delivered, start, a)
      == a - start + start % CYCLE + (if start % CYCLE == 0 then CYCLE else 0)
    ensures Unwrapped(delivered, start, a) % CYCLE == ((a / SUBFRAMES) % FRAME_CYCLE) * SUBFRAMES + a % SUBFRAMES
  {
    UnwrapCountsWraps(delivered, start, a);
    WrapStep(start, a);
    WrapsValue(start, a);
    assert Unwrapped(delivered, start, a) == a % CYCLE + CYCLE * Wraps(start, a + 1);
    CyclesVanish(a % CYCLE, Wraps(start, a + 1));
  }

  /** Timestamps of delivered subframes increase, for every stream, exactly when subframe 0 is delivered. */
  lemma UnwrappedIncreasesIff(delivered: seq<bool>, some: nat)
    requires |delivered| == SUBFRAMES && some < SUBFRAMES && delivered[some]
    ensures (forall start: nat, a: nat, b: nat ::
               start <= a < b && IsDelivered(delivered, a) && IsDelivered(delivered, b) ==>
               Unwrapped(delivered, start, a) < Unwrapped(delivered, start, b))
      <==> delivered[0]
  {
    if delivered[0] {
      forall start: nat, a: nat, b: nat | start <= a < b
        ensures Unwrapped(delivered, start, a) < Unwrapped(delivered, start, b)
      {
        UnwrappedIsLinear(delivered, start, a);
        UnwrappedIsLinear(delivered, start, b);
      }
    } else {
      NeverUnwraps(delivered, 0, some);
      NeverUnwraps(delivered, 0, some + CYCLE);
      assert IsDelivered(delivered, some) && IsDelivered(delivered, some + CYCLE);
      assert Unwrapped(delivered, 0, some + CYCLE) == Unwrapped(delivered, 0, some);
    }
  }

  lemma {:induction false} NeverUnwraps(delivered: seq<bool>, start: nat, a: nat)
    requires |delivered| == SUBFRAMES && !delivered[0] && start <= a
    ensures UnwrapBefore(delivered, start, a) == 0
    decreases a
  {
    if start < a {
      NeverUnwraps(delivered, start, a - 1);
    }
  }

  /** Subframe 0 is downlink in FDD and in every supported TDD configuration. */
  lemma SubframeZeroIsDelivered(tdd: Option<nat>, start: nat, a: nat, b: nat)
    requires tdd.Some? ==> tdd.value in {1, 3, 4, 5}
    requires start <= a < b && IsDelivered(Delivered(tdd), a) && IsDelivered(Delivered(tdd), b)
    ensures Unwrapped(Delivered(tdd), start, b) - Unwrapped(Delivered(tdd), start, a) == b - a
  {
    UnwrappedIsLinear(Delivered(tdd), start, a);
    UnwrappedIsLinear(Delivered(tdd), start, b);
  }
}
