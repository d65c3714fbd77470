/**
 Gathering the reports of several LTE radio units before L1 is woken (wakeup_L1s and the wait counter of
 ru_thread, executables/lte-ru.c). There is one mask of reported units per subframe.
 */
module LteGather {

  const SUBFRAMES := 10

  /** One entry of RU_list: in state RU_SYNC or not, slave or not, and its wait counter. */
  datatype Ru = Ru(sync: bool, slave: bool, waitCnt: nat)

  /** A unit whose own report is needed. */
  predicate Running(ru: Ru) {
    !ru.sync && ru.waitCnt == 0
  }

  /** Only slaves are made to wait. */
  ghost predicate WellFormed(rus: seq<Ru>) {
    forall i :: 0 <= i < |rus| ==> rus[i].waitCnt > 0 ==> rus[i].slave
  }

  ghost predicate SomeRunning(rus: seq<Ru>) {
    exists i :: 0 <= i < |rus| && Running(rus[i])
  }

  /** A wait counter of one is cleared by any call outside subframe 9. */
  function Released(ru: Ru, subframe: nat): Ru {
    if ru.waitCnt == 1 && subframe != 9 then ru.(waitCnt := 0) else ru
  }

  /** Whether a call marks the unit as reported; `own` when the unit makes the call itself. */
  predicate Marks(ru: Ru, own: bool) {
    (own && ru.waitCnt == 0) || ru.sync || (ru.slave && ru.waitCnt > 0 && !own)
  }

  predicate Full(mask: seq<bool>) {
    forall i :: 0 <= i < |mask| ==> mask[i]
  }

  function Empty(n: nat): seq<bool> {
    seq(n, i => false)
  }

  function ReleasedAll(rus: seq<Ru>, subframe: nat): seq<Ru> {
    seq(|rus|, i requires 0 <= i < |rus| => Released(rus[i], subframe))
  }

  function Marked(rus: seq<Ru>, mask: seq<bool>, caller: nat, subframe: nat): seq<bool>
    requires |mask| == |rus|
  {
    seq(|rus|, i requires 0 <= i < |rus| => mask[i] || Marks(Released(rus[i], subframe), i == caller))
  }

  datatype Outcome = Incomplete | ResetOnly | WakeUp

  class Gather {
    var rus: seq<Ru>
    var masks: seq<seq<bool>>

    ghost predicate Valid()
      reads this
    {
      |masks| == SUBFRAMES && forall s :: 0 <= s < SUBFRAMES ==> |masks[s]| == |rus|
    }

    constructor (units: seq<Ru>)
      ensures Valid() && rus == units
      ensures forall s :: 0 <= s < SUBFRAMES ==> masks[s] == Empty(|units|)
    {
      rus := units;
      masks := seq(SUBFRAMES, s => Empty(|units|));
    }

    /** wakeup_L1s for unit `caller` at its current subframe. */
    method WakeupL1s(caller: nat, subframe: nat) returns (outcome: Outcome)
      requires Valid() && caller < |rus| && subframe < SUBFRAMES
      modifies this
      ensures Valid()
      ensures rus == ReleasedAll(old(rus), subframe)
      ensures var marked := Marked(old(rus), old(masks[subframe]), caller, subframe);
        && masks == old(masks)[subframe := if Full(marked) then Empty(|rus|) else marked]
        && (outcome == Incomplete <==> !Full(marked))
        && (outcome == WakeUp <==> Full(marked) && rus[caller].waitCnt == 0)
    {
      ghost var rus0, mask0 := rus, masks[subframe];
      var mask, i, full := masks[subframe], 0, true;
      while i < |rus|
        invariant i <= |rus| == |rus0| == |mask| == |mask0| && masks == old(masks)
        invariant forall j :: 0 <= j < i ==> rus[j] == Released(rus0[j], subframe)
        invariant forall j :: 0 <= j < i ==> mask[j] == (mask0[j] || Marks(Released(rus0[j], subframe), j == caller))
        invariant forall j :: i <= j < |rus| ==> rus[j] == rus0[j] && mask[j] == mask0[j]
        invariant full <==> forall j :: 0 <= j < i ==> mask[j]
      {
        if rus[i].waitCnt == 1 && subframe != 9 {
          rus := rus[i := rus[i].(waitCnt := 0)];
        }
        if i == caller && rus[i].waitCnt == 0 {
          mask := mask[i := true];
        } else if rus[i].sync || (rus[i].slave && rus[i].waitCnt > 0 && i != caller) {
          mask := mask[i := true];
        }
        full := full && mask[i];
        i := i + 1;
      }
      assert rus == ReleasedAll(rus0, subframe);
      assert mask == Marked(rus0, mask0, caller, subframe);
      if full {
        masks := masks[subframe := Empty(|rus|)];
        outcome := if rus[caller].waitCnt == 0 then WakeUp else ResetOnly;
      } else {
        masks := masks[subframe := mask];
        outcome := Incomplete;
      }
    }
  }

  /** A call passes over just two kinds of units: running ones other than the caller, and the caller while it waits. */
  lemma UnmarkedIff(ru: Ru, own: bool)
    requires ru.waitCnt > 0 ==> ru.slave
    ensures !Marks(ru, own) <==> !ru.sync && (own <==> ru.waitCnt > 0)
  {
  }

  /** One iteration of a unit's thread in a subframe: count down, then the call that may release it. */
  function AfterIteration(ru: Ru, subframe: nat): Ru {
    Released(if ru.waitCnt > 0 then ru.(waitCnt := ru.waitCnt - 1) else ru, subframe)
  }

  /** Iterations in consecutive subframes, the first one in `subframe`. */
  function AfterIterations(ru: Ru, subframe: nat, n: nat): Ru {
    if n == 0 then ru else AfterIteration(AfterIterations(ru, subframe, n - 1), (subframe + n - 1) % SUBFRAMES)
  }

  /**
   A unit made to wait for `count` iterations is released one early, in its last but one, unless that is in subframe 9; so
   its first report is never for subframe 9.
   */
  lemma {:induction false} WaitEnds(ru: Ru, count: nat, subframe: nat, n: nat)
    requires 2 <= count == ru.waitCnt
    ensures var left := AfterIterations(ru, subframe, n).waitCnt;
      && (n < count - 1 ==> left == count - n)
      && (n == count - 1 ==> left == if (subframe + n - 1) % SUBFRAMES == 9 then 1 else 0)
      && (count <= n ==> left == 0)
  {
    if 0 < n {
      WaitEnds(ru, count, subframe, n - 1);
    }
  }

  // -------------------------------------------------------------------------------------------
  // Runs, seen from one subframe
  // -------------------------------------------------------------------------------------------

  /**
   The mask of one subframe, with the units that were running when it was last reset, the units that have reported
   since, and the units that started running since while they were already marked.
   */
  datatype View = View(rus: seq<Ru>, mask: seq<bool>, startedWith: set<nat>, reported: set<nat>, early: set<nat>)

  function Begin(rus: seq<Ru>): View {
    View(rus, Empty(|rus|), RunningSet(rus), {}, {})
  }

  function RunningSet(rus: seq<Ru>): set<nat> {
    set i: nat | i < |rus| && Running(rus[i])
  }

  /** Units that start running in the step to `later` although their bit is already set. */
  function Early(v: View, later: seq<Ru>): set<nat>
    requires |v.mask| == |v.rus| == |later|
  {
    v.early + set i: nat | i < |later| && v.mask[i] && !Running(v.rus[i]) && Running(later[i])
  }

  /** Units only move towards running: a running unit stays so. */
  ghost predicate Progress(rus: seq<Ru>, later: seq<Ru>) {
    && |later| == |rus| && WellFormed(later)
    && forall i :: 0 <= i < |rus| && Running(rus[i]) ==> Running(later[i])
  }

  datatype Step =
    | Move(later: seq<Ru>)                 // states and counters advance, including calls for other subframes
    | Call(caller: nat)                    // wakeup_L1s for this subframe

  ghost predicate Enabled(v: View, step: Step) {
    match step
    case Move(later) => Progress(v.rus, later)
    case Call(caller) => caller < |v.rus|
  }

  ghost function Next(v: View, step: Step, subframe: nat): View
    requires |v.mask| == |v.rus| && Enabled(v, step)
  {
    match step
    case Move(later) => Moved(v, later)
    case Call(caller) =>
      var later := ReleasedAll(v.rus, subframe);
      var marked := Marked(v.rus, v.mask, caller, subframe);
      if Full(marked) then Begin(later)
      else View(later, marked, v.startedWith, Reported(v, caller, subframe), Early(v, later))
  }

  function Moved(v: View, later: seq<Ru>): View
    requires |v.mask| == |v.rus| == |later|
  {
    v.(rus := later, early := Early(v, later))
  }

  /** A call delivers the caller's own report once it no longer waits. */
  ghost function Reported(v: View, caller: nat, subframe: nat): set<nat>
    requires caller < |v.rus|
  {
    if Released(v.rus[caller], subframe).waitCnt == 0 then v.reported + {caller} else v.reported
  }

  ghost predicate Inv(v: View) {
    && |v.mask| == |v.rus| && WellFormed(v.rus)
    && (exists i :: 0 <= i < |v.rus| && Running(v.rus[i]) && !v.mask[i])
    && (forall i :: i in v.startedWith ==> i < |v.rus| && Running(v.rus[i]) && (v.mask[i] ==> i in v.reported))
    && (forall i: nat :: i < |v.rus| && Running(v.rus[i]) && v.mask[i] && i !in v.reported ==> i in v.early)
    && (forall i :: i in v.early ==> i < |v.rus| && Running(v.rus[i]) && v.mask[i])
  }

  lemma InitialInv(rus: seq<Ru>)
    requires WellFormed(rus) && SomeRunning(rus)
    ensures Inv(Begin(rus))
  {
    var i :| 0 <= i < |rus| && Running(rus[i]);
    assert !Empty(|rus|)[i];
  }

  /** Clearing wait counters is a move towards running, whichever subframe it happens in. */
  lemma ReleaseIsProgress(rus: seq<Ru>, subframe: nat)
    requires WellFormed(rus)
    ensures Progress(rus, ReleasedAll(rus, subframe))
  {
  }

  /** The call of a unit that still waits leaves some running unit unmarked. */
  lemma WaitingCallNeverCompletes(v: View, caller: nat, subframe: nat)
    requires Inv(v) && caller < |v.rus| && Released(v.rus[caller], subframe).waitCnt > 0
    ensures !Full(Marked(v.rus, v.mask, caller, subframe))
  {
    var i :| 0 <= i < |v.rus| && Running(v.rus[i]) && !v.mask[i];
    assert !Marked(v.rus, v.mask, caller, subframe)[i];
  }

  /** A call that completes the mask is a wake-up, and every unit running since the last one has reported. */
  lemma CompletionIsWakeUp(v: View, caller: nat, subframe: nat)
    requires Inv(v) && caller < |v.rus|
    requires Full(Marked(v.rus, v.mask, caller, subframe))
    ensures ReleasedAll(v.rus, subframe)[caller].waitCnt == 0
    ensures v.startedWith <= Reported(v, caller, subframe)
  {
    if Released(v.rus[caller], subframe).waitCnt > 0 {
      WaitingCallNeverCompletes(v, caller, subframe);
    }
    forall i | i in v.startedWith
      ensures i in Reported(v, caller, subframe)
    {
      assert Marked(v.rus, v.mask, caller, subframe)[i];
    }
  }

  /** What a call that does not complete the mask leaves unmarked is a running unit. */
  lemma UnmarkedIsRunning(v: View, caller: nat, subframe: nat, i: nat)
    requires Inv(v) && caller < |v.rus| && i < |v.rus|
    requires !Marked(v.rus, v.mask, caller, subframe)[i]
    requires Released(v.rus[caller], subframe).waitCnt == 0
    ensures Running(ReleasedAll(v.rus, subframe)[i])
  {
  }

  lemma CallKeepsInv(v: View, caller: nat, subframe: nat)
    requires Inv(v) && caller < |v.rus|
    ensures Inv(Next(v, Call(caller), subframe))
  {
    var later := ReleasedAll(v.rus, subframe);
    var marked := Marked(v.rus, v.mask, caller, subframe);
    ReleaseIsProgress(v.rus, subframe);
    var before :| 0 <= before < |v.rus| && Running(v.rus[before]) && !v.mask[before];
    if Full(marked) {
      InitialInv(later);
    } else if later[caller].waitCnt == 0 {
      var i :| 0 <= i < |marked| && !marked[i];
      UnmarkedIsRunning(v, caller, subframe, i);
    } else {
      assert !marked[before] && Running(later[before]);
    }
  }

  lemma MoveKeepsInv(v: View, later: seq<Ru>)
    requires Inv(v) && Progress(v.rus, later)
    ensures Inv(Moved(v, later))
  {
    var i :| 0 <= i < |v.rus| && Running(v.rus[i]) && !v.mask[i];
    assert Running(later[i]) && !v.mask[i];
  }

  ghost predicate Run(v: View, steps: seq<Step>, subframe: nat, end: View)
    decreases steps
  {
    if steps == [] then end == v
    else |v.mask| == |v.rus| && Enabled(v, steps[0]) && Run(Next(v, steps[0], subframe), steps[1..], subframe, end)
  }

  /** The invariant, and with it every statement about a single call, holds throughout every run. */
  lemma {:induction false} RunKeepsInv(v: View, steps: seq<Step>, subframe: nat, end: View)
    requires Inv(v) && Run(v, steps, subframe, end)
    ensures Inv(end)
    decreases steps
  {
    if steps != [] {
      match steps[0]
      case Move(later) =>
        MoveKeepsInv(v, later);
        RunKeepsInv(Moved(v, later), steps[1..], subframe, end);
      case Call(caller) =>
        CallKeepsInv(v, caller, subframe);
        RunKeepsInv(Next(v, Call(caller), subframe), steps[1..], subframe, end);
    }
  }

  /** From the start, through any run: resets coincide with wake-ups and no running unit is overlooked. */
  lemma EveryResetIsAWakeUp(rus: seq<Ru>, steps: seq<Step>, subframe: nat, end: View, caller: nat)
    requires WellFormed(rus) && SomeRunning(rus)
    requires Run(Begin(rus), steps, subframe, end)
    requires caller < |end.rus| && |end.mask| == |end.rus|
    requires Full(Marked(end.rus, end.mask, caller, subframe))
    ensures ReleasedAll(end.rus, subframe)[caller].waitCnt == 0
    ensures end.startedWith <= Reported(end, caller, subframe)
  {
    InitialInv(rus);
    RunKeepsInv(Begin(rus), steps, subframe, end);
    CompletionIsWakeUp(end, caller, subframe);
  }

  /**
   A running unit goes without a report at a wake-up exactly when some unit started running while it was already
   marked, and has made no call of its own since. Whether it was marked is known from the mask when it starts.
   */
  lemma RunningHaveReportedIff(rus: seq<Ru>, steps: seq<Step>, subframe: nat, end: View, caller: nat)
    requires WellFormed(rus) && SomeRunning(rus) && Run(Begin(rus), steps, subframe, end)
    requires caller < |end.rus| && |end.mask| == |end.rus|
    requires Full(Marked(end.rus, end.mask, caller, subframe))
    ensures var later := ReleasedAll(end.rus, subframe);
      RunningSet(later) <= Reported(end, caller, subframe) <==> Early(end, later) <= Reported(end, caller, subframe)
  {
    InitialInv(rus);
    RunKeepsInv(Begin(rus), steps, subframe, end);
    CompletionIsWakeUp(end, caller, subframe);
    var later, marked := ReleasedAll(end.rus, subframe), Marked(end.rus, end.mask, caller, subframe);
    forall i: nat | i < |later| && Running(later[i]) && i !in Reported(end, caller, subframe)
      ensures i in Early(end, later)
    {
      assert marked[i];
    }
    forall i | i in Early(end, later)
      ensures i in RunningSet(later)
    {
      assert i in end.early ==> Running(later[i]);
    }
  }

  /**
   A unit that starts running between two calls of one gathering may be counted without its report: units 0 and 2
   run, unit 1 waits and is marked by the call of unit 0, and the call of unit 2 wakes L1 after unit 1 has started.
   */
  lemma LateStarterMayBeMissed() returns (end: View)
    ensures var rus := [Ru(false, false, 0), Ru(false, true, 2), Ru(false, true, 0)];
      Run(Begin(rus), [Call(0), Move(rus[1 := Ru(false, true, 0)])], 0, end)
    ensures Inv(end) && |end.rus| == 3 && Full(Marked(end.rus, end.mask, 2, 0))
    ensures Running(end.rus[1]) && 1 !in Reported(end, 2, 0) && end.early == {1}
  {
    var rus := [Ru(false, false, 0), Ru(false, true, 2), Ru(false, true, 0)];
    var started := rus[1 := Ru(false, true, 0)];
    var v0 := Begin(rus);
    var v1 := View(rus, [true, true, false], RunningSet(rus), {0}, {});
    FirstCallMarksTwo(rus);
    end := Moved(v1, started);
    assert end.early == {1};
    SecondCallCompletes(end);
    assert Running(rus[0]) && Running(rus[2]);
    var steps := [Call(0), Move(started)];
    assert steps[1..] == [Move(started)];
    assert Run(end, [], 0, end);
    assert Run(v1, [Move(started)], 0, end);
  }

  lemma FirstCallMarksTwo(rus: seq<Ru>)
    requires rus == [Ru(false, false, 0), Ru(false, true, 2), Ru(false, true, 0)]
    ensures Next(Begin(rus), Call(0), 0)
      == View(rus, [true, true, false], RunningSet(rus), {0}, {})
  {
    var marked := Marked(rus, Empty(3), 0, 0);
    assert marked == [true, true, false] && !marked[2];
    assert ReleasedAll(rus, 0) == rus;
  }

  lemma SecondCallCompletes(v: View)
    requires v.rus == [Ru(false, false, 0), Ru(false, true, 0), Ru(false, true, 0)]
    requires v.mask == [true, true, false] && v.reported == {0} && v.early == {1}
    requires forall i :: i in v.startedWith ==> i == 0 || i == 2
    ensures Inv(v) && Full(Marked(v.rus, v.mask, 2, 0)) && 1 !in Reported(v, 2, 0)
  {
    assert Running(v.rus[2]) && !v.mask[2];
  }
}
