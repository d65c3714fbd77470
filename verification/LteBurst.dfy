/**
 The fail-safe for late commands in the LTE radio unit (late_control, rx_rf and tx_rf in executables/lte-ru.c).
 Reception sets late_control at any moment; transmission reads and writes it without a lock, so its accesses are
 separate steps here.
 */
module LteBurst {
  import opened Options

  datatype Control = Normal | Terminate | Stop1 | Stop2 | Restart

  datatype Flag = TxBurstMiddle | TxBurstStart | TxBurstEnd | TxBurstEndNoTimeSpec

  /** What a transmit opportunity (a downlink or special subframe) did. */
  datatype Event = Write(flag: Flag) | Skip

  // -------------------------------------------------------------------------------------------
  // One opportunity without interference
  // -------------------------------------------------------------------------------------------

  /** The assignment and the flag chosen for a state other than Normal; no flag means nothing is sent. */
  function Choice(control: Control): (Control, Option<Flag>)
    requires control != Normal
  {
    match control
    case Terminate => (Stop1, Some(TxBurstEndNoTimeSpec))
    case Stop1 => (Stop2, None)
    case Stop2 => (Control.Restart, None)
    case Restart => (Normal, Some(TxBurstStart))
  }

  /** A short read asks for a stop, whatever was going on. */
  function AfterFault(control: Control): Control {
    Terminate
  }

  function Opportunity(control: Control, flag: Flag, short: bool): (Control, Event) {
    if control == Normal then (if short then Terminate else Normal, Write(flag))
    else
      var (next, chosen) := Choice(control);
      if chosen.None? then (next, Skip)
      else (if short && next == Normal then Terminate else next, Write(chosen.value))
  }

  class BurstControl {
    var lateControl: Control

    constructor ()
      ensures lateControl == Normal
    {
      lateControl := Normal;
    }

    /** rx_rf when the radio returned fewer samples than asked for. */
    method ShortRead()
      modifies this
      ensures lateControl == AfterFault(old(lateControl))
    {
      lateControl := Terminate;
    }

    /** tx_rf for a downlink or special subframe; `short` when the radio takes fewer samples than offered. */
    method TxRf(burstFlag: Flag, short: bool) returns (event: Event)
      modifies this
      ensures (lateControl, event) == Opportunity(old(lateControl), burstFlag, short)
    {
      var flags := burstFlag;
      if lateControl != Normal {
        match lateControl {
          case Terminate =>
            flags := TxBurstEndNoTimeSpec;
            lateControl := Stop1;
          case Stop1 =>
            lateControl := Stop2;
            return Skip;
          case Stop2 =>
            lateControl := Control.Restart;
            return Skip;
          case Restart =>
            flags := TxBurstStart;
            lateControl := Normal;
        }
      }
      event := Write(flags);
      if short && lateControl == Normal {
        lateControl := Terminate;
      }
    }
  }

  // -------------------------------------------------------------------------------------------
  // Every interleaving
  // -------------------------------------------------------------------------------------------

  /** Where the transmit thread stands inside tx_rf. */
  datatype Pc =
    | Idle
    | Guarded(flag: Flag)                              // the guard read a state other than Normal
    | Chosen(assign: Control, send: Option<Flag>)      // the switch read a state, its assignment is pending
    | Writing(flag: Flag)
    | Written(short: bool)

  datatype State = State(control: Control, pc: Pc, log: seq<Event>)

  datatype Step =
    | RxFault                 // rx_rf got fewer samples than asked for
    | TxGuard(flag: Flag)     // a new opportunity with the flag of the burst reads late_control
    | TxSwitch                // the switch reads late_control again
    | TxAssign                // and assigns it
    | TxWrite(short: bool)
    | TxCheck                 // the check after a write

  const INITIAL := State(Normal, Idle, [])

  predicate Enabled(s: State, step: Step) {
    match step
    case RxFault => true
    case TxGuard(flag) => s.pc.Idle? && flag != TxBurstEndNoTimeSpec
    case TxSwitch => s.pc.Guarded?
    case TxAssign => s.pc.Chosen?
    case TxWrite(_) => s.pc.Writing?
    case TxCheck => s.pc.Written?
  }

  function Next(s: State, step: Step): State
    requires Enabled(s, step)
  {
    match step
    case RxFault => s.(control := AfterFault(s.control))
    case TxGuard(flag) => s.(pc := if s.control == Normal then Writing(flag) else Guarded(flag))
    case TxSwitch =>
      if s.control == Normal then s.(pc := Writing(s.pc.flag))
      else var (assign, send) := Choice(s.control); s.(pc := Chosen(assign, send))
    case TxAssign =>
      if s.pc.send.Some? then s.(control := s.pc.assign, pc := Writing(s.pc.send.value))
      else State(s.pc.assign, Idle, s.log + [Skip])
    case TxWrite(short) => State(s.control, Written(short), s.log + [Write(s.pc.flag)])
    case TxCheck => State(if s.pc.short && s.control == Normal then Terminate else s.control, Idle, s.log)
  }

  predicate Run(s: State, steps: seq<Step>, end: State)
    decreases steps
  {
    if steps == [] then end == s else Enabled(s, steps[0]) && Run(Next(s, steps[0]), steps[1..], end)
  }

  /** Where a log stands: no stop in progress, or so many opportunities skipped since the last stop. */
  datatype Phase = Sending | Stopped(skips: nat)

  function AfterEvent(phase: Phase, event: Event): Option<Phase> {
    if event == Write(TxBurstEndNoTimeSpec) then Some(Stopped(0))
    else if phase.Sending? then if event.Write? then Some(Sending) else None
    else if phase.skips < 2 then if event.Skip? then Some(Stopped(phase.skips + 1)) else None
    else if event == Write(TxBurstStart) then Some(Sending) else None
  }

  /** The phase of a log; None when the log breaks the stop and restart discipline. */
  function PhaseOf(log: seq<Event>): Option<Phase>
    decreases log
  {
    if log == [] then Some(Sending)
    else
      var before := PhaseOf(log[..|log| - 1]);
      if before.None? then None else AfterEvent(before.value, log[|log| - 1])
  }

  /** Value of late_control that matches a phase, when reception has not overwritten it. */
  function ControlOf(phase: Phase): Control {
    match phase
    case Sending => Normal
    case Stopped(skips) => if skips == 0 then Stop1 else if skips == 1 then Stop2 else Control.Restart
  }

  ghost predicate PcOk(phase: Phase, control: Control, pc: Pc) {
    match pc
    case Idle => control in {ControlOf(phase), Terminate}
    case Guarded(flag) => control in {ControlOf(phase), Terminate} && control != Normal
    case Chosen(assign, send) =>
      || (assign, send) == Choice(Terminate)
      || (phase.Stopped? && (assign, send) == Choice(ControlOf(phase)))
    case Writing(flag) =>
      || (flag == TxBurstEndNoTimeSpec && control in {Stop1, Terminate})
      || (flag != TxBurstEndNoTimeSpec && phase.Sending? && control in {Normal, Terminate})
      || (flag == TxBurstStart && phase == Stopped(2) && control in {Normal, Terminate})
    case Written(short) => control in {ControlOf(phase), Terminate}
  }

  ghost predicate Inv(s: State) {
    && PhaseOf(s.log).Some?
    && (PhaseOf(s.log).value.Stopped? ==> PhaseOf(s.log).value.skips <= 2)
    && PcOk(PhaseOf(s.log).value, s.control, s.pc)
  }

  lemma PhaseOfAppend(log: seq<Event>, event: Event)
    ensures PhaseOf(log + [event])
      == if PhaseOf(log).None? then None else AfterEvent(PhaseOf(log).value, event)
  {
    assert (log + [event])[..|log|] == log;
  }

  lemma AssignKeepsInv(s: State)
    requires Inv(s) && s.pc.Chosen?
    ensures Inv(Next(s, TxAssign))
  {
    PhaseOfAppend(s.log, Skip);
  }

  lemma WriteKeepsInv(s: State, short: bool)
    requires Inv(s) && s.pc.Writing?
    ensures Inv(Next(s, TxWrite(short)))
  {
    PhaseOfAppend(s.log, Write(s.pc.flag));
  }

  lemma ReadKeepsInv(s: State, step: Step)
    requires Inv(s) && Enabled(s, step) && !step.TxAssign? && !step.TxWrite?
    ensures Inv(Next(s, step))
  {
    assert Next(s, step).log == s.log;
  }

  lemma NextKeepsInv(s: State, step: Step)
    requires Inv(s) && Enabled(s, step)
    ensures Inv(Next(s, step))
  {
    match step
    case TxAssign => AssignKeepsInv(s);
    case TxWrite(short) => WriteKeepsInv(s, short);
    case _ => ReadKeepsInv(s, step);
  }

  lemma {:induction false} RunKeepsInv(s: State, steps: seq<Step>, end: State)
    requires Inv(s) && Run(s, steps, end)
    ensures Inv(end)
    decreases steps
  {
    if steps != [] {
      NextKeepsInv(s, steps[0]);
      RunKeepsInv(Next(s, steps[0]), steps[1..], end);
    }
  }

  // -------------------------------------------------------------------------------------------
  // What the discipline means for the sequence of writes
  // -------------------------------------------------------------------------------------------

  lemma {:induction false} PrefixHasPhase(log: seq<Event>, k: nat)
    requires PhaseOf(log).Some? && k <= |log|
    ensures PhaseOf(log[..k]).Some?
    decreases |log| - k
  {
    if k == |log| {
      assert log[..k] == log;
    } else {
      PrefixHasPhase(log, k + 1);
      assert log[..k + 1][..k] == log[..k];
    }
  }

  /** Between a stop and the next write of another kind the log is stopped. */
  lemma {:induction false} StoppedUntilRestart(log: seq<Event>, i: nat, k: nat)
    requires PhaseOf(log).Some? && i < k <= |log| && log[i] == Write(TxBurstEndNoTimeSpec)
    requires forall m :: i < m < k ==> log[m] in {Skip, Write(TxBurstEndNoTimeSpec)}
    ensures PhaseOf(log[..k]).Some? && PhaseOf(log[..k]).value.Stopped?
    ensures (forall m :: i < m < k ==> log[m] == Skip) ==> PhaseOf(log[..k]).value.skips == k - i - 1
    decreases k
  {
    PrefixHasPhase(log, k);
    PrefixHasPhase(log, k - 1);
    assert log[..k] == log[..k - 1] + [log[k - 1]];
    PhaseOfAppend(log[..k - 1], log[k - 1]);
    if i < k - 1 {
      StoppedUntilRestart(log, i, k - 1);
    }
  }

  /**
   In every interleaving: after a write flagged END_NO_TIME_SPEC the next write with another flag is a burst start,
   and exactly two opportunities are skipped between the last such write and that start.
   */
  lemma RestartFollowsStop(steps: seq<Step>, end: State, i: nat, j: nat)
    requires Run(INITIAL, steps, end) && i < j < |end.log|
    requires end.log[i] == Write(TxBurstEndNoTimeSpec)
    requires end.log[j].Write? && end.log[j].flag != TxBurstEndNoTimeSpec
    requires forall m :: i < m < j ==> end.log[m] in {Skip, Write(TxBurstEndNoTimeSpec)}
    ensures end.log[j] == Write(TxBurstStart)
    ensures (forall m :: i < m < j ==> end.log[m] == Skip) ==> j == i + 3
  {
    RunKeepsInv(INITIAL, steps, end);
    StoppedUntilRestart(end.log, i, j);
    PrefixHasPhase(end.log, j + 1);
    assert end.log[..j + 1] == end.log[..j] + [end.log[j]];
    PhaseOfAppend(end.log[..j], end.log[j]);
  }

  /** Nothing is skipped unless a stop is in progress. */
  lemma SkipsFollowAStop(steps: seq<Step>, end: State, k: nat)
    requires Run(INITIAL, steps, end) && k < |end.log| && end.log[k] == Skip
    ensures PhaseOf(end.log[..k]).Some? && PhaseOf(end.log[..k]).value in {Stopped(0), Stopped(1)}
  {
    RunKeepsInv(INITIAL, steps, end);
    PrefixHasPhase(end.log, k);
    PrefixHasPhase(end.log, k + 1);
    assert end.log[..k + 1] == end.log[..k] + [Skip];
    PhaseOfAppend(end.log[..k], Skip);
  }

  // -------------------------------------------------------------------------------------------
  // Recovery
  // -------------------------------------------------------------------------------------------

  /** The steps of one opportunity of the transmit thread alone. */
  ghost function StepsOf(control: Control, flag: Flag, short: bool): seq<Step> {
    if control == Normal then [TxGuard(flag), TxWrite(short), TxCheck]
    else if Choice(control).1.None? then [TxGuard(flag), TxSwitch, TxAssign]
    else [TxGuard(flag), TxSwitch, TxAssign, TxWrite(short), TxCheck]
  }

  /** Uninterrupted, the steps do what tx_rf does as one call. */
  lemma StepsRefineOpportunity(s: State, flag: Flag, short: bool)
    requires s.pc.Idle? && flag != TxBurstEndNoTimeSpec
    ensures var (control, event) := Opportunity(s.control, flag, short);
      Run(s, StepsOf(s.control, flag, short), State(control, Idle, s.log + [event]))
  {
    var (control, event) := Opportunity(s.control, flag, short);
    var end := State(control, Idle, s.log + [event]);
    var s1 := Next(s, TxGuard(flag));
    if s.control == Normal {
      var s2 := Next(s1, TxWrite(short));
      assert Next(s2, TxCheck) == end;
      assert Run(s2, [TxCheck], end);
      assert Run(s1, [TxWrite(short), TxCheck], end);
    } else {
      var s2 := Next(s1, TxSwitch);
      var s3 := Next(s2, TxAssign);
      if s2.pc.send.None? {
        assert s3 == end;
        assert Run(s2, [TxAssign], end);
        assert Run(s1, [TxSwitch, TxAssign], end);
      } else {
        var s4 := Next(s3, TxWrite(short));
        assert Next(s4, TxCheck) == end;
        assert Run(s4, [TxCheck], end);
        assert Run(s3, [TxWrite(short), TxCheck], end);
        assert Run(s2, [TxAssign, TxWrite(short), TxCheck], end);
        assert Run(s1, [TxSwitch, TxAssign, TxWrite(short), TxCheck], end);
      }
    }
  }

  /** Neither direction of the radio reports a fault. */
  predicate QuietSteps(steps: seq<Step>) {
    forall i :: 0 <= i < |steps| ==> steps[i] != RxFault && steps[i] != TxWrite(true)
  }

  /** The answer to a fault: stop, two skips, start, and then bursts without a stop. */
  predicate Answers(n: nat, event: Event) {
    if n == 0 then event == Write(TxBurstEndNoTimeSpec)
    else if n <= 2 then event == Skip
    else if n == 3 then event == Write(TxBurstStart)
    else event.Write? && event.flag != TxBurstEndNoTimeSpec
  }

  predicate AnsweredFrom(log: seq<Event>, from: nat) {
    forall i :: from <= i < |log| ==> Answers(i - from, log[i])
  }

  /** late_control once `n` opportunities have passed since the stop was asked for. */
  function ControlAfter(n: nat): Control {
    if n == 0 then Terminate else if n == 1 then Stop1 else if n == 2 then Stop2 else if n == 3 then Control.Restart else Normal
  }

  /** The stop is asked for, and event `from` of the log is to be its answer or was. */
  ghost predicate Recovering(s: State, from: nat) {
    && AnsweredFrom(s.log, from)
    && if |s.log| < from then |s.log| + 1 == from && s.pc.Writing? && s.control == Terminate
       else
         var n := |s.log| - from;
         match s.pc
         case Idle => s.control == ControlAfter(n)
         case Guarded(_) => s.control == ControlAfter(n) && n < 4
         case Chosen(assign, send) => n < 4 && (assign, send) == Choice(ControlAfter(n))
         case Writing(flag) => s.control == ControlAfter(n + 1) && Answers(n, Write(flag))
         case Written(short) =>
           (s.control == ControlAfter(n) || (n == 0 && short && s.control == Normal)) && (short && s.control == Normal ==> n == 0)
  }

  lemma QuietStepRecovers(s: State, step: Step, from: nat)
    requires Recovering(s, from) && Enabled(s, step) && step != RxFault && step != TxWrite(true)
    ensures Recovering(Next(s, step), from)
  {
  }

  lemma {:induction false} QuietRunRecovers(s: State, steps: seq<Step>, end: State, from: nat)
    requires Recovering(s, from) && Run(s, steps, end) && QuietSteps(steps)
    ensures Recovering(end, from)
    decreases steps
  {
    if steps != [] {
      QuietStepRecovers(s, steps[0], from);
      QuietRunRecovers(Next(s, steps[0]), steps[1..], end, from);
    }
  }

  // -------------------------------------------------------------------------------------------
  // Faults
  // -------------------------------------------------------------------------------------------

  /** An assignment of tx_rf is pending that is not a stop; it will overwrite what reception wrote. */
  predicate Overwrites(pc: Pc) {
    pc.Chosen? && pc.assign != Stop1
  }

  /** The event that answers a fault: the present opportunity, or the next one if this one is past its choice. */
  function StopEvent(s: State): nat {
    if s.pc.Writing? then |s.log| + 1 else |s.log|
  }

  /**
   From the state before the fault: in every run without further faults that follows a short read, the log goes on with
   stop, two skips and start and has no other stop, unless the fault is overwritten.
   */
  lemma FaultIsRecovered(before: seq<Step>, s: State, steps: seq<Step>, end: State)
    requires Run(INITIAL, before, s) && Run(Next(s, RxFault), steps, end) && QuietSteps(steps) && !Overwrites(s.pc)
    ensures AnsweredFrom(end.log, StopEvent(s))
    ensures end.pc.Idle? && StopEvent(s) + 4 <= |end.log| ==> end.control == Normal
  {
    RunKeepsInv(INITIAL, before, s);
    QuietRunRecovers(Next(s, RxFault), steps, end, StopEvent(s));
  }

  /** The same for a write that comes out short while late_control is normal; the next opportunity is the stop. */
  lemma ShortWriteIsRecovered(s: State, steps: seq<Step>, end: State)
    requires s.pc.Writing? && s.control == Normal && Run(Next(s, TxWrite(true)), steps, end) && QuietSteps(steps)
    ensures AnsweredFrom(end.log, |s.log| + 1)
    ensures end.pc.Idle? && |s.log| + 5 <= |end.log| ==> end.control == Normal
  {
    QuietRunRecovers(Next(s, TxWrite(true)), steps, end, |s.log| + 1);
  }

  /** No stop is asked for, and none is written from event `from` on. */
  ghost predicate NotStopping(s: State, from: nat) {
    && from <= |s.log|
    && (forall i :: from <= i < |s.log| ==> s.log[i] != Write(TxBurstEndNoTimeSpec))
    && match s.pc
       case Idle => s.control != Terminate
       case Guarded(flag) => s.control != Terminate && flag != TxBurstEndNoTimeSpec
       case Chosen(assign, send) => assign != Terminate && send != Some(TxBurstEndNoTimeSpec)
       case Writing(flag) => s.control != Terminate && flag != TxBurstEndNoTimeSpec
       case Written(short) => s.control != Terminate && !short
  }

  lemma {:induction false} QuietRunNeverStops(s: State, steps: seq<Step>, end: State, from: nat)
    requires NotStopping(s, from) && Run(s, steps, end) && QuietSteps(steps)
    ensures NotStopping(end, from)
    decreases steps
  {
    if steps != [] {
      QuietStepNeverStops(s, steps[0], from);
      QuietRunNeverStops(Next(s, steps[0]), steps[1..], end, from);
    }
  }

  lemma QuietStepNeverStops(s: State, step: Step, from: nat)
    requires NotStopping(s, from) && Enabled(s, step) && step != RxFault && step != TxWrite(true)
    ensures NotStopping(Next(s, step), from)
  {
  }

  /** Exactly the faults that fall between the switch and its assignment, outside a stop, are lost: no stop answers them. */
  lemma FaultIsAnsweredIff(before: seq<Step>, s: State, steps: seq<Step>, end: State)
    requires Run(INITIAL, before, s) && Run(Next(s, RxFault), steps, end) && QuietSteps(steps)
    requires |s.log| + 2 <= |end.log|
    ensures (exists i :: |s.log| <= i < |end.log| && end.log[i] == Write(TxBurstEndNoTimeSpec)) <==> !Overwrites(s.pc)
  {
    RunKeepsInv(INITIAL, before, s);
    if Overwrites(s.pc) {
      QuietRunNeverStops(Next(s, RxFault), steps, end, |s.log|);
    } else {
      FaultIsRecovered(before, s, steps, end);
      assert Answers(0, end.log[StopEvent(s)]);
    }
  }

  /** Such a state is reached: a first fault, its stop, and the switch of the first skip. */
  lemma FaultCanBeLost() returns (steps: seq<Step>, s: State)
    ensures Run(INITIAL, steps, s) && Overwrites(s.pc)
  {
    var s1 := State(Terminate, Idle, []);
    var s2 := State(Stop1, Idle, [Write(TxBurstEndNoTimeSpec)]);
    StepsRefineOpportunity(s1, TxBurstMiddle, false);
    var stop := StepsOf(Terminate, TxBurstMiddle, false);
    assert s1.log + [Write(TxBurstEndNoTimeSpec)] == s2.log;
    var s3 := Next(s2, TxGuard(TxBurstMiddle));
    s := Next(s3, TxSwitch);
    var skip := [TxGuard(TxBurstMiddle), TxSwitch];
    assert skip[1..] == [TxSwitch];
    assert Run(s3, [TxSwitch], s);
    assert Run(s2, skip, s);
    RunsCompose(s1, stop, s2, skip, s);
    steps := [RxFault] + (stop + skip);
    assert steps[1..] == stop + skip;
  }

  lemma {:induction false} RunsCompose(s: State, a: seq<Step>, t: State, b: seq<Step>, end: State)
    requires Run(s, a, t) && Run(t, b, end)
    ensures Run(s, a + b, end)
    decreases a
  {
    if a == [] {
      assert a + b == b;
    } else {
      assert (a + b)[1..] == a[1..] + b;
      RunsCompose(Next(s, a[0]), a[1..], t, b, end);
    }
  }
}
