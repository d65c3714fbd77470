/**
 The ring of ru_thread, L1_tx_thread and L1_rx_thread in the gNB (executables/nr-ru.c, wait_free_rx_tti and
 the main loop of ru_thread; executables/nr-gnb.c, tx_func, rx_func and the two L1 threads).

 Each slot becomes a job that travels L1_tx_out, resp_L1 and, if it has uplink symbols, L1_rx_out. The samples
 of an uplink job stay in one of `depth` buffers, chosen by its slot number, until the job is back at
 ru_thread. A step below is one thread's action between two queue operations.
 */
module GnbRing {
  import opened Options

  /** A slot on its way; `id` counts jobs and is not known to the program. */
  datatype Job = Job(id: nat, frame: nat, slot: nat, uplink: bool) {
    function Index(depth: nat): nat
      requires 0 < depth
    {
      slot % depth
    }
  }

  datatype RuThread =
    | Receiving                 // acquiring the next slot
    | Waiting(job: Job)         // in wait_free_rx_tti, blocked on L1_rx_out
    | Feeding(job: Job)         // owns a buffer: front-end processing, then push

  datatype State = State(
    ru: RuThread,
    busy: seq<bool>,            // rx_tti_busy
    buffers: seq<Option<nat>>,  // id of the job whose samples each part of rxdataF holds
    txOut: seq<Job>,            // L1_tx_out
    txHand: Option<Job>,        // pulled by L1_tx_thread
    respL1: seq<Job>,           // resp_L1
    rxHand: Option<Job>,        // pulled by L1_rx_thread
    rxOut: seq<Job>,            // L1_rx_out
    jobs: nat                   // number of jobs created
  )

  datatype Step =
    | Receive(frame: nat, slot: nat, uplink: bool)
    | PullCompleted | Feed
    | TxPull | TxPush
    | RxPull | RxFinish

  function Init(depth: nat): State {
    State(Receiving, seq(depth, _ => false), seq(depth, _ => None), [], None, [], None, [], 0)
  }

  ghost predicate Enabled(s: State, step: Step) {
    match step
    case Receive(_, _, _) => s.ru.Receiving?
    case PullCompleted => s.ru.Waiting? && s.rxOut != []
    case Feed => s.ru.Feeding?
    case TxPull => s.txHand.None? && s.txOut != []
    case TxPush => s.txHand.Some?
    case RxPull => s.rxHand.None? && s.respL1 != []
    case RxFinish => s.rxHand.Some?
  }

  ghost predicate Sized(depth: nat, s: State) {
    0 < depth == |s.busy| == |s.buffers|
  }

  ghost function Next(depth: nat, s: State, step: Step): State
    requires Sized(depth, s) && Enabled(s, step)
  {
    match step
    case Receive(frame, slot, uplink) =>
      var job := Job(s.jobs, frame, slot, uplink);
      var s1 := s.(jobs := s.jobs + 1);
      if !uplink then s1.(txOut := s.txOut + [job])
      else if s.busy[job.Index(depth)] then s1.(ru := Waiting(job))
      else s1.(ru := Feeding(job), busy := s.busy[job.Index(depth) := true])
    case PullCompleted =>
      var done, job := s.rxOut[0], s.ru.job;
      var s1 := s.(rxOut := s.rxOut[1..], busy := s.busy[done.Index(depth) := false]);
      if done.Index(depth) == job.Index(depth)
      then s1.(ru := Feeding(job), busy := s1.busy[job.Index(depth) := true])
      else s1
    case Feed =>
      var job := s.ru.job;
      s.(ru := Receiving, txOut := s.txOut + [job], buffers := s.buffers[job.Index(depth) := Some(job.id)])
    case TxPull => s.(txHand := Some(s.txOut[0]), txOut := s.txOut[1..])
    case TxPush => s.(txHand := None, respL1 := s.respL1 + [s.txHand.value])
    case RxPull => s.(rxHand := Some(s.respL1[0]), respL1 := s.respL1[1..])
    case RxFinish =>
      s.(rxHand := None, rxOut := if s.rxHand.value.uplink then s.rxOut + [s.rxHand.value] else s.rxOut)
  }

  // -------------------------------------------------------------------------------------------
  // wait_free_rx_tti
  // -------------------------------------------------------------------------------------------

  /** Result of a wait: whether the queue was still open, how many jobs were taken, and the flags. */
  datatype Waited = Waited(ok: bool, pulled: nat, busy: seq<bool>)

  /** Takes completed slots until one has the wanted index, clearing their flags. */
  function PullUntil(busy: seq<bool>, completed: seq<nat>, index: nat): (w: Waited)
    requires index < |busy|
    ensures |w.busy| == |busy| && w.pulled <= |completed|
    decreases completed
  {
    if completed == [] then Waited(false, 0, busy)
    else
      var done := completed[0] % |busy|;
      var cleared := busy[done := false];
      if done == index then Waited(true, 1, cleared[index := true])
      else
        var rest := PullUntil(cleared, completed[1..], index);
        rest.(pulled := rest.pulled + 1)
  }

  /** A flag that is free is taken at once. */
  function Await(busy: seq<bool>, completed: seq<nat>, slot: nat): Waited
    requires 0 < |busy|
  {
    if busy[slot % |busy|] then PullUntil(busy, completed, slot % |busy|)
    else Waited(true, 0, busy[slot % |busy| := true])
  }

  ghost predicate Clears(completed: seq<nat>, pulled: nat, n: nat, index: int)
    requires 0 < n && pulled <= |completed|
  {
    exists k :: 0 <= k < pulled && completed[k] % n == index
  }

  /** Jobs are taken up to the first with the wanted index, or all of them; exactly their flags are cleared. */
  lemma {:induction false} PullsUpToFirstMatch(busy: seq<bool>, completed: seq<nat>, index: nat)
    requires index < |busy|
    ensures var w := PullUntil(busy, completed, index);
      && (w.ok ==> 0 < w.pulled && completed[w.pulled - 1] % |busy| == index)
      && (!w.ok ==> w.pulled == |completed|)
      && (forall i :: 0 <= i < (if w.ok then w.pulled - 1 else w.pulled) ==> completed[i] % |busy| != index)
      && (forall i :: 0 <= i < |busy| ==>
            w.busy[i] == ((w.ok && i == index) || (busy[i] && !Clears(completed, w.pulled, |busy|, i))))
    decreases completed
  {
    if completed != [] {
      var n, w, rest := |busy|, PullUntil(busy, completed, index), completed[1..];
      var done := completed[0] % n;
      if done != index {
        PullsUpToFirstMatch(busy[done := false], rest, index);
        assert forall i :: 0 < i < |completed| ==> completed[i] == rest[i - 1];
      }
      forall i | 0 <= i < n
        ensures w.busy[i] == ((w.ok && i == index) || (busy[i] && !Clears(completed, w.pulled, n, i)))
      {
        if i == done {
          assert completed[0] % n == i;
        } else if done != index {
          if Clears(rest, w.pulled - 1, n, i) {
            var k :| 0 <= k < w.pulled - 1 && rest[k] % n == i;
            assert completed[k + 1] % n == i;
          }
          if Clears(completed, w.pulled, n, i) {
            var k :| 0 <= k < w.pulled && completed[k] % n == i;
            assert rest[k - 1] % n == i;
          }
        }
      }
    }
  }

  /**
   The waiting loop over an array of flags. `completed` are the slots L1_rx_out delivers until it is closed;
   AwaitIsInTheRing says what they are in a run.
   */
  method WaitFreeRxTti(busy: array<bool>, completed: seq<nat>, slot: nat) returns (ok: bool, pulled: nat)
    requires 0 < busy.Length
    modifies busy
    ensures Waited(ok, pulled, busy[..]) == Await(old(busy[..]), completed, slot)
  {
    var index := slot % busy.Length;
    pulled := 0;
    if busy[index] {
      var notDone := true;
      while notDone
        invariant pulled <= |completed|
        invariant notDone ==>
          var rest := PullUntil(busy[..], completed[pulled..], index);
          rest.(pulled := rest.pulled + pulled) == Await(old(busy[..]), completed, slot)
        invariant !notDone ==> Waited(true, pulled, busy[..][index := true]) == Await(old(busy[..]), completed, slot)
        decreases |completed| - pulled, notDone
      {
        if pulled == |completed| {
          ok := false;
          return;
        }
        ghost var before := busy[..];
        var done := completed[pulled] % busy.Length;
        busy[done] := false;
        assert busy[..] == before[done := false];
        assert completed[pulled..][0] == completed[pulled] && completed[pulled..][1..] == completed[pulled + 1..];
        if done == index {
          notDone := false;
        }
        pulled := pulled + 1;
      }
    }
    ghost var before := busy[..];
    busy[index] := true;
    assert busy[..] == before[index := true];
    ok := true;
  }

  // -------------------------------------------------------------------------------------------
  // Uplink jobs on their way
  // -------------------------------------------------------------------------------------------

  function Hand(o: Option<Job>): seq<Job> {
    match o
    case None => []
    case Some(j) => [j]
  }

  function Uplinks(q: seq<Job>): seq<Job> {
    if q == [] then [] else (if q[0].uplink then [q[0]] else []) + Uplinks(q[1..])
  }

  /** The uplink jobs that own a buffer, oldest first. */
  ghost function Flight(s: State): seq<Job> {
    Uplinks(s.rxOut) + Behind(s)
  }

  ghost function Behind(s: State): seq<Job> {
    Uplinks(Hand(s.rxHand)) + Uplinks(s.respL1) + Uplinks(Hand(s.txHand)) + Uplinks(s.txOut)
    + (if s.ru.Feeding? then [s.ru.job] else [])
  }

  lemma UplinksHead(q: seq<Job>)
    requires q != []
    ensures Uplinks(q) == Uplinks(Hand(Some(q[0]))) + Uplinks(q[1..])
  {
    assert Uplinks(Hand(Some(q[0]))) == if q[0].uplink then [q[0]] else [];
  }

  lemma {:induction false} UplinksAppend(q: seq<Job>, job: Job)
    ensures Uplinks(q + [job]) == Uplinks(q) + Uplinks([job])
  {
    if q == [] {
      assert q + [job] == [job];
    } else {
      assert (q + [job])[1..] == q[1..] + [job];
      UplinksAppend(q[1..], job);
    }
  }

  ghost predicate AllUplink(q: seq<Job>) {
    forall i :: 0 <= i < |q| ==> q[i].uplink
  }

  /** Uplink jobs enter at the tail. */
  lemma FlightOnReceive(depth: nat, s: State, frame: nat, slot: nat, uplink: bool)
    requires Sized(depth, s) && s.ru.Receiving?
    ensures var job := Job(s.jobs, frame, slot, uplink);
      Flight(Next(depth, s, Receive(frame, slot, uplink)))
      == if uplink && !s.busy[job.Index(depth)] then Flight(s) + [job] else Flight(s)
  {
    var job := Job(s.jobs, frame, slot, uplink);
    var t := Next(depth, s, Receive(frame, slot, uplink));
    UplinksAppend(s.txOut, job);
    if uplink && !s.busy[job.Index(depth)] {
      assert Behind(t) == Behind(s) + [job];
    } else {
      assert Uplinks(t.txOut) == Uplinks(s.txOut);
    }
  }

  /** They leave at the head, and the job that waited may enter. */
  lemma FlightOnPull(depth: nat, s: State)
    requires Sized(depth, s) && s.ru.Waiting? && s.rxOut != [] && s.rxOut[0].uplink
    ensures Flight(s) != [] && Flight(s)[0] == s.rxOut[0]
    ensures Flight(Next(depth, s, PullCompleted))
      == if s.rxOut[0].Index(depth) == s.ru.job.Index(depth) then Flight(s)[1..] + [s.ru.job] else Flight(s)[1..]
  {
    var t := Next(depth, s, PullCompleted);
    assert Uplinks(s.rxOut) == [s.rxOut[0]] + Uplinks(s.rxOut[1..]);
    assert Flight(s)[1..] == Uplinks(s.rxOut[1..]) + Behind(s);
    if s.rxOut[0].Index(depth) == s.ru.job.Index(depth) {
      assert Behind(t) == Behind(s) + [s.ru.job];
    }
  }

  /** Every other step only moves them along. */
  lemma FlightOnMove(depth: nat, s: State, step: Step)
    requires Sized(depth, s) && Enabled(s, step) && !step.Receive? && !step.PullCompleted?
    requires s.ru.Feeding? ==> s.ru.job.uplink
    ensures Flight(Next(depth, s, step)) == Flight(s)
  {
    match step
    case Feed => FlightOnFeed(depth, s);
    case TxPull => FlightOnTxPull(depth, s);
    case TxPush => FlightOnTxPush(depth, s);
    case RxPull => FlightOnRxPull(depth, s);
    case RxFinish => FlightOnRxFinish(depth, s);
  }

  lemma FlightOnFeed(depth: nat, s: State)
    requires Sized(depth, s) && Enabled(s, Feed) && s.ru.job.uplink
    ensures Flight(Next(depth, s, Feed)) == Flight(s)
  {
    UplinksAppend(s.txOut, s.ru.job);
    var front := Uplinks(Hand(s.rxHand)) + Uplinks(s.respL1) + Uplinks(Hand(s.txHand));
    assert front + (Uplinks(s.txOut) + [s.ru.job]) == front + Uplinks(s.txOut) + [s.ru.job];
  }

  lemma FlightOnTxPush(depth: nat, s: State)
    requires Sized(depth, s) && Enabled(s, TxPush)
    ensures Flight(Next(depth, s, TxPush)) == Flight(s)
  {
    UplinksAppend(s.respL1, s.txHand.value);
    var front := Uplinks(Hand(s.rxHand));
    assert front + (Uplinks(s.respL1) + Uplinks(Hand(s.txHand))) + []
      == front + Uplinks(s.respL1) + Uplinks(Hand(s.txHand));
  }

  lemma FlightOnRxFinish(depth: nat, s: State)
    requires Sized(depth, s) && Enabled(s, RxFinish)
    ensures Flight(Next(depth, s, RxFinish)) == Flight(s)
  {
    var t := Next(depth, s, RxFinish);
    UplinksAppend(s.rxOut, s.rxHand.value);
    assert Uplinks(t.rxOut) == Uplinks(s.rxOut) + Uplinks(Hand(s.rxHand));
    assert Behind(s) == Uplinks(Hand(s.rxHand)) + Behind(t);
  }

  lemma FlightOnTxPull(depth: nat, s: State)
    requires Sized(depth, s) && Enabled(s, TxPull)
    ensures Flight(Next(depth, s, TxPull)) == Flight(s)
  {
    var t := Next(depth, s, TxPull);
    UplinksHead(s.txOut);
    assert Uplinks(Hand(s.txHand)) == [];
    assert Uplinks(Hand(t.txHand)) + Uplinks(t.txOut) == Uplinks(s.txOut);
    var front := Uplinks(Hand(s.rxHand)) + Uplinks(s.respL1);
    assert front + Uplinks(Hand(t.txHand)) + Uplinks(t.txOut) == front + (Uplinks(Hand(t.txHand)) + Uplinks(t.txOut));
    assert front + [] + Uplinks(s.txOut) == front + Uplinks(s.txOut);
  }

  lemma FlightOnRxPull(depth: nat, s: State)
    requires Sized(depth, s) && Enabled(s, RxPull)
    ensures Flight(Next(depth, s, RxPull)) == Flight(s)
  {
    var t := Next(depth, s, RxPull);
    UplinksHead(s.respL1);
    assert Uplinks(Hand(s.rxHand)) == [];
    assert Uplinks(Hand(t.rxHand)) + Uplinks(t.respL1) == Uplinks(s.respL1);
    assert [] + Uplinks(s.respL1) == Uplinks(s.respL1);
  }

  // -------------------------------------------------------------------------------------------
  // The invariant
  // -------------------------------------------------------------------------------------------

  ghost predicate IndicesDistinct(depth: nat, f: seq<Job>)
    requires 0 < depth
  {
    forall i, j :: 0 <= i < j < |f| ==> f[i].Index(depth) != f[j].Index(depth)
  }

  ghost predicate Holds(depth: nat, f: seq<Job>, index: nat)
    requires 0 < depth
  {
    exists i :: 0 <= i < |f| && f[i].Index(depth) == index
  }

  /** A flag is set exactly when an uplink job with that index is on its way. */
  ghost predicate BusyExact(depth: nat, busy: seq<bool>, f: seq<Job>)
    requires 0 < depth == |busy|
  {
    forall index :: 0 <= index < depth ==> (busy[index] <==> Holds(depth, f, index))
  }

  /** Every job past the feeding stage finds its own samples in its buffer. */
  ghost predicate BuffersHold(depth: nat, buffers: seq<Option<nat>>, f: seq<Job>, fed: int)
    requires 0 < depth == |buffers| && fed <= |f|
  {
    forall i :: 0 <= i < fed ==> buffers[f[i].Index(depth)] == Some(f[i].id)
  }

  ghost function Fed(s: State): int {
    if s.ru.Feeding? then |Flight(s)| - 1 else |Flight(s)|
  }

  ghost predicate RuOk(depth: nat, s: State)
    requires Sized(depth, s)
  {
    && (s.ru.Waiting? ==> s.ru.job.uplink && s.busy[s.ru.job.Index(depth)])
    && (s.ru.Feeding? ==> s.ru.job.uplink)
    && AllUplink(s.rxOut)
  }

  /** What holds of the flags, the buffers and the jobs on their way. */
  ghost predicate RingOk(depth: nat, busy: seq<bool>, buffers: seq<Option<nat>>, f: seq<Job>, fed: int)
    requires 0 < depth == |busy| == |buffers| && fed <= |f|
  {
    IndicesDistinct(depth, f) && BusyExact(depth, busy, f) && BuffersHold(depth, buffers, f, fed)
  }

  ghost predicate Inv(depth: nat, s: State) {
    Sized(depth, s) && RuOk(depth, s) && RingOk(depth, s.busy, s.buffers, Flight(s), Fed(s))
  }

  lemma InitInv(depth: nat)
    requires 0 < depth
    ensures Inv(depth, Init(depth))
  {
  }

  /** A job enters with an index that is not in use. */
  lemma EnterKeeps(depth: nat, busy: seq<bool>, f: seq<Job>, job: Job)
    requires 0 < depth == |busy| && IndicesDistinct(depth, f) && BusyExact(depth, busy, f) && !busy[job.Index(depth)]
    ensures IndicesDistinct(depth, f + [job])
    ensures BusyExact(depth, busy[job.Index(depth) := true], f + [job])
  {
    var g := f + [job];
    assert g[|f|] == job;
    assert forall i :: 0 <= i < |f| ==> g[i] == f[i] && Holds(depth, f, f[i].Index(depth));
    forall index | 0 <= index < depth
      ensures busy[job.Index(depth) := true][index] <==> Holds(depth, g, index)
    {
      if Holds(depth, f, index) {
        var i :| 0 <= i < |f| && f[i].Index(depth) == index;
        assert g[i].Index(depth) == index;
      }
    }
  }

  /** The oldest job leaves and frees its index. */
  lemma LeaveKeeps(depth: nat, busy: seq<bool>, f: seq<Job>)
    requires 0 < depth == |busy| && f != [] && IndicesDistinct(depth, f) && BusyExact(depth, busy, f)
    ensures IndicesDistinct(depth, f[1..])
    ensures BusyExact(depth, busy[f[0].Index(depth) := false], f[1..])
  {
    var g := f[1..];
    forall index | 0 <= index < depth
      ensures busy[f[0].Index(depth) := false][index] <==> Holds(depth, g, index)
    {
      if Holds(depth, f, index) && index != f[0].Index(depth) {
        var i :| 0 <= i < |f| && f[i].Index(depth) == index;
        assert g[i - 1].Index(depth) == index;
      }
      if Holds(depth, g, index) {
        var i :| 0 <= i < |g| && g[i].Index(depth) == index;
        assert f[i + 1].Index(depth) == index;
      }
    }
  }

  lemma ReceiveKeepsInv(depth: nat, s: State, frame: nat, slot: nat, uplink: bool)
    requires Inv(depth, s) && s.ru.Receiving?
    ensures Inv(depth, Next(depth, s, Receive(frame, slot, uplink)))
  {
    FlightOnReceive(depth, s, frame, slot, uplink);
    var job, f, t := Job(s.jobs, frame, slot, uplink), Flight(s), Next(depth, s, Receive(frame, slot, uplink));
    assert Fed(t) == |f|;
    if uplink && !s.busy[job.Index(depth)] {
      EnterKeeps(depth, s.busy, f, job);
      assert t.busy == s.busy[job.Index(depth) := true];
    } else {
      assert t.busy == s.busy;
    }
    assert RingOk(depth, t.busy, t.buffers, Flight(t), |f|);
  }

  lemma PullKeepsInv(depth: nat, s: State)
    requires Inv(depth, s) && s.ru.Waiting? && s.rxOut != []
    ensures Inv(depth, Next(depth, s, PullCompleted))
  {
    var t := Next(depth, s, PullCompleted);
    FlightOnPull(depth, s);
    PullStep(depth, s, t, Flight(s), Flight(t));
  }

  lemma PullStep(depth: nat, s: State, t: State, f: seq<Job>, g: seq<Job>)
    requires Sized(depth, s) && RuOk(depth, s) && s.ru.Waiting? && s.rxOut != [] && t == Next(depth, s, PullCompleted)
    requires f != [] && f[0] == s.rxOut[0] && RingOk(depth, s.busy, s.buffers, f, |f|)
    requires g == if s.rxOut[0].Index(depth) == s.ru.job.Index(depth) then f[1..] + [s.ru.job] else f[1..]
    ensures Sized(depth, t) && RuOk(depth, t)
    ensures RingOk(depth, t.busy, t.buffers, g, if t.ru.Feeding? then |g| - 1 else |g|)
  {
    PullKeepsRing(depth, s.busy, s.buffers, f, s.ru.job);
  }

  lemma PullKeepsRing(depth: nat, busy: seq<bool>, buffers: seq<Option<nat>>, f: seq<Job>, job: Job)
    requires 0 < depth == |busy| == |buffers| && f != [] && RingOk(depth, busy, buffers, f, |f|)
    ensures var busy1 := busy[f[0].Index(depth) := false];
      && RingOk(depth, busy1, buffers, f[1..], |f| - 1)
      && (f[0].Index(depth) == job.Index(depth) ==>
            RingOk(depth, busy1[job.Index(depth) := true], buffers, f[1..] + [job], |f| - 1))
  {
    LeaveKeeps(depth, busy, f);
    if f[0].Index(depth) == job.Index(depth) {
      EnterKeeps(depth, busy[f[0].Index(depth) := false], f[1..], job);
    }
  }

  lemma FeedKeepsInv(depth: nat, s: State)
    requires Inv(depth, s) && s.ru.Feeding?
    ensures Inv(depth, Next(depth, s, Feed))
  {
    FlightOnMove(depth, s, Feed);
    assert Flight(s)[|Flight(s)| - 1] == s.ru.job;
  }

  lemma MoveKeepsInv(depth: nat, s: State, step: Step)
    requires Inv(depth, s) && Enabled(s, step) && !step.Receive? && !step.PullCompleted? && !step.Feed?
    ensures Inv(depth, Next(depth, s, step))
  {
    FlightOnMove(depth, s, step);
    var t := Next(depth, s, step);
    assert t.busy == s.busy && t.buffers == s.buffers && Fed(t) == Fed(s);
  }

  lemma StepKeepsInv(depth: nat, s: State, step: Step)
    requires Inv(depth, s) && Enabled(s, step)
    ensures Inv(depth, Next(depth, s, step))
  {
    match step
    case Receive(frame, slot, uplink) => ReceiveKeepsInv(depth, s, frame, slot, uplink);
    case PullCompleted => PullKeepsInv(depth, s);
    case Feed => FeedKeepsInv(depth, s);
    case _ => MoveKeepsInv(depth, s, step);
  }

  ghost predicate Run(depth: nat, s: State, steps: seq<Step>, end: State)
    decreases steps
  {
    if steps == [] then end == s
    else Sized(depth, s) && Enabled(s, steps[0]) && Run(depth, Next(depth, s, steps[0]), steps[1..], end)
  }

  lemma {:induction false} RunKeepsInv(depth: nat, s: State, steps: seq<Step>, end: State)
    requires Inv(depth, s) && Run(depth, s, steps, end)
    ensures Inv(depth, end)
    decreases steps
  {
    if steps != [] {
      StepKeepsInv(depth, s, steps[0]);
      RunKeepsInv(depth, Next(depth, s, steps[0]), steps[1..], end);
    }
  }

  // -------------------------------------------------------------------------------------------
  // Every interleaving
  // -------------------------------------------------------------------------------------------

  /** Distinct indices fit into the buffers. */
  lemma {:induction false} AtMostDepth(depth: nat, f: seq<Job>)
    requires 0 < depth && IndicesDistinct(depth, f)
    ensures |f| <= depth
  {
    IndexCount(depth, f);
    RangeCount(depth);
    var used := set i | 0 <= i < |f| :: f[i].Index(depth);
    assert Range(depth) == used + (Range(depth) - used);
  }

  lemma {:induction false} IndexCount(depth: nat, f: seq<Job>)
    requires 0 < depth && IndicesDistinct(depth, f)
    ensures |set i | 0 <= i < |f| :: f[i].Index(depth)| == |f|
  {
    var used := set i | 0 <= i < |f| :: f[i].Index(depth);
    if f == [] {
      assert used == {};
    } else {
      var n := |f| - 1;
      var g := f[..n];
      IndexCount(depth, g);
      var rest := set i | 0 <= i < |g| :: g[i].Index(depth);
      assert used == rest + {f[n].Index(depth)} by {
        assert forall i :: 0 <= i < n ==> g[i] == f[i];
        forall x | x in used ensures x in rest + {f[n].Index(depth)} {
          var i :| 0 <= i < |f| && f[i].Index(depth) == x;
          assert i == n || g[i].Index(depth) == x;
        }
      }
      assert f[n].Index(depth) !in rest;
    }
  }

  ghost function Range(n: nat): set<int> {
    if n == 0 then {} else Range(n - 1) + {n - 1}
  }

  lemma {:induction false} RangeCount(n: nat)
    ensures |Range(n)| == n && forall x :: x in Range(n) <==> 0 <= x < n
  {
    if n != 0 {
      RangeCount(n - 1);
    }
  }

  /**
   In every interleaving: at most `depth` uplink jobs are on their way, a flag is set exactly for their indices,
   and the job L1_rx_thread works on finds its own samples, in a buffer ru_thread is not filling.
   */
  lemma BuffersAreNeverReused(depth: nat, steps: seq<Step>, s: State)
    requires 0 < depth && Run(depth, Init(depth), steps, s)
    ensures |Flight(s)| <= depth == |s.busy| == |s.buffers|
    ensures BusyExact(depth, s.busy, Flight(s)) && IndicesDistinct(depth, Flight(s))
    ensures s.rxHand.Some? && s.rxHand.value.uplink ==>
      var index := s.rxHand.value.Index(depth);
      && s.buffers[index] == Some(s.rxHand.value.id)
      && (s.ru.Feeding? ==> s.ru.job.Index(depth) != index)
  {
    InitInv(depth);
    RunKeepsInv(depth, Init(depth), steps, s);
    AtMostDepth(depth, Flight(s));
    if s.rxHand.Some? && s.rxHand.value.uplink {
      var i := |Uplinks(s.rxOut)|;
      assert Flight(s)[i] == s.rxHand.value;
      if s.ru.Feeding? {
        assert Flight(s)[|Flight(s)| - 1] == s.ru.job;
      }
    }
  }

  // -------------------------------------------------------------------------------------------
  // No slot is lost
  // -------------------------------------------------------------------------------------------

  /** The slots received in a run, as jobs numbered from `id` on; each gives its frame, slot and direction. */
  function Arrivals(id: nat, steps: seq<Step>): seq<Job>
    decreases steps
  {
    if steps == [] then []
    else match steps[0]
      case Receive(frame, slot, uplink) => [Job(id, frame, slot, uplink)] + Arrivals(id + 1, steps[1..])
      case _ => Arrivals(id, steps[1..])
  }

  /** The job ru_thread still has. */
  function AtRu(ru: RuThread): seq<Job> {
    if ru.Receiving? then [] else [ru.job]
  }

  /** What a thread takes out of its queue in one step: L1_tx_thread, L1_rx_thread, and ru_thread from L1_rx_out. */
  ghost function TxTakes(s: State, step: Step): seq<Job>
    requires Enabled(s, step)
  {
    if step.TxPull? then [s.txOut[0]] else []
  }

  ghost function RxTakes(s: State, step: Step): seq<Job>
    requires Enabled(s, step)
  {
    if step.RxPull? then [s.respL1[0]] else []
  }

  ghost function RuTakes(s: State, step: Step): seq<Job>
    requires Enabled(s, step)
  {
    if step.PullCompleted? then [s.rxOut[0]] else []
  }

  /** What the threads have taken so far in a run. */
  datatype Taken = Taken(tx: seq<Job>, rx: seq<Job>, ru: seq<Job>)

  ghost function TakenIn(depth: nat, s: State, steps: seq<Step>): Taken
    decreases steps
  {
    if steps == [] || !Sized(depth, s) || !Enabled(s, steps[0]) then Taken([], [], [])
    else
      var rest := TakenIn(depth, Next(depth, s, steps[0]), steps[1..]);
      Taken(TxTakes(s, steps[0]) + rest.tx, RxTakes(s, steps[0]) + rest.rx, RuTakes(s, steps[0]) + rest.ru)
  }

  ghost function ToTx(s: State): seq<Job> {
    s.txOut + AtRu(s.ru)
  }

  ghost function ToRx(s: State): seq<Job> {
    s.respL1 + Hand(s.txHand)
  }

  ghost function ToRu(s: State): seq<Job> {
    s.rxOut + Uplinks(Hand(s.rxHand))
  }

  lemma StepLosesNothing(depth: nat, s: State, step: Step, t: State)
    requires Sized(depth, s) && Enabled(s, step) && t == Next(depth, s, step)
    ensures ToTx(s) + Arrivals(s.jobs, [step]) == TxTakes(s, step) + ToTx(t) && t.jobs == s.jobs + |Arrivals(s.jobs, [step])|
    ensures ToRx(s) + TxTakes(s, step) == RxTakes(s, step) + ToRx(t)
  {
  }

  lemma StepReturnsUplinks(depth: nat, s: State, step: Step, t: State)
    requires Sized(depth, s) && Enabled(s, step) && t == Next(depth, s, step)
    ensures ToRu(s) + Uplinks(RxTakes(s, step)) == RuTakes(s, step) + ToRu(t)
  {
    assert Uplinks([]) == [];
    if step.RxFinish? {
      var job := s.rxHand.value;
      assert Hand(s.rxHand) == [job] && [job][1..] == [];
      assert Uplinks([job]) == if job.uplink then [job] else [];
    } else if step.RxPull? {
      assert Hand(t.rxHand) == [s.respL1[0]];
    }
  }

  lemma ArrivalsFirst(id: nat, steps: seq<Step>)
    requires steps != []
    ensures Arrivals(id, steps) == Arrivals(id, [steps[0]]) + Arrivals(id + |Arrivals(id, [steps[0]])|, steps[1..])
  {
    assert [steps[0]][1..] == [];
  }

  lemma {:induction false} UplinksConcat(a: seq<Job>, b: seq<Job>)
    ensures Uplinks(a + b) == Uplinks(a) + Uplinks(b)
  {
    if a == [] {
      assert a + b == b;
    } else {
      assert (a + b)[1..] == a[1..] + b;
      UplinksConcat(a[1..], b);
    }
  }

  /** A first part goes over into a second: what was there and what comes is what has gone and what is left. */
  lemma Chain(at: seq<Job>, comes: seq<Job>, goes: seq<Job>, mid: seq<Job>, more: seq<Job>, gone: seq<Job>, left: seq<Job>)
    requires at + comes == goes + mid && mid + more == gone + left
    ensures at + (comes + more) == (goes + gone) + left
  {
    assert at + (comes + more) == (at + comes) + more == goes + (mid + more);
  }

  lemma {:induction false} RunLosesNothing(depth: nat, s: State, steps: seq<Step>, end: State)
    requires Run(depth, s, steps, end)
    ensures var taken := TakenIn(depth, s, steps);
      && ToTx(s) + Arrivals(s.jobs, steps) == taken.tx + ToTx(end)
      && ToRx(s) + taken.tx == taken.rx + ToRx(end)
      && ToRu(s) + Uplinks(taken.rx) == taken.ru + ToRu(end)
    decreases steps
  {
    if steps != [] {
      var t, step := Next(depth, s, steps[0]), steps[0];
      var rest := TakenIn(depth, t, steps[1..]);
      RunLosesNothing(depth, t, steps[1..], end);
      StepLosesNothing(depth, s, step, t);
      StepReturnsUplinks(depth, s, step, t);
      ArrivalsFirst(s.jobs, steps);
      UplinksConcat(RxTakes(s, step), rest.rx);
      Chain(ToTx(s), Arrivals(s.jobs, [step]), TxTakes(s, step), ToTx(t), Arrivals(t.jobs, steps[1..]), rest.tx, ToTx(end));
      Chain(ToRx(s), TxTakes(s, step), RxTakes(s, step), ToRx(t), rest.tx, rest.rx, ToRx(end));
      Chain(ToRu(s), Uplinks(RxTakes(s, step)), RuTakes(s, step), ToRu(t), Uplinks(rest.rx), rest.ru, ToRu(end));
    }
  }

  /**
   In every interleaving each received slot, uplink or not, passes L1_tx_thread and then L1_rx_thread once, in order and with
   its frame and slot; of these the uplink ones come back to ru_thread, once and in order.
   */
  lemma EverySlotIsProcessed(depth: nat, steps: seq<Step>, s: State)
    requires 0 < depth && Run(depth, Init(depth), steps, s)
    ensures var taken := TakenIn(depth, Init(depth), steps);
      && Arrivals(0, steps) == taken.tx + (s.txOut + AtRu(s.ru))
      && taken.tx == taken.rx + (s.respL1 + Hand(s.txHand))
      && Uplinks(taken.rx) == taken.ru + (s.rxOut + Uplinks(Hand(s.rxHand)))
  {
    var taken := TakenIn(depth, Init(depth), steps);
    RunLosesNothing(depth, Init(depth), steps, s);
    FromNothing(ToTx(Init(depth)), Arrivals(0, steps));
    FromNothing(ToRx(Init(depth)), taken.tx);
    FromNothing(ToRu(Init(depth)), Uplinks(taken.rx));
  }

  lemma FromNothing(none: seq<Job>, all: seq<Job>)
    requires none == []
    ensures none + all == all
  {
  }

  // -------------------------------------------------------------------------------------------
  // Progress
  // -------------------------------------------------------------------------------------------

  /** Work left until every job on its way has come out at the end. */
  ghost function Work(s: State): nat {
    5 * |s.txOut| + 4 * |Hand(s.txHand)| + 3 * |s.respL1| + 2 * |Hand(s.rxHand)| + |s.rxOut|
  }

  lemma StepDoesWork(depth: nat, s: State, step: Step)
    requires Sized(depth, s) && s.ru.Waiting? && Enabled(s, step)
    ensures Work(Next(depth, s, step)) < Work(s)
  {
  }

  /** While ru_thread waits, the awaited job is on its way, some thread can step, and every step does work. */
  lemma WaitingMakesProgress(depth: nat, steps: seq<Step>, s: State)
    requires 0 < depth && Run(depth, Init(depth), steps, s) && s.ru.Waiting?
    ensures Holds(depth, Flight(s), s.ru.job.Index(depth))
    ensures exists step :: Enabled(s, step)
    ensures forall step :: Enabled(s, step) ==> Sized(depth, s) && Work(Next(depth, s, step)) < Work(s)
  {
    InitInv(depth);
    RunKeepsInv(depth, Init(depth), steps, s);
    assert Flight(s) != [];
    forall step | Enabled(s, step)
      ensures Work(Next(depth, s, step)) < Work(s)
    {
      StepDoesWork(depth, s, step);
    }
    if s.rxOut != [] {
      assert Enabled(s, PullCompleted);
    } else if s.rxHand.Some? {
      assert Enabled(s, RxFinish);
    } else if s.respL1 != [] {
      assert Enabled(s, RxPull);
    } else if s.txHand.Some? {
      assert Enabled(s, TxPush);
    } else {
      assert Enabled(s, TxPull);
    }
  }

  /** The jobs a run takes from L1_rx_out. */
  ghost function Pulled(depth: nat, s: State, steps: seq<Step>): seq<Job>
    decreases steps
  {
    if steps == [] || !Sized(depth, s) || !Enabled(s, steps[0]) then []
    else (if steps[0].PullCompleted? then [s.rxOut[0]] else []) + Pulled(depth, Next(depth, s, steps[0]), steps[1..])
  }

  function Slots(jobs: seq<Job>): seq<nat> {
    seq(|jobs|, i requires 0 <= i < |jobs| => jobs[i].slot)
  }

  /** ru_thread waits before every step of the run. */
  ghost predicate WaitsThroughout(depth: nat, s: State, steps: seq<Step>)
    decreases steps
  {
    steps != [] ==>
      s.ru.Waiting? && Sized(depth, s) && Enabled(s, steps[0]) && WaitsThroughout(depth, Next(depth, s, steps[0]), steps[1..])
  }

  /** And still waits at the end. */
  ghost predicate KeepsWaiting(depth: nat, s: State, steps: seq<Step>)
    decreases steps
  {
    && s.ru.Waiting?
    && (steps != [] ==>
          Sized(depth, s) && Enabled(s, steps[0]) && KeepsWaiting(depth, Next(depth, s, steps[0]), steps[1..]))
  }

  /** A wait takes the oldest jobs on their way, in order, whatever the other threads do meanwhile. */
  lemma {:induction false} PulledAreOldest(depth: nat, s: State, steps: seq<Step>, end: State)
    requires Inv(depth, s) && Run(depth, s, steps, end) && KeepsWaiting(depth, s, steps)
    ensures Flight(s) == Pulled(depth, s, steps) + Flight(end) && end.ru.Waiting?
    decreases steps
  {
    if steps != [] {
      var t := Next(depth, s, steps[0]);
      StepKeepsInv(depth, s, steps[0]);
      PulledAreOldest(depth, t, steps[1..], end);
      PulledStep(depth, s, steps, t, end);
    }
  }

  lemma PulledStep(depth: nat, s: State, steps: seq<Step>, t: State, end: State)
    requires Inv(depth, s) && steps != [] && Enabled(s, steps[0]) && t == Next(depth, s, steps[0])
    requires s.ru.Waiting? && t.ru.Waiting? && Flight(t) == Pulled(depth, t, steps[1..]) + Flight(end)
    ensures Flight(s) == Pulled(depth, s, steps) + Flight(end)
  {
    var head := if steps[0].PullCompleted? then [s.rxOut[0]] else [];
    var rest := Pulled(depth, t, steps[1..]);
    WaitStepTakesHead(depth, s, steps[0], t);
    assert Pulled(depth, s, steps) == head + rest;
    Regroup(head, rest, Flight(end));
  }

  lemma Regroup(a: seq<Job>, b: seq<Job>, c: seq<Job>)
    ensures a + (b + c) == (a + b) + c
  {
  }

  lemma WaitStepTakesHead(depth: nat, s: State, step: Step, t: State)
    requires Inv(depth, s) && Enabled(s, step) && t == Next(depth, s, step) && s.ru.Waiting? && t.ru.Waiting?
    ensures Flight(s) == (if step.PullCompleted? then [s.rxOut[0]] else []) + Flight(t)
  {
    if step.PullCompleted? {
      FlightOnPull(depth, s);
      assert Flight(t) == Flight(s)[1..];
    } else {
      FlightOnMove(depth, s, step);
    }
  }

  /** What wait_free_rx_tti computes is what its steps do in the ring, interleaved with any steps of the others. */
  lemma {:induction false} PullsRefine(depth: nat, s: State, steps: seq<Step>, end: State)
    requires Sized(depth, s) && s.ru.Waiting? && Run(depth, s, steps, end) && WaitsThroughout(depth, s, steps)
    ensures Sized(depth, end)
    ensures PullUntil(s.busy, Slots(Pulled(depth, s, steps)), s.ru.job.Index(depth))
      == Waited(!end.ru.Waiting?, |Pulled(depth, s, steps)|, end.busy)
    ensures !end.ru.Waiting? ==> end.ru == Feeding(s.ru.job)
    decreases steps
  {
    if steps != [] {
      var t := Next(depth, s, steps[0]);
      var pulled, rest := Slots(Pulled(depth, s, steps)), Slots(Pulled(depth, t, steps[1..]));
      if steps[0].PullCompleted? {
        assert pulled == [s.rxOut[0].slot] + rest;
        if t.ru.Waiting? {
          PullsRefine(depth, t, steps[1..], end);
        } else {
          assert steps[1..] == [] && end == t;
        }
      } else {
        assert pulled == rest && t.ru == s.ru && t.busy == s.busy;
        PullsRefine(depth, t, steps[1..], end);
      }
    }
  }

  /** A call of wait_free_rx_tti is the reception of an uplink slot followed by its pulls. */
  lemma AwaitIsInTheRing(depth: nat, s: State, frame: nat, slot: nat, steps: seq<Step>, end: State)
    requires Sized(depth, s) && s.ru.Receiving?
    requires var t := Next(depth, s, Receive(frame, slot, true));
      Run(depth, t, steps, end) && WaitsThroughout(depth, t, steps) && (t.ru.Feeding? ==> steps == [])
    ensures var pulled := Pulled(depth, Next(depth, s, Receive(frame, slot, true)), steps);
      Await(s.busy, Slots(pulled), slot) == Waited(!end.ru.Waiting?, |pulled|, end.busy)
  {
    var t := Next(depth, s, Receive(frame, slot, true));
    if t.ru.Waiting? {
      PullsRefine(depth, t, steps, end);
    }
  }

  /**
   A wait that is still going on has pulled fewer than `depth` jobs, so it ends with the depth-th at the latest; the
   flags it has cleared were all set and are all different.
   */
  lemma WaitIsShort(depth: nat, before: seq<Step>, s: State, steps: seq<Step>, end: State)
    requires 0 < depth && Run(depth, Init(depth), before, s)
    requires Run(depth, s, steps, end) && KeepsWaiting(depth, s, steps)
    ensures |Pulled(depth, s, steps)| < depth
    ensures IndicesDistinct(depth, Pulled(depth, s, steps)) && |s.busy| == depth
    ensures forall i :: 0 <= i < |Pulled(depth, s, steps)| ==> s.busy[Pulled(depth, s, steps)[i].Index(depth)]
  {
    InitInv(depth);
    RunKeepsInv(depth, Init(depth), before, s);
    RunKeepsInv(depth, s, steps, end);
    PulledAreOldest(depth, s, steps, end);
    AtMostDepth(depth, Flight(s));
    assert Holds(depth, Flight(end), end.ru.job.Index(depth));
    var pulled, f := Pulled(depth, s, steps), Flight(s);
    forall i | 0 <= i < |pulled| ensures pulled[i] == f[i] && s.busy[pulled[i].Index(depth)] {
      assert Holds(depth, f, f[i].Index(depth));
    }
  }
}
