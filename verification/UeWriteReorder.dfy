/**
 The reordering of device writes (openair0_write_reorder_common, writerEnqueue and writerProcessWaitingQueue in
 radio/COMMON/common_lib.c), through which every chunk of UeSlotEngine.RuWrite passes. The threads of different uplink
 slots call it in any order, each thread for the chunks of its slot one after the other. One thread at a time holds
 mutex_write, and the others leave their chunk in a queue. A step is one thread's work between two operations on the
 mutexes.
 */
module UeWriteReorder {
  import opened Options
  import opened UeSlotEngine

  const MAX_GAP := 100

  /** All chunks of a run in the order of time, the slot each belongs to, and the number of places in the queue. */
  datatype Stream = Stream(chunks: seq<Block>, slots: seq<nat>, capacity: nat) {

    ghost predicate Valid() {
      && 0 < |chunks| == |slots| && Consecutive(chunks)
      && forall i, j :: 0 <= i < j < |slots| ==> slots[i] <= slots[j]
    }

    /** The first chunk of its slot. */
    predicate IsStart(k: nat)
      requires |slots| == |chunks|
    {
      k < |chunks| && (k == 0 || slots[k - 1] != slots[k])
    }

    ghost predicate OneSlot()
      requires |slots| == |chunks|
    {
      forall i, j :: 0 <= i < |slots| && 0 <= j < |slots| ==> slots[i] == slots[j]
    }
  }

  /** Where the call for a chunk stands. */
  datatype Call =
    | NotCalled
    | Trying                  // before the first trylock
    | Comparing               // holds mutex_write
    | Writing                 // in sequence, goes to the device
    | Keeping                 // out of sequence, goes to the queue
    | Scanning(found: bool)   // in a pass over the queue, something already taken in it or not
    | Taken(chunk: nat)       // a chunk taken out of the queue goes to the device
    | Leaving                 // the last pass found nothing
    | Queueing                // the first trylock failed
    | Retrying                // before the second trylock
    | Returned

  predicate Holding(call: Call) {
    call.Comparing? || call.Writing? || call.Keeping? || call.Scanning? || call.Taken? || call.Leaving?
  }

  /** The call still has its own chunk in hand. */
  predicate InHand(call: Call) {
    call.NotCalled? || call.Trying? || call.Comparing? || call.Writing? || call.Keeping? || call.Queueing?
  }

  datatype State = State(
    nextTs: int,
    queue: set<nat>,          // chunks waiting in the queue
    holder: Option<nat>,      // call that holds mutex_write
    calls: seq<Call>,         // one for each chunk
    written: seq<nat>,        // chunks that have reached the device
    missed: bool              // the next chunk was queued after the holder's last pass, and its second trylock failed
  )

  datatype Step =
    | Enter(k: nat) | TryLock(k: nat) | Compare(k: nat) | Write(k: nat) | Keep(k: nat)
    | Take(k: nat, chunk: nat) | WriteTaken(k: nat) | EndPass(k: nat) | Unlock(k: nat)
    | Queue(k: nat) | Retry(k: nat)

  predicate Near(a: int, b: int) {
    -MAX_GAP < a - b < MAX_GAP
  }

  /** A queue place is free, or the program stops. */
  ghost predicate Room(w: Stream, s: State) {
    |s.queue| < w.capacity
  }

  /** The thread of a slot is ready for its next chunk. */
  predicate InTurn(w: Stream, s: State, k: nat)
    requires k < |w.chunks| == |w.slots| == |s.calls|
  {
    w.IsStart(k) || s.calls[k - 1].Returned?
  }

  ghost predicate Enabled(w: Stream, s: State, step: Step) {
    && |s.calls| == |w.chunks| == |w.slots| && step.k < |w.chunks|
    && var call := s.calls[step.k];
       match step
       case Enter(k) => call.NotCalled? && InTurn(w, s, k)
       case TryLock(_) => call.Trying?
       case Compare(_) => call.Comparing?
       case Write(_) => call.Writing?
       case Keep(_) => call.Keeping? && Room(w, s)
       case Take(_, chunk) =>
         call.Scanning? && chunk in s.queue && chunk < |w.chunks| && Near(w.chunks[chunk].timestamp, s.nextTs)
       case WriteTaken(_) => call.Taken? && call.chunk < |w.chunks|
       case EndPass(_) =>
         // a pass that has taken something may end with a match before its place in the queue
         && call.Scanning?
         && (!call.found ==> forall j :: j in s.queue && j < |w.chunks| ==> !Near(w.chunks[j].timestamp, s.nextTs))
       case Unlock(_) => call.Leaving?
       case Queue(_) => call.Queueing? && Room(w, s)
       case Retry(_) => call.Retrying?
  }

  function At(s: State, k: nat, call: Call): State
    requires k < |s.calls|
  {
    s.(calls := s.calls[k := call])
  }

  function Locked(s: State, k: nat, call: Call): State
    requires k < |s.calls|
  {
    At(s, k, call).(holder := Some(k), missed := false)
  }

  ghost function Next(w: Stream, s: State, step: Step): State
    requires Enabled(w, s, step)
  {
    var k := step.k;
    match step
    case Enter(_) => At(s, k, Trying)
    case TryLock(_) => if s.holder.None? then Locked(s, k, Comparing) else At(s, k, Queueing)
    case Compare(_) => At(s, k, if Near(w.chunks[k].timestamp, s.nextTs) then Writing else Keeping)
    case Write(_) => At(s, k, Scanning(false)).(nextTs := End(w.chunks[k]), written := s.written + [k])
    case Keep(_) => At(s, k, Scanning(false)).(queue := s.queue + {k})
    case Take(_, chunk) => At(s, k, Taken(chunk)).(queue := s.queue - {chunk})
    case WriteTaken(_) =>
      var chunk := s.calls[k].chunk;
      At(s, k, Scanning(true)).(nextTs := End(w.chunks[chunk]), written := s.written + [chunk])
    case EndPass(_) => At(s, k, if s.calls[k].found then Scanning(false) else Leaving)
    case Unlock(_) => At(s, k, Returned).(holder := None)
    case Queue(_) => At(s, k, Retrying).(queue := s.queue + {k})
    case Retry(_) =>
      if s.holder.None? then Locked(s, k, Scanning(false))
      else At(s, k, Returned).(missed := s.missed || (k == |s.written| && LeavingHolder(s)))
  }

  function End(b: Block): int {
    b.timestamp + b.size
  }

  /** The holder is past its last pass. */
  predicate LeavingHolder(s: State) {
    s.holder.Some? && s.holder.value < |s.calls| && s.calls[s.holder.value].Leaving?
  }

  /** After the first call, that for chunk `first`, which sets nextTS. */
  function Begin(chunks: seq<Block>, first: nat): State
    requires first < |chunks|
  {
    State(chunks[first].timestamp, {}, None, seq(|chunks|, k => if k == first then Trying else NotCalled), [], false)
  }

  ghost predicate Run(w: Stream, s: State, steps: seq<Step>, end: State)
    decreases steps
  {
    if steps == [] then end == s
    else
      Enabled(w, s, steps[0]) && Run(w, Next(w, s, steps[0]), steps[1..], end)
  }

  ghost predicate Reachable(w: Stream, first: nat, s: State)
    requires first < |w.chunks|
  {
    exists steps :: Run(w, Begin(w.chunks, first), steps, s)
  }

  // -------------------------------------------------------------------------------------------
  // Chunks that tile
  // -------------------------------------------------------------------------------------------

  ghost predicate Consecutive(chunks: seq<Block>) {
    forall k :: 0 <= k < |chunks| ==> 0 < chunks[k].size && (k + 1 < |chunks| ==> chunks[k + 1].timestamp == End(chunks[k]))
  }

  /** What UeSlotEngine.UplinkTiles states of all chunks of a run. */
  lemma {:induction false} TilesAreConsecutive(chunks: seq<Block>, from: int, to: int)
    requires Tiles(chunks, from, to)
    ensures Consecutive(chunks) && (chunks != [] ==> chunks[0].timestamp == from)
  {
    if chunks != [] {
      var rest := chunks[1..];
      TilesAreConsecutive(rest, from + chunks[0].size, to);
      forall k | 0 <= k < |chunks|
        ensures 0 < chunks[k].size && (k + 1 < |chunks| ==> chunks[k + 1].timestamp == End(chunks[k]))
      {
        if 0 < k {
          assert rest[k - 1] == chunks[k];
          assert k + 1 < |chunks| ==> rest[k] == chunks[k + 1];
        } else if 1 < |chunks| {
          assert rest[0] == chunks[1];
        }
      }
    }
  }

  /** The number of the slot each chunk of a run belongs to. */
  function SlotNumbers(writes: seq<seq<Block>>, from: nat): seq<nat> {
    if writes == [] then [] else seq(|writes[0]|, _ => from) + SlotNumbers(writes[1..], from + 1)
  }

  lemma {:induction false} SlotNumbersIncrease(writes: seq<seq<Block>>, from: nat)
    ensures |SlotNumbers(writes, from)| == |Flatten(writes)|
    ensures forall i :: 0 <= i < |SlotNumbers(writes, from)| ==> from <= SlotNumbers(writes, from)[i]
    ensures forall i, j :: 0 <= i < j < |SlotNumbers(writes, from)| ==> SlotNumbers(writes, from)[i] <= SlotNumbers(writes, from)[j]
  {
    if writes != [] {
      SlotNumbersIncrease(writes[1..], from + 1);
    }
  }

  /** The device writes of a run, as UeSlotEngine.UplinkTiles describes them, form a stream. */
  lemma RunIsAStream(writes: seq<seq<Block>>, from: int, to: int, capacity: nat)
    requires Tiles(Flatten(writes), from, to) && Flatten(writes) != []
    ensures Stream(Flatten(writes), SlotNumbers(writes, 0), capacity).Valid()
  {
    TilesAreConsecutive(Flatten(writes), from, to);
    SlotNumbersIncrease(writes, 0);
  }

  /** Every chunk but the last is long enough to be told from its neighbours. */
  ghost predicate LongEnough(chunks: seq<Block>) {
    forall k :: 0 <= k < |chunks| - 1 ==> MAX_GAP <= chunks[k].size
  }

  lemma {:induction false} TimestampsIncrease(chunks: seq<Block>, i: nat, j: nat)
    requires Consecutive(chunks) && i < j < |chunks|
    ensures End(chunks[i]) <= chunks[j].timestamp
    decreases j
  {
    if i + 1 < j {
      TimestampsIncrease(chunks, i, j - 1);
    }
  }

  /** Where the device expects the next sample once `m` chunks are written. */
  function Expected(chunks: seq<Block>, m: nat): int
    requires 0 < |chunks| && m <= |chunks|
  {
    if m < |chunks| then chunks[m].timestamp else End(chunks[|chunks| - 1])
  }

  /** Among the chunks not written, only the next one is near. */
  lemma OnlyNextIsNear(chunks: seq<Block>, m: nat, k: nat)
    requires Consecutive(chunks) && LongEnough(chunks) && m <= k < |chunks|
    ensures Near(chunks[k].timestamp, Expected(chunks, m)) <==> k == m
  {
    if m < k {
      TimestampsIncrease(chunks, m, k);
    }
  }

  // -------------------------------------------------------------------------------------------
  // The invariant
  // -------------------------------------------------------------------------------------------

  ghost predicate InOrder(s: State) {
    forall i :: 0 <= i < |s.written| ==> s.written[i] == i
  }

  /** The device has the first chunks, and nextTS says so. */
  ghost predicate DeviceOk(chunks: seq<Block>, s: State) {
    && 0 < |chunks| == |s.calls| && |s.written| <= |chunks|
    && InOrder(s) && s.nextTs == Expected(chunks, |s.written|)
  }

  /** mutex_write has at most one holder. */
  ghost predicate LockOk(s: State) {
    && (s.holder.Some? ==> s.holder.value < |s.calls|)
    && forall k: nat :: k < |s.calls| ==> (Holding(s.calls[k]) <==> s.holder == Some(k))
  }

  /** A chunk is in the hand of its call, in the queue, taken out by the holder, or written: always one of these. */
  ghost predicate PlaceOk(s: State, k: nat)
    requires k < |s.calls|
  {
    && (InHand(s.calls[k]) ==> |s.written| <= k && k !in s.queue && !IsTaken(s, k))
    && (k in s.queue ==> |s.written| <= k && !IsTaken(s, k))
    && (!InHand(s.calls[k]) ==> k < |s.written| || k in s.queue || IsTaken(s, k))
    && (s.calls[k].Writing? ==> k == |s.written|)
    && (IsTaken(s, k) ==> k == |s.written|)
  }

  predicate IsTaken(s: State, k: nat) {
    s.holder.Some? && s.holder.value < |s.calls| && s.calls[s.holder.value] == Taken(k)
  }

  ghost predicate PlacesOk(s: State) {
    && (forall k: nat :: k < |s.calls| ==> PlaceOk(s, k))
    && (forall k :: k in s.queue ==> k < |s.calls|)
    && (forall k: nat :: IsTaken(s, k) ==> k < |s.calls|)
  }

  /** The next chunk does not lie in the queue unnoticed, unless it was missed. */
  ghost predicate NoticeOk(s: State) {
    var m := |s.written|;
    && (s.missed ==> m in s.queue && (s.holder.None? || LeavingHolder(s)))
    && (m in s.queue && m < |s.calls| ==> s.missed || s.calls[m].Retrying? || (s.holder.Some? && !LeavingHolder(s)))
  }

  ghost predicate Inv(chunks: seq<Block>, s: State) {
    DeviceOk(chunks, s) && LockOk(s) && PlacesOk(s) && NoticeOk(s)
  }

  lemma BeginInv(chunks: seq<Block>)
    requires 0 < |chunks|
    ensures Inv(chunks, Begin(chunks, 0))
  {
  }

  lemma LockStepKeepsInv(w: Stream, s: State, step: Step)
    requires Inv(w.chunks, s) && Enabled(w, s, step) && (step.Enter? || step.TryLock? || step.Unlock?)
    ensures Inv(w.chunks, Next(w, s, step))
  {
    var t := Next(w, s, step);
    forall j: nat | j < |t.calls| ensures PlaceOk(t, j) {
      assert PlaceOk(s, j);
    }
    assert forall j: nat :: IsTaken(t, j) ==> IsTaken(s, j);
  }

  lemma RetryKeepsInv(w: Stream, s: State, k: nat)
    requires Inv(w.chunks, s) && Enabled(w, s, Retry(k))
    ensures Inv(w.chunks, Next(w, s, Retry(k)))
  {
    var t := Next(w, s, Retry(k));
    assert PlaceOk(s, k);
    forall j: nat | j < |t.calls| ensures PlaceOk(t, j) {
      assert PlaceOk(s, j);
    }
    assert forall j: nat :: IsTaken(t, j) ==> IsTaken(s, j);
  }

  lemma ReadStepKeepsInv(w: Stream, s: State, step: Step)
    requires Consecutive(w.chunks) && LongEnough(w.chunks) && Inv(w.chunks, s) && Enabled(w, s, step)
    requires step.Compare? || step.EndPass?
    ensures Inv(w.chunks, Next(w, s, step))
  {
    var t, k, m := Next(w, s, step), step.k, |s.written|;
    assert PlaceOk(s, k);
    if step.Compare? {
      OnlyNextIsNear(w.chunks, m, k);
    } else if m in s.queue {
      OnlyNextIsNear(w.chunks, m, m);
    }
    forall j: nat | j < |t.calls| ensures PlaceOk(t, j) {
      assert PlaceOk(s, j);
    }
    assert forall j: nat :: IsTaken(t, j) ==> IsTaken(s, j);
  }

  lemma EnqueueKeepsInv(w: Stream, s: State, step: Step)
    requires Inv(w.chunks, s) && Enabled(w, s, step) && (step.Keep? || step.Queue?)
    ensures Inv(w.chunks, Next(w, s, step))
  {
    var t, k := Next(w, s, step), step.k;
    assert PlaceOk(s, k);
    assert forall j: nat :: IsTaken(t, j) ==> IsTaken(s, j);
    forall j: nat | j < |t.calls| ensures PlaceOk(t, j) {
      assert PlaceOk(s, j);
    }
  }

  lemma TakeKeepsInv(w: Stream, s: State, k: nat, chunk: nat)
    requires Consecutive(w.chunks) && LongEnough(w.chunks) && Inv(w.chunks, s)
    requires Enabled(w, s, Take(k, chunk))
    ensures Inv(w.chunks, Next(w, s, Take(k, chunk)))
  {
    var t := Next(w, s, Take(k, chunk));
    assert PlaceOk(s, chunk) && PlaceOk(s, k);
    OnlyNextIsNear(w.chunks, |s.written|, chunk);
    forall j: nat | j < |t.calls| ensures PlaceOk(t, j) {
      assert PlaceOk(s, j);
    }
  }

  lemma WriteKeepsInv(w: Stream, s: State, step: Step)
    requires Consecutive(w.chunks) && Inv(w.chunks, s) && Enabled(w, s, step) && (step.Write? || step.WriteTaken?)
    ensures Inv(w.chunks, Next(w, s, step))
  {
    var t, k, m := Next(w, s, step), step.k, |s.written|;
    assert PlaceOk(s, k);
    assert s.holder == Some(k);
    if step.WriteTaken? {
      assert IsTaken(s, s.calls[k].chunk) && PlaceOk(s, s.calls[k].chunk);
    }
    assert t.written == s.written + [m];
    forall j: nat | j < |t.calls| ensures PlaceOk(t, j) {
      assert PlaceOk(s, j);
    }
  }

  lemma {:induction false} RunKeepsInv(w: Stream, s: State, steps: seq<Step>, end: State)
    requires Consecutive(w.chunks) && LongEnough(w.chunks) && Inv(w.chunks, s) && Run(w, s, steps, end)
    ensures Inv(w.chunks, end)
    decreases steps
  {
    if steps != [] {
      match steps[0] {
        case Keep(_) => EnqueueKeepsInv(w, s, steps[0]);
        case Queue(_) => EnqueueKeepsInv(w, s, steps[0]);
        case Take(k, chunk) => TakeKeepsInv(w, s, k, chunk);
        case Write(_) => WriteKeepsInv(w, s, steps[0]);
        case WriteTaken(_) => WriteKeepsInv(w, s, steps[0]);
        case Compare(_) => ReadStepKeepsInv(w, s, steps[0]);
        case EndPass(_) => ReadStepKeepsInv(w, s, steps[0]);
        case Retry(k) => RetryKeepsInv(w, s, k);
        case _ => LockStepKeepsInv(w, s, steps[0]);
      }
      RunKeepsInv(w, Next(w, s, steps[0]), steps[1..], end);
    }
  }

  // -------------------------------------------------------------------------------------------
  // Order
  // -------------------------------------------------------------------------------------------

  /** In every interleaving the device gets the chunks in order, each once, and none is lost. */
  lemma DeviceGetsChunksInOrder(w: Stream, s: State)
    requires Consecutive(w.chunks) && LongEnough(w.chunks) && 0 < |w.chunks| && Reachable(w, 0, s)
    ensures InOrder(s) && |s.written| <= |w.chunks| == |s.calls|
    ensures forall k: nat :: k < |w.chunks| && s.calls[k].Returned? ==> k < |s.written| || k in s.queue || IsTaken(s, k)
  {
    var steps :| Run(w, Begin(w.chunks, 0), steps, s);
    BeginInv(w.chunks);
    RunKeepsInv(w, Begin(w.chunks, 0), steps, s);
    forall k: nat | k < |w.chunks| && s.calls[k].Returned? ensures k < |s.written| || k in s.queue || IsTaken(s, k) {
      assert PlaceOk(s, k);
    }
  }

  /** No call is under way. */
  ghost predicate Quiescent(s: State) {
    forall k :: 0 <= k < |s.calls| ==> s.calls[k].NotCalled? || s.calls[k].Returned?
  }

  /**
   Once all calls have returned, the chunks called for are written up to the first that was not called for, except
   when the next chunk was missed: queued after the holder's last pass, with a second trylock before the unlock.
   */
  lemma ChunkIsLeftBehindIff(w: Stream, s: State)
    requires Consecutive(w.chunks) && LongEnough(w.chunks) && 0 < |w.chunks| && Reachable(w, 0, s) && Quiescent(s)
    ensures |s.written| <= |w.chunks| == |s.calls|
    ensures |s.written| < |w.chunks| && s.calls[|s.written|].Returned? <==> s.missed
  {
    var steps :| Run(w, Begin(w.chunks, 0), steps, s);
    BeginInv(w.chunks);
    RunKeepsInv(w, Begin(w.chunks, 0), steps, s);
    var m := |s.written|;
    assert s.holder.Some? ==> Holding(s.calls[s.holder.value]);
    if m < |w.chunks| {
      assert PlaceOk(s, m);
    }
  }

  // -------------------------------------------------------------------------------------------
  // Reaching states step by step
  // -------------------------------------------------------------------------------------------

  lemma {:induction false} RunThenStep(w: Stream, s: State, steps: seq<Step>, t: State, step: Step)
    requires Run(w, s, steps, t) && Enabled(w, t, step)
    ensures Run(w, s, steps + [step], Next(w, t, step))
    decreases steps
  {
    var all := steps + [step];
    if steps == [] {
      assert all == [step] && all[1..] == [];
    } else {
      RunThenStep(w, Next(w, s, steps[0]), steps[1..], t, step);
      assert all[1..] == steps[1..] + [step];
    }
  }

  lemma ReachStep(w: Stream, first: nat, s: State, step: Step, t: State)
    requires first < |w.chunks| && Reachable(w, first, s) && Enabled(w, s, step) && t == Next(w, s, step)
    ensures Reachable(w, first, t)
  {
    var steps :| Run(w, Begin(w.chunks, first), steps, s);
    RunThenStep(w, Begin(w.chunks, first), steps, s, step);
  }

  lemma ReachBegin(w: Stream, first: nat)
    requires first < |w.chunks|
    ensures Reachable(w, first, Begin(w.chunks, first))
  {
    assert Run(w, Begin(w.chunks, first), [], Begin(w.chunks, first));
  }

  ghost predicate Reached(w: Stream, first: nat, s: State) {
    first < |w.chunks| == |w.slots| == |s.calls| && Reachable(w, first, s)
  }

  ghost predicate CanTry(w: Stream, s: State, k: nat) {
    k < |w.chunks| == |w.slots| == |s.calls| && (s.calls[k].Trying? || (s.calls[k].NotCalled? && InTurn(w, s, k)))
  }

  lemma ReachTrying(w: Stream, first: nat, s: State, k: nat)
    requires Reached(w, first, s) && CanTry(w, s, k)
    ensures Reached(w, first, At(s, k, Trying))
  {
    if s.calls[k].Trying? {
      assert At(s, k, Trying).calls == s.calls;
    } else {
      ReachStep(w, first, s, Enter(k), At(s, k, Trying));
    }
  }

  /** A call for a chunk that is near, with mutex_write free, up to its write. */
  lemma ReachWrite(w: Stream, first: nat, s: State, k: nat) returns (t: State)
    requires Reached(w, first, s) && CanTry(w, s, k) && s.holder.None? && Near(w.chunks[k].timestamp, s.nextTs)
    ensures Reached(w, first, t)
    ensures t == State(End(w.chunks[k]), s.queue, Some(k), s.calls[k := Scanning(false)], s.written + [k], false)
  {
    ReachTrying(w, first, s, k);
    var s0 := At(s, k, Trying);
    var s1 := Locked(s0, k, Comparing);
    ReachStep(w, first, s0, TryLock(k), s1);
    var s2 := At(s1, k, Writing);
    ReachStep(w, first, s1, Compare(k), s2);
    t := Next(w, s2, Write(k));
    ReachStep(w, first, s2, Write(k), t);
    assert t.calls == s.calls[k := Scanning(false)];
  }

  /** A call for a chunk that is not near, with mutex_write free, up to the end of its pass. */
  lemma ReachKeep(w: Stream, first: nat, s: State, k: nat) returns (t: State)
    requires Reached(w, first, s) && CanTry(w, s, k) && s.holder.None? && !Near(w.chunks[k].timestamp, s.nextTs)
    requires s.queue == {} && 0 < w.capacity
    ensures Reached(w, first, t)
    ensures t == State(s.nextTs, {k}, Some(k), s.calls[k := Leaving], s.written, false)
  {
    ReachTrying(w, first, s, k);
    var s0 := At(s, k, Trying);
    var s1 := Locked(s0, k, Comparing);
    ReachStep(w, first, s0, TryLock(k), s1);
    var s2 := At(s1, k, Keeping);
    ReachStep(w, first, s1, Compare(k), s2);
    var s3 := Next(w, s2, Keep(k));
    ReachStep(w, first, s2, Keep(k), s3);
    assert s3.queue == {k};
    t := Next(w, s3, EndPass(k));
    ReachStep(w, first, s3, EndPass(k), t);
    assert t.calls == s.calls[k := Leaving];
  }

  /** A call that finds mutex_write held both times leaves its chunk in the queue. */
  lemma ReachQueued(w: Stream, first: nat, s: State, k: nat, holder: nat) returns (t: State)
    requires Reached(w, first, s) && CanTry(w, s, k) && s.holder == Some(holder) && holder != k && holder < |s.calls|
    requires |s.queue| < w.capacity
    ensures Reached(w, first, t)
    ensures t == State(s.nextTs, s.queue + {k}, s.holder, s.calls[k := Returned], s.written,
                       s.missed || (k == |s.written| && s.calls[holder].Leaving?))
  {
    var s2 := ReachRetrying(w, first, s, k, holder);
    t := Next(w, s2, Retry(k));
    ReachStep(w, first, s2, Retry(k), t);
    assert t.calls == s.calls[k := Returned];
  }

  lemma ReachRetrying(w: Stream, first: nat, s: State, k: nat, holder: nat) returns (t: State)
    requires Reached(w, first, s) && CanTry(w, s, k) && s.holder == Some(holder) && holder != k && holder < |s.calls|
    requires |s.queue| < w.capacity
    ensures Reached(w, first, t) && t == At(s, k, Retrying).(queue := s.queue + {k})
  {
    ReachTrying(w, first, s, k);
    var s0 := At(s, k, Trying);
    var s1 := At(s0, k, Queueing);
    ReachStep(w, first, s0, TryLock(k), s1);
    t := Next(w, s1, Queue(k));
    ReachStep(w, first, s1, Queue(k), t);
    assert t.calls == s.calls[k := Retrying];
  }

  lemma ReachUnlock(w: Stream, first: nat, s: State, k: nat) returns (t: State)
    requires Reached(w, first, s) && k < |s.calls| && s.calls[k].Leaving?
    ensures Reached(w, first, t) && t == At(s, k, Returned).(holder := None)
  {
    t := Next(w, s, Unlock(k));
    ReachStep(w, first, s, Unlock(k), t);
  }

  /** The holder of an empty queue comes to its last pass. */
  lemma ReachLeaving(w: Stream, first: nat, s: State, k: nat) returns (t: State)
    requires Reached(w, first, s) && k < |s.calls| && s.calls[k].Scanning? && s.queue == {}
    ensures Reached(w, first, t) && t == At(s, k, Leaving)
  {
    var s1 := At(s, k, Scanning(false));
    if s.calls[k].found {
      ReachStep(w, first, s, EndPass(k), s1);
    } else {
      assert s1.calls == s.calls;
    }
    t := At(s1, k, Leaving);
    ReachStep(w, first, s1, EndPass(k), t);
    assert t.calls == At(s, k, Leaving).calls;
  }

  // -------------------------------------------------------------------------------------------
  // Calls one after the other
  // -------------------------------------------------------------------------------------------

  /** The first `done` calls have been made one after the other, and no other but the very first has begun. */
  ghost predicate OneByOne(w: Stream, s: State, done: nat) {
    && |s.calls| == |w.chunks| == |w.slots| && done < |w.chunks|
    && s.queue == {} && s.holder.None? && s.nextTs == w.chunks[done].timestamp
    && |s.written| == done && InOrder(s)
    && (forall k :: 0 <= k < done ==> s.calls[k].Returned?)
    && forall k :: done <= k < |w.chunks| ==> s.calls[k] == if k == 0 then Trying else NotCalled
  }

  lemma {:induction false} ReachOneByOne(w: Stream, done: nat) returns (s: State)
    requires w.Valid() && done < |w.chunks|
    ensures Reached(w, 0, s) && OneByOne(w, s, done)
  {
    if done == 0 {
      s := Begin(w.chunks, 0);
      ReachBegin(w, 0);
    } else {
      var k := done - 1;
      var s0 := ReachOneByOne(w, k);
      var s1 := ReachWrite(w, 0, s0, k);
      var s2 := ReachLeaving(w, 0, s1, k);
      s := ReachUnlock(w, 0, s2, k);
    }
  }

  // -------------------------------------------------------------------------------------------
  // A chunk that can be told from its successor by nothing but the order of calls
  // -------------------------------------------------------------------------------------------

  ghost predicate AlwaysInOrder(w: Stream, first: nat)
    requires first < |w.chunks|
  {
    forall s :: Reachable(w, first, s) ==> InOrder(s)
  }

  /** The next chunk is left in the queue, and the chunk after it, written by the same thread, is near enough to pass it. */
  lemma MissedIsOvertaken(w: Stream, s: State, holder: nat, k: nat)
    requires w.Valid() && Reached(w, 0, s) && k + 1 < |w.chunks| && w.chunks[k].size < MAX_GAP && w.slots[k] == w.slots[k + 1]
    requires holder < |s.calls| && holder != k && holder != k + 1 && s.holder == Some(holder) && s.calls[holder].Leaving?
    requires |s.written| == k && s.nextTs == w.chunks[k].timestamp && |s.queue| < w.capacity
    requires CanTry(w, s, k) && s.calls[k + 1].NotCalled?
    ensures !AlwaysInOrder(w, 0)
  {
    var s1 := ReachQueued(w, 0, s, k, holder);
    var s2 := ReachUnlock(w, 0, s1, holder);
    var t := ReachWrite(w, 0, s2, k + 1);
    assert t.written[k] == k + 1;
  }

  /** A short chunk whose successor belongs to another slot. */
  lemma ShortLastOfSlot(w: Stream, k: nat)
    requires w.Valid() && k + 1 < |w.chunks| && w.chunks[k].size < MAX_GAP && w.slots[k] != w.slots[k + 1]
    ensures !AlwaysInOrder(w, 0)
  {
    var s := ReachOneByOne(w, k);
    var t := ReachWrite(w, 0, s, k + 1);
    assert t.written[k] == k + 1;
  }

  /** A short chunk inside a block, with a slot `later` that begins after the block. */
  lemma ShortBeforeLaterSlot(w: Stream, k: nat, later: nat)
    requires w.Valid() && 2 <= w.capacity && k + 1 < later && w.IsStart(later)
    requires w.chunks[k].size < MAX_GAP && w.slots[k] == w.slots[k + 1]
    ensures !AlwaysInOrder(w, 0)
  {
    var s := ReachOneByOne(w, k);
    if Near(w.chunks[later].timestamp, s.nextTs) {
      var t := ReachWrite(w, 0, s, later);
      assert t.written[k] == later;
    } else {
      var t := ReachKeep(w, 0, s, later);
      MissedIsOvertaken(w, t, later, k);
    }
  }

  /** A short chunk inside a block that begins at `start`, after another slot. */
  lemma ShortAfterEarlierSlot(w: Stream, k: nat, start: nat)
    requires w.Valid() && 1 <= w.capacity && 0 < start <= k && k + 1 < |w.chunks| && w.IsStart(start)
    requires forall i :: start <= i <= k + 1 ==> w.slots[i] == w.slots[start]
    requires w.chunks[k].size < MAX_GAP
    ensures !AlwaysInOrder(w, 0)
  {
    var e := start - 1;
    var s := ReachOneByOne(w, e);
    var s1 := ReachWrite(w, 0, s, e);
    var s2 := ServedByHolder(w, s1, e, start, k);
    var t := ReachLeaving(w, 0, s2, e);
    MissedIsOvertaken(w, t, e, k);
  }

  /** Chunks that wait for the holder `e`: it has written all before `next`, which come next in their block. */
  ghost predicate Served(w: Stream, s: State, e: nat, next: nat) {
    && |s.calls| == |w.chunks| == |w.slots| && e < next < |w.chunks|
    && s.queue == {} && s.holder == Some(e) && s.calls[e].Scanning? && s.nextTs == w.chunks[next].timestamp
    && |s.written| == next
    && (forall k :: e < k < next ==> s.calls[k].Returned?)
    && forall k :: next <= k < |w.chunks| ==> s.calls[k].NotCalled?
  }

  lemma {:induction false} ServedByHolder(w: Stream, s: State, e: nat, next: nat, k: nat) returns (t: State)
    requires w.Valid() && 1 <= w.capacity && Reached(w, 0, s) && Served(w, s, e, next) && next <= k < |w.chunks|
    requires w.IsStart(e + 1) && forall i :: e + 1 < i <= k ==> !w.IsStart(i)
    ensures Reached(w, 0, t) && Served(w, t, e, k)
    decreases k - next
  {
    if next == k {
      t := s;
    } else {
      var s1 := ReachQueued(w, 0, s, next, e);
      var s2 := Next(w, s1, Take(e, next));
      ReachStep(w, 0, s1, Take(e, next), s2);
      assert s2.queue == {};
      var s3 := Next(w, s2, WriteTaken(e));
      ReachStep(w, 0, s2, WriteTaken(e), s3);
      t := ServedByHolder(w, s3, e, next + 1, k);
    }
  }

  /** With another slot in the stream, a chunk after any short one can pass it. */
  lemma ShortChunkIsOvertaken(w: Stream, k: nat)
    requires w.Valid() && 2 <= w.capacity && !w.OneSlot() && k + 1 < |w.chunks| && w.chunks[k].size < MAX_GAP
    ensures !AlwaysInOrder(w, 0)
  {
    if w.slots[k] != w.slots[k + 1] {
      ShortLastOfSlot(w, k);
    } else {
      var n := |w.chunks|;
      if w.slots[n - 1] != w.slots[k] {
        var later := FirstOfLaterSlot(w, k + 1, n - 1);
        ShortBeforeLaterSlot(w, k, later);
      } else {
        var start := StartOfBlock(w, k);
        if start == 0 {
          OnlyOneSlot(w, k);
        }
        ShortAfterEarlierSlot(w, k, start);
      }
    }
  }

  lemma {:induction false} FirstOfLaterSlot(w: Stream, from: nat, to: nat) returns (later: nat)
    requires w.Valid() && from < to < |w.chunks| && w.slots[from] != w.slots[to]
    ensures from < later <= to && w.IsStart(later)
    decreases |w.chunks| - from
  {
    if w.slots[from] != w.slots[from + 1] {
      later := from + 1;
    } else {
      later := FirstOfLaterSlot(w, from + 1, to);
    }
  }

  lemma {:induction false} StartOfBlock(w: Stream, k: nat) returns (start: nat)
    requires w.Valid() && k < |w.chunks|
    ensures start <= k && w.IsStart(start) && forall i :: start <= i <= k ==> w.slots[i] == w.slots[k]
    decreases k
  {
    if w.IsStart(k) {
      start := k;
    } else {
      start := StartOfBlock(w, k - 1);
    }
  }

  /** A block from the first chunk to the last is the only one. */
  lemma OnlyOneSlot(w: Stream, k: nat)
    requires w.Valid() && k < |w.chunks| && w.slots[0] == w.slots[k] == w.slots[|w.chunks| - 1]
    ensures w.OneSlot()
  {
    forall i, j | 0 <= i < |w.slots| && 0 <= j < |w.slots| ensures w.slots[i] == w.slots[j] {
      assert w.slots[0] <= w.slots[i] <= w.slots[|w.slots| - 1] || i == 0 || i == |w.slots| - 1;
      assert w.slots[0] <= w.slots[j] <= w.slots[|w.slots| - 1] || j == 0 || j == |w.slots| - 1;
    }
  }

  /** A chunk can be left behind: of two slots' chunks the second is queued between the last pass and the unlock of the first. */
  lemma SecondChunkCanBeMissed(w: Stream) returns (s: State)
    requires w.Valid() && |w.chunks| == 2 && w.slots[0] != w.slots[1] && 0 < w.capacity
    ensures Reachable(w, 0, s) && Quiescent(s) && s.missed && s.written == [0]
  {
    ReachBegin(w, 0);
    var s1 := ReachWrite(w, 0, Begin(w.chunks, 0), 0);
    var s2 := ReachLeaving(w, 0, s1, 0);
    var s3 := ReachQueued(w, 0, s2, 1, 0);
    s := ReachUnlock(w, 0, s3, 0);
  }

  /** The chunk whose call comes first is taken for the start of the stream. */
  lemma LateFirstChunk(w: Stream, first: nat)
    requires w.Valid() && 0 < first < |w.chunks|
    ensures !AlwaysInOrder(w, first)
  {
    ReachBegin(w, first);
    var t := ReachWrite(w, first, Begin(w.chunks, first), first);
    assert t.written[0] == first;
  }

  // -------------------------------------------------------------------------------------------
  // One thread alone
  // -------------------------------------------------------------------------------------------

  /** The calls before `k` are over, those after it have not begun, and no chunk ever waits. */
  ghost predicate AloneAt(w: Stream, s: State, k: nat) {
    && k < |w.chunks| == |w.slots| == |s.calls| && s.queue == {} && InOrder(s)
    && (forall j :: 0 <= j < k ==> s.calls[j].Returned?)
    && (forall j :: k < j < |s.calls| ==> s.calls[j].NotCalled?)
    && var call := s.calls[k];
       && s.holder == (if Holding(call) then Some(k) else None)
       && |s.written| == (if InHand(call) then k else k + 1) && s.nextTs == Expected(w.chunks, |s.written|)
       && (call.NotCalled? || call.Trying? || call.Comparing? || call.Writing? || call == Scanning(false) || call.Leaving? || call.Returned?)
  }

  lemma AloneStep(w: Stream, s: State, k: nat, step: Step) returns (next: nat)
    requires w.Valid() && w.OneSlot() && AloneAt(w, s, k) && Enabled(w, s, step)
    ensures AloneAt(w, Next(w, s, step), next)
  {
    next := if step.Enter? then step.k else k;
  }

  lemma {:induction false} AloneRun(w: Stream, s: State, k: nat, steps: seq<Step>, end: State)
    requires w.Valid() && w.OneSlot() && AloneAt(w, s, k) && Run(w, s, steps, end)
    ensures InOrder(end)
    decreases steps
  {
    if steps != [] {
      var next := AloneStep(w, s, k, steps[0]);
      AloneRun(w, Next(w, s, steps[0]), next, steps[1..], end);
    }
  }

  /**
   The device gets the chunks in order in every interleaving exactly when they all belong to one slot, or the first call is
   that for the first chunk and every chunk but the last is at least MAX_GAP samples long.
   */
  lemma AlwaysInOrderIff(w: Stream, first: nat)
    requires w.Valid() && 2 <= w.capacity && w.IsStart(first)
    ensures AlwaysInOrder(w, first) <==> w.OneSlot() || (first == 0 && LongEnough(w.chunks))
  {
    if w.OneSlot() {
      forall s | Reachable(w, first, s) ensures InOrder(s) {
        var steps :| Run(w, Begin(w.chunks, first), steps, s);
        AloneRun(w, Begin(w.chunks, first), 0, steps, s);
      }
    } else if first != 0 {
      LateFirstChunk(w, first);
    } else if !LongEnough(w.chunks) {
      var k: nat :| k < |w.chunks| - 1 && w.chunks[k].size < MAX_GAP;
      ShortChunkIsOvertaken(w, k);
    } else {
      forall s | Reachable(w, 0, s) ensures InOrder(s) {
        DeviceGetsChunksInOrder(w, s);
      }
    }
  }
}
