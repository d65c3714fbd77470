/**
 The flush of the worker threads before a resynchronisation (executables/nr-ue.c, handle_sync_req_from_mac and
 start_process_slot_tx; common/utils/actor/actor.c), and what may still be under way when the barriers are reset.

 The main thread flushes the downlink actors and then the uplink actors, each in the order of their numbers. A flush waits
 for the work that is in the actor's queue when the flush begins. Decodings run on downlink actors, uplink slots on the
 actor given by their slot number. Work of an uplink slot after its join does not touch the barriers and is left out, so a
 flush may return earlier here than in the program.
 */
module UeTxFlush {
  import opened CInts
  import opened Options
  import opened UeTxBarriers
  import opened UeTxStrays

  /** What the main thread is doing. */
  datatype Phase =
    | FlushDl(actor: nat)
    | PushUl(actor: nat)                          // about to push the marker into an uplink actor's queue
    | FlushUl(actor: nat, before: Option<nat>)    // waiting; `before` is the slot in front of the marker
    | Flushed

  /** `dl` are the decodings in the queue of each downlink actor. */
  datatype Flush = Flush(s: State, dl: seq<multiset<Decoding>>, phase: Phase)

  datatype Step = Decode(actor: nat, d: Decoding) | Join | DlFlushed | UlPushed | UlFlushed

  function UlActor(c: Config, actors: nat, slot: nat): nat
    requires c.Positive() && 0 < actors
  {
    slot % c.slots % actors
  }

  function Begin(s: State, dl: seq<multiset<Decoding>>): Flush {
    Flush(s, dl, if dl == [] then PushUl(0) else FlushDl(0))
  }

  ghost predicate Enabled(c: Config, f: Flush, step: Step) {
    && WellFormed(c, f.s)
    && match step
       case Decode(actor, d) => actor < |f.dl| && d in f.dl[actor] && d in f.s.decodings
       case Join => f.s.running != []
       case DlFlushed => f.phase.FlushDl? && f.phase.actor < |f.dl| && f.dl[f.phase.actor] == multiset{}
       case UlPushed => f.phase.PushUl?
       case UlFlushed => f.phase.FlushUl? && (f.phase.before.Some? ==> f.s.running == [] || f.s.running[0].slot != f.phase.before.value)
  }

  ghost function Next(c: Config, actors: nat, f: Flush, step: Step): Flush
    requires 0 < actors && Enabled(c, f, step)
  {
    match step
    case Decode(actor, d) =>
      f.(s := UeTxBarriers.Next(c, f.s, Decoded(d)), dl := f.dl[actor := f.dl[actor] - multiset{d}])
    case Join => f.(s := UeTxBarriers.Next(c, f.s, Joined(0)))
    case DlFlushed => f.(phase := if f.phase.actor + 1 < |f.dl| then FlushDl(f.phase.actor + 1) else PushUl(0))
    case UlPushed =>
      var i := f.phase.actor;
      var waits := f.s.running != [] && UlActor(c, actors, f.s.running[0].slot) == i;
      f.(phase := FlushUl(i, if waits then Some(f.s.running[0].slot) else None))
    case UlFlushed => f.(phase := if f.phase.actor + 1 < actors then PushUl(f.phase.actor + 1) else Flushed)
  }

  ghost predicate Run(c: Config, actors: nat, f: Flush, steps: seq<Step>, end: Flush)
    requires 0 < actors
    decreases steps
  {
    if steps == [] then end == f
    else Enabled(c, f, steps[0]) && Run(c, actors, Next(c, actors, f, steps[0]), steps[1..], end)
  }

  ghost predicate Leads(c: Config, actors: nat, f: Flush, end: Flush)
    requires 0 < actors
  {
    exists steps :: Run(c, actors, f, steps, end)
  }

  /** Decodings under way are those in the queues. */
  ghost function Queued(dl: seq<multiset<Decoding>>): multiset<Decoding> {
    if dl == [] then multiset{} else dl[0] + Queued(dl[1..])
  }

  lemma {:induction false} QueuedHas(dl: seq<multiset<Decoding>>, actor: nat, d: Decoding)
    requires actor < |dl| && d in dl[actor]
    ensures d in Queued(dl)
    ensures Queued(dl[actor := dl[actor] - multiset{d}]) == Queued(dl) - multiset{d}
  {
    var after := dl[actor := dl[actor] - multiset{d}];
    if actor == 0 {
      assert after[1..] == dl[1..];
    } else {
      QueuedHas(dl[1..], actor - 1, d);
      assert after[1..] == dl[1..][actor - 1 := dl[1..][actor - 1] - multiset{d}];
    }
  }

  lemma {:induction false} QueuedNone(dl: seq<multiset<Decoding>>)
    requires forall i :: 0 <= i < |dl| ==> dl[i] == multiset{}
    ensures Queued(dl) == multiset{}
  {
    if dl != [] {
      QueuedNone(dl[1..]);
    }
  }

  lemma {:induction false} QueuedSomewhere(dl: seq<multiset<Decoding>>, d: Decoding) returns (actor: nat)
    requires d in Queued(dl)
    ensures actor < |dl| && d in dl[actor]
  {
    if d in dl[0] {
      actor := 0;
    } else {
      var i := QueuedSomewhere(dl[1..], d);
      actor := i + 1;
    }
  }

  // -------------------------------------------------------------------------------------------
  // Which uplink slots the flush waits for
  // -------------------------------------------------------------------------------------------

  /** First uplink slot that is not past its join. */
  ghost function Front(first: nat, s: State): nat {
    if s.running != [] && 0 < Waiting(first, s) then Waiting(first, s) - 1 else Waiting(first, s)
  }

  /** First slot after `slot` whose actor has a number that is not greater than that of the slot before it. */
  function NextWrap(c: Config, actors: nat, slot: nat): nat
    requires c.Positive() && 0 < actors
  {
    slot + Min(actors - UlActor(c, actors, slot), c.slots - slot % c.slots)
  }

  /** Up to the wrap the actors' numbers increase with the slots. */
  lemma ActorsIncrease(c: Config, actors: nat, from: nat, slot: nat)
    requires c.Positive() && 0 < actors && from <= slot < NextWrap(c, actors, from)
    ensures UlActor(c, actors, slot) == UlActor(c, actors, from) + (slot - from)
  {
    var k, r := slot - from, from % c.slots;
    DivModUnique(from / c.slots, r + k, c.slots);
    assert slot == (from / c.slots) * c.slots + (r + k);
    DivModUnique(r / actors, r % actors + k, actors);
    assert r + k == (r / actors) * actors + (r % actors + k);
  }

  /** And the slot at the wrap is on the first actor. */
  lemma ActorAtWrap(c: Config, actors: nat, from: nat)
    requires c.Positive() && 0 < actors
    ensures UlActor(c, actors, NextWrap(c, actors, from)) == 0
  {
    var r := from % c.slots;
    if c.slots - r <= actors - r % actors {
      DivModUnique(from / c.slots + 1, 0, c.slots);
      OneMore(from / c.slots, c.slots);
      assert NextWrap(c, actors, from) == (from / c.slots + 1) * c.slots + 0;
      DivModUnique(0, 0, actors);
    } else {
      var k := actors - r % actors;
      DivModUnique(from / c.slots, r + k, c.slots);
      assert NextWrap(c, actors, from) == (from / c.slots) * c.slots + (r + k);
      DivModUnique(r / actors + 1, 0, actors);
      OneMore(r / actors, actors);
      assert r + k == (r / actors + 1) * actors + 0;
    }
  }

  /** The wrap is the next slot that runs on the first actor. */
  lemma NextWrapIsFirst(c: Config, actors: nat, from: nat, slot: nat)
    requires c.Positive() && 0 < actors
    ensures from < NextWrap(c, actors, from) && NextWrap(c, actors, from) % c.slots % actors == 0
    ensures from < slot && slot % c.slots % actors == 0 ==> NextWrap(c, actors, from) <= slot
  {
    ActorAtWrap(c, actors, from);
    if from < slot < NextWrap(c, actors, from) {
      ActorsIncrease(c, actors, from, slot);
    }
  }

  ghost predicate DlOk(f: Flush) {
    && f.s.decodings == Queued(f.dl)
    && (match f.phase
        case FlushDl(actor) => actor < |f.dl| && forall i :: 0 <= i < actor ==> f.dl[i] == multiset{}
        case _ => forall i :: 0 <= i < |f.dl| ==> f.dl[i] == multiset{})
  }

  /** A slot before the wrap that is under way is still to be waited for. */
  ghost predicate UlOk(c: Config, actors: nat, f: Flush, wrap: nat)
    requires c.Positive() && 0 < actors
  {
    f.s.running != [] && f.s.running[0].slot < wrap ==>
      var slot := f.s.running[0].slot;
      var a := UlActor(c, actors, slot);
      match f.phase
      case FlushDl(_) => true
      case PushUl(i) => i <= a
      case FlushUl(i, before) => i < a || (i == a && before == Some(slot))
      case Flushed => false
  }

  ghost predicate PhaseOk(actors: nat, phase: Phase) {
    (phase.PushUl? ==> phase.actor < actors) && (phase.FlushUl? ==> phase.actor < actors)
  }

  /** All of it; `start` is the front when the flush began, and nothing is issued meanwhile. */
  ghost predicate FlushInv(c: Config, actors: nat, first: nat, start: nat, issued: nat, f: Flush) {
    && WellFormed(c, f.s) && 0 < actors
    && Inv(c, first, f.s) && Issuing(c, f.s) == issued && start <= Front(first, f.s)
    && DlOk(f) && PhaseOk(actors, f.phase) && UlOk(c, actors, f, NextWrap(c, actors, start))
  }

  lemma RunningIsFront(c: Config, first: nat, s: State)
    requires Inv(c, first, s)
    ensures |s.running| <= 1 && (s.running != [] ==> s.running[0].slot == Front(first, s) < Issuing(c, s))
  {
    assert Holds(c, first, s, Order);
  }

  /** Joins and decodings move the front on by at most the slot that joined. */
  lemma JoinMovesFront(c: Config, first: nat, s: State, t: State)
    requires Inv(c, first, s) && WellFormed(c, s) && s.running != [] && t == UeTxBarriers.Next(c, s, Joined(0))
    ensures Inv(c, first, t) && WellFormed(c, t) && t.rxSlot == s.rxSlot && t.decodings == s.decodings
    ensures Front(first, t) == Front(first, s) + 1
  {
    JoinedKeepsInv(c, first, s, 0, s.(running := s.running[..0] + s.running[1..]), t);
    assert Holds(c, first, s, Order) && Holds(c, first, t, Order);
    assert s.running[..0] + s.running[1..] == [];
  }

  lemma DecodeKeepsFront(c: Config, first: nat, s: State, d: Decoding, t: State)
    requires Inv(c, first, s) && WellFormed(c, s) && d in s.decodings && t == UeTxBarriers.Next(c, s, Decoded(d))
    ensures Inv(c, first, t) && WellFormed(c, t) && t.rxSlot == s.rxSlot && t.decodings == s.decodings - multiset{d}
    ensures Front(first, t) == Front(first, s)
  {
    DecodedKeepsInv(c, first, s, d, s.(decodings := s.decodings - multiset{d}), t);
    assert Holds(c, first, s, Order) && Holds(c, first, t, Order);
  }

  lemma DecodeKeepsInv(c: Config, actors: nat, first: nat, start: nat, issued: nat, f: Flush, actor: nat, d: Decoding)
    requires FlushInv(c, actors, first, start, issued, f) && Enabled(c, f, Decode(actor, d))
    ensures FlushInv(c, actors, first, start, issued, Next(c, actors, f, Decode(actor, d)))
  {
    DecodeKeepsFront(c, first, f.s, d, UeTxBarriers.Next(c, f.s, Decoded(d)));
    QueuedHas(f.dl, actor, d);
    assert f.phase.FlushDl?;
  }

  lemma JoinKeepsInv(c: Config, actors: nat, first: nat, start: nat, issued: nat, f: Flush)
    requires FlushInv(c, actors, first, start, issued, f) && Enabled(c, f, Join)
    ensures FlushInv(c, actors, first, start, issued, Next(c, actors, f, Join))
  {
    var t, wrap := UeTxBarriers.Next(c, f.s, Joined(0)), NextWrap(c, actors, start);
    JoinMovesFront(c, first, f.s, t);
    RunningIsFront(c, first, f.s);
    RunningIsFront(c, first, t);
    if t.running != [] && t.running[0].slot < wrap {
      ActorsIncrease(c, actors, start, f.s.running[0].slot);
      ActorsIncrease(c, actors, start, t.running[0].slot);
    }
  }

  lemma {:induction false} RunKeepsInv(c: Config, actors: nat, first: nat, start: nat, issued: nat, f: Flush,
                                       steps: seq<Step>, end: Flush)
    requires FlushInv(c, actors, first, start, issued, f) && Run(c, actors, f, steps, end)
    ensures FlushInv(c, actors, first, start, issued, end)
    decreases steps
  {
    if steps != [] {
      var g := Next(c, actors, f, steps[0]);
      match steps[0] {
        case Decode(actor, d) => DecodeKeepsInv(c, actors, first, start, issued, f, actor, d);
        case Join => JoinKeepsInv(c, actors, first, start, issued, f);
        case _ => FlushStepKeepsInv(c, actors, first, start, issued, f, steps[0]);
      }
      RunKeepsInv(c, actors, first, start, issued, g, steps[1..], end);
    }
  }

  lemma FlushStepKeepsInv(c: Config, actors: nat, first: nat, start: nat, issued: nat, f: Flush, step: Step)
    requires FlushInv(c, actors, first, start, issued, f) && Enabled(c, f, step)
    requires step.DlFlushed? || step.UlPushed? || step.UlFlushed?
    ensures FlushInv(c, actors, first, start, issued, Next(c, actors, f, step))
  {
  }

  // -------------------------------------------------------------------------------------------
  // What is under way at the reset
  // -------------------------------------------------------------------------------------------

  /** A flush can begin between two iterations, with every decoding under way in some queue. */
  ghost predicate CanBegin(c: Config, first: nat, s: State, dl: seq<multiset<Decoding>>) {
    c.Valid() && Inv(c, first, s) && WellFormed(c, s) && s.decodings == Queued(dl)
  }

  /** No decoding is under way at the reset, and no slot before the wrap. */
  lemma FlushDrains(c: Config, actors: nat, first: nat, s: State, dl: seq<multiset<Decoding>>, end: Flush)
    requires CanBegin(c, first, s, dl) && 0 < actors
    requires Leads(c, actors, Begin(s, dl), end) && end.phase.Flushed?
    ensures end.s.decodings == multiset{}
    ensures |end.s.running| <= 1 && (end.s.running != [] ==> NextWrap(c, actors, Front(first, s)) <= end.s.running[0].slot < Issuing(c, s))
  {
    var steps :| Run(c, actors, Begin(s, dl), steps, end);
    RunKeepsInv(c, actors, first, Front(first, s), Issuing(c, s), Begin(s, dl), steps, end);
    QueuedNone(end.dl);
    RunningIsFront(c, first, end.s);
  }

  lemma StepThenRun(c: Config, actors: nat, f: Flush, step: Step, g: Flush, end: Flush)
    requires 0 < actors && Enabled(c, f, step) && g == Next(c, actors, f, step) && Leads(c, actors, g, end)
    ensures Leads(c, actors, f, end)
  {
    var rest :| Run(c, actors, g, rest, end);
    var steps := [step] + rest;
    assert steps[0] == step && steps[1..] == rest;
    assert Run(c, actors, f, steps, end);
  }

  lemma {:induction false} LeadsAfterRun(c: Config, actors: nat, f: Flush, steps: seq<Step>, g: Flush, end: Flush)
    requires 0 < actors && Run(c, actors, f, steps, g) && Leads(c, actors, g, end)
    ensures Leads(c, actors, f, end)
    decreases steps
  {
    if steps != [] {
      LeadsAfterRun(c, actors, Next(c, actors, f, steps[0]), steps[1..], g, end);
      StepThenRun(c, actors, f, steps[0], Next(c, actors, f, steps[0]), end);
    }
  }

  lemma LeadsTrans(c: Config, actors: nat, f: Flush, g: Flush, end: Flush)
    requires 0 < actors && Leads(c, actors, f, g) && Leads(c, actors, g, end)
    ensures Leads(c, actors, f, end)
  {
    var steps :| Run(c, actors, f, steps, g);
    LeadsAfterRun(c, actors, f, steps, g, end);
  }

  /** The downlink queues are emptied before any uplink slot joins. */
  lemma {:induction false} DecodeFirst(c: Config, actors: nat, first: nat, start: nat, issued: nat, f: Flush)
    returns (g: Flush)
    requires FlushInv(c, actors, first, start, issued, f) && f.phase == FlushDl(0) && Front(first, f.s) == start
    ensures FlushInv(c, actors, first, start, issued, g) && g.phase == FlushDl(0) && Front(first, g.s) == start
    ensures |g.dl| == |f.dl| && forall i :: 0 <= i < |g.dl| ==> g.dl[i] == multiset{}
    ensures Leads(c, actors, f, g)
    decreases |f.s.decodings|
  {
    if f.s.decodings == multiset{} {
      g := f;
      assert Run(c, actors, f, [], f);
      forall i | 0 <= i < |g.dl| ensures g.dl[i] == multiset{} {
        if g.dl[i] != multiset{} {
          var d :| d in g.dl[i];
          QueuedHas(g.dl, i, d);
        }
      }
    } else {
      var d :| d in f.s.decodings;
      var actor := QueuedSomewhere(f.dl, d);
      var h := Next(c, actors, f, Decode(actor, d));
      DecodeKeepsInv(c, actors, first, start, issued, f, actor, d);
      DecodeKeepsFront(c, first, f.s, d, h.s);
      assert |h.s.decodings| == |f.s.decodings| - 1;
      g := DecodeFirst(c, actors, first, start, issued, h);
      StepThenRun(c, actors, f, Decode(actor, d), h, g);
    }
  }

  lemma {:induction false} PassDl(c: Config, actors: nat, f: Flush, end: Flush)
    requires 0 < actors && WellFormed(c, f.s) && f.phase.FlushDl? && f.phase.actor < |f.dl|
    requires forall i :: 0 <= i < |f.dl| ==> f.dl[i] == multiset{}
    requires Leads(c, actors, f.(phase := PushUl(0)), end)
    ensures Leads(c, actors, f, end)
    decreases |f.dl| - f.phase.actor
  {
    var g := Next(c, actors, f, DlFlushed);
    if f.phase.actor + 1 < |f.dl| {
      PassDl(c, actors, g, end);
    }
    StepThenRun(c, actors, f, DlFlushed, g, end);
  }

  /** The flush of one actor, during which the slot under way joins if it is on that actor and before the wrap. */
  lemma OneActorFlushed(c: Config, actors: nat, first: nat, start: nat, f: Flush) returns (k: Flush)
    requires FlushInv(c, actors, first, start, Issuing(c, f.s), f) && f.phase.PushUl?
    requires NextWrap(c, actors, start) < Issuing(c, f.s) && Front(first, f.s) <= NextWrap(c, actors, start)
    requires f.phase.actor == 0 ==> Front(first, f.s) < NextWrap(c, actors, start)
    ensures Leads(c, actors, f, k) && FlushInv(c, actors, first, start, Issuing(c, f.s), k) && k.s.running != []
    ensures Front(first, k.s) <= NextWrap(c, actors, start)
    ensures k.phase == if f.phase.actor + 1 < actors then PushUl(f.phase.actor + 1) else Flushed
  {
    var g := Next(c, actors, f, UlPushed);
    FlushStepKeepsInv(c, actors, first, start, Issuing(c, f.s), f, UlPushed);
    var h := MarkerPassed(c, actors, first, start, f, g);
    k := Next(c, actors, h, UlFlushed);
    FlushStepKeepsInv(c, actors, first, start, Issuing(c, f.s), h, UlFlushed);
    PushedThenFlushed(c, actors, f, g, h, k);
  }

  lemma PushedThenFlushed(c: Config, actors: nat, f: Flush, g: Flush, h: Flush, k: Flush)
    requires 0 < actors && Enabled(c, f, UlPushed) && g == Next(c, actors, f, UlPushed)
    requires Leads(c, actors, g, h) && Enabled(c, h, UlFlushed) && k == Next(c, actors, h, UlFlushed)
    ensures Leads(c, actors, f, k)
  {
    assert Run(c, actors, k, [], k);
    StepThenRun(c, actors, h, UlFlushed, k, k);
    LeadsTrans(c, actors, g, h, k);
    StepThenRun(c, actors, f, UlPushed, g, k);
  }

  lemma MarkerPassed(c: Config, actors: nat, first: nat, start: nat, f: Flush, g: Flush) returns (h: Flush)
    requires FlushInv(c, actors, first, start, Issuing(c, f.s), f) && f.phase.PushUl?
    requires g == Next(c, actors, f, UlPushed) && FlushInv(c, actors, first, start, Issuing(c, f.s), g)
    requires NextWrap(c, actors, start) < Issuing(c, f.s) && Front(first, f.s) <= NextWrap(c, actors, start)
    requires f.phase.actor == 0 ==> Front(first, f.s) < NextWrap(c, actors, start)
    ensures Leads(c, actors, g, h) && FlushInv(c, actors, first, start, Issuing(c, f.s), h) && h.phase == g.phase
    ensures Front(first, h.s) <= NextWrap(c, actors, start) && h.s.running != [] && Enabled(c, h, UlFlushed)
  {
    QueuedNone(f.dl);
    ActorAtWrap(c, actors, start);
    UnderWay(c, first, f);
    if Front(first, f.s) < NextWrap(c, actors, start) && UlActor(c, actors, f.s.running[0].slot) == f.phase.actor {
      h := Next(c, actors, g, Join);
      JoinKeepsInv(c, actors, first, start, Issuing(c, f.s), g);
      JoinMovesFront(c, first, g.s, h.s);
      UnderWay(c, first, h);
      assert Run(c, actors, h, [], h);
      StepThenRun(c, actors, g, Join, h, h);
    } else {
      h := g;
      assert Run(c, actors, h, [], h);
    }
  }

  /** The slot under way, up to the wrap, joins only when its own actor is flushed. */
  lemma {:induction false} UlFlushLags(c: Config, actors: nat, first: nat, start: nat, f: Flush) returns (end: Flush)
    requires FlushInv(c, actors, first, start, Issuing(c, f.s), f) && f.phase.PushUl?
    requires NextWrap(c, actors, start) < Issuing(c, f.s) && Front(first, f.s) <= NextWrap(c, actors, start)
    requires f.phase.actor == 0 ==> Front(first, f.s) < NextWrap(c, actors, start)
    ensures Leads(c, actors, f, end) && end.phase.Flushed? && end.s.running != []
    decreases actors - f.phase.actor
  {
    var k := OneActorFlushed(c, actors, first, start, f);
    if f.phase.actor + 1 < actors {
      end := UlFlushLags(c, actors, first, start, k);
      LeadsTrans(c, actors, f, k, end);
    } else {
      end := k;
    }
  }

  /** Without decodings, a slot that is issued and not past its join is under way. */
  lemma UnderWay(c: Config, first: nat, f: Flush)
    requires Inv(c, first, f.s) && WellFormed(c, f.s) && f.s.decodings == multiset{} && Front(first, f.s) < Issuing(c, f.s)
    ensures f.s.running != [] && f.s.running[0].slot == Front(first, f.s)
  {
    if f.s.running == [] {
      SomethingIsMissing(c, first, f.s);
    }
    RunningIsFront(c, first, f.s);
  }

  /**
   The flush leaves no uplink slot under way, in every interleaving, exactly when the slots issued end before the
   actors' numbers wrap around, counted from the first slot that is not past its join.
   */
  lemma FlushDrainsIff(c: Config, actors: nat, first: nat, s: State, dl: seq<multiset<Decoding>>)
    requires CanBegin(c, first, s, dl) && 0 < actors
    ensures (forall end :: Leads(c, actors, Begin(s, dl), end) && end.phase.Flushed? ==> end.s.running == [])
      <==> Issuing(c, s) <= NextWrap(c, actors, Front(first, s))
  {
    if Issuing(c, s) <= NextWrap(c, actors, Front(first, s)) {
      forall end | Leads(c, actors, Begin(s, dl), end) && end.phase.Flushed? ensures end.s.running == [] {
        FlushDrains(c, actors, first, s, dl, end);
      }
    } else {
      var end := FlushCanMiss(c, actors, first, s, dl);
    }
  }

  lemma FlushCanMiss(c: Config, actors: nat, first: nat, s: State, dl: seq<multiset<Decoding>>) returns (end: Flush)
    requires CanBegin(c, first, s, dl) && 0 < actors
    requires NextWrap(c, actors, Front(first, s)) < Issuing(c, s)
    ensures Leads(c, actors, Begin(s, dl), end) && end.phase.Flushed? && end.s.running != []
  {
    var start, f := Front(first, s), Begin(s, dl);
    if dl == [] {
      end := UlFlushLags(c, actors, first, start, f);
    } else {
      var g := DecodeFirst(c, actors, first, start, Issuing(c, s), f);
      end := UlFlushLags(c, actors, first, start, g.(phase := PushUl(0)));
      PassDl(c, actors, g, end);
      LeadsTrans(c, actors, f, g, end);
    }
  }

  // -------------------------------------------------------------------------------------------
  // Order after the reset
  // -------------------------------------------------------------------------------------------

  /** After the reset, with what is still under way. */
  function Resumed(c: Config, rxSlot: nat, s: State): State {
    Init(c, rxSlot).(decodings := s.decodings, running := s.running)
  }

  /** The first slot after the reset starts while an old one is still before its join. */
  lemma OldSlotOverlaps(c: Config, rxSlot: nat, s: State)
    requires c.Valid() && WellFormed(c, s) && s.running != []
    ensures !AlwaysOrdered(c, rxSlot + c.duration, Resumed(c, rxSlot, s))
  {
    var first, s0 := rxSlot + c.duration, Resumed(c, rxSlot, s);
    var s1 := s0.(received := true);
    var s2 := UeTxBarriers.Next(c, s1, Issue);
    NextMoves(c, s1, Issue);
    assert |s2.running| == |s.running| + 1 && s2.started == [first];
    FromSelf(c, first, s2);
    FromStep(c, first, s1, Issue, s2, s2);
    FromStep(c, first, s0, Receive(0, 0), s1, s2);
  }

  /** The order of uplink slots survives a resynchronisation, in every interleaving, under the same condition. */
  lemma ResyncKeepsOrderIff(c: Config, actors: nat, first: nat, s: State, dl: seq<multiset<Decoding>>, rxSlot: nat)
    requires CanBegin(c, first, s, dl) && 0 < actors
    ensures (forall end :: Leads(c, actors, Begin(s, dl), end) && end.phase.Flushed? ==>
               AlwaysOrdered(c, rxSlot + c.duration, Resumed(c, rxSlot, end.s)))
      <==> Issuing(c, s) <= NextWrap(c, actors, Front(first, s))
  {
    if Issuing(c, s) <= NextWrap(c, actors, Front(first, s)) {
      forall end | Leads(c, actors, Begin(s, dl), end) && end.phase.Flushed?
        ensures AlwaysOrdered(c, rxSlot + c.duration, Resumed(c, rxSlot, end.s))
      {
        FlushDrains(c, actors, first, s, dl, end);
        assert Resumed(c, rxSlot, end.s) == Init(c, rxSlot);
        InitInv(c, rxSlot);
        InvKeepsOrder(c, rxSlot + c.duration, Init(c, rxSlot));
      }
    } else {
      var end := FlushCanMiss(c, actors, first, s, dl);
      FlushKeepsShape(c, actors, first, s, dl, end);
      OldSlotOverlaps(c, rxSlot, end.s);
    }
  }

  lemma FlushKeepsShape(c: Config, actors: nat, first: nat, s: State, dl: seq<multiset<Decoding>>, end: Flush)
    requires CanBegin(c, first, s, dl) && 0 < actors && Leads(c, actors, Begin(s, dl), end)
    ensures WellFormed(c, end.s)
  {
    var steps :| Run(c, actors, Begin(s, dl), steps, end);
    RunKeepsInv(c, actors, first, Front(first, s), Issuing(c, s), Begin(s, dl), steps, end);
  }

  /** A slot issued while its predecessor is before its join does not start. */
  lemma IssueWithoutJoin(c: Config, first: nat, s: State, t: State)
    requires c.Valid() && Inv(c, first, s) && WellFormed(c, s) && s.received && s.running != []
    requires Issuing(c, s) < Waiting(first, s) + c.barriers && t == UeTxBarriers.Next(c, s, Issue)
    ensures Inv(c, first, t) && WellFormed(c, t) && !t.received && t.running == s.running && t.started == s.started
    ensures Issuing(c, t) == Issuing(c, s) + 1 && t.decodings == s.decodings
  {
    IssueKeepsInv(c, first, s);
    NextMoves(c, s, Issue);
    assert Holds(c, first, s, Order) && Holds(c, first, t, Order);
  }

  /** Any number of slots below the number of barriers can be outstanding. */
  lemma {:induction false} ManyOutstanding(c: Config, rxSlot: nat, n: nat) returns (s: State)
    requires c.Valid() && n < c.barriers
    ensures var first := rxSlot + c.duration;
      && From(c, first, Init(c, rxSlot), s) && Inv(c, first, s) && WellFormed(c, s) && !s.received && s.decodings == multiset{}
      && s.running != [] && s.started == [first] && Issuing(c, s) == first + 1 + n
  {
    var first := rxSlot + c.duration;
    if n == 0 {
      s := FirstOutstanding(c, rxSlot);
    } else {
      var before := ManyOutstanding(c, rxSlot, n - 1);
      var r := before.(received := true);
      NoGrantKeepsInv(c, first, before, r);
      s := UeTxBarriers.Next(c, r, Issue);
      IssueWithoutJoin(c, first, r, s);
      FromSelf(c, first, s);
      FromStep(c, first, r, Issue, s, s);
      FromStep(c, first, before, Receive(0, 0), r, s);
      FromTrans(c, first, Init(c, rxSlot), before, s);
    }
  }

  lemma FirstOutstanding(c: Config, rxSlot: nat) returns (s: State)
    requires c.Valid()
    ensures var first := rxSlot + c.duration;
      && From(c, first, Init(c, rxSlot), s) && Inv(c, first, s) && WellFormed(c, s) && !s.received && s.decodings == multiset{}
      && s.running != [] && s.started == [first] && Issuing(c, s) == first + 1
  {
    var first, r := rxSlot + c.duration, Init(c, rxSlot).(received := true);
    InitInv(c, rxSlot);
    NoGrantKeepsInv(c, first, Init(c, rxSlot), r);
    s := UeTxBarriers.Next(c, r, Issue);
    NextMoves(c, r, Issue);
    IssueKeepsInv(c, first, r);
    assert Holds(c, first, s, Order);
    FirstIteration(c, rxSlot, r, s);
  }

  lemma FirstIteration(c: Config, rxSlot: nat, r: State, s: State)
    requires c.Valid() && r == Init(c, rxSlot).(received := true) && s == UeTxBarriers.Next(c, r, Issue)
    ensures From(c, rxSlot + c.duration, Init(c, rxSlot), s)
  {
    var first := rxSlot + c.duration;
    FromSelf(c, first, s);
    FromStep(c, first, r, Issue, s, s);
    FromStep(c, first, Init(c, rxSlot), Receive(0, 0), r, s);
  }

  /** With one slot more outstanding than there are actors the condition fails, for any number of actors below the barriers. */
  lemma ActorsCanBeOutrun(c: Config, actors: nat, rxSlot: nat) returns (s: State)
    requires c.Valid() && 0 < actors < c.barriers
    ensures Reachable(c, rxSlot, s) && CanBegin(c, rxSlot + c.duration, s, [])
    ensures NextWrap(c, actors, Front(rxSlot + c.duration, s)) < Issuing(c, s)
  {
    s := ManyOutstanding(c, rxSlot, actors);
  }
}
