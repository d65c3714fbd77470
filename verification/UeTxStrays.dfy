/**
 What joins that no uplink slot counts do to the chain of uplink slots (UeTxBarriers). They come from feedback delays for
 which the counting slot and the joined barrier differ, and from a second codeword (executables/nr-ue.c,
 openair1/SCHED_NR_UE/phy_procedures_nr_ue.c).
 */
module UeTxStrays {
  import opened CInts
  import opened Options
  import opened UeTxBarriers

  ghost predicate AlwaysOrdered(c: Config, first: nat, s0: State) {
    forall s :: From(c, first, s0, s) ==> Ordered(c, first, s)
  }

  lemma InvKeepsOrder(c: Config, first: nat, s0: State)
    requires c.Valid() && Inv(c, first, s0)
    ensures AlwaysOrdered(c, first, s0)
  {
    forall s | From(c, first, s0, s) ensures Ordered(c, first, s) {
      FromKeepsInv(c, first, s0, s);
      InvOrdered(c, first, s);
    }
  }

  lemma FromSelf(c: Config, first: nat, s: State)
    ensures From(c, first, s, s)
  {
    assert Run(c, first, s, [], s);
  }

  lemma StepThenRun(c: Config, first: nat, s: State, step: Step, t: State, rest: seq<Step>, end: State)
    requires WellFormed(c, s) && Enabled(s, step) && Assumed(c, first, s, step) && t == Next(c, s, step)
    requires Run(c, first, t, rest, end)
    ensures Run(c, first, s, [step] + rest, end)
  {
    var steps := [step] + rest;
    assert steps[0] == step && steps[1..] == rest;
  }

  lemma FromStep(c: Config, first: nat, s: State, step: Step, t: State, end: State)
    requires WellFormed(c, s) && Enabled(s, step) && Assumed(c, first, s, step) && t == Next(c, s, step)
    requires From(c, first, t, end)
    ensures From(c, first, s, end)
  {
    var rest :| Run(c, first, t, rest, end);
    StepThenRun(c, first, s, step, t, rest, end);
  }

  lemma {:induction false} FromAfterRun(c: Config, first: nat, s: State, steps: seq<Step>, t: State, end: State)
    requires Run(c, first, s, steps, t) && From(c, first, t, end)
    ensures From(c, first, s, end)
    decreases steps
  {
    if steps != [] {
      FromAfterRun(c, first, Next(c, s, steps[0]), steps[1..], t, end);
      FromStep(c, first, s, steps[0], Next(c, s, steps[0]), end);
    }
  }

  lemma FromTrans(c: Config, first: nat, s: State, t: State, end: State)
    requires From(c, first, s, t) && From(c, first, t, end)
    ensures From(c, first, s, end)
  {
    var steps :| Run(c, first, s, steps, t);
    FromAfterRun(c, first, s, steps, t, end);
  }

  // -------------------------------------------------------------------------------------------
  // A slot whose joins differ from what it counts
  // -------------------------------------------------------------------------------------------

  /** The joins the next slots wait for: what they count and, for the next one, its predecessor. */
  ghost function Due(c: Config, s: State, slot: nat): nat {
    s.granted[slot] + (if slot == Issuing(c, s) && s.started != [] then 1 else 0)
  }

  ghost predicate CountsOk(c: Config, s: State)
    requires WellFormed(c, s)
  {
    && (forall slot: nat :: Issuing(c, s) <= slot < Issuing(c, s) + c.slots ==> s.waits[slot % c.slots] == s.granted[slot])
    && (forall slot: nat :: Issuing(c, s) + c.slots <= slot ==> s.granted[slot] == 0)
  }

  ghost predicate BalanceOk(c: Config, s: State, slot: nat, bad: nat)
    requires WellFormed(c, s)
  {
    var b := s.barriers[slot % c.barriers];
    b.callback == None && (b.completed == Due(c, s, slot) <==> slot < bad)
  }

  /** Every issued slot is over, nothing is under way, and slot `bad` is the first with a wrong number of joins. */
  ghost predicate Unbalanced(c: Config, first: nat, s: State, bad: nat) {
    && WellFormed(c, s) && s.received && s.running == [] && s.decodings == multiset{}
    && Waiting(first, s) == Issuing(c, s) <= bad < Issuing(c, s) + c.barriers
    && (s.synced <==> s.started != [])
    && CountsOk(c, s)
    && forall slot: nat :: Issuing(c, s) <= slot <= bad ==> BalanceOk(c, s, slot, bad)
  }

  /** A balanced slot starts when it is issued. */
  lemma BalancedStarts(c: Config, first: nat, s: State, bad: nat, t: State)
    requires Unbalanced(c, first, s, bad) && Issuing(c, s) < bad
    requires var slot := Issuing(c, s);
      t == Leave(s, TxJob(slot, (slot + 1) % c.barriers), slot % c.slots, slot % c.barriers)
    ensures var slot := Issuing(c, s);
      && WellFormed(c, t)
      && t == s.(barriers := s.barriers[slot % c.barriers := s.barriers[slot % c.barriers].(completed := 0)],
                 waits := s.waits[slot % c.slots := 0], rxSlot := s.rxSlot + 1, received := false, synced := true,
                 running := [TxJob(slot, (slot + 1) % c.barriers)], started := s.started + [slot])
  {
    assert BalanceOk(c, s, Issuing(c, s), bad);
  }

  /** And its join is the one its successor waits for. */
  lemma JoinStaysUnbalanced(c: Config, first: nat, s: State, bad: nat, t: State, u: State)
    requires Unbalanced(c, first, s, bad) && Issuing(c, s) < bad
    requires var slot := Issuing(c, s);
      && t == s.(barriers := s.barriers[slot % c.barriers := s.barriers[slot % c.barriers].(completed := 0)],
                 waits := s.waits[slot % c.slots := 0], rxSlot := s.rxSlot + 1, received := false, synced := true,
                 running := [TxJob(slot, (slot + 1) % c.barriers)], started := s.started + [slot])
      && u == JoinAt(t.(running := []), (slot + 1) % c.barriers)
    ensures WellFormed(c, u) && !u.received && Unbalanced(c, first, u.(received := true), bad)
  {
    var slot, next := Issuing(c, s), Issuing(c, s) + 1;
    assert BalanceOk(c, s, next, bad);
    assert slot % c.barriers != next % c.barriers by {
      if slot % c.barriers == next % c.barriers {
        SameBarrier(c, slot, next);
      }
    }
    var v := u.(received := true);
    assert v.barriers[next % c.barriers] == s.barriers[next % c.barriers].(completed := s.barriers[next % c.barriers].completed + 1);
    forall x: nat | next <= x <= bad ensures BalanceOk(c, v, x, bad) {
      JoinBalance(c, s, v, x, bad);
    }
    forall x: nat | next <= x < next + c.slots ensures v.waits[x % c.slots] == v.granted[x] {
      if x == slot + c.slots {
        DivModShift(slot, 1, c.slots);
      } else if x % c.slots == slot % c.slots {
        CongruentAndClose(x, slot, c.slots);
      }
    }
  }

  lemma JoinBalance(c: Config, s: State, v: State, x: nat, bad: nat)
    requires WellFormed(c, s) && WellFormed(c, v) && BalanceOk(c, s, x, bad)
    requires var slot, next := Issuing(c, s), Issuing(c, s) + 1;
      && next <= x <= bad < slot + c.barriers
      && Issuing(c, v) == next && v.started != [] && v.granted == s.granted
      && var b := s.barriers[next % c.barriers];
         v.barriers == s.barriers[slot % c.barriers := s.barriers[slot % c.barriers].(completed := 0)]
                                 [next % c.barriers := b.(completed := b.completed + 1)]
    ensures BalanceOk(c, v, x, bad)
  {
    var slot, next := Issuing(c, s), Issuing(c, s) + 1;
    if x % c.barriers == slot % c.barriers {
      SameBarrier(c, x, slot);
    }
    if x != next && x % c.barriers == next % c.barriers {
      SameBarrier(c, x, next);
    }
  }

  /** One iteration: a balanced slot is issued, starts and joins. */
  lemma BalancedIteration(c: Config, first: nat, s: State, bad: nat) returns (v: State)
    requires c.Valid() && Unbalanced(c, first, s, bad) && Issuing(c, s) < bad
    ensures From(c, first, s, v) && Unbalanced(c, first, v, bad)
    ensures Issuing(c, v) == Issuing(c, s) + 1 && v.started == s.started + [Issuing(c, s)]
  {
    var slot, t := Issuing(c, s), Next(c, s, Issue);
    NextMoves(c, s, Issue);
    BalancedStarts(c, first, s, bad, t);
    assert t.running[..0] + t.running[1..] == [];
    var u := Next(c, t, Joined(0));
    JoinStaysUnbalanced(c, first, s, bad, t, u);
    v := u.(received := true);
    FromSelf(c, first, v);
    FromStep(c, first, u, Receive(0, 0), v, v);
    FromStep(c, first, t, Joined(0), u, v);
    FromStep(c, first, s, Issue, t, v);
  }

  /** The unbalanced slot is stored with its barrier and does not start. */
  lemma UnbalancedIsStored(c: Config, first: nat, s: State) returns (t: State)
    requires c.Valid() && Unbalanced(c, first, s, Issuing(c, s))
    ensures From(c, first, s, t) && t.started == s.started && t.running == [] && t.decodings == multiset{}
    ensures Issuing(c, t) == Issuing(c, s) + 1
  {
    t := Next(c, s, Issue);
    NextMoves(c, s, Issue);
    assert BalanceOk(c, s, Issuing(c, s), Issuing(c, s));
    FromSelf(c, first, t);
    FromStep(c, first, s, Issue, t, t);
  }

  /** The slots before start and join one after the other, and the unbalanced one is stuck with nothing under way. */
  lemma {:induction false} UnbalancedGetsStuck(c: Config, first: nat, s: State, bad: nat) returns (end: State)
    requires c.Valid() && Unbalanced(c, first, s, bad)
    ensures From(c, first, s, end)
    ensures end.running == [] && end.decodings == multiset{} && Waiting(first, end) == bad < Issuing(c, end)
    decreases bad - s.rxSlot
  {
    if Issuing(c, s) == bad {
      end := UnbalancedIsStored(c, first, s);
    } else {
      var v := BalancedIteration(c, first, s, bad);
      end := UnbalancedGetsStuck(c, first, v, bad);
      FromTrans(c, first, s, v, end);
    }
  }

  // -------------------------------------------------------------------------------------------
  // Every reachable state can come to rest
  // -------------------------------------------------------------------------------------------

  ghost predicate AtRest(s: State) {
    s.running == [] && s.decodings == multiset{}
  }

  ghost function Work(c: Config, first: nat, s: State): int {
    2 * (Issuing(c, s) - Waiting(first, s)) + |s.running| + |s.decodings|
  }

  /** The state in which a further PDSCH has been received. */
  ghost function With(c: Config, s: State, d: Decoding, codewords: nat): State
    requires c.Positive() && |s.waits| == c.slots
  {
    Grant(s, d.target, d.target % c.slots, d.barrier, codewords)
  }

  /** A join or a finished decoding changes nothing about a further PDSCH. */
  lemma JoinCommutes(c: Config, s: State, index: nat, d: Decoding, codewords: nat)
    requires c.Positive() && |s.waits| == c.slots && index < |s.barriers|
    ensures |JoinAt(s, index).waits| == c.slots
    ensures JoinAt(With(c, s, d, codewords), index) == With(c, JoinAt(s, index), d, codewords)
  {
  }

  lemma DecodedCommutes(c: Config, s: State, e: Decoding, d: Decoding, codewords: nat)
    requires WellFormed(c, s) && e in s.decodings && d.barrier < c.barriers
    ensures var s1, t := With(c, s, d, codewords), Next(c, s, Decoded(e));
      WellFormed(c, s1) && e in s1.decodings && |t.waits| == c.slots && Next(c, s1, Decoded(e)) == With(c, t, d, codewords)
  {
    WithWellFormed(c, s, d, codewords);
    RemovalCommutes(c, s, e, d, codewords);
    JoinCommutes(c, s.(decodings := s.decodings - multiset{e}), e.barrier, d, codewords);
  }

  lemma RemovalCommutes(c: Config, s: State, e: Decoding, d: Decoding, codewords: nat)
    requires c.Positive() && |s.waits| == c.slots && e in s.decodings
    ensures var s1 := With(c, s, d, codewords);
      s1.(decodings := s1.decodings - multiset{e}) == With(c, s.(decodings := s.decodings - multiset{e}), d, codewords)
  {
    assert d == Decoding(d.target, d.barrier);
    RemoveThenAdd(s.decodings, e, d, codewords);
  }

  lemma WithWellFormed(c: Config, s: State, d: Decoding, codewords: nat)
    requires WellFormed(c, s) && d.barrier < c.barriers
    ensures WellFormed(c, With(c, s, d, codewords))
    ensures With(c, s, d, codewords).decodings == s.decodings[d := s.decodings[d] + codewords]
  {
    assert d == Decoding(d.target, d.barrier);
  }

  lemma RemoveThenAdd(all: multiset<Decoding>, e: Decoding, d: Decoding, n: nat)
    requires e in all
    ensures all[d := all[d] + n] - multiset{e} == (all - multiset{e})[d := (all - multiset{e})[d] + n]
  {
  }

  lemma JoinedCommutes(c: Config, s: State, i: nat, d: Decoding, codewords: nat)
    requires WellFormed(c, s) && i < |s.running| && d.barrier < c.barriers
    ensures var s1, t := With(c, s, d, codewords), Next(c, s, Joined(i));
      WellFormed(c, s1) && i < |s1.running| && |t.waits| == c.slots && Next(c, s1, Joined(i)) == With(c, t, d, codewords)
  {
    JoinCommutes(c, s.(running := s.running[..i] + s.running[i + 1..]), s.running[i].nextBarrier, d, codewords);
  }

  /** The decodings and uplink slots under way finish and start all that was issued, before a further PDSCH has any effect. */
  lemma {:induction false} ComesToRest(c: Config, first: nat, s: State, d: Decoding, codewords: nat) returns (q: State)
    requires c.Valid() && Inv(c, first, s) && WellFormed(c, s) && d.barrier < c.barriers
    ensures Inv(c, first, q) && AtRest(q) && WellFormed(c, q) && q.rxSlot == s.rxSlot
    ensures From(c, first, With(c, s, d, codewords), With(c, q, d, codewords))
    decreases Work(c, first, s) + 1
  {
    if s.running != [] {
      var t := RestByJoin(c, first, s);
      q := ComesToRest(c, first, t, d, codewords);
      JoinedCommutes(c, s, 0, d, codewords);
      FromStep(c, first, With(c, s, d, codewords), Joined(0), With(c, t, d, codewords), With(c, q, d, codewords));
    } else if s.decodings != multiset{} {
      var e :| e in s.decodings;
      var t := RestByDecoding(c, first, s, e);
      q := ComesToRest(c, first, t, d, codewords);
      DecodedCommutes(c, s, e, d, codewords);
      FromStep(c, first, With(c, s, d, codewords), Decoded(e), With(c, t, d, codewords), With(c, q, d, codewords));
    } else {
      q := s;
      FromSelf(c, first, With(c, s, d, codewords));
    }
  }

  lemma RestByJoin(c: Config, first: nat, s: State) returns (t: State)
    requires Inv(c, first, s) && WellFormed(c, s) && s.running != []
    ensures t == Next(c, s, Joined(0)) && Inv(c, first, t) && WellFormed(c, t) && t.rxSlot == s.rxSlot
    ensures -1 <= Work(c, first, t) < Work(c, first, s)
  {
    var s0 := s.(running := s.running[..0] + s.running[1..]);
    t := Next(c, s, Joined(0));
    JoinedKeepsInv(c, first, s, 0, s0, t);
    assert Holds(c, first, s, Order) && Holds(c, first, t, Order);
  }

  lemma RestByDecoding(c: Config, first: nat, s: State, e: Decoding) returns (t: State)
    requires Inv(c, first, s) && WellFormed(c, s) && e in s.decodings
    ensures t == Next(c, s, Decoded(e)) && Inv(c, first, t) && WellFormed(c, t) && t.rxSlot == s.rxSlot
    ensures -1 <= Work(c, first, t) < Work(c, first, s)
  {
    var s0 := s.(decodings := s.decodings - multiset{e});
    t := Next(c, s, Decoded(e));
    DecodedKeepsInv(c, first, s, e, s0, t);
    assert |s0.decodings| == |s.decodings| - 1;
    assert Holds(c, first, t, Order);
  }

  // -------------------------------------------------------------------------------------------
  // Feedback delays and codewords
  // -------------------------------------------------------------------------------------------

  /** The slot from `first` on that will be left with a barrier. */
  function SlotOf(c: Config, first: nat, barrier: int): nat
    requires c.Positive()
  {
    first + (barrier - first) % c.barriers
  }

  lemma SlotOfBarrier(c: Config, first: nat, barrier: nat)
    requires c.Positive()
    ensures first <= SlotOf(c, first, barrier) < first + c.barriers
    ensures SlotOf(c, first, barrier) % c.barriers == barrier % c.barriers
  {
    FirstCongruent(first, barrier, c.barriers, first);
  }

  /**
   From every reachable state, the order of uplink slots survives a PDSCH in all interleavings exactly when it has one
   codeword and the feedback delay past the uplink lead has the same remainder by the slots of a frame and by the number
   of barriers. (The slot that counts it must be within the barriers' window, unless it never will be.)
   */
  lemma FeedbackKeepsOrderIff(c: Config, rxSlot: nat, s: State, k1: nat, codewords: nat)
    requires Reachable(c, rxSlot, s) && WellFormed(c, s) && !s.received && 0 < k1 && 0 < codewords
    requires c.ChargedSlot(s.rxSlot, k1) < Issuing(c, s) + c.barriers ==>
      c.ChargedSlot(s.rxSlot, k1) < Waiting(rxSlot + c.duration, s) + c.barriers
    ensures AlwaysOrdered(c, rxSlot + c.duration, Next(c, s, Receive(k1, codewords)))
      <==> codewords == 1 && (k1 - c.duration) % c.slots == (k1 - c.duration) % c.barriers
  {
    var first, t := rxSlot + c.duration, Next(c, s, Receive(k1, codewords));
    ReachableInv(c, rxSlot, s);
    if codewords == 1 && (k1 - c.duration) % c.slots == (k1 - c.duration) % c.barriers {
      CountedFeedback(c, first, s, k1);
      ReceiveKeepsInv(c, first, s, Receive(k1, codewords), t);
      InvKeepsOrder(c, first, t);
    } else {
      MiscountedFeedback(c, first, s, k1, codewords, t);
    }
  }

  /** The decoding joins the barrier of the slot that counts it. */
  lemma CountedFeedback(c: Config, first: nat, s: State, k1: nat)
    requires c.Positive() && (k1 - c.duration) % c.slots == (k1 - c.duration) % c.barriers
    requires c.ChargedSlot(s.rxSlot, k1) < Issuing(c, s) + c.barriers ==>
      c.ChargedSlot(s.rxSlot, k1) < Waiting(first, s) + c.barriers
    ensures Assumed(c, first, s, Receive(k1, 1))
  {
    SlotOfBarrier(c, Issuing(c, s), s.rxSlot + k1);
  }

  lemma MiscountedFeedback(c: Config, first: nat, s: State, k1: nat, codewords: nat, t: State)
    requires c.Valid() && Inv(c, first, s) && WellFormed(c, s) && !s.received && 0 < k1 && 0 < codewords
    requires codewords != 1 || (k1 - c.duration) % c.slots != (k1 - c.duration) % c.barriers
    requires t == Next(c, s, Receive(k1, codewords))
    ensures !AlwaysOrdered(c, first, t)
  {
    var d := Decoding(c.ChargedSlot(s.rxSlot, k1), (s.rxSlot + k1) % c.barriers);
    NextMoves(c, s, Receive(k1, codewords));
    SlotOfBarrier(c, Issuing(c, s), s.rxSlot + k1);
    MiscountedBreaksOrder(c, first, s, d, SlotOf(c, Issuing(c, s), s.rxSlot + k1), codewords, t);
  }

  /** Decodings that slot `d.target` counts once, and that join the barrier of slot `stray`. */
  lemma MiscountedBreaksOrder(c: Config, first: nat, s: State, d: Decoding, stray: nat, codewords: nat, t: State)
    requires c.Valid() && Inv(c, first, s) && WellFormed(c, s) && 0 < codewords && t == With(c, s, d, codewords)
    requires Issuing(c, s) <= d.target < Issuing(c, s) + c.slots && Issuing(c, s) <= stray < Issuing(c, s) + c.barriers
    requires d.barrier == stray % c.barriers && (codewords != 1 || stray != d.target)
    ensures !AlwaysOrdered(c, first, t)
  {
    var q := ComesToRest(c, first, s, d, codewords);
    var q1 := With(c, q, d, codewords);
    var q2 := AllDecoded(c, first, q, q1, d, codewords);
    var bad := MiscountUnbalances(c, first, q, q1, q2, d, stray, codewords);
    var end := UnbalancedGetsStuck(c, first, q2, bad);
    FromTrans(c, first, q1, q2, end);
    FromTrans(c, first, t, q1, end);
  }

  /** State once the remaining decodings have joined a barrier that holds no job. */
  ghost function AfterJoins(s: State, d: Decoding, n: nat): State
    requires d.barrier < |s.barriers|
  {
    var b := s.barriers[d.barrier];
    s.(decodings := s.decodings[d := 0], barriers := s.barriers[d.barrier := b.(completed := b.completed + n)])
  }

  lemma {:induction false} DecodedOneByOne(c: Config, first: nat, s: State, d: Decoding, n: nat)
    requires WellFormed(c, s) && d.barrier < c.barriers && s.decodings[d] == n && s.barriers[d.barrier].callback == None
    ensures From(c, first, s, AfterJoins(s, d, n))
    decreases n
  {
    if n == 0 {
      assert s.decodings[d := 0] == s.decodings;
      assert AfterJoins(s, d, 0) == s;
      FromSelf(c, first, s);
    } else {
      var t := Next(c, s, Decoded(d));
      OneDecoded(c, s, d, n, t);
      DecodedOneByOne(c, first, t, d, n - 1);
      FromStep(c, first, s, Decoded(d), t, AfterJoins(s, d, n));
    }
  }

  lemma OneDecoded(c: Config, s: State, d: Decoding, n: nat, t: State)
    requires WellFormed(c, s) && d.barrier < c.barriers && s.decodings[d] == n && s.barriers[d.barrier].callback == None
    requires 0 < n && t == Next(c, s, Decoded(d))
    ensures WellFormed(c, t) && t.decodings[d] == n - 1 && t.barriers[d.barrier].callback == None
    ensures AfterJoins(t, d, n - 1) == AfterJoins(s, d, n)
  {
    assert t.decodings[d := 0] == s.decodings[d := 0];
    assert AfterJoins(t, d, n - 1).barriers == AfterJoins(s, d, n).barriers;
  }

  lemma AllDecoded(c: Config, first: nat, q: State, q1: State, d: Decoding, codewords: nat) returns (q2: State)
    requires Inv(c, first, q) && AtRest(q) && WellFormed(c, q) && d.barrier < c.barriers && q1 == With(c, q, d, codewords)
    ensures From(c, first, q1, q2)
    ensures var b := q.barriers[d.barrier];
      q2 == q1.(decodings := multiset{}, barriers := q.barriers[d.barrier := b.(completed := b.completed + codewords)])
  {
    var slot := SlotOf(c, Issuing(c, q), d.barrier);
    SlotOfBarrier(c, Issuing(c, q), d.barrier);
    DivModUnique(0, d.barrier, c.barriers);
    RestingBarrier(c, first, q, slot);
    assert d == Decoding(d.target, d.barrier);
    DecodedOneByOne(c, first, q1, d, codewords);
    q2 := AfterJoins(q1, d, codewords);
    assert q2.decodings == multiset{};
  }

  /** At rest everything issued has started, and the barriers of the next slots hold just the joins they count. */
  lemma RestingBarrier(c: Config, first: nat, q: State, slot: nat)
    requires Inv(c, first, q) && AtRest(q) && WellFormed(c, q)
    requires Issuing(c, q) <= slot < Issuing(c, q) + c.barriers
    ensures Waiting(first, q) == Issuing(c, q) && (q.synced <==> q.started != [])
    ensures var b := q.barriers[slot % c.barriers]; b.callback == None && b.completed == Due(c, q, slot)
  {
    assert Holds(c, first, q, Order);
    if Waiting(first, q) < Issuing(c, q) {
      SomethingIsMissing(c, first, q);
    }
    assert Holds(c, first, q, Window(slot));
  }

  /** The slot that counts the decodings has too few joins, or the slot they join has too many; the first of them is bad. */
  lemma MiscountUnbalances(c: Config, first: nat, q: State, q1: State, q2: State, d: Decoding, stray: nat, codewords: nat)
    returns (bad: nat)
    requires Inv(c, first, q) && AtRest(q) && WellFormed(c, q) && 0 < codewords && d.barrier < c.barriers
    requires Issuing(c, q) <= d.target < Issuing(c, q) + c.slots && Issuing(c, q) <= stray < Issuing(c, q) + c.barriers
    requires d.barrier == stray % c.barriers && (codewords != 1 || stray != d.target)
    requires q1 == With(c, q, d, codewords)
    requires var b := q.barriers[d.barrier];
      q2 == q1.(decodings := multiset{}, barriers := q.barriers[d.barrier := b.(completed := b.completed + codewords)])
    ensures Unbalanced(c, first, q2, bad)
  {
    var next := Issuing(c, q);
    bad := if d.target < stray then d.target else stray;
    forall slot: nat | next <= slot <= bad ensures BalanceOk(c, q2, slot, bad) {
      RestingBarrier(c, first, q, slot);
      if slot != stray && slot % c.barriers == d.barrier {
        SameBarrier(c, slot, stray);
      }
    }
    RestingBarrier(c, first, q, next);
    CountsAfterGrant(c, first, q, q2, d.target);
  }

  lemma CountsAfterGrant(c: Config, first: nat, q: State, q2: State, charged: nat)
    requires Inv(c, first, q) && WellFormed(c, q) && WellFormed(c, q2) && Issuing(c, q) <= charged < Issuing(c, q) + c.slots
    requires q2.rxSlot == q.rxSlot && q2.granted == q.granted + multiset{charged}
    requires q2.waits == q.waits[charged % c.slots := q.waits[charged % c.slots] + 1]
    ensures CountsOk(c, q2)
  {
    var next := Issuing(c, q);
    forall slot: nat | next <= slot < next + c.slots ensures q2.waits[slot % c.slots] == q2.granted[slot] {
      assert Holds(c, first, q, Count(slot));
      if slot % c.slots == charged % c.slots {
        CongruentAndClose(slot, charged, c.slots);
      }
    }
    forall slot: nat | next + c.slots <= slot ensures q2.granted[slot] == 0 {
      assert Holds(c, first, q, Granted(slot));
    }
  }

  /** With the program's 512 barriers, among delays within 512 slots of the lead, these are those of under one frame past it. */
  lemma ProgramDelays(c: Config, k1: nat)
    requires c.barriers == 512 && c.slots in {10, 20, 40, 80, 160} && -512 < k1 - c.duration < 512
    ensures (k1 - c.duration) % c.slots == (k1 - c.duration) % c.barriers <==> c.duration <= k1 < c.duration + c.slots
  {
  }
}
