/**
 Radio units of the NR UE (executables/nr-ue-ru.c): which radio unit serves which UE, retuning by moving
 a UE to a better placed radio unit, and reads that keep every idle radio unit at the same logical time.
 */
module UeRadioUnits {
  import opened CInts
  import opened Options

  /** Configured carriers of a cell (nrue_cell_fp). */
  datatype Carrier = Carrier(dl: nat, ul: nat)

  /** used_by_cell of each radio unit, used_by_ue of each cell (-1 for none) and rf_map.card of each UE. */
  datatype Tables = Tables(cellOf: seq<int>, ueOf: seq<int>, card: seq<nat>) {

    ghost predicate HasCell(ru: int) {
      0 <= ru < |cellOf| && 0 <= cellOf[ru] < |ueOf|
    }

    ghost predicate IsFree(ru: int) {
      HasCell(ru) && ueOf[cellOf[ru]] < 0
    }

    /** Every UE has a radio unit whose cell is used by that UE, and no cell is used otherwise. */
    ghost predicate Owned() {
      && (forall ru :: 0 <= ru < |cellOf| ==> cellOf[ru] < |ueOf|)
      && (forall ue :: 0 <= ue < |card| ==> HasCell(card[ue]) && ueOf[cellOf[card[ue]]] == ue)
      && (forall cell :: 0 <= cell < |ueOf| && 0 <= ueOf[cell] ==> ueOf[cell] < |card| && cellOf[card[ueOf[cell]]] == cell)
    }
  }

  function Difference(a: nat, b: nat): nat {
    if a > b then a - b else b - a
  }

  function Distance(c: Carrier, dl: nat, ul: nat): nat {
    Difference(c.dl, dl) + Difference(c.ul, ul)
  }

  /** The distance of carriers is how far both have to be moved. */
  lemma DistanceIsTheMove(c: Carrier, dl: nat, ul: nat, x: nat, y: nat)
    ensures (c.dl == dl + x || dl == c.dl + x) && (c.ul == ul + y || ul == c.ul + y)
      ==> Distance(c, dl, ul) == x + y
    ensures Distance(c, dl, ul) == 0 <==> c == Carrier(dl, ul)
  {
  }

  // -------------------------------------------------------------------------------------------
  // Choosing a radio unit
  // -------------------------------------------------------------------------------------------

  ghost function DistanceOf(t: Tables, carriers: seq<Carrier>, ru: int, dl: nat, ul: nat): nat
    requires |carriers| == |t.ueOf| && t.HasCell(ru)
  {
    Distance(carriers[t.cellOf[ru]], dl, ul)
  }

  /** The nearest of the UE's own and all free radio units; the own one on a tie, else the first. */
  ghost predicate Chosen(t: Tables, carriers: seq<Carrier>, own: nat, dl: nat, ul: nat, ru: nat)
    requires |carriers| == |t.ueOf| && t.HasCell(own)
  {
    && (ru == own || t.IsFree(ru))
    && (ru != own ==> DistanceOf(t, carriers, ru, dl, ul) < DistanceOf(t, carriers, own, dl, ul))
    && (forall other: nat :: t.IsFree(other) ==>
          && DistanceOf(t, carriers, ru, dl, ul) <= DistanceOf(t, carriers, other, dl, ul)
          && (ru != own && other < ru ==> DistanceOf(t, carriers, ru, dl, ul) < DistanceOf(t, carriers, other, dl, ul)))
  }

  /** The choice is unique. */
  lemma ChosenIsUnique(t: Tables, carriers: seq<Carrier>, own: nat, dl: nat, ul: nat, a: nat, b: nat)
    requires |carriers| == |t.ueOf| && t.HasCell(own)
    requires Chosen(t, carriers, own, dl, ul, a) && Chosen(t, carriers, own, dl, ul, b)
    ensures a == b
  {
  }

  /** The tables after UE `ue` has moved to radio unit `ru`. */
  function Moved(t: Tables, ue: nat, ru: nat): Tables
    requires ue < |t.card| && t.card[ue] < |t.cellOf| && ru < |t.cellOf|
    requires 0 <= t.cellOf[t.card[ue]] < |t.ueOf| && 0 <= t.cellOf[ru] < |t.ueOf|
  {
    Tables(t.cellOf, t.ueOf[t.cellOf[t.card[ue]] := -1][t.cellOf[ru] := ue], t.card[ue := ru])
  }

  /** A move to the own or a free radio unit keeps the ownership one-to-one. */
  lemma MovedKeepsOwned(t: Tables, ue: nat, ru: nat)
    requires t.Owned() && ue < |t.card| && (ru == t.card[ue] || t.IsFree(ru))
    ensures Moved(t, ue, ru).Owned()
  {
    var m := Moved(t, ue, ru);
    forall other | 0 <= other < |m.card| ensures m.HasCell(m.card[other]) && m.ueOf[m.cellOf[m.card[other]]] == other {
      assert t.HasCell(t.card[other]);
    }
    forall cell | 0 <= cell < |m.ueOf| && 0 <= m.ueOf[cell]
      ensures m.ueOf[cell] < |m.card| && m.cellOf[m.card[m.ueOf[cell]]] == cell
    {
      assert cell == t.cellOf[ru] || t.ueOf[cell] == m.ueOf[cell];
    }
  }

  /** Owned tables never give two UEs one radio unit or one cell. */
  lemma OwnershipIsOneToOne(t: Tables, a: nat, b: nat)
    requires t.Owned() && a < |t.card| && b < |t.card|
    requires t.card[a] == t.card[b] || t.cellOf[t.card[a]] == t.cellOf[t.card[b]]
    ensures a == b
  {
    assert t.HasCell(t.card[a]) && t.HasCell(t.card[b]);
  }

  datatype Retune = Retune(ue: nat, dl: nat, ul: nat)

  /** Tables reached by any sequence of nrue_ru_set_freq calls of any UEs. */
  ghost predicate Retuned(t: Tables, carriers: seq<Carrier>, calls: seq<Retune>, end: Tables)
    decreases calls
  {
    if calls == [] then end == t
    else
      && |carriers| == |t.ueOf| && calls[0].ue < |t.card| && t.HasCell(t.card[calls[0].ue])
      && exists ru: nat ::
           && Chosen(t, carriers, t.card[calls[0].ue], calls[0].dl, calls[0].ul, ru)
           && Retuned(Moved(t, calls[0].ue, ru), carriers, calls[1..], end)
  }

  lemma {:induction false} RetunedKeepsOwned(t: Tables, carriers: seq<Carrier>, calls: seq<Retune>, end: Tables)
    requires t.Owned() && Retuned(t, carriers, calls, end)
    ensures end.Owned()
    decreases calls
  {
    if calls != [] {
      var ru: nat :|
        && Chosen(t, carriers, t.card[calls[0].ue], calls[0].dl, calls[0].ul, ru)
        && Retuned(Moved(t, calls[0].ue, ru), carriers, calls[1..], end);
      MovedKeepsOwned(t, calls[0].ue, ru);
      RetunedKeepsOwned(Moved(t, calls[0].ue, ru), carriers, calls[1..], end);
    }
  }

  // -------------------------------------------------------------------------------------------
  // Devices
  // -------------------------------------------------------------------------------------------

  /** A contiguous device: the timestamp of its next sample, and the first one ever returned. */
  datatype Device = Device(position: int, firstTs: Option<int>)

  function Advanced(d: Device, samples: nat): Device {
    Device(d.position + samples, if d.firstTs.None? then Some(d.position) else d.firstTs)
  }

  /** Whether a read of UE `ue` also reads radio unit `ru`. */
  predicate Reads(t: Tables, ue: nat, ru: nat) {
    || (ue < |t.card| && ru == t.card[ue])
    || (ue == 0 && ru < |t.cellOf| && 0 <= t.cellOf[ru] < |t.ueOf| && t.ueOf[t.cellOf[ru]] < 0)
  }

  function AfterRead(t: Tables, ue: nat, samples: nat, devices: seq<Device>): seq<Device> {
    seq(|devices|, ru requires 0 <= ru < |devices| =>
      if Reads(t, ue, ru) then Advanced(devices[ru], samples) else devices[ru])
  }

  /** The timestamp a read of a device returns, counted from the device's first sample. */
  function ReadTimestamp(d: Device): int {
    d.position - Advanced(d, 0).firstTs.value
  }

  /** Tables and devices, updated in place as the calls of a UE update them. */
  class RadioUnits {
    const cellOf: seq<int>
    const carriers: seq<Carrier>
    var ueOf: seq<int>
    var card: seq<nat>
    var devices: seq<Device>

    function View(): Tables
      reads this
    {
      Tables(cellOf, ueOf, card)
    }

    ghost predicate Valid()
      reads this
    {
      View().Owned() && |carriers| == |ueOf| && |devices| == |cellOf|
    }

    constructor (t: Tables, carriers: seq<Carrier>, devices: seq<Device>)
      requires t.Owned() && |carriers| == |t.ueOf| && |devices| == |t.cellOf|
      ensures Valid() && View() == t && this.carriers == carriers && this.devices == devices
    {
      this.cellOf, this.ueOf, this.card := t.cellOf, t.ueOf, t.card;
      this.carriers, this.devices := carriers, devices;
    }

    /** nrue_ru_set_freq, up to the retuning of the device itself. */
    method SetFreq(ue: nat, ul: nat, dl: nat)
      requires Valid() && ue < |card|
      modifies this`card, this`ueOf
      ensures Valid()
      ensures exists ru: nat ::
        && Chosen(old(View()), carriers, old(card[ue]), dl, ul, ru)
        && View() == Moved(old(View()), ue, ru)
    {
      ghost var t := View();
      ghost var own := card[ue];
      assert t.HasCell(own);
      var currentCell := cellOf[card[ue]];
      var distance := Distance(carriers[currentCell], dl, ul);
      var ru := 0;
      while distance != 0 && ru < |cellOf|
        invariant 0 <= ru <= |cellOf| && ueOf == t.ueOf && |card| == |t.card| && card == t.card[ue := card[ue]]
        invariant card[ue] == own || (t.IsFree(card[ue]) && card[ue] < ru)
        invariant t.HasCell(card[ue]) && distance == DistanceOf(t, carriers, card[ue], dl, ul)
        invariant card[ue] != own ==> distance < DistanceOf(t, carriers, own, dl, ul)
        invariant forall other: nat :: other < ru && t.IsFree(other) ==>
          && distance <= DistanceOf(t, carriers, other, dl, ul)
          && (card[ue] != own && other < card[ue] ==> distance < DistanceOf(t, carriers, other, dl, ul))
      {
        var cell := cellOf[ru];
        if 0 <= cell && ueOf[cell] < 0 {
          var candidate := Distance(carriers[cell], dl, ul);
          if candidate < distance {
            card := card[ue := ru];
            distance := candidate;
          }
        }
        ru := ru + 1;
      }
      assert Chosen(t, carriers, own, dl, ul, card[ue]);
      MovedKeepsOwned(t, ue, card[ue]);
      ueOf := ueOf[currentCell := -1];
      currentCell := cellOf[card[ue]];
      ueOf := ueOf[currentCell := ue];
      assert View() == Moved(t, ue, card[ue]);
    }

    /** nrue_ru_read: the own device, and for UE 0 every device no UE uses. */
    method Read(ue: nat, samples: nat) returns (timestamp: int)
      requires Valid() && ue < |card|
      modifies this`devices
      ensures Valid() && devices == AfterRead(View(), ue, samples, old(devices))
      ensures timestamp == ReadTimestamp(old(devices)[card[ue]])
    {
      ghost var t, before := View(), devices;
      var own := card[ue];
      assert t.HasCell(own);
      timestamp := devices[own].position;
      devices := devices[own := Advanced(devices[own], samples)];
      timestamp := timestamp - devices[own].firstTs.value;
      if ue == 0 {
        var ru := 0;
        while ru < |cellOf|
          invariant 0 <= ru <= |cellOf| && |devices| == |before|
          invariant forall r :: 0 <= r < |before| ==>
            devices[r] == if r == own || (r < ru && Reads(t, ue, r)) then Advanced(before[r], samples) else before[r]
        {
          var cell := cellOf[ru];
          if 0 <= cell && ueOf[cell] < 0 {
            devices := devices[ru := Advanced(devices[ru], samples)];
          }
          ru := ru + 1;
        }
      }
    }
  }

  // -------------------------------------------------------------------------------------------
  // Any number of UEs
  // -------------------------------------------------------------------------------------------

  /** No radio unit is read for two UEs. */
  lemma ReadForOneUe(t: Tables, a: nat, b: nat, ru: nat)
    requires t.Owned() && a < |t.card| && b < |t.card| && Reads(t, a, ru) && Reads(t, b, ru)
    ensures a == b
  {
    assert t.HasCell(t.card[a]) && t.HasCell(t.card[b]);
  }

  /** With distinct cells, every unit with a cell is read for some UE. */
  lemma ReadForSomeUe(t: Tables, ru: nat) returns (ue: nat)
    requires t.Owned() && t.card != [] && CellsDistinct(t) && t.HasCell(ru)
    ensures ue < |t.card| && Reads(t, ue, ru)
  {
    var owner := t.ueOf[t.cellOf[ru]];
    if owner < 0 {
      ue := 0;
    } else {
      ue := owner;
      assert t.HasCell(t.card[ue]) && t.cellOf[t.card[ue]] == t.cellOf[ru];
    }
  }

  /** Devices after the first `ues` UEs have each read once. */
  function AfterRound(t: Tables, ues: nat, samples: nat, devices: seq<Device>): seq<Device> {
    if ues == 0 then devices else AfterRead(t, ues - 1, samples, AfterRound(t, ues - 1, samples, devices))
  }

  lemma {:induction false} RoundAdvances(t: Tables, ues: nat, samples: nat, devices: seq<Device>, ru: nat)
    requires t.Owned() && ues <= |t.card| && |devices| == |t.cellOf| && ru < |devices|
    ensures |AfterRound(t, ues, samples, devices)| == |devices|
    ensures AfterRound(t, ues, samples, devices)[ru]
      == if exists ue: nat :: ue < ues && Reads(t, ue, ru) then Advanced(devices[ru], samples) else devices[ru]
  {
    if ues != 0 {
      RoundAdvances(t, ues - 1, samples, devices, ru);
      if Reads(t, ues - 1, ru) {
        forall ue: nat | ue < ues - 1 ensures !Reads(t, ue, ru) {
          if Reads(t, ue, ru) {
            ReadForOneUe(t, ue, ues - 1, ru);
          }
        }
      }
    }
  }

  /** When every UE reads the same number of samples, every unit with a cell advances by them, exactly once. */
  lemma RoundKeepsStep(t: Tables, samples: nat, devices: seq<Device>, ru: nat)
    requires t.Owned() && t.card != [] && CellsDistinct(t) && |devices| == |t.cellOf| && t.HasCell(ru)
    ensures |AfterRound(t, |t.card|, samples, devices)| == |devices|
    ensures AfterRound(t, |t.card|, samples, devices)[ru] == Advanced(devices[ru], samples)
  {
    RoundAdvances(t, |t.card|, samples, devices, ru);
    var ue := ReadForSomeUe(t, ru);
  }

  // -------------------------------------------------------------------------------------------
  // One UE: all radio units in step
  // -------------------------------------------------------------------------------------------

  ghost predicate CellsDistinct(t: Tables) {
    forall a, b :: 0 <= a < |t.cellOf| && 0 <= b < |t.cellOf| && 0 <= t.cellOf[a] == t.cellOf[b] ==> a == b
  }

  /** A read of the only UE reaches every radio unit with a cell exactly when none shares the UE's cell. */
  lemma ReadReachesAll(t: Tables)
    requires t.Owned() && |t.card| == 1
    ensures (forall ru: nat :: t.HasCell(ru) ==> Reads(t, 0, ru))
      <==> (forall ru :: 0 <= ru < |t.cellOf| && t.cellOf[ru] == t.cellOf[t.card[0]] ==> ru == t.card[0])
  {
    assert t.HasCell(t.card[0]);
    if forall ru :: 0 <= ru < |t.cellOf| && t.cellOf[ru] == t.cellOf[t.card[0]] ==> ru == t.card[0] {
      forall ru: nat | t.HasCell(ru) ensures Reads(t, 0, ru) {
        if 0 <= t.ueOf[t.cellOf[ru]] {
          assert t.cellOf[t.card[t.ueOf[t.cellOf[ru]]]] == t.cellOf[ru];
        }
      }
    } else {
      var ru: nat :| ru < |t.cellOf| && t.cellOf[ru] == t.cellOf[t.card[0]] && ru != t.card[0];
      assert t.HasCell(ru) && !Reads(t, 0, ru);
    }
  }

  /** Before the first read (None), or at logical time `now` since each device's first sample. */
  ghost predicate InStep(t: Tables, devices: seq<Device>, now: Option<int>) {
    && |devices| == |t.cellOf|
    && forall ru :: t.HasCell(ru) ==>
         if now.None? then devices[ru].firstTs.None?
         else devices[ru].firstTs.Some? && devices[ru].position - devices[ru].firstTs.value == now.value
  }

  datatype Call = Read(samples: nat) | SetFreq(dl: nat, ul: nat)

  /** A run of the only UE: the timestamps its reads return. */
  ghost predicate Timeline(t: Tables, carriers: seq<Carrier>, devices: seq<Device>, calls: seq<Call>, returned: seq<int>)
    decreases calls
  {
    if calls == [] then returned == []
    else
      && |t.card| == 1 && t.HasCell(t.card[0]) && |carriers| == |t.ueOf| && |devices| == |t.cellOf|
      && match calls[0]
         case Read(samples) =>
           && returned != [] && returned[0] == ReadTimestamp(devices[t.card[0]])
           && Timeline(t, carriers, AfterRead(t, 0, samples, devices), calls[1..], returned[1..])
         case SetFreq(dl, ul) =>
           exists ru: nat ::
             && Chosen(t, carriers, t.card[0], dl, ul, ru)
             && Timeline(Moved(t, 0, ru), carriers, devices, calls[1..], returned)
  }

  /** The timestamps an uninterrupted single device would return. */
  function Contiguous(calls: seq<Call>, from: int): seq<int> {
    if calls == [] then []
    else match calls[0]
      case Read(samples) => [from] + Contiguous(calls[1..], from + samples)
      case SetFreq(_, _) => Contiguous(calls[1..], from)
  }

  lemma ReadKeepsStep(t: Tables, devices: seq<Device>, samples: nat, now: Option<int>)
    requires t.Owned() && |t.card| == 1 && CellsDistinct(t) && InStep(t, devices, now)
    ensures InStep(t, AfterRead(t, 0, samples, devices), Some((if now.Some? then now.value else 0) + samples))
    ensures ReadTimestamp(devices[t.card[0]]) == if now.Some? then now.value else 0
  {
    assert t.HasCell(t.card[0]);
    ReadReachesAll(t);
    forall ru | t.HasCell(ru) ensures Reads(t, 0, ru) {
    }
  }

  /** Switching radio unit between reads never makes the receive timestamp jump. */
  lemma {:induction false} TimeNeverJumps(t: Tables, carriers: seq<Carrier>, devices: seq<Device>, calls: seq<Call>,
                                          returned: seq<int>, now: Option<int>)
    requires t.Owned() && |t.card| == 1 && CellsDistinct(t) && InStep(t, devices, now)
    requires Timeline(t, carriers, devices, calls, returned)
    ensures returned == Contiguous(calls, if now.Some? then now.value else 0)
    decreases calls
  {
    if calls != [] {
      match calls[0]
      case Read(samples) =>
        ReadKeepsStep(t, devices, samples, now);
        TimeNeverJumps(t, carriers, AfterRead(t, 0, samples, devices), calls[1..], returned[1..],
                       Some((if now.Some? then now.value else 0) + samples));
        assert returned == [returned[0]] + returned[1..];
      case SetFreq(dl, ul) =>
        var ru: nat :|
          && Chosen(t, carriers, t.card[0], dl, ul, ru)
          && Timeline(Moved(t, 0, ru), carriers, devices, calls[1..], returned);
        MovedKeepsOwned(t, 0, ru);
        assert forall r :: Moved(t, 0, ru).HasCell(r) ==> t.HasCell(r);
        TimeNeverJumps(Moved(t, 0, ru), carriers, devices, calls[1..], returned, now);
    }
  }
}
