/**
 Synchronisation of the NR UE to a frame boundary (executables/nr-ue.c, readFrame, syncInFrame and the
 synchronisation part of UE_thread; openair1/PHY/NR_UE_TRANSPORT/nr_initial_sync.c, nr_initial_sync).

 Not in sidelink mode: captures are two frames long.
 */
module UeSync {
  import opened CInts
  import opened SlotClock
  import opened FrameParms
  import opened OfdmSymbols
  import UeSlotEngine

  const CAPTURE_FRAMES := 2

  // -------------------------------------------------------------------------------------------
  // Absolute slots
  // -------------------------------------------------------------------------------------------

  datatype SlotNumber = SlotNumber(hfn: int, frame: int, slot: int)

  /** Hyperframe, frame and slot of an absolute slot, for reception and, `duration` later, transmission. */
  function Number(absolute: nat, slots: nat, frames: nat): SlotNumber
    requires 0 < slots && 0 < frames
  {
    SlotNumber(absolute / slots / frames, (absolute / slots) % frames, absolute % slots)
  }

  /** The three numbers are in range and determine the absolute slot. */
  lemma NumberDetermines(absolute: nat, slots: nat, frames: nat, n: SlotNumber)
    requires 0 < slots && 0 < frames
    ensures n == Number(absolute, slots, frames)
      <==> 0 <= n.frame < frames && 0 <= n.slot < slots && (n.hfn * frames + n.frame) * slots + n.slot == absolute
  {
    if 0 <= n.frame < frames && 0 <= n.slot < slots && (n.hfn * frames + n.frame) * slots + n.slot == absolute {
      DivModUnique(n.hfn * frames + n.frame, n.slot, slots);
      DivModUnique(n.hfn, n.frame, frames);
    }
  }

  /** The frame counted on from `current` that carries the decoded number, as the hyperframe is chosen. */
  function NextFrame(current: nat, decoded: nat, frames: nat): nat
    requires decoded < frames
  {
    var hfn := if decoded <= current % frames then current / frames + 1 else current / frames;
    MulLe(0, hfn, frames);
    hfn * frames + decoded
  }

  lemma NextFrameIsFirst(current: nat, decoded: nat, frames: nat, frame: nat)
    requires decoded < frames
    ensures current < NextFrame(current, decoded, frames)
    ensures NextFrame(current, decoded, frames) % frames == decoded
    ensures current < frame && frame % frames == decoded ==> NextFrame(current, decoded, frames) <= frame
  {
    var q := current / frames;
    var target := NextFrame(current, decoded, frames);
    assert (q + 1) * frames == q * frames + frames;
    assert current < target <= current + frames;
    DivModUnique(if decoded <= current % frames then q + 1 else q, decoded, frames);
    if current < frame < target && frame % frames == decoded {
      CongruentAndClose(frame, target, frames);
    }
  }

  /** absolute_slot as a resynchronisation to frame `decoded` leaves it: one before the slot to process. */
  function Resynced(absolute: nat, decoded: nat, slots: nat, frames: nat): (r: int)
    requires 0 < slots && decoded < frames
    ensures absolute <= r
  {
    var target := NextFrame(absolute / slots, decoded, frames);
    NextFrameIsFirst(absolute / slots, decoded, frames, 0);
    MulLe(absolute / slots + 1, target, slots);
    target * slots - 1
  }

  /** A resynchronisation goes to the first frame so numbered that begins after the current slot. */
  lemma ResyncIsNextSuchFrame(absolute: nat, decoded: nat, slots: nat, frames: nat, slot: nat)
    requires 0 < slots && decoded < frames
    ensures slot == Resynced(absolute, decoded, slots, frames) + 1 ==>
      Number(slot, slots, frames).frame == decoded && Number(slot, slots, frames).slot == 0
    ensures absolute < slot && Number(slot, slots, frames).frame == decoded && Number(slot, slots, frames).slot == 0 ==>
      Resynced(absolute, decoded, slots, frames) < slot
  {
    var target := NextFrame(absolute / slots, decoded, frames);
    DivModUnique(target, 0, slots);
    NextFrameIsFirst(absolute / slots, decoded, frames, slot / slots);
    if absolute < slot && (slot / slots) % frames == decoded && slot % slots == 0 {
      if slot / slots <= absolute / slots {
        MulLe(slot / slots, absolute / slots, slots);
      }
      MulLe(target, slot / slots, slots);
    }
  }

  datatype Event = Slot | Resync(decoded: nat)

  /** The absolute slots processed in a run of slots and resynchronisations. */
  function Processed(absolute: nat, events: seq<Event>, slots: nat, frames: nat): seq<nat>
    requires 0 < slots && 0 < frames
    decreases events
  {
    if events == [] then []
    else match events[0]
      case Slot => [absolute + 1] + Processed(absolute + 1, events[1..], slots, frames)
      case Resync(decoded) =>
        Processed(Resynced(absolute, decoded % frames, slots, frames), events[1..], slots, frames)
  }

  ghost predicate IncreasesFrom(absolute: int, slots: seq<nat>) {
    && (forall i :: 0 <= i < |slots| ==> absolute < slots[i])
    && (forall i, j :: 0 <= i < j < |slots| ==> slots[i] < slots[j])
  }

  /** However often the UE resynchronises, no absolute slot is processed twice or out of order. */
  lemma {:induction false} ProcessedIncreases(absolute: nat, events: seq<Event>, slots: nat, frames: nat)
    requires 0 < slots && 0 < frames
    ensures IncreasesFrom(absolute, Processed(absolute, events, slots, frames))
    decreases events
  {
    if events != [] {
      match events[0]
      case Slot =>
        ProcessedIncreases(absolute + 1, events[1..], slots, frames);
        var rest := Processed(absolute + 1, events[1..], slots, frames);
        assert IncreasesFrom(absolute + 1, rest);
        assert Processed(absolute, events, slots, frames) == [absolute + 1] + rest;
      case Resync(decoded) =>
        ProcessedIncreases(Resynced(absolute, decoded % frames, slots, frames), events[1..], slots, frames);
    }
  }

  // -------------------------------------------------------------------------------------------
  // From a capture to the frame boundary
  // -------------------------------------------------------------------------------------------

  /** readFrame: reads slot by slot and advances the device by exactly two frames. */
  method ReadFrame(c: Clock, position: int) returns (end: int)
    requires c.Valid()
    ensures end == position + CAPTURE_FRAMES * c.SamplesPerFrame()
  {
    end := position;
    for x := 0 to CAPTURE_FRAMES * SUBFRAMES_PER_FRAME
      invariant end == position + x * c.samplesPerSubframe
    {
      var begin := end;
      for slot := 0 to c.slotsPerSubframe
        invariant end == begin + c.timestamp(slot)
      {
        assert c.RunningSumAt(slot);
        end := end + c.length(slot);
      }
      assert c.PeriodicAt(1, 0);
      assert (x + 1) * c.samplesPerSubframe == x * c.samplesPerSubframe + c.samplesPerSubframe;
    }
  }

  /** syncInFrame: skips the offset in transfers of at most one slot. */
  method SyncInFrame(c: Clock, position: int, rxOffset: int) returns (end: int)
    requires c.Valid()
    ensures end == position + Max(0, rxOffset)
  {
    assert c.RunningSumAt(0);
    end := position;
    var size := rxOffset;
    while 0 < size
      invariant end + Max(0, size) == position + Max(0, rxOffset)
    {
      var unit := Min(c.length(0), size);
      end := end + unit;
      size := size - unit;
    }
  }

  /** Where cell search found a block: capture frame, offset in that frame, and what PBCH decoding said of it. */
  datatype Search = Search(frameId: nat, ssbOffset: int, ssb: Ssb) {

    ghost predicate InCapture(p: Parms) {
      frameId < CAPTURE_FRAMES && 0 <= ssbOffset < p.SamplesPerFrame() && ssb.Valid(p)
    }

    /** sync_pos_frame of nr_initial_sync. */
    function Position(p: Parms): int
      requires HasBlocks(p)
    {
      SyncPosition(p, ssb.SymbolOffset(p))
    }

    /** rx_offset of nr_initial_sync. */
    function RxOffset(p: Parms): int
      requires HasBlocks(p)
    {
      if ssbOffset < Position(p) then p.SamplesPerFrame() - Position(p) + ssbOffset
      else ssbOffset - Position(p)
    }

    /** init_sync_frame of nr_initial_sync. */
    function InitSyncFrame(p: Parms): int
      requires HasBlocks(p)
    {
      CAPTURE_FRAMES - 1 - frameId + (if ssbOffset < Position(p) then 1 else 0)
    }
  }

  /** Start, in device time, of the air frame that held the block: as many samples earlier as symbols precede it. */
  ghost function FrameStart(p: Parms, captureStart: int, search: Search): int
    requires HasBlocks(p)
  {
    captureStart + search.frameId * p.SamplesPerFrame() + search.ssbOffset - Samples(p, 0, search.ssb.SymbolOffset(p))
  }

  /** A capture, and any number of captures thrown away while the search runs. */
  method Capture(c: Clock, captureStart: int, trashed: nat) returns (position: int, trashedFrames: nat)
    requires c.Valid()
    ensures trashedFrames == CAPTURE_FRAMES * trashed
    ensures position == captureStart + (CAPTURE_FRAMES + trashedFrames) * c.SamplesPerFrame()
  {
    position := ReadFrame(c, captureStart);
    trashedFrames := 0;
    for capture := 0 to trashed
      invariant trashedFrames == CAPTURE_FRAMES * capture
      invariant position == captureStart + (CAPTURE_FRAMES + trashedFrames) * c.SamplesPerFrame()
    {
      CountFrames(CAPTURE_FRAMES + trashedFrames, CAPTURE_FRAMES, c.SamplesPerFrame());
      position := ReadFrame(c, position);
      trashedFrames := trashedFrames + CAPTURE_FRAMES;
    }
  }

  /**
   Captures, and the skip to a frame boundary. The boundary is that of a frame `later` frames after the one that held
   the block, and it is numbered so.
   */
  method ReachBoundary(p: Parms, frames: nat, captureStart: int, search: Search, mibFrame: nat, trashed: nat)
    returns (position: int, decodedFrame: nat, later: int)
    requires p.Valid() && p.cp < p.cp0 && 0 < frames && search.InCapture(p)
    ensures 1 <= later
    ensures position == FrameStart(p, captureStart, search) + later * p.SamplesPerFrame()
    ensures decodedFrame == (mibFrame + later) % frames
  {
    ClockIsValid(p);
    SyncPositionOfBlock(p, search.ssb);
    var c := ClockOf(p);
    var trashedFrames;
    position, trashedFrames := Capture(c, captureStart, trashed);
    position := SyncInFrame(c, position, search.RxOffset(p));

    var shifted := mibFrame + search.InitSyncFrame(p) + trashedFrames;
    decodedFrame := (shifted % frames + 1) % frames;
    ModOfSum(shifted, 1, frames);
    later := search.InitSyncFrame(p) + trashedFrames + 1;
    CountFrames(search.frameId, later, p.SamplesPerFrame());
    CountFrames(CAPTURE_FRAMES + trashedFrames, 1, p.SamplesPerFrame());
  }

  lemma CountFrames(a: int, b: int, samples: int)
    ensures (a + b) * samples == a * samples + b * samples
  {
  }

  /** One successful synchronisation; the slot loop resumes at slot 0 of the frame it stands on. */
  method Synchronise(p: Parms, frames: nat, captureStart: int, search: Search, mibFrame: nat, trashed: nat, absolute: nat)
    returns (position: int, absoluteSlot: nat, later: int)
    requires p.Valid() && p.cp < p.cp0 && 0 < frames && search.InCapture(p)
    ensures 1 <= later && absolute <= absoluteSlot
    ensures Number(absoluteSlot + 1, p.SlotsPerFrame(), frames).frame == (mibFrame + later) % frames
    ensures position == FrameStart(p, captureStart, search) + later * p.SamplesPerFrame() + SymbolSamples(p, 0)
    ensures ClockOf(p).Valid() && forall ta, nTa, shift ::
      var ue := UeSlotEngine.Ue(absoluteSlot, position, ta, nTa, shift);
      && UeSlotEngine.NextSlot(ClockOf(p), ue) == 0
      && UeSlotEngine.RxSlotStart(ClockOf(p), ue) == FrameStart(p, captureStart, search) + later * p.SamplesPerFrame()
  {
    ClockIsValid(p);
    var c := ClockOf(p);
    var decodedFrame;
    position, decodedFrame, later := ReachBoundary(p, frames, captureStart, search, mibFrame, trashed);
    position := position + c.firstOfFrame;
    FirstSymbolOfSlot(p, 0);
    absoluteSlot := Resynced(absolute, decodedFrame, c.SlotsPerFrame(), frames);
    ResyncIsNextSuchFrame(absolute, decodedFrame, c.SlotsPerFrame(), frames, absoluteSlot + 1);
  }
}
