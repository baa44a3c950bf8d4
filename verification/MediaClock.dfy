/** The sample-counting media clock (src/media_clock.c): wrapping frame counter in, RTP timestamp and loss out. */
module MediaClock {
  import opened Words

  /** The fields of `struct media_clock`; `lost` is its uint64 diagnostic, counted without bound. */
  datatype Clock = Clock(ts: u32, anchor: u32, last: u16, started: bool, sps: nat, lost: nat)

  datatype Step = Step(ts: u32, silence: nat)

  function Anchored(sps: nat, anchor: u32): Clock
  {
    Clock(anchor, anchor, 0, false, sps, 0)
  }

  /** The signed 16-bit distance from the expected next counter. */
  function Gap(counter: u16, last: u16): int
  {
    Signed16((counter - last - 1) % U16)
  }

  /** Accounting of one packet, as a function of the clock before it. */
  function OnCounter(c: Clock, counter: u16): (Clock, Step)
  {
    if !c.started then
      (c.(started := true, last := counter, ts := c.anchor), Step(c.anchor, 0))
    else
      var gap := Gap(counter, c.last);
      if gap < 0 then
        var ts := (c.ts + c.sps) % U32;
        (c.(ts := ts), Step(ts, 0))
      else
        var ts := (c.ts + (gap + 1) * c.sps) % U32;
        (c.(ts := ts, last := counter, lost := c.lost + gap), Step(ts, gap))
  }

  class MediaClock {
    var rtpTs: u32
    var anchor: u32
    var lastCounter: u16
    var started: bool
    var samplesPerPkt: nat
    var totalLost: nat

    ghost function State(): Clock
      reads this
    {
      Clock(rtpTs, anchor, lastCounter, started, samplesPerPkt, totalLost)
    }

    constructor (samplesPerPkt: nat, anchor: u32)
      ensures State() == Anchored(samplesPerPkt, anchor)
    {
      rtpTs := anchor;
      this.anchor := anchor;
      lastCounter := 0;
      started := false;
      this.samplesPerPkt := samplesPerPkt;
      totalLost := 0;
    }

    /** `media_clock_init_anchored` on a clock in use. */
    method InitAnchored(samplesPerPkt: nat, anchor: u32)
      modifies this
      ensures State() == Anchored(samplesPerPkt, anchor)
    {
      rtpTs := anchor;
      this.anchor := anchor;
      lastCounter := 0;
      started := false;
      this.samplesPerPkt := samplesPerPkt;
      totalLost := 0;
    }

    method OnPacket(counter: u16) returns (step: Step)
      modifies this
      ensures (State(), step) == OnCounter(old(State()), counter)
    {
      if !started {
        started := true;
        lastCounter := counter;
        rtpTs := anchor;
        return Step(anchor, 0);
      }
      var delta := Signed16((counter - lastCounter - 1) % U16);
      if delta < 0 {
        rtpTs := (rtpTs + samplesPerPkt % U32) % U32;
        ModAdd(samplesPerPkt, old(rtpTs), U32);
        return Step(rtpTs, 0);
      }
      var lost := delta;
      totalLost := totalLost + lost;
      ghost var sps := samplesPerPkt;
      var advance := ((lost + 1) * (samplesPerPkt % U32)) % U32;
      ModMul(sps, lost + 1, U32);
      ModAdd((lost + 1) * sps, rtpTs, U32);
      assert sps * (lost + 1) == (lost + 1) * sps;
      assert (sps % U32) * (lost + 1) == (lost + 1) * (sps % U32);
      rtpTs := (rtpTs + advance) % U32;
      lastCounter := counter;
      step := Step(rtpTs, lost);
    }
  }

  // ----- runs ---------------------------------------------------------------

  function RunClock(c: Clock, counters: seq<u16>): Clock
  {
    if counters == [] then c
    else OnCounter(RunClock(c, counters[..|counters| - 1]), counters[|counters| - 1]).0
  }

  /** Timeline slots a packet takes: its own and those of the packets lost before it. */
  function SlotsOf(step: Step): nat
  {
    step.silence + 1
  }

  function Slots(c: Clock, counters: seq<u16>): nat
  {
    if counters == [] then 0
    else
      var before := counters[..|counters| - 1];
      Slots(c, before) + SlotsOf(OnCounter(RunClock(c, before), counters[|counters| - 1]).1)
  }

  /** Slot n of a timeline that starts at the anchor. */
  function SlotTs(anchor: u32, sps: nat, n: int): u32
  {
    (anchor + n * sps) % U32
  }

  lemma SlotTsAdd(anchor: u32, sps: nat, n: int, k: int)
    ensures (SlotTs(anchor, sps, n) + k * sps) % U32 == SlotTs(anchor, sps, n + k)
  {
    ModAdd(anchor + n * sps, k * sps, U32);
    assert (n + k) * sps == n * sps + k * sps;
  }

  /** One packet moves the timeline on by the slots it takes, ahead or late. */
  lemma StepAdvances(c: Clock, counter: u16, n: int)
    requires c.started && c.ts == SlotTs(c.anchor, c.sps, n)
    ensures var (c', step) := OnCounter(c, counter);
            c'.started && c'.anchor == c.anchor && c'.sps == c.sps
            && c'.ts == step.ts == SlotTs(c.anchor, c.sps, n + SlotsOf(step))
            && c'.lost == c.lost + step.silence
  {
    var step := OnCounter(c, counter).1;
    SlotTsAdd(c.anchor, c.sps, n, SlotsOf(step));
  }

  lemma FirstSlot(anchor: u32, sps: nat)
    ensures SlotTs(anchor, sps, 0) == anchor
  {
    SmallMod(anchor, U32);
  }

  /** Whatever counters arrive, the clock stands on the last slot taken, and every slot beyond one a packet is a loss. */
  lemma {:induction false} ClockCountsSlots(sps: nat, anchor: u32, counters: seq<u16>)
    requires counters != []
    ensures var c := RunClock(Anchored(sps, anchor), counters);
            var n := Slots(Anchored(sps, anchor), counters);
            && c.started && c.anchor == anchor && c.sps == sps
            && c.ts == SlotTs(anchor, sps, n - 1)
            && n == |counters| + c.lost
  {
    var c0 := Anchored(sps, anchor);
    var before := counters[..|counters| - 1];
    if before == [] {
      assert RunClock(c0, before) == c0;
      FirstSlot(anchor, sps);
    } else {
      ClockCountsSlots(sps, anchor, before);
      StepAdvances(RunClock(c0, before), counters[|counters| - 1], Slots(c0, before) - 1);
    }
  }

  // ----- true frame indices -------------------------------------------------

  /**
   The 16-bit reading of the distance between two true indices is exact in a window
   round the high-water mark, and only there.
   */
  lemma GapWindow(index: int, high: int)
    ensures Gap(index % U16, high % U16) == index - high - 1 <==> high - 32767 <= index <= high + 32768
  {
    var d := index - high - 1;
    ModSub(index, high, U16);
    ModAdd(index % U16 - high % U16, -1, U16);
    ModAdd(index - high, -1, U16);
    if -32768 <= d < 0 {
      DivModUnique(d, U16, -1, d + U16);
    } else if 0 <= d <= 32767 {
      SmallMod(d, U16);
    }
  }

  function CountersOf(indices: seq<int>): (cs: seq<u16>)
    ensures |cs| == |indices|
  {
    seq(|indices|, k requires 0 <= k < |indices| => indices[k] % U16)
  }

  /** Where the clock stands on the wire: the index it believes it has reached, arrivals that moved it nowhere, and indices it counted lost. */
  datatype Belief = Belief(index: int, held: nat, lost: nat)

  function Believe(b: Belief, index: int): Belief
  {
    var gap := Gap(index % U16, b.index % U16);
    if gap < 0 then b.(held := b.held + 1) else Belief(b.index + gap + 1, b.held, b.lost + gap)
  }

  /** The first arrival is believed; each later one is read through its 16-bit distance. */
  function Beliefs(indices: seq<int>): Belief
    requires indices != []
  {
    var k := |indices| - 1;
    if k == 0 then Belief(indices[0], 0, 0) else Believe(Beliefs(indices[..k]), indices[k])
  }

  lemma CountersPrefix(indices: seq<int>, n: nat)
    requires n <= |indices|
    ensures CountersOf(indices)[..n] == CountersOf(indices[..n])
  {
  }

  /** The clock after these arrivals, by what it believes of them. */
  ghost predicate Tracks(c: Clock, sps: nat, anchor: u32, first: int, b: Belief)
  {
    && c.started && c.sps == sps && c.anchor == anchor
    && c.last == b.index % U16
    && c.lost == b.lost
    && c.ts == SlotTs(anchor, sps, b.index - first + b.held)
  }

  /** A counter read as ahead is the one the clock then believes in. */
  lemma BelievedCounter(index: int, believed: int)
    ensures (believed + Gap(index % U16, believed % U16) + 1) % U16 == index % U16
  {
    var d := index % U16 - believed % U16 - 1;
    var gap := Gap(index % U16, believed % U16);
    assert gap == d % U16 || gap == d % U16 - U16;
    assert d == (d / U16) * U16 + d % U16;
    var q := d / U16 + (if gap == d % U16 then 0 else 1);
    assert gap == d - q * U16;
    assert believed == (believed / U16) * U16 + believed % U16;
    ModShift(index % U16, believed / U16 - q, U16);
    SmallMod(index % U16, U16);
  }

  lemma TracksStep(c: Clock, sps: nat, anchor: u32, first: int, b: Belief, index: int)
    requires Tracks(c, sps, anchor, first, b)
    ensures Tracks(OnCounter(c, index % U16).0, sps, anchor, first, Believe(b, index))
  {
    BelievedCounter(index, b.index);
    StepAdvances(c, index % U16, b.index - first + b.held);
  }

  /**
   Drift, whatever arrives: the timeline stands as far past the first index as the
   clock believes, plus one slot for every arrival it read as behind.
   */
  lemma {:induction false} ClockBelieves(sps: nat, anchor: u32, indices: seq<int>)
    requires indices != []
    ensures Tracks(RunClock(Anchored(sps, anchor), CountersOf(indices)), sps, anchor, indices[0], Beliefs(indices))
  {
    var n := |indices| - 1;
    CountersPrefix(indices, n);
    if n == 0 {
      assert RunClock(Anchored(sps, anchor), CountersOf(indices[..n])) == Anchored(sps, anchor);
      FirstSlot(anchor, sps);
    } else {
      ClockBelieves(sps, anchor, indices[..n]);
      TracksStep(RunClock(Anchored(sps, anchor), CountersOf(indices[..n])), sps, anchor, indices[0], Beliefs(indices[..n]), indices[n]);
    }
  }

  // ----- arrivals the counter can tell apart ----------------------------------

  function HighWater(indices: seq<int>): int
    requires indices != []
  {
    var k := |indices| - 1;
    if k == 0 then indices[0]
    else
      var h := HighWater(indices[..k]);
      if indices[k] > h then indices[k] else h
  }

  /** Each arrival lies where a signed 16-bit distance can tell ahead from behind. */
  ghost predicate InWindow(indices: seq<int>)
  {
    forall k :: 1 <= k < |indices| ==>
      var h := HighWater(indices[..k]);
      h - 32767 <= indices[k] <= h + 32768
  }

  /** Arrivals that do not raise the high-water mark: late ones and duplicates. */
  function LateCount(indices: seq<int>): nat
  {
    if |indices| <= 1 then 0
    else
      var k := |indices| - 1;
      LateCount(indices[..k]) + if indices[k] <= HighWater(indices[..k]) then 1 else 0
  }

  /** Indices jumped over each time the high-water mark rises. */
  function SkippedCount(indices: seq<int>): nat
  {
    if |indices| <= 1 then 0
    else
      var k := |indices| - 1;
      var h := HighWater(indices[..k]);
      SkippedCount(indices[..k]) + if indices[k] > h then indices[k] - h - 1 else 0
  }

  lemma WindowPrefix(indices: seq<int>, n: nat)
    requires n <= |indices| && InWindow(indices)
    ensures InWindow(indices[..n])
  {
    forall k | 1 <= k < n ensures indices[..n][..k] == indices[..k] {
    }
  }

  /** Inside the window the clock believes the truth. */
  lemma {:induction false} BelievesInWindow(indices: seq<int>)
    requires indices != [] && InWindow(indices)
    ensures Beliefs(indices) == Belief(HighWater(indices), LateCount(indices), SkippedCount(indices))
  {
    var n := |indices| - 1;
    if n > 0 {
      WindowPrefix(indices, n);
      BelievesInWindow(indices[..n]);
      GapWindow(indices[n], HighWater(indices[..n]));
    }
  }

  /**
   Exact drift: with every arrival inside the window, the timeline stands at the
   high-water index plus one slot for every late or duplicate arrival; losses are the
   indices skipped.
   */
  lemma ExactDrift(sps: nat, anchor: u32, indices: seq<int>, c: Clock, high: int, late: nat)
    requires indices != [] && InWindow(indices) && high == HighWater(indices) && late == LateCount(indices)
    requires c == RunClock(Anchored(sps, anchor), CountersOf(indices))
    ensures c.started && c.sps == sps && c.anchor == anchor
    ensures c.last == high % U16 && c.lost == SkippedCount(indices)
    ensures c.ts == SlotTs(anchor, sps, high - indices[0] + late)
  {
    ClockBelieves(sps, anchor, indices);
    BelievesInWindow(indices);
    TracksTruth(c, sps, anchor, indices[0], Beliefs(indices), high, late, SkippedCount(indices));
  }

  lemma TracksTruth(c: Clock, sps: nat, anchor: u32, first: int, b: Belief, high: int, late: nat, skipped: nat)
    requires Tracks(c, sps, anchor, first, b) && b == Belief(high, late, skipped)
    ensures c.started && c.sps == sps && c.anchor == anchor && c.last == high % U16 && c.lost == skipped
    ensures c.ts == SlotTs(anchor, sps, high - first + late)
  {
  }
}
