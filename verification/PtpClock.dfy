/** TAI-derived timestamps (src/ptp_clock.c) and the alignment of the media clock with them. */
module PtpClock {
  import opened Words
  import opened MediaClock

  const SECOND := 1_000_000_000

  /** `tai_to_rtp_ts`, in 64-bit arithmetic. */
  function TaiToRtpTs(sec: u64, nsec: u32, rate: nat): u32
    requires rate < 0x8000_0000
  {
    var sub := ((nsec * rate) % U64 + 500_000_000) % U64 / SECOND;
    var total := ((sec * rate) % U64 + sub) % U64;
    total % U32
  }

  /** Media samples since the epoch at a TAI instant in nanoseconds, rounded to nearest. */
  function SampleCount(instant: nat, rate: nat): nat
  {
    (instant * rate + 500_000_000) / SECOND
  }

  /** The count is the nearest number of samples to instant * rate / 10^9, a half rounding up. */
  lemma SampleCountIsNearest(instant: nat, rate: nat)
    ensures 0 <= instant * rate
    ensures -500_000_000 < SampleCount(instant, rate) * 1_000_000_000 - instant * rate <= 500_000_000
  {
    MulMono(0, instant, rate);
    var x := instant * rate + 500_000_000;
    assert x == (x / SECOND) * SECOND + x % SECOND;
  }

  /** Sub-second products of 32-bit numbers stay clear of the 64-bit wrap. */
  lemma SubSecondFits(nsec: u32, rate: nat)
    requires rate < 0x8000_0000
    ensures 0 <= nsec * rate
    ensures ((nsec * rate) % U64 + 500_000_000) % U64 == nsec * rate + 500_000_000
  {
    MulMono(0, nsec, rate);
    MulMono(nsec, U32, rate);
    assert nsec * rate <= 0x8000_0000 * U32;
    SmallMod(nsec * rate, U64);
    SmallMod(nsec * rate + 500_000_000, U64);
  }

  lemma WordOfSum(whole: nat, sub: nat)
    ensures (whole % U64 + sub) % U64 % U32 == (whole + sub) % U32
  {
    ModAdd(whole, sub, U64);
    ModMod(whole + sub, U32, U32);
  }

  /** Rounding the sub-second part alone, and every 64-bit wrap, leave the whole count intact modulo 2^32. */
  lemma TaiIsSampleCount(sec: u64, nsec: u32, rate: nat)
    requires rate < 0x8000_0000
    ensures TaiToRtpTs(sec, nsec, rate) == SampleCount(sec * SECOND + nsec, rate) % U32
  {
    SubSecondFits(nsec, rate);
    var x := nsec * rate + 500_000_000;
    var whole := sec * rate;
    WordOfSum(whole, x / SECOND);
    assert (sec * SECOND + nsec) * rate == whole * SECOND + nsec * rate;
    DivModUnique(whole * SECOND + x, SECOND, whole + x / SECOND, x % SECOND);
  }

  // ----- instants of frames -----------------------------------------------------

  /** Nanoseconds, rounded down, that n packets of sps samples take; the rate need not divide them. */
  function Elapsed(n: int, sps: nat, rate: nat): int
    requires rate > 0
  {
    n * sps * SECOND / rate
  }

  /** What rounding down left out, in units of 1/rate ns. */
  function Shortfall(n: int, sps: nat, rate: nat): (r: nat)
    requires rate > 0
    ensures r < rate
  {
    n * sps * SECOND % rate
  }

  /** The shortfall takes the instant of packet n below the rounding threshold of its sample count. */
  predicate RoundsShort(start: nat, n: int, sps: nat, rate: nat)
    requires rate > 0
  {
    Shortfall(n, sps, rate) > (start * rate + 500_000_000) % SECOND
  }

  /** The sample count of packet n's instant is n * sps ahead, or one less, and when it is which. */
  lemma CountOfInstant(start: nat, n: int, sps: nat, rate: nat)
    requires 0 < rate <= SECOND && start + Elapsed(n, sps, rate) >= 0
    ensures SampleCount(start + Elapsed(n, sps, rate), rate)
         == SampleCount(start, rate) + n * sps - Rounding(start, n, sps, rate)
  {
    var e, r := Elapsed(n, sps, rate), Shortfall(n, sps, rate);
    var x := start * rate + 500_000_000;
    assert n * sps * SECOND == e * rate + r;
    assert (start + e) * rate + 500_000_000 == x + n * sps * SECOND - r;
    CountDown(x, n * sps, r);
  }

  lemma CountDown(x: int, k: int, r: nat)
    requires r < SECOND
    ensures (x + k * SECOND - r) / SECOND == x / SECOND + k - if r > x % SECOND then 1 else 0
  {
    var y := x + k * SECOND - r;
    if r > x % SECOND {
      DivModUnique(y, SECOND, x / SECOND + k - 1, x % SECOND - r + SECOND);
    } else {
      DivModUnique(y, SECOND, x / SECOND + k, x % SECOND - r);
    }
  }

  /** The sample packet n's instant is short of, if it is. */
  function Rounding(start: nat, n: int, sps: nat, rate: nat): nat
    requires rate > 0
  {
    if RoundsShort(start, n, sps, rate) then 1 else 0
  }

  // ----- alignment --------------------------------------------------------------

  /** The instant of packet n after `start`, in whole nanoseconds, and the sample that rounding it down cost. */
  ghost predicate InstantOf(start: nat, n: int, sps: nat, rate: nat, instant: nat, rounding: nat)
  {
    0 < rate <= SECOND && instant == start + Elapsed(n, sps, rate) && rounding == Rounding(start, n, sps, rate)
  }

  /** Slots the clock is past index i: indices it believes beyond it, and arrivals it read as behind. */
  function SlotsAhead(indices: seq<int>, i: int): int
    requires indices != []
  {
    Beliefs(indices).index - i + Beliefs(indices).held
  }

  /** Samples the clock is ahead of the instant of index i. */
  function Ahead(sps: nat, indices: seq<int>, i: int, rounding: nat): int
    requires indices != []
  {
    SlotsAhead(indices, i) * sps + rounding
  }

  /** Whatever arrives, the clock is ahead of the instant of index i by exactly this much, modulo the timestamp's width. */
  lemma ClockTracksTai(sps: nat, rate: nat, start: nat, anchor: u32, indices: seq<int>, i: int, instant: nat, rounding: nat)
    requires anchor == SampleCount(start, rate) % U32
    requires indices != [] && InstantOf(start, i - indices[0], sps, rate, instant, rounding)
    ensures RunClock(Anchored(sps, anchor), CountersOf(indices)).ts
         == (SampleCount(instant, rate) + Ahead(sps, indices, i, rounding)) % U32
  {
    ClockBelieves(sps, anchor, indices);
    CountOfInstant(start, i - indices[0], sps, rate);
    SlotOfCount(SampleCount(start, rate), sps, i - indices[0], SlotsAhead(indices, i));
  }

  lemma SlotOfCount(count: nat, sps: nat, n: int, late: int)
    ensures SlotTs(count % U32, sps, n + late) == (count + n * sps + late * sps) % U32
  {
    ModAdd(count, (n + late) * sps, U32);
    assert (n + late) * sps == n * sps + late * sps;
  }

  /** The clock after these arrivals, the first of them stamped with the count of the instant `start`. */
  ghost predicate ClockAfter(c: Clock, sps: nat, rate: nat, start: nat, indices: seq<int>)
  {
    indices != [] && c == RunClock(Anchored(sps, SampleCount(start, rate) % U32), CountersOf(indices))
  }

  /**
   When the promise holds: after any arrivals the clock is `ahead` samples ahead of the
   instant of index i, so it is on that instant's own timestamp if and only if those come
   to whole timestamp wraps.
   */
  lemma AlignedIff(c: Clock, sps: nat, rate: nat, start: nat, indices: seq<int>, i: int,
                   instant: nat, rounding: nat, own: u32, ahead: int)
    requires ClockAfter(c, sps, rate, start, indices) && InstantOf(start, i - indices[0], sps, rate, instant, rounding)
    requires own == SampleCount(instant, rate) % U32 && ahead == Ahead(sps, indices, i, rounding)
    ensures c.ts == (own + ahead) % U32
    ensures c.ts == own <==> ahead % U32 == 0
  {
    ClockTracksTai(sps, rate, start, SampleCount(start, rate) % U32, indices, i, instant, rounding);
    ModAdd(SampleCount(instant, rate), ahead, U32);
    WholeWraps(own, ahead);
  }

  lemma WholeWraps(own: u32, ahead: int)
    ensures (own + ahead) % U32 == own <==> ahead % U32 == 0
  {
    ModSub(own + ahead, own, U32);
    ModAdd(ahead, own, U32);
    SmallMod(own, U32);
    SmallMod(0, U32);
  }

  /** The high-water mark and the late arrivals of a run inside the counter window. */
  ghost predicate Windowed(indices: seq<int>, high: int, late: nat)
  {
    indices != [] && InWindow(indices) && high == HighWater(indices) && late == LateCount(indices)
  }

  /** Inside the window the clock is past its high-water frame by one slot a late arrival. */
  lemma AheadInWindow(sps: nat, indices: seq<int>, rounding: nat, high: int, late: nat)
    requires Windowed(indices, high, late)
    ensures Ahead(sps, indices, high, rounding) == late * sps + rounding
  {
    BelievesInWindow(indices);
    assert SlotsAhead(indices, high) == late;
  }

  /** Inside the window the alignment survives exactly when the late slots come to whole timestamp wraps. */
  lemma AlignedIffNoDrift(c: Clock, sps: nat, rate: nat, start: nat, indices: seq<int>, high: int, late: nat,
                          instant: nat, rounding: nat, own: u32, ahead: int)
    requires ClockAfter(c, sps, rate, start, indices) && Windowed(indices, high, late)
    requires InstantOf(start, high - indices[0], sps, rate, instant, rounding)
    requires own == SampleCount(instant, rate) % U32 && ahead == late * sps + rounding
    ensures c.ts == own <==> ahead % U32 == 0
  {
    AheadInWindow(sps, indices, rounding, high, late);
    AlignedIff(c, sps, rate, start, indices, high, instant, rounding, own, ahead);
  }

  /** The same promise with the timestamps that `tai_to_rtp_ts` gives for anchor and instant. */
  lemma StampedIff(c: Clock, sps: nat, rate: nat, indices: seq<int>, i: int,
                   sec0: u64, nsec0: u32, sec: u64, nsec: u32, rounding: nat, anchor: u32, own: u32, ahead: int)
    requires rate <= SECOND && indices != [] && c == RunClock(Anchored(sps, anchor), CountersOf(indices))
    requires InstantOf(sec0 * SECOND + nsec0, i - indices[0], sps, rate, sec * SECOND + nsec, rounding)
    requires anchor == TaiToRtpTs(sec0, nsec0, rate) && own == TaiToRtpTs(sec, nsec, rate)
    requires ahead == Ahead(sps, indices, i, rounding)
    ensures c.ts == (own + ahead) % U32
    ensures c.ts == own <==> ahead % U32 == 0
  {
    TaiIsSampleCount(sec0, nsec0, rate);
    TaiIsSampleCount(sec, nsec, rate);
    AlignedIff(c, sps, rate, sec0 * SECOND + nsec0, indices, i, sec * SECOND + nsec, rounding, own, ahead);
  }

  /** Frames lost but never reordered or repeated, with gaps the counter can carry. */
  ghost predicate Forward(indices: seq<int>)
  {
    forall k :: 1 <= k < |indices| ==> indices[k - 1] < indices[k] <= indices[k - 1] + 32768
  }

  lemma {:induction false} ForwardIsInWindow(indices: seq<int>)
    requires indices != [] && Forward(indices)
    ensures InWindow(indices)
    ensures HighWater(indices) == indices[|indices| - 1] >= indices[0] && LateCount(indices) == 0
  {
    var n := |indices| - 1;
    if n > 0 {
      ForwardIsInWindow(indices[..n]);
      forall k | 1 <= k < |indices|
        ensures var h := HighWater(indices[..k]); h - 32767 <= indices[k] <= h + 32768
      {
        if k < n { assert indices[..n][..k] == indices[..k]; }
      }
    }
  }

  /**
   TAI alignment, at any rate: anchored at the first frame's instant, with losses but no
   late frame, every frame's timestamp is that of its own instant, one more when the
   instant had to be rounded down past a sample; through all counter and timestamp wraps.
   */
  lemma TaiAligned(sps: nat, rate: nat, sec0: u64, nsec0: u32, sec: u64, nsec: u32, indices: seq<int>,
                   rounding: nat, anchor: u32, own: u32)
    requires rate <= SECOND && indices != [] && Forward(indices)
    requires InstantOf(sec0 * SECOND + nsec0, indices[|indices| - 1] - indices[0], sps, rate, sec * SECOND + nsec, rounding)
    requires anchor == TaiToRtpTs(sec0, nsec0, rate) && own == TaiToRtpTs(sec, nsec, rate)
    ensures RunClock(Anchored(sps, anchor), CountersOf(indices)).ts == (own + rounding) % U32
  {
    ForwardIsInWindow(indices);
    AheadInWindow(sps, indices, rounding, indices[|indices| - 1], 0);
    var c := RunClock(Anchored(sps, anchor), CountersOf(indices));
    StampedIff(c, sps, rate, indices, HighWater(indices), sec0, nsec0, sec, nsec, rounding, anchor, own, rounding);
  }

  /** An instant a whole number of nanoseconds away costs no sample. */
  lemma WholeInstant(start: nat, n: int, sps: nat, rate: nat, elapsed: int)
    requires 0 < rate <= SECOND && elapsed * rate == n * sps * SECOND && start + elapsed >= 0
    ensures InstantOf(start, n, sps, rate, start + elapsed, 0)
  {
    DivModUnique(n * sps * SECOND, rate, elapsed, 0);
  }

  // ----- where the promise fails ------------------------------------------------

  /** One duplicated frame at 48 kHz: the stream is 12 samples ahead of the grandmaster from then on. */
  lemma DuplicateBreaksAlignment()
    ensures RunClock(Anchored(12, 0), CountersOf([7, 7])).ts == 12
    ensures SampleCount(0 + Elapsed(7 - 7, 12, 48_000), 48_000) == 0
  {
    var s := [7, 7];
    assert s[..1] == [7];
    assert Gap(7, 7) == -1;
    assert Beliefs(s[..1]) == Belief(7, 0, 0) && Beliefs(s) == Belief(7, 1, 0);
    ClockBelieves(12, 0, s);
  }

  /** Ten seconds of outage at 48 kHz read as a late frame: the stream is 479988 samples behind from then on. */
  lemma OutageBreaksAlignment()
    ensures RunClock(Anchored(12, 0), CountersOf([0, 40_000])).ts == 12
    ensures SampleCount(0 + Elapsed(40_000 - 0, 12, 48_000), 48_000) == 480_000
    ensures LateCount([0, 40_000]) == 0
  {
    var s := [0, 40_000];
    assert s[..1] == [0];
    assert Gap(40_000, 0) < 0;
    assert Beliefs(s[..1]) == Belief(0, 0, 0) && Beliefs(s) == Belief(0, 1, 0);
    assert HighWater(s[..1]) == 0;
    ClockBelieves(12, 0, s);
  }
}
