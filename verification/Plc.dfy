/** Packet loss concealment over its history rings (src/plc.c). */
module Plc {
  import opened Words
  import opened Sample24
  import opened PlcSpec

  /** C's `%`, which truncates towards zero. */
  function CRem(a: int, b: int): int
    requires b > 0
  {
    if a >= 0 then a % b else -((-a) % b)
  }

  /** One channel's ring of recent samples. */
  class PlcChan {
    const hist: array<s24>
    var head: nat
    var filled: nat

    ghost predicate Valid()
      reads this
    {
      hist.Length == HIST && head < HIST && filled <= HIST
    }

    /** The samples still in the ring, newest first. */
    ghost function Recent(): (h: History)
      requires Valid()
      reads this, hist
      ensures |h| == filled
    {
      seq(filled, b requires 0 <= b < filled reads this, hist requires Valid() => hist[(head - 1 - b) % HIST])
    }

    constructor ()
      ensures Valid() && fresh(hist) && Recent() == []
    {
      hist := new s24[HIST](_ => 0);
      head, filled := 0, 0;
    }

    /** `hist_at`: the back-th newest sample, or 0 when it is not there. */
    function HistAt(back: nat): (v: s24)
      requires Valid()
      reads this, hist
      ensures v == if back < filled then Recent()[back] else 0
    {
      if back >= filled then 0
      else
        var idx := CRem(head - 1 - back, HIST);
        hist[if idx < 0 then idx + HIST else idx]
    }

    /** `hist_push` */
    method HistPush(v: s24)
      requires Valid()
      modifies this, hist
      ensures Valid() && Recent() == Push(old(Recent()), v)
    {
      ghost var before := Recent();
      hist[head] := v;
      head := (head + 1) % HIST;
      if filled < HIST {
        filled := filled + 1;
      }
      forall b | 0 <= b < filled ensures Recent()[b] == Push(before, v)[b] {
        if b > 0 { assert (head - 1 - b) % HIST == (old(head) - 1 - (b - 1)) % HIST; }
      }
    }
  }

  // ----- the concealer ------------------------------------------------------

  /** The samples of channel c in a planar packet. */
  function ChannelSamples(pcm: Bytes, nch: nat, S: nat, c: nat): (xs: seq<s24>)
    requires c < nch && |pcm| >= 3 * (nch * S)
    ensures |xs| == S
    ensures forall s :: 0 <= s < S ==> xs[s] == Load24(PlanarAt(pcm, nch, S, c, s))
  {
    seq<s24>(S, s requires 0 <= s < S => Load24(PlanarAt(pcm, nch, S, c, s)))
  }

  type Histories = seq<History>

  /** What each channel remembers after one more packet. */
  ghost function Observed(p: Params, hs: Histories, pcm: Bytes): (r: Histories)
    requires |hs| == p.nch && |pcm| >= 3 * (p.nch * p.S)
    ensures |r| == p.nch
    ensures forall c :: 0 <= c < p.nch ==> r[c] == PushAll(hs[c], ChannelSamples(pcm, p.nch, p.S, c))
  {
    seq<History>(p.nch, c requires 0 <= c < p.nch => PushAll(hs[c], ChannelSamples(pcm, p.nch, p.S, c)))
  }

  /** The planar packet that fills loss k, given what each channel remembers. */
  ghost predicate IsConcealed(p: Params, hs: Histories, k: nat, pcm: Bytes)
    requires p.Valid() && |hs| == p.nch
  {
    && IsPlanar(pcm, p.nch, p.S)
    && forall c, s :: 0 <= c < p.nch && 0 <= s < p.S ==>
         PlanarAt(pcm, p.nch, p.S, c, s) == Store24(Concealed(p, hs[c], k, s))
  }

  /** The worst tier any channel falls to. */
  ghost function WorstTier(p: Params, hs: Histories, k: nat, n: nat): Tier
    requires n <= |hs|
  {
    if n == 0 then RepeatXfade else Worse(WorstTier(p, hs, k, n - 1), TierOf(p, hs[n - 1], k))
  }

  /** The tier a fill reports, from the histories alone. */
  lemma {:induction false} WorstTierIs(p: Params, hs: Histories, k: nat, n: nat)
    requires n <= |hs| && p.S > 0
    ensures var t := WorstTier(p, hs, k, n);
            && (t == Silence <==> exists c :: 0 <= c < n && |hs[c]| == 0)
            && (t == HoldLast <==> (exists c :: 0 <= c < n && |hs[c]| < p.S) && forall c :: 0 <= c < n ==> |hs[c]| > 0)
            && (t == RepeatXfade <==> (n == 0 || k == 0) && forall c :: 0 <= c < n ==> |hs[c]| >= p.S)
            && (t == BurstFade <==> n > 0 && k > 0 && forall c :: 0 <= c < n ==> |hs[c]| >= p.S)
  {
    if n > 0 { WorstTierIs(p, hs, k, n - 1); }
  }

  class Plc {
    const p: Params
    const ch: seq<PlcChan>

    ghost predicate Valid()
      reads this, ch
    {
      && p.Valid() && |ch| == p.nch
      && (forall c :: 0 <= c < |ch| ==> ch[c].Valid())
      && (forall c, c' :: 0 <= c < c' < |ch| ==> ch[c] != ch[c'] && ch[c].hist != ch[c'].hist)
    }

    ghost function Rings(): set<object>
      reads ch
    {
      (set c: PlcChan | c in ch :: c as object) + (set c: PlcChan | c in ch :: c.hist as object)
    }

    ghost function Remembered(): (hs: Histories)
      requires Valid()
      reads this, ch, Rings()
      ensures |hs| == p.nch
    {
      seq(|ch|, c requires 0 <= c < |ch| reads this, ch, Rings() requires Valid() => ch[c].Recent())
    }

    constructor (S: nat, nch: nat, fadePackets: int, xfadeW: int)
      requires 1 <= S <= 24 && nch <= 40 && fadePackets < 0x1_0000
      ensures Valid() && fresh(Rings())
      ensures p == Tuned(S, nch, fadePackets, xfadeW)
      ensures Remembered() == seq(nch, _ => [])
    {
      p := Tuned(S, nch, fadePackets, xfadeW);
      var chans: seq<PlcChan> := [];
      for c := 0 to nch
        invariant |chans| == c
        invariant forall i :: 0 <= i < c ==> fresh(chans[i]) && fresh(chans[i].hist) && chans[i].Valid() && chans[i].Recent() == []
        invariant forall i, j :: 0 <= i < j < c ==> chans[i] != chans[j] && chans[i].hist != chans[j].hist
      {
        var chan := new PlcChan();
        chans := chans + [chan];
      }
      ch := chans;
    }

    /** The samples of one channel of a good packet, pushed in order. */
    method ObserveChannel(c: nat, pcm: Bytes)
      requires Valid() && c < p.nch && |pcm| >= 3 * (p.nch * p.S)
      modifies ch[c], ch[c].hist
      ensures Valid()
      ensures ch[c].Recent() == PushAll(old(ch[c].Recent()), ChannelSamples(pcm, p.nch, p.S, c))
      ensures forall i :: 0 <= i < |ch| && i != c ==> ch[i].Recent() == old(ch[i].Recent())
    {
      ghost var xs := ChannelSamples(pcm, p.nch, p.S, c);
      for s := 0 to p.S
        invariant Valid()
        invariant ch[c].Recent() == PushAll(old(ch[c].Recent()), xs[..s])
        invariant forall i :: 0 <= i < |ch| && i != c ==> ch[i].Recent() == old(ch[i].Recent())
      {
        PlanarBounds(p.nch, p.S, c, s);
        ch[c].HistPush(Load24(SampleBytes(pcm, c * p.S + s)));
        assert xs[..s + 1][..s] == xs[..s];
      }
      assert xs[..p.S] == xs;
    }

    /** `plc_observe`: one good packet into every channel's history. */
    method Observe(pcm: Bytes)
      requires Valid() && |pcm| >= 3 * (p.nch * p.S)
      modifies Rings()
      ensures Valid()
      ensures Remembered() == Observed(p, old(Remembered()), pcm)
    {
      ghost var before := Remembered();
      for c := 0 to p.nch
        invariant Valid()
        invariant forall i :: 0 <= i < c ==> Remembered()[i] == Observed(p, before, pcm)[i]
        invariant forall i :: c <= i < p.nch ==> Remembered()[i] == before[i]
      {
        assert ch[c].Recent() == before[c];
        label L:
        ObserveChannel(c, pcm);
        forall i | 0 <= i < p.nch && i != c ensures Remembered()[i] == old@L(Remembered()[i]) {
          assert ch[i].Recent() == old@L(ch[i].Recent());
        }
      }
    }

    /** `burst_gain_q15` */
    method BurstGainQ15(k: nat) returns (g: nat)
      requires p.Valid()
      ensures g == BurstGain(p, k)
    {
      if k <= p.flat { return Q15; }
      if k >= p.fade { return 0; }
      var span := p.fade - p.flat;
      var into := k - p.flat;
      GainBound(span, into);
      g := Q15 * (span - into) / span;
    }

    /** One channel's plane of `plc_conceal`, and the tier it took. */
    method ConcealChannel(out: array<u8>, c: nat, k: nat, g: nat) returns (tier: Tier)
      requires Valid() && c < p.nch && 0 <= c * p.S && 3 * (c * p.S + p.S) <= out.Length && g == BurstGain(p, k)
      requires forall i :: 0 <= i < |ch| ==> (ch[i].hist as object) != out
      modifies out
      ensures tier == TierOf(p, ch[c].Recent(), k)
      ensures PlaneStored(old(out[..]), out[..], c * p.S, p.S, ConcealedPlane(p, ch[c].Recent(), k), p.S)
    {
      var S, chan := p.S, ch[c];
      var base := c * S;
      if chan.filled == 0 {
        FillPlane(out, base, S, 0);
        assert ConcealedPlane(p, chan.Recent(), k) == seq(S, _ => 0);
        return Silence;
      }
      if chan.filled < S {
        var hv := Scaled(chan.HistAt(0), g);
        FillPlane(out, base, S, hv);
        assert ConcealedPlane(p, chan.Recent(), k) == seq(S, _ => hv);
        return HoldLast;
      }
      if k == 0 {
        SeamPlane(out, base, chan);
        return RepeatXfade;
      }
      BurstPlane(out, base, chan, k, g);
      tier := BurstFade;
    }

    /** Tier 0: the repeated packet, faded in from the last sample. */
    method SeamPlane(out: array<u8>, base: nat, chan: PlcChan)
      requires p.Valid() && chan.Valid() && chan.filled >= p.S && 3 * (base + p.S) <= out.Length
      requires (chan.hist as object) != out
      modifies out
      ensures PlaneStored(old(out[..]), out[..], base, p.S, ConcealedPlane(p, chan.Recent(), 0), p.S)
    {
      var S, W := p.S, p.xfade;
      ghost var h := chan.Recent();
      var last := chan.HistAt(0);
      for s := 0 to S
        invariant chan.Recent() == h
        invariant PlaneStored(old(out[..]), out[..], base, S, ConcealedPlane(p, h, 0), s)
      {
        var sub := chan.HistAt(S - 1 - s);
        ghost var mid := out[..];
        Put24(out, base + s, Seam(last, sub, s, W));
        OneSampleMore(old(out[..]), mid, out[..], base, S, ConcealedPlane(p, h, 0), s);
      }
    }

    /** Tier 1: the repeated packet, scaled. */
    method BurstPlane(out: array<u8>, base: nat, chan: PlcChan, k: nat, g: nat)
      requires p.Valid() && chan.Valid() && chan.filled >= p.S && 3 * (base + p.S) <= out.Length
      requires k > 0 && g == BurstGain(p, k) && (chan.hist as object) != out
      modifies out
      ensures PlaneStored(old(out[..]), out[..], base, p.S, ConcealedPlane(p, chan.Recent(), k), p.S)
    {
      ghost var h := chan.Recent();
      for s := 0 to p.S
        invariant chan.Recent() == h
        invariant PlaneStored(old(out[..]), out[..], base, p.S, ConcealedPlane(p, h, k), s)
      {
        var sub := chan.HistAt(p.S - 1 - s);
        ghost var mid := out[..];
        Put24(out, base + s, Scaled(sub, g));
        OneSampleMore(old(out[..]), mid, out[..], base, p.S, ConcealedPlane(p, h, k), s);
      }
    }

    /** `plc_conceal`: one packet of fill, and the worst tier across the channels. */
    method Conceal(out: array<u8>, k: nat) returns (tier: Tier)
      requires Valid() && out.Length >= 3 * (p.nch * p.S)
      requires forall i :: 0 <= i < |ch| ==> (ch[i].hist as object) != out
      modifies out
      ensures IsConcealed(p, Remembered(), k, out[..3 * (p.nch * p.S)])
      ensures tier == WorstTier(p, Remembered(), k, p.nch)
    {
      tier := RepeatXfade;
      var g := BurstGainQ15(k);
      ghost var hs := Remembered();
      for c := 0 to p.nch
        invariant Remembered() == hs
        invariant tier == WorstTier(p, hs, k, c)
        invariant PlanesConcealed(p, hs, k, out[..], c)
      {
        PlanarBounds(p.nch, p.S, c, 0);
        ghost var before := out[..];
        var t := ConcealChannel(out, c, k, g);
        if Rank(tier) < Rank(t) {
          tier := t;
        }
        OnePlaneMore(p, hs, k, before, out[..], c);
      }
      PlanesConcealedSlice(p, hs, k, out[..]);
    }
  }

  // ----- the output buffer --------------------------------------------------

  /** A channel's concealed plane, before the clamp. */
  ghost function ConcealedPlane(p: Params, h: History, k: nat): (xs: seq<int>)
    requires p.Valid()
    ensures |xs| == p.S && forall s :: 0 <= s < p.S ==> xs[s] == Concealed(p, h, k, s)
  {
    seq(p.S, s requires 0 <= s < p.S => Concealed(p, h, k, s))
  }

  /** The first n of the S samples from `base` on hold xs; no other sample has changed. */
  ghost predicate PlaneStored(before: Bytes, after: Bytes, base: nat, S: nat, xs: seq<int>, n: nat)
  {
    && |after| == |before| && 3 * (base + S) <= |after| && n <= S <= |xs|
    && (forall s :: 0 <= s < n ==> SampleBytes(after, base + s) == Store24(xs[s]))
    && (forall j :: 0 <= j && 3 * j + 3 <= |after| && !(base <= j < base + S) ==> SampleBytes(after, j) == SampleBytes(before, j))
  }

  lemma OneSampleMore(before: Bytes, mid: Bytes, after: Bytes, base: nat, S: nat, xs: seq<int>, s: nat)
    requires PlaneStored(before, mid, base, S, xs, s) && s < S && |after| == |mid|
    requires SampleBytes(after, base + s) == Store24(xs[s])
    requires forall j :: 0 <= j && 3 * j + 3 <= |after| && j != base + s ==> SampleBytes(after, j) == SampleBytes(mid, j)
    ensures PlaneStored(before, after, base, S, xs, s + 1)
  {
    forall i | 0 <= i < s ensures SampleBytes(after, base + i) == Store24(xs[i]) {
      assert SampleBytes(mid, base + i) == Store24(xs[i]);
    }
  }

  /** `store24` into sample i of the buffer. */
  method Put24(out: array<u8>, i: nat, x: int)
    requires 3 * i + 3 <= out.Length
    modifies out
    ensures SampleBytes(out[..], i) == Store24(x)
    ensures forall j :: 0 <= j && 3 * j + 3 <= out.Length && j != i ==> SampleBytes(out[..], j) == old(SampleBytes(out[..], j))
  {
    var v := Clamp24(x);
    out[3 * i] := v % 0x100;
    out[3 * i + 1] := (v / 0x100) % 0x100;
    out[3 * i + 2] := (v / 0x1_0000) % 0x100;
  }

  /** Tiers 2 and 3: the same value in every sample. */
  method FillPlane(out: array<u8>, base: nat, S: nat, x: int)
    requires 3 * (base + S) <= out.Length
    modifies out
    ensures PlaneStored(old(out[..]), out[..], base, S, seq(S, _ => x), S)
  {
    for s := 0 to S
      invariant PlaneStored(old(out[..]), out[..], base, S, seq(S, _ => x), s)
    {
      Put24(out, base + s, x);
    }
  }

  /** The planes of the first n channels are concealed. */
  ghost predicate PlanesConcealed(p: Params, hs: Histories, k: nat, out: Bytes, n: nat)
    requires p.Valid() && |hs| == p.nch && |out| >= 3 * (p.nch * p.S)
  {
    forall c, s :: 0 <= c < n && c < p.nch && 0 <= s < p.S ==>
      PlanarAt(out, p.nch, p.S, c, s) == Store24(Concealed(p, hs[c], k, s))
  }

  lemma PlanesConcealedSlice(p: Params, hs: Histories, k: nat, out: Bytes)
    requires p.Valid() && |hs| == p.nch && |out| >= 3 * (p.nch * p.S)
    requires PlanesConcealed(p, hs, k, out, p.nch)
    ensures IsConcealed(p, hs, k, out[..3 * (p.nch * p.S)])
  {
    var block := out[..3 * (p.nch * p.S)];
    forall c, s | 0 <= c < p.nch && 0 <= s < p.S
      ensures PlanarAt(block, p.nch, p.S, c, s) == Store24(Concealed(p, hs[c], k, s))
    {
      PlanarPrefix(out, 3 * (p.nch * p.S), p.nch, p.S, c, s);
    }
  }

  lemma OnePlaneMore(p: Params, hs: Histories, k: nat, before: Bytes, after: Bytes, c: nat)
    requires p.Valid() && c < |hs| == p.nch && |after| == |before| >= 3 * (p.nch * p.S)
    requires PlanesConcealed(p, hs, k, before, c)
    requires PlaneStored(before, after, c * p.S, p.S, ConcealedPlane(p, hs[c], k), p.S)
    ensures PlanesConcealed(p, hs, k, after, c + 1)
  {
    forall c', s | 0 <= c' < c + 1 && 0 <= s < p.S
      ensures PlanarAt(after, p.nch, p.S, c', s) == Store24(Concealed(p, hs[c'], k, s))
    {
      PlanarBounds(p.nch, p.S, c', s);
      if c' < c {
        PlanarBounds(c, p.S, c', s);
        assert PlanarAt(before, p.nch, p.S, c', s) == Store24(Concealed(p, hs[c'], k, s));
      }
    }
  }
}
