/** What packet loss concealment computes (src/plc.c), on values: histories, gains, concealed samples. */
module PlcSpec {
  import opened Words
  import opened Sample24

  const HIST := 40
  const Q15 := 32768

  datatype Tier = RepeatXfade | BurstFade | HoldLast | Silence

  /** The ladder: later rungs are worse. */
  function Rank(t: Tier): nat
  {
    match t case RepeatXfade => 0 case BurstFade => 1 case HoldLast => 2 case Silence => 3
  }

  function Worse(a: Tier, b: Tier): Tier
  {
    if Rank(a) < Rank(b) then b else a
  }

  /** Packet geometry and tuning; the fade span must stay clear of the int32 product in the gain. */
  datatype Params = Params(S: nat, nch: nat, xfade: nat, fade: nat, flat: nat)
  {
    ghost predicate Valid()
    {
      1 <= S <= 24 && nch <= 40 && xfade <= S && flat < fade && fade - flat < 0x1_0000
    }
  }

  /** `plc_init`: non-positive tuning asks for the defaults. */
  function Tuned(S: nat, nch: nat, fadePackets: int, xfadeW: int): (p: Params)
    ensures p.S == S && p.nch == nch && p.fade == (if fadePackets > 0 then fadePackets else 200)
    ensures 5 * p.flat <= p.fade < 5 * p.flat + 5
    ensures p.xfade == Min(if xfadeW > 0 then xfadeW else 8, S)
  {
    var w := if xfadeW > 0 then xfadeW else if S < 8 then S else 8;
    var fade := if fadePackets > 0 then fadePackets else 200;
    Params(S, nch, if w > S then S else w, fade, fade / 5)
  }

  // ----- history ------------------------------------------------------------

  /** A channel's history, newest sample first. */
  type History = h: seq<s24> | |h| <= HIST

  function Push(h: History, v: s24): (r: History)
  {
    [v] + (if |h| < HIST then h else h[..HIST - 1])
  }

  function PushAll(h: History, xs: seq<s24>): History
  {
    if xs == [] then h else Push(PushAll(h, xs[..|xs| - 1]), xs[|xs| - 1])
  }

  function Reversed(xs: seq<s24>): (r: seq<s24>)
    ensures |r| == |xs|
    ensures forall i :: 0 <= i < |xs| ==> r[i] == xs[|xs| - 1 - i]
  {
    seq(|xs|, i requires 0 <= i < |xs| => xs[|xs| - 1 - i])
  }

  /** Pushing keeps the newest 40 of everything pushed, newest first. */
  lemma {:induction false} PushAllKeepsNewest(h: History, xs: seq<s24>)
    ensures PushAll(h, xs) == (Reversed(xs) + h)[..Min(40, |xs| + |h|)]
  {
    if xs == [] {
      assert Reversed(xs) + h == h;
    } else {
      var n := |xs| - 1;
      PushAllKeepsNewest(h, xs[..n]);
      assert Reversed(xs) + h == [xs[n]] + (Reversed(xs[..n]) + h);
    }
  }

  lemma {:induction false} PushAllAppend(h: History, xs: seq<s24>, ys: seq<s24>)
    ensures PushAll(h, xs + ys) == PushAll(PushAll(h, xs), ys)
  {
    if ys == [] {
      assert xs + ys == xs;
    } else {
      var n := |ys| - 1;
      PushAllAppend(h, xs, ys[..n]);
      assert (xs + ys)[..|xs| + n] == xs + ys[..n];
    }
  }

  /** A whole packet pushed onto any history can be read back from it in order. */
  lemma PacketReadsBack(h: History, packet: seq<s24>)
    requires |packet| <= HIST
    ensures |PushAll(h, packet)| >= |packet|
    ensures forall s :: 0 <= s < |packet| ==> PushAll(h, packet)[|packet| - 1 - s] == packet[s]
  {
    PushAllKeepsNewest(h, packet);
  }

  // ----- gains --------------------------------------------------------------

  /** `burst_gain_q15` */
  function BurstGain(p: Params, k: nat): (g: nat)
    requires p.Valid()
    ensures g <= Q15
  {
    if k <= p.flat then Q15
    else if k >= p.fade then 0
    else
      var span, into := p.fade - p.flat, k - p.flat;
      GainBound(span, into);
      Q15 * (span - into) / span
  }

  /** Full up to `flat`, nothing from `fade` on, and in between the line from one to the other, rounded down. */
  lemma GainIsLine(p: Params, k: nat)
    requires p.Valid()
    ensures k <= p.flat ==> BurstGain(p, k) == 32768
    ensures k >= p.fade ==> BurstGain(p, k) == 0
    ensures p.flat < k < p.fade ==>
              var g := BurstGain(p, k); var span := p.fade - p.flat;
              g * span <= 32768 * (p.fade - k) < g * span + span
  {
    if p.flat < k < p.fade {
      var a, span := Q15 * (p.fade - k), p.fade - p.flat;
      assert BurstGain(p, k) == a / span;
      assert a == (a / span) * span + a % span;
    }
  }

  lemma GainBound(span: nat, into: nat)
    requires into <= span && span > 0
    ensures 0 <= Q15 * (span - into) / span <= Q15
  {
    DivLower(Q15 * (span - into), span, 0);
    DivUpper(Q15 * (span - into), span, Q15 + 1);
  }

  lemma BurstGainFalls(p: Params, k: nat, k': nat)
    requires p.Valid() && k <= k'
    ensures BurstGain(p, k') <= BurstGain(p, k)
  {
    if p.flat < k && k' < p.fade {
      var span := p.fade - p.flat;
      var a, b := Q15 * (span - (k' - p.flat)), Q15 * (span - (k - p.flat));
      assert (a / span) * span <= a <= b;
      DivLower(b, span, a / span);
    }
  }

  // ----- concealed samples --------------------------------------------------

  /** `(x * g) >> 15`, an arithmetic shift. */
  function Scaled(x: int, g: nat): int
  {
    x * g / Q15
  }

  /** The crossfade ramp, from the last sample to the repeated one. */
  function Ramp(s: nat, w: nat): (a: nat)
  {
    (s + 1) * Q15 / (w + 1)
  }

  function Blend(last: int, sub: int, a: nat): int
    requires a <= Q15
  {
    (last * (Q15 - a) + sub * a) / Q15
  }

  lemma RampBound(s: nat, w: nat)
    requires s < w
    ensures Ramp(s, w) < Q15
    ensures Ramp(s, w) * (w + 1) <= (s + 1) * Q15
  {
    DivUpper((s + 1) * Q15, w + 1, Q15);
  }

  function TierOf(p: Params, h: History, k: nat): Tier
  {
    if |h| == 0 then Silence
    else if |h| < p.S then HoldLast
    else if k == 0 then RepeatXfade
    else BurstFade
  }

  /** Sample s of the seam: faded in over the first w samples, verbatim after. */
  function Seam(last: int, sub: int, s: nat, w: nat): int
  {
    if s < w then
      RampBound(s, w);
      Blend(last, sub, Ramp(s, w))
    else sub
  }

  /** Sample s of the concealed packet of one channel, before the clamp of `store24`. */
  function Concealed(p: Params, h: History, k: nat, s: nat): int
    requires p.Valid() && s < p.S
  {
    match TierOf(p, h, k)
    case Silence => 0
    case HoldLast => Scaled(h[0], BurstGain(p, k))
    case RepeatXfade => Seam(h[0], h[p.S - 1 - s], s, p.xfade)
    case BurstFade => Scaled(h[p.S - 1 - s], BurstGain(p, k))
  }

  // ----- arithmetic of the two ladders --------------------------------------

  lemma BlendMoves(last: int, sub: int, a: nat)
    requires a <= Q15
    ensures Blend(last, sub, a) == last + (sub - last) * a / Q15
  {
    var d := sub - last;
    assert last * (Q15 - a) + sub * a == last * Q15 + d * a;
    DivModUnique(last * Q15 + d * a, Q15, last + d * a / Q15, d * a % Q15);
  }

  /** Each crossfade sample lies between the last sample and the repeated one. */
  lemma BlendBetween(last: int, sub: int, a: nat)
    requires a <= Q15
    ensures Min(last, sub) <= Blend(last, sub, a) <= (if last < sub then sub else last)
  {
    BlendMoves(last, sub, a);
    var d := sub - last;
    if d >= 0 {
      MulMono(0, d, a);
      assert d * (Q15 - a) >= 0;
      assert d * a <= d * Q15;
      DivLower(d * a, Q15, 0);
      DivUpper(d * a, Q15, d + 1);
    } else {
      assert (-d) * (Q15 - a) >= 0 && (-d) * a >= 0;
      assert d * Q15 <= d * a <= 0;
      DivLower(d * a, Q15, d);
      DivUpper(d * a, Q15, 1);
    }
  }

  /** The seam is the line from the last sample to the repeated one, its weight a and its value each rounded down. */
  lemma SeamIsLine(last: int, sub: int, s: nat, w: nat, a: nat)
    requires s < w && a * (w + 1) <= 32768 * (s + 1) < (a + 1) * (w + 1)
    ensures 32768 * (Seam(last, sub, s, w) - last) <= (sub - last) * a < 32768 * (Seam(last, sub, s, w) - last) + 32768
  {
    var x, v := (s + 1) * Q15, w + 1;
    DivModUnique(x, v, a, x - a * v);
    RampBound(s, w);
    BlendMoves(last, sub, a);
  }

  /**
   Sample s of the seam has moved from the last sample by its share (s + 1) / (w + 1) of the
   step to the repeated one: by no more than that plus one, and short of it by no more than
   two and what the 15-bit weight loses of a step that large.
   */
  lemma SeamShare(last: int, sub: int, s: nat, w: nat)
    requires s < w
    ensures Abs(Seam(last, sub, s, w) - last) * (w + 1) < Abs(sub - last) * (s + 1) + (w + 1)
    ensures Abs(Seam(last, sub, s, w) - last) * (w + 1) > Abs(sub - last) * (s + 1) - (w + 1) * (Abs(sub - last) / 32768 + 2)
  {
    var a, v := Ramp(s, w), w + 1;
    RampBound(s, w);
    assert (s + 1) * Q15 == a * v + (s + 1) * Q15 % v;
    BlendMoves(last, sub, a);
    var d := sub - last;
    ShareOfStep(d, a, d * a / Q15, s + 1, v);
  }

  /** m is d * a / 2^15 rounded down, where a is 2^15 * k / v rounded down. */
  lemma ShareOfStep(d: int, a: nat, m: int, k: nat, v: nat)
    requires v > 0 && a * v <= k * Q15 < a * v + v && m == d * a / Q15
    ensures Abs(m) * v < Abs(d) * k + v
    ensures Abs(m) * v > Abs(d) * k - v * (Abs(d) / Q15 + 2)
  {
    var e := Abs(d);
    assert e * a - Q15 < Abs(m) * Q15 < e * a + Q15 by {
      MulMono(0, e, a);
      if d >= 0 {
        DivLower(d * a, Q15, 0);
      } else {
        assert d * a == -(e * a);
        DivUpper(d * a, Q15, 1);
      }
    }
    ShareAbove(Abs(m), e, a, k, v);
    ShareBelow(Abs(m), e, a, k, v);
  }

  lemma ShareAbove(m: nat, e: nat, a: nat, k: nat, v: nat)
    requires v > 0 && a * v <= k * Q15 && m * Q15 < e * a + Q15
    ensures m * v < e * k + v
  {
    assert (e * a) * v == e * (a * v);
    MulMonoLeft(e, a * v, k * Q15);
    assert e * (k * Q15) == (e * k) * Q15;
    ScaleDown(m, e * a, e * k, v);
  }

  lemma ShareBelow(m: nat, e: nat, a: nat, k: nat, v: nat)
    requires v > 0 && k * Q15 < a * v + v && e * a - Q15 < m * Q15
    ensures m * v > e * k - v * (e / Q15 + 2)
  {
    ScaleUp(m, e * a, v);
    assert (e * a) * v == e * (a * v);
    MulMonoLeft(e, k * Q15, a * v + v);
    assert e * (k * Q15) == (e * k) * Q15 && e * (a * v + v) == e * (a * v) + e * v;
    WeightLoss(e, v, e / Q15);
  }

  lemma ScaleUp(m: nat, x: int, v: nat)
    requires v > 0 && x - Q15 < m * Q15
    ensures (m * v) * Q15 + Q15 * v > x * v
  {
    MulMono(1, m * Q15 - x + Q15, v);
    assert (m * Q15 - x + Q15) * v == (m * v) * Q15 - x * v + Q15 * v;
  }

  lemma WeightLoss(e: nat, v: nat, q: nat)
    requires q == e / Q15
    ensures e * v + Q15 * v <= (v * (q + 2)) * Q15
  {
    MulMono(e, (q + 1) * Q15, v);
    assert ((q + 1) * Q15) * v + Q15 * v == (v * (q + 2)) * Q15;
  }

  /** The seam only ever moves on towards the repeated sample, and from w on is there. */
  lemma SeamMonotone(last: int, sub: int, s: nat, s': nat, w: nat)
    requires s <= s'
    ensures last <= sub ==> last <= Seam(last, sub, s, w) <= Seam(last, sub, s', w) <= sub
    ensures last >= sub ==> last >= Seam(last, sub, s, w) >= Seam(last, sub, s', w) >= sub
    ensures s >= w ==> Seam(last, sub, s, w) == sub
  {
    if s < w {
      RampBound(s, w);
      BlendBetween(last, sub, Ramp(s, w));
    }
    if s' < w {
      RampBound(s', w);
      BlendBetween(last, sub, Ramp(s', w));
      RampRises(s, s', w);
      BlendRises(last, sub, Ramp(s, w), Ramp(s', w));
    }
  }

  lemma RampRises(s: nat, s': nat, w: nat)
    requires s <= s' < w
    ensures Ramp(s, w) <= Ramp(s', w) < Q15
  {
    RampBound(s, w);
    RampBound(s', w);
    DivLower((s' + 1) * Q15, w + 1, Ramp(s, w));
  }

  lemma BlendRises(last: int, sub: int, a: nat, a': nat)
    requires a <= a' <= Q15
    ensures last <= sub ==> Blend(last, sub, a) <= Blend(last, sub, a')
    ensures last >= sub ==> Blend(last, sub, a) >= Blend(last, sub, a')
  {
    BlendMoves(last, sub, a);
    BlendMoves(last, sub, a');
    var d := sub - last;
    if d >= 0 {
      MulMonoLeft(d, a, a');
      DivLower(d * a', Q15, d * a / Q15);
    } else {
      MulMonoLeft(-d, a, a');
      assert (-d) * a == -(d * a) && (-d) * a' == -(d * a');
      DivLower(d * a, Q15, d * a' / Q15);
    }
  }

  lemma MulMonoLeft(c: nat, a: int, b: int)
    requires a <= b
    ensures c * a <= c * b
  {
    MulMono(a, b, c);
  }

  lemma ScaleDown(m: nat, x: int, y: int, v: nat)
    requires v > 0 && m * Q15 < x + Q15 && x * v <= y * Q15
    ensures m * v < y + v
  {
    assert (m * Q15) * v < (x + Q15) * v by {
      assert (x + Q15 - m * Q15) * v >= v by { MulMono(1, x + Q15 - m * Q15, v); }
    }
    assert (m * v) * Q15 == (m * Q15) * v;
    assert (x + Q15) * v == x * v + Q15 * v;
  }

  lemma ScaledShrinks(x: int, g: nat, g': nat)
    requires g' <= g <= Q15
    ensures Abs(Scaled(x, g')) <= Abs(Scaled(x, g)) <= Abs(x)
    ensures Scaled(x, 0) == 0
    ensures x >= 0 ==> Scaled(x, g) >= 0
    ensures x <= 0 ==> Scaled(x, g) <= 0
  {
    if x >= 0 {
      MulMonoLeft(x, g', g); MulMonoLeft(x, g, Q15); MulMonoLeft(x, 0, g');
      DivLower(x * g, Q15, x * g' / Q15);
      DivUpper(x * g, Q15, x + 1);
    } else {
      MulMonoLeft(-x, g', g); MulMonoLeft(-x, g, Q15); MulMonoLeft(-x, 0, g');
      assert x * g == -((-x) * g) && x * g' == -((-x) * g') && x * Q15 == -((-x) * Q15);
      DivLower(x * g', Q15, x * g / Q15);
      DivLower(x * g, Q15, x);
      DivUpper(x * g', Q15, 1);
      DivUpper(x * g, Q15, 1);
    }
  }

  /** A scaled sample is x * g / 2^15 rounded down. */
  lemma ScaledIsFloor(x: int, g: nat)
    ensures 32768 * Scaled(x, g) <= x * g < 32768 * Scaled(x, g) + 32768
  {
  }

  /** With no history a fill is zero; with less than a packet of it, the newest sample under the burst's gain. */
  lemma ShortHistory(p: Params, h: History, k: nat, s: nat)
    requires p.Valid() && s < p.S && |h| < p.S
    ensures h == [] ==> Concealed(p, h, k, s) == 0
    ensures h != [] ==>
              var y := Concealed(p, h, k, s); 32768 * y <= h[0] * BurstGain(p, k) < 32768 * y + 32768
  {
    if h != [] { ScaledIsFloor(h[0], BurstGain(p, k)); }
  }

  /** No concealed sample leaves the 24-bit range: the clamp in `store24` never acts. */
  lemma ConcealedInRange(p: Params, h: History, k: nat, s: nat)
    requires p.Valid() && s < p.S
    ensures SMIN <= Concealed(p, h, k, s) <= SMAX
  {
    match TierOf(p, h, k)
    case Silence =>
    case HoldLast => ScaledShrinks(h[0], BurstGain(p, k), 0);
    case RepeatXfade =>
      if s < p.xfade {
        RampBound(s, p.xfade);
        BlendBetween(h[0], h[p.S - 1 - s], Ramp(s, p.xfade));
      }
    case BurstFade => ScaledShrinks(h[p.S - 1 - s], BurstGain(p, k), 0);
  }

  /** Inside a burst no sample grows louder from one concealed packet to a later one. */
  lemma BurstFades(p: Params, h: History, k: nat, k': nat, s: nat)
    requires p.Valid() && s < p.S && 1 <= k <= k'
    ensures Abs(Concealed(p, h, k', s)) <= Abs(Concealed(p, h, k, s))
  {
    BurstGainFalls(p, k, k');
    if |h| > 0 {
      ScaledShrinks(if |h| < p.S then h[0] else h[p.S - 1 - s], BurstGain(p, k), BurstGain(p, k'));
    }
  }
}
