/** The timeline a run of raw frames makes: gap-free stamps, exact content, and fill that depends on the last frame alone. */
module Timeline {
  import opened Words
  import opened Sample24
  import opened Reac
  import opened ReacDecode
  import opened MediaClock
  import opened PlcSpec
  import opened Plc
  import opened PacketizerRuns
  import opened PipelineSpec

  /** The input side over a run of raw frames, and the timeline frames it brings. */
  ghost function RunFront(mode: Mode, p: Params, f: Front, raws: seq<Bytes>): (r: (Front, seq<PcmEvent>))
    requires FrontOk(mode, p, f)
    ensures FrontOk(mode, p, r.0) && Events(mode, r.1)
  {
    if raws == [] then (f, [])
    else
      var n := |raws| - 1;
      var (f', es) := RunFront(mode, p, f, raws[..n]);
      var (f'', more) := FrontStep(mode, p, f', raws[n]);
      (f'', es + more)
  }

  /** The frames that pass inspection, decoded, in arrival order. */
  ghost function Accepted(mode: Mode, raws: seq<Bytes>): seq<Bytes>
    requires mode.Fits()
  {
    if raws == [] then []
    else
      var n := |raws| - 1;
      Accepted(mode, raws[..n]) + if Inspect(raws[n]).valid then [Decoded(raws[n], mode)] else []
  }

  /** Their counters. */
  function AcceptedCounters(raws: seq<Bytes>): seq<u16>
  {
    if raws == [] then []
    else
      var n := |raws| - 1;
      AcceptedCounters(raws[..n]) + if Inspect(raws[n]).valid then [Inspect(raws[n]).counter] else []
  }

  /** The frames of a timeline that are not fill. */
  function Reals(es: seq<PcmEvent>): seq<Bytes>
  {
    if es == [] then []
    else
      var n := |es| - 1;
      Reals(es[..n]) + if es[n].concealed then [] else [es[n].pcm]
  }

  function Concealments(es: seq<PcmEvent>): (n: nat)
    ensures n == |es| - |Reals(es)|
  {
    if es == [] then 0
    else Concealments(es[..|es| - 1]) + if es[|es| - 1].concealed then 1 else 0
  }

  lemma {:induction false} RealsAfterFills(es: seq<PcmEvent>, fills: seq<PcmEvent>, e: PcmEvent)
    requires forall i :: 0 <= i < |fills| ==> fills[i].concealed
    requires !e.concealed
    ensures Reals(es + (fills + [e])) == Reals(es) + [e.pcm]
  {
    var all := es + (fills + [e]);
    assert all[..|all| - 1] == es + fills;
    SkipFills(es, fills);
  }

  lemma {:induction false} SkipFills(es: seq<PcmEvent>, fills: seq<PcmEvent>)
    requires forall i :: 0 <= i < |fills| ==> fills[i].concealed
    ensures Reals(es + fills) == Reals(es)
  {
    if fills == [] {
      assert es + fills == es;
    } else {
      var n := |fills| - 1;
      SkipFills(es, fills[..n]);
      assert (es + fills)[..|es| + n] == es + fills[..n];
    }
  }

  // ----- time -----------------------------------------------------------------

  /** Frame k of the timeline is stamped with slot k, whether received or filled in. */
  ghost predicate GapFree(es: seq<PcmEvent>, anchor: u32, sps: nat)
  {
    forall k :: 0 <= k < |es| ==> es[k].ts == SlotTs(anchor, sps, k)
  }

  /** What every run keeps of the clock, the counters and the stamps. */
  ghost predicate OnTime(mode: Mode, anchor: u32, f: Front, es: seq<PcmEvent>)
  {
    && f.clock.anchor == anchor && f.clock.sps == mode.sps
    && (f.clock.started <==> es != [])
    && (es != [] ==> f.clock.ts == SlotTs(anchor, mode.sps, |es| - 1))
    && GapFree(es, anchor, mode.sps)
    && f.lossTotal == f.clock.lost
  }

  /** The i-th of n fills before the frame in slot `last` stands in slot last - (n - i). */
  lemma FillSlot(anchor: u32, sps: nat, last: int, back: int)
    ensures Before(SlotTs(anchor, sps, last), back, sps) == SlotTs(anchor, sps, last - back)
  {
    SlotTsAdd(anchor, sps, last, -back);
    assert (-back) * sps == -(back * sps);
  }

  /** Where the clock stands after one more accepted frame. */
  lemma NextSlot(mode: Mode, anchor: u32, f: Front, es: seq<PcmEvent>, counter: u16)
    requires OnTime(mode, anchor, f, es)
    ensures var (c, step) := OnCounter(f.clock, counter);
            && c.started && c.anchor == anchor && c.sps == mode.sps && c.lost == f.clock.lost + step.silence
            && c.ts == step.ts == SlotTs(anchor, mode.sps, |es| + step.silence)
            && (es == [] ==> step.silence == 0)
  {
    if es == [] {
      FirstSlot(anchor, mode.sps);
    } else {
      StepAdvances(f.clock, counter, |es| - 1);
    }
  }

  /** Fills and the frame after them carry on where the timeline stood. */
  lemma FillsGapFree(p: Params, hs: Histories, step: Step, anchor: u32, es: seq<PcmEvent>, e: PcmEvent)
    requires p.Valid() && |hs| == p.nch && GapFree(es, anchor, p.S)
    requires e.ts == step.ts == SlotTs(anchor, p.S, |es| + step.silence)
    ensures GapFree(es + (FillEvents(p, hs, step, step.silence) + [e]), anchor, p.S)
  {
    var fills := FillEvents(p, hs, step, step.silence);
    var all := es + (fills + [e]);
    forall k | 0 <= k < |all| ensures all[k].ts == SlotTs(anchor, p.S, k) {
      if |es| <= k < |es| + step.silence {
        assert all[k] == FillEvent(p, hs, step, k - |es|);
        FillSlot(anchor, p.S, |es| + step.silence, step.silence - (k - |es|));
      }
    }
  }

  lemma StepOnTime(mode: Mode, p: Params, anchor: u32, f: Front, es: seq<PcmEvent>, raw: Bytes)
    requires FrontOk(mode, p, f) && OnTime(mode, anchor, f, es)
    ensures var (f', more) := FrontStep(mode, p, f, raw); OnTime(mode, anchor, f', es + more)
  {
    if Inspect(raw).valid {
      var counter := Inspect(raw).counter;
      var step := OnCounter(f.clock, counter).1;
      NextSlot(mode, anchor, f, es, counter);
      FillsGapFree(p, f.hists, step, anchor, es, PcmEvent(Decoded(raw, mode), step.ts, false));
    } else {
      assert es + [] == es;
    }
  }

  /**
   Gap-free output: over any run of frames, lost, repeated, late or malformed, the
   timeline frame k carries timestamp anchor + k * sps, and only losses are filled.
   */
  lemma {:induction false} TimelineIsGapFree(mode: Mode, p: Params, anchor: u32, raws: seq<Bytes>)
    requires Geometry(mode, p)
    ensures var (f, es) := RunFront(mode, p, FreshFront(mode, anchor), raws);
            OnTime(mode, anchor, f, es)
  {
    if raws != [] {
      var n := |raws| - 1;
      TimelineIsGapFree(mode, p, anchor, raws[..n]);
      var (f, es) := RunFront(mode, p, FreshFront(mode, anchor), raws[..n]);
      StepOnTime(mode, p, anchor, f, es, raws[n]);
    }
  }

  /** The frames received appear in the timeline once each, in arrival order; everything else is fill, one frame a loss. */
  lemma {:induction false} TimelineKeepsFrames(mode: Mode, p: Params, f: Front, raws: seq<Bytes>)
    requires FrontOk(mode, p, f)
    ensures var (f', es) := RunFront(mode, p, f, raws);
            && Reals(es) == Accepted(mode, raws)
            && Concealments(es) == f'.lossTotal - f.lossTotal
            && f'.malformed - f.malformed == |raws| - |Accepted(mode, raws)|
            && |es| == |Accepted(mode, raws)| + f'.lossTotal - f.lossTotal
  {
    if raws != [] {
      var n := |raws| - 1;
      TimelineKeepsFrames(mode, p, f, raws[..n]);
      var (f', es) := RunFront(mode, p, f, raws[..n]);
      var raw := raws[n];
      if Inspect(raw).valid {
        var step := OnCounter(f'.clock, Inspect(raw).counter).1;
        var e := PcmEvent(Decoded(raw, mode), step.ts, false);
        RealsAfterFills(es, FillEvents(p, f'.hists, step, step.silence), e);
      } else {
        assert es + [] == es;
      }
    }
  }

  /** The pipeline's clock sees exactly the counters of the accepted frames. */
  lemma {:induction false} ClockSeesAccepted(mode: Mode, p: Params, f: Front, raws: seq<Bytes>)
    requires FrontOk(mode, p, f)
    ensures RunFront(mode, p, f, raws).0.clock == RunClock(f.clock, AcceptedCounters(raws))
  {
    if raws != [] {
      var n := |raws| - 1;
      ClockSeesAccepted(mode, p, f, raws[..n]);
      var before := AcceptedCounters(raws[..n]);
      if Inspect(raws[n]).valid {
        assert AcceptedCounters(raws)[..|before|] == before;
      } else {
        assert AcceptedCounters(raws) == before;
      }
    }
  }

  // ----- concealment ----------------------------------------------------------

  /** The history's newest samples are this packet's. */
  ghost predicate Recalls(p: Params, hs: Histories, pcm: Bytes)
  {
    && |hs| == p.nch && IsPlanar(pcm, p.nch, p.S)
    && forall c :: 0 <= c < p.nch ==> RecallsChannel(p, hs[c], pcm, c)
  }

  ghost predicate RecallsChannel(p: Params, h: History, pcm: Bytes, c: nat)
    requires c < p.nch && IsPlanar(pcm, p.nch, p.S)
  {
    |h| >= p.S && forall s :: 0 <= s < p.S ==> h[p.S - 1 - s] == ChannelSamples(pcm, p.nch, p.S, c)[s]
  }

  lemma ObservedRecalls(p: Params, hs: Histories, pcm: Bytes)
    requires p.Valid() && |hs| == p.nch && IsPlanar(pcm, p.nch, p.S)
    ensures Recalls(p, Observed(p, hs, pcm), pcm)
  {
    forall c | 0 <= c < p.nch ensures RecallsChannel(p, Observed(p, hs, pcm)[c], pcm, c) {
      PacketReadsBack(hs[c], ChannelSamples(pcm, p.nch, p.S, c));
    }
  }

  /** Sample s of channel c of the k-th fill after a packet: the seam first, then the fading repeat. */
  ghost function RepeatedSample(p: Params, pcm: Bytes, k: nat, c: nat, s: nat): int
    requires p.Valid() && IsPlanar(pcm, p.nch, p.S) && c < p.nch && s < p.S
  {
    var xs := ChannelSamples(pcm, p.nch, p.S, c);
    if k == 0 then Seam(xs[p.S - 1], xs[s], s, p.xfade) else Scaled(xs[s], BurstGain(p, k))
  }

  /** The k-th fill after a packet, from that packet alone. */
  ghost function Repeated(p: Params, pcm: Bytes, k: nat): (r: Bytes)
    requires p.Valid() && IsPlanar(pcm, p.nch, p.S)
    ensures IsPlanar(r, p.nch, p.S)
    ensures forall c, s :: 0 <= c < p.nch && 0 <= s < p.S ==>
              PlanarAt(r, p.nch, p.S, c, s) == Store24(RepeatedSample(p, pcm, k, c, s))
  {
    Block(p.nch, p.S, (c: nat, s: nat) requires p.Valid() && IsPlanar(pcm, p.nch, p.S) && c < p.nch && s < p.S =>
      Store24(RepeatedSample(p, pcm, k, c, s)))
  }

  /**
   What stands in the k-th fill after a packet, sample by sample: first the seam from the
   packet's last sample into its repeat, then the packet again under the burst's gain.
   */
  lemma FillSample(p: Params, pcm: Bytes, k: nat, c: nat, s: nat)
    requires p.Valid() && IsPlanar(pcm, p.nch, p.S) && c < p.nch && s < p.S
    ensures var x := Load24(PlanarAt(pcm, p.nch, p.S, c, s)); var last := Load24(PlanarAt(pcm, p.nch, p.S, c, p.S - 1));
            var y := Load24(PlanarAt(Repeated(p, pcm, k), p.nch, p.S, c, s));
            && (k == 0 ==> y == Seam(last, x, s, p.xfade))
            && (k > 0 ==> 32768 * y <= x * BurstGain(p, k) < 32768 * y + 32768)
  {
    var xs := ChannelSamples(pcm, p.nch, p.S, c);
    LoadStored(RepeatedSample(p, pcm, k, c, s));
    if k == 0 {
      SeamMonotone(xs[p.S - 1], xs[s], s, s, p.xfade);
    } else {
      ScaledIsFloor(xs[s], BurstGain(p, k));
      ScaledShrinks(xs[s], BurstGain(p, k), 0);
    }
  }

  lemma RecalledFill(p: Params, hs: Histories, pcm: Bytes, k: nat)
    requires p.Valid() && Recalls(p, hs, pcm)
    ensures Fill(p, hs, k) == Repeated(p, pcm, k)
  {
    forall c, s | 0 <= c < p.nch && 0 <= s < p.S
      ensures PlanarAt(Fill(p, hs, k), p.nch, p.S, c, s) == PlanarAt(Repeated(p, pcm, k), p.nch, p.S, c, s)
    {
      assert RecallsChannel(p, hs[c], pcm, c);
      assert hs[c][p.S - 1 - (p.S - 1)] == ChannelSamples(pcm, p.nch, p.S, c)[p.S - 1];
      assert Concealed(p, hs[c], k, s) == RepeatedSample(p, pcm, k, c, s);
    }
    PlanarEqual(Fill(p, hs, k), Repeated(p, pcm, k), p.nch, p.S);
  }

  /** No channel is ever short of history once a packet is recalled: only the first two tiers are reached. */
  lemma {:induction false} RecalledTier(p: Params, hs: Histories, pcm: Bytes, k: nat, n: nat)
    requires p.Valid() && Recalls(p, hs, pcm) && 0 < n <= p.nch
    ensures WorstTier(p, hs, k, n) == if k == 0 then RepeatXfade else BurstFade
  {
    assert RecallsChannel(p, hs[n - 1], pcm, n - 1);
    if n > 1 { RecalledTier(p, hs, pcm, k, n - 1); }
  }

  /** Frame k is the fill that its distance from the real frame j asks for, with nothing but fill between them. */
  ghost predicate FilledFrom(p: Params, es: seq<PcmEvent>, j: nat, k: nat)
    requires p.Valid() && j < k < |es|
  {
    && !es[j].concealed && IsPlanar(es[j].pcm, p.nch, p.S)
    && (forall m :: j < m <= k ==> es[m].concealed)
    && es[k].pcm == Repeated(p, es[j].pcm, k - j - 1)
  }

  /** Every concealed frame repeats the last real one before it. */
  ghost predicate Explained(p: Params, es: seq<PcmEvent>)
    requires p.Valid()
  {
    forall k :: 0 <= k < |es| && es[k].concealed ==> exists j :: 0 <= j < k && FilledFrom(p, es, j, k)
  }

  /** The tier on show: none before the first loss, then the seam or the burst. */
  ghost predicate TierShown(f: Front)
  {
    if f.lossTotal == 0 then f.lastTier == None else f.lastTier in {Some(RepeatXfade), Some(BurstFade)}
  }

  /** Once a frame is accepted, the timeline ends with it and the history recalls it. */
  ghost predicate LastRecalled(p: Params, f: Front, es: seq<PcmEvent>)
  {
    && (f.clock.started <==> es != [])
    && (es != [] ==> !es[|es| - 1].concealed && Recalls(p, f.hists, es[|es| - 1].pcm))
  }

  /** What every run keeps of the concealment history. */
  ghost predicate Concealing(p: Params, f: Front, es: seq<PcmEvent>)
    requires p.Valid()
  {
    && LastRecalled(p, f, es)
    && Explained(p, es)
    && TierShown(f)
  }

  /** The events of one more accepted frame, after a real frame in place |es| - 1. */
  lemma StepExplained(p: Params, es: seq<PcmEvent>, hs: Histories, step: Step, e: PcmEvent)
    requires p.Valid() && Explained(p, es) && |hs| == p.nch && !e.concealed
    requires step.silence > 0 ==> es != [] && !es[|es| - 1].concealed && Recalls(p, hs, es[|es| - 1].pcm)
    ensures Explained(p, es + (FillEvents(p, hs, step, step.silence) + [e]))
  {
    var all := es + (FillEvents(p, hs, step, step.silence) + [e]);
    forall k | 0 <= k < |all| && all[k].concealed
      ensures exists j :: 0 <= j < k && FilledFrom(p, all, j, k)
    {
      if k < |es| {
        var j :| 0 <= j < k && FilledFrom(p, es, j, k);
        assert FilledFrom(p, all, j, k);
      } else {
        var i := k - |es|;
        RecalledFill(p, hs, es[|es| - 1].pcm, i);
        assert all[k] == FillEvent(p, hs, step, i);
        assert FilledFrom(p, all, |es| - 1, k);
      }
    }
  }

  lemma StepRecalls(mode: Mode, p: Params, f: Front, es: seq<PcmEvent>, raw: Bytes)
    requires FrontOk(mode, p, f) && Inspect(raw).valid
    ensures var (f', more) := FrontStep(mode, p, f, raw); LastRecalled(p, f', es + more)
  {
    ObservedRecalls(p, f.hists, Decoded(raw, mode));
  }

  lemma TierAfterGap(p: Params, f: Front, pcm: Bytes, n: nat)
    requires p.Valid() && p.nch > 0 && Recalls(p, f.hists, pcm)
    ensures TierAt(p, f, n) == if n == 0 then f.lastTier else if n == 1 then Some(RepeatXfade) else Some(BurstFade)
  {
    if n > 0 { RecalledTier(p, f.hists, pcm, n - 1, p.nch); }
  }

  /** The tier an accepted frame leaves on show. */
  lemma StepTier(mode: Mode, p: Params, f: Front, es: seq<PcmEvent>, raw: Bytes)
    requires FrontOk(mode, p, f) && LastRecalled(p, f, es) && Inspect(raw).valid
    ensures var f' := FrontStep(mode, p, f, raw).0;
            var lost := f'.lossTotal - f.lossTotal;
            f'.lastTier == if lost == 0 then f.lastTier else if lost == 1 then Some(RepeatXfade) else Some(BurstFade)
  {
    if es != [] {
      TierAfterGap(p, f, es[|es| - 1].pcm, OnCounter(f.clock, Inspect(raw).counter).1.silence);
    }
  }

  lemma StepConceals(mode: Mode, p: Params, f: Front, es: seq<PcmEvent>, raw: Bytes)
    requires FrontOk(mode, p, f) && Concealing(p, f, es)
    ensures var (f', more) := FrontStep(mode, p, f, raw); Concealing(p, f', es + more)
  {
    if Inspect(raw).valid {
      var step := OnCounter(f.clock, Inspect(raw).counter).1;
      StepRecalls(mode, p, f, es, raw);
      StepTier(mode, p, f, es, raw);
      StepExplained(p, es, f.hists, step, PcmEvent(Decoded(raw, mode), step.ts, false));
    } else {
      assert es + [] == es;
    }
  }

  /**
   Concealment in closed form: in any run the i-th fill of a gap is a fixed function
   of i and of the last packet received before the gap; hold-last and cold-start
   silence are never reached.
   */
  lemma {:induction false} RunConceals(mode: Mode, p: Params, anchor: u32, raws: seq<Bytes>)
    requires Geometry(mode, p)
    ensures var (f, es) := RunFront(mode, p, FreshFront(mode, anchor), raws);
            Concealing(p, f, es)
  {
    if raws != [] {
      var n := |raws| - 1;
      RunConceals(mode, p, anchor, raws[..n]);
      var (f, es) := RunFront(mode, p, FreshFront(mode, anchor), raws[..n]);
      StepConceals(mode, p, f, es, raws[n]);
    }
  }

  /** The tier a gap leaves on show: the seam after a single loss, the burst after more. */
  lemma GapTier(mode: Mode, p: Params, anchor: u32, raws: seq<Bytes>, raw: Bytes)
    requires Geometry(mode, p) && Inspect(raw).valid
    ensures var f := RunFront(mode, p, FreshFront(mode, anchor), raws).0;
            var f' := FrontStep(mode, p, f, raw).0;
            var lost := f'.lossTotal - f.lossTotal;
            f'.lastTier == if lost == 0 then f.lastTier else if lost == 1 then Some(RepeatXfade) else Some(BurstFade)
  {
    RunConceals(mode, p, anchor, raws);
    var (f, es) := RunFront(mode, p, FreshFront(mode, anchor), raws);
    StepTier(mode, p, f, es, raw);
  }

  // ----- history over runs ------------------------------------------------------

  ghost predicate Packets(p: Params, pcms: seq<Bytes>)
  {
    forall k :: 0 <= k < |pcms| ==> IsPlanar(pcms[k], p.nch, p.S)
  }

  /** Channel c of a run of packets, end to end. */
  ghost function ChannelRun(p: Params, pcms: seq<Bytes>, c: nat): seq<s24>
    requires c < p.nch && Packets(p, pcms)
  {
    if pcms == [] then []
    else
      var last := pcms[|pcms| - 1];
      assert IsPlanar(last, p.nch, p.S);
      ChannelRun(p, pcms[..|pcms| - 1], c) + ChannelSamples(last, p.nch, p.S, c)
  }

  lemma {:induction false} ChannelRunLength(p: Params, pcms: seq<Bytes>, c: nat)
    requires c < p.nch && Packets(p, pcms)
    ensures |ChannelRun(p, pcms, c)| == |pcms| * p.S
  {
    if pcms != [] {
      ChannelRunLength(p, pcms[..|pcms| - 1], c);
      assert |pcms| * p.S == (|pcms| - 1) * p.S + p.S;
    }
  }

  lemma {:induction false} AcceptedPackets(mode: Mode, p: Params, raws: seq<Bytes>)
    requires Geometry(mode, p)
    ensures Packets(p, Accepted(mode, raws))
  {
    if raws != [] { AcceptedPackets(mode, p, raws[..|raws| - 1]); }
  }

  lemma {:induction false} HistoryPushes(mode: Mode, p: Params, anchor: u32, raws: seq<Bytes>, c: nat)
    requires Geometry(mode, p) && c < p.nch
    requires Packets(p, Accepted(mode, raws))
    ensures RunFront(mode, p, FreshFront(mode, anchor), raws).0.hists[c] == PushAll([], ChannelRun(p, Accepted(mode, raws), c))
  {
    if raws != [] {
      var n := |raws| - 1;
      AcceptedPackets(mode, p, raws[..n]);
      HistoryPushes(mode, p, anchor, raws[..n], c);
      if Inspect(raws[n]).valid {
        var before, pcm := Accepted(mode, raws[..n]), Decoded(raws[n], mode);
        assert Accepted(mode, raws)[..|before|] == before;
        PushAllAppend([], ChannelRun(p, before, c), ChannelSamples(pcm, p.nch, p.S, c));
      } else {
        assert Accepted(mode, raws) == Accepted(mode, raws[..n]);
      }
    }
  }

  /**
   The history ring over any run: channel c remembers the newest 40 of all its samples
   received, newest first, and so every channel remembers equally many.
   */
  lemma HistoryIsNewest(mode: Mode, p: Params, anchor: u32, raws: seq<Bytes>, c: nat)
    requires Geometry(mode, p) && c < p.nch
    ensures Packets(p, Accepted(mode, raws))
    ensures var xs := ChannelRun(p, Accepted(mode, raws), c);
            var h := RunFront(mode, p, FreshFront(mode, anchor), raws).0.hists[c];
            && h == Reversed(xs)[..Min(40, |xs|)]
            && |h| == Min(40, |Accepted(mode, raws)| * p.S)
  {
    AcceptedPackets(mode, p, raws);
    HistoryPushes(mode, p, anchor, raws, c);
    var xs := ChannelRun(p, Accepted(mode, raws), c);
    ChannelRunLength(p, Accepted(mode, raws), c);
    PushAllKeepsNewest([], xs);
    assert Reversed(xs) + [] == Reversed(xs);
  }

  // ----- silence --------------------------------------------------------------

  /** Every sample of the packet is digital silence. */
  ghost predicate Silent(p: Params, pcm: Bytes)
    requires IsPlanar(pcm, p.nch, p.S)
  {
    forall c, s :: 0 <= c < p.nch && 0 <= s < p.S ==> PlanarAt(pcm, p.nch, p.S, c, s) == [0, 0, 0]
  }

  lemma ZeroBytes(x: int)
    ensures Store24(x) == [0, 0, 0] <==> x == 0
  {
    LoadStored(x);
    if Store24(x) == [0, 0, 0] { assert Load24([0, 0, 0]) == 0; }
  }

  lemma ScaledZero(x: int, g: nat)
    ensures Scaled(x, g) == 0 <==> 0 <= x * g < Q15
  {
    if 0 <= x * g < Q15 {
      DivModUnique(x * g, Q15, 0, x * g);
    }
  }

  /** Sample s of the k-th fill comes to zero: in the seam by its blend, in the burst by its gain. */
  ghost predicate Inaudible(p: Params, xs: seq<s24>, k: nat, s: nat)
    requires p.Valid() && |xs| == p.S && s < p.S
  {
    if k > 0 then 0 <= xs[s] * BurstGain(p, k) < Q15
    else if s < p.xfade then
      RampBound(s, p.xfade);
      var a := Ramp(s, p.xfade);
      0 <= xs[p.S - 1] * (Q15 - a) + xs[s] * a < Q15
    else xs[s] == 0
  }

  lemma ZeroSample(p: Params, pcm: Bytes, k: nat, c: nat, s: nat)
    requires p.Valid() && IsPlanar(pcm, p.nch, p.S) && c < p.nch && s < p.S
    ensures PlanarAt(Repeated(p, pcm, k), p.nch, p.S, c, s) == [0, 0, 0]
       <==> Inaudible(p, ChannelSamples(pcm, p.nch, p.S, c), k, s)
  {
    var xs := ChannelSamples(pcm, p.nch, p.S, c);
    ZeroBytes(RepeatedSample(p, pcm, k, c, s));
    if k > 0 {
      ScaledZero(xs[s], BurstGain(p, k));
    } else if s < p.xfade {
      RampBound(s, p.xfade);
      var a := Ramp(s, p.xfade);
      ScaledZero(xs[p.S - 1] * (Q15 - a) + xs[s] * a, 1);
    }
  }

  /** When a fill is silent, exactly: for any packet and any place in the gap, when every one of its samples comes to zero. */
  lemma FillSilentIff(p: Params, pcm: Bytes, k: nat)
    requires p.Valid() && IsPlanar(pcm, p.nch, p.S)
    ensures Silent(p, Repeated(p, pcm, k))
       <==> forall c, s :: 0 <= c < p.nch && 0 <= s < p.S ==> Inaudible(p, ChannelSamples(pcm, p.nch, p.S, c), k, s)
  {
    var r := Repeated(p, pcm, k);
    forall c, s | 0 <= c < p.nch && 0 <= s < p.S
      ensures PlanarAt(r, p.nch, p.S, c, s) == [0, 0, 0] <==> Inaudible(p, ChannelSamples(pcm, p.nch, p.S, c), k, s)
    {
      ZeroSample(p, pcm, k, c, s);
    }
  }

  /** A sample the burst keeps audible for as long as its gain is above zero. */
  predicate Loud(x: s24)
  {
    x < 0 || x >= 32768
  }

  lemma LoudSurvives(x: s24, g: nat)
    requires Loud(x)
    ensures Scaled(x, g) == 0 <==> g == 0
  {
    ScaledZero(x, g);
    var y: int := x;
    if g > 0 {
      if y < 0 { MulMono(1, g, -y); } else { MulMono(1, g, y); }
    }
  }

  /**
   Never before the fade is over, for a packet with one loud sample: the k-th fill of a
   burst is then all zeros exactly when the fade has run out. With a span of at most 2^15
   packets that is from `fade` losses on; a longer one rounds to zero a little earlier.
   */
  lemma BurstSilentIffFaded(p: Params, pcm: Bytes, k: nat, c: nat, s: nat)
    requires p.Valid() && IsPlanar(pcm, p.nch, p.S) && 1 <= k
    requires c < p.nch && s < p.S && Loud(ChannelSamples(pcm, p.nch, p.S, c)[s])
    ensures Silent(p, Repeated(p, pcm, k)) <==> Faded(p, k)
    ensures k >= p.fade ==> Faded(p, k)
    ensures p.fade - p.flat <= Q15 ==> (Faded(p, k) <==> k >= p.fade)
  {
    var g := BurstGain(p, k);
    GainZero(p, k);
    var x := ChannelSamples(pcm, p.nch, p.S, c)[s];
    LoudSurvives(x, g);
    ZeroBytes(Scaled(x, g));
    assert PlanarAt(Repeated(p, pcm, k), p.nch, p.S, c, s) == Store24(Scaled(x, g));
    if Faded(p, k) { FadedIsSilent(p, pcm, k); }
  }

  /** The gain of the k-th fill, on its line from 2^15 at `flat` to 0 at `fade`, has rounded to zero. */
  predicate Faded(p: Params, k: nat)
  {
    k > p.flat && Q15 * (p.fade - k) < p.fade - p.flat
  }

  lemma GainZero(p: Params, k: nat)
    requires p.Valid()
    ensures BurstGain(p, k) == 0 <==> Faded(p, k)
  {
    if p.flat < k < p.fade {
      var a, d := Q15 * (p.fade - k), p.fade - p.flat;
      if a < d { SmallDiv(a, d); } else { DivLower(a, d, 1); }
    }
  }

  lemma SmallDiv(a: nat, d: nat)
    requires a < d
    ensures a / d == 0
  {
    DivModUnique(a, d, 0, a);
  }

  /** Once the fade has run out every fill is digital silence, whatever was playing. */
  lemma FadedIsSilent(p: Params, pcm: Bytes, k: nat)
    requires p.Valid() && IsPlanar(pcm, p.nch, p.S) && Faded(p, k)
    ensures Silent(p, Repeated(p, pcm, k))
  {
    GainZero(p, k);
    forall c, s | 0 <= c < p.nch && 0 <= s < p.S
      ensures PlanarAt(Repeated(p, pcm, k), p.nch, p.S, c, s) == [0, 0, 0]
    {
      var x := ChannelSamples(pcm, p.nch, p.S, c)[s];
      assert x * 0 == 0;
      ScaledZero(x, 0);
      ZeroBytes(0);
      assert RepeatedSample(p, pcm, k, c, s) == Scaled(x, 0);
    }
  }

  /** The quietest packet, under the default tuning: silence 159 losses before the fade has run out. */
  lemma QuietBurstIsSilent(p: Params, pcm: Bytes)
    requires p.Valid() && p == Tuned(12, p.nch, 0, 0) && IsPlanar(pcm, p.nch, p.S)
    requires forall c, s :: 0 <= c < p.nch && 0 <= s < p.S ==> PlanarAt(pcm, p.nch, p.S, c, s) == [1, 0, 0]
    ensures Silent(p, Repeated(p, pcm, 41)) && !Faded(p, 41) && p.fade == 200
  {
    assert BurstGain(p, 41) == 32768 * 159 / 160 < Q15;
    forall c, s | 0 <= c < p.nch && 0 <= s < p.S ensures Inaudible(p, ChannelSamples(pcm, p.nch, p.S, c), 41, s) {
      assert ChannelSamples(pcm, p.nch, p.S, c)[s] == Load24([1, 0, 0]) == 1;
    }
    FillSilentIff(p, pcm, 41);
  }
}
