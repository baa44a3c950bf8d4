/** What a run of raw frames sends, on the AES67 path and on the Dante path. */
module PipelineRuns {
  import opened Words
  import opened Sample24
  import opened Reac
  import opened RtpL24
  import opened MediaClock
  import opened PlcSpec
  import opened Packetizer
  import opened PacketizerRuns
  import opened PipelineSpec
  import opened Timeline
  import opened PtpClock

  // ----- input and output sides apart ------------------------------------------

  lemma {:induction false} RunBackAppend(mode: Mode, b: Back, es: seq<PcmEvent>, more: seq<PcmEvent>)
    requires BackOk(mode, b) && Events(mode, es) && Events(mode, more)
    ensures Events(mode, es + more)
    ensures var (b', sent) := RunBack(mode, b, es); var (b'', sent') := RunBack(mode, b', more);
            RunBack(mode, b, es + more) == (b'', sent.Then(sent'))
  {
    var (b', sent) := RunBack(mode, b, es);
    if more == [] {
      assert es + more == es;
      ThenNothing(sent);
    } else {
      var n := |more| - 1;
      var (b1, sent1) := RunBack(mode, b', more[..n]);
      var (b2, sent2) := BackStep(mode, b1, more[n]);
      RunBackAppend(mode, b, es, more[..n]);
      assert (es + more[..n]) + [more[n]] == es + more;
      OneMoreAppended(mode, b, es + more[..n], more[n], es + more, b1, sent.Then(sent1));
      OneMoreAppended(mode, b', more[..n], more[n], more, b1, sent1);
      ThenAssociates(sent, sent1, sent2);
      assert RunBack(mode, b', more) == (b2, sent1.Then(sent2));
      assert RunBack(mode, b, es + more) == (b2, sent.Then(sent1.Then(sent2)));
    }
  }

  lemma OneMoreAppended(mode: Mode, b: Back, es: seq<PcmEvent>, e: PcmEvent, es': seq<PcmEvent>, b1: Back, sent: Sent)
    requires BackOk(mode, b) && Events(mode, es) && IsPlanar(e.pcm, mode.nch, mode.sps) && es' == es + [e]
    requires (b1, sent) == RunBack(mode, b, es)
    ensures BackOk(mode, b1) && Events(mode, es')
    ensures RunBack(mode, b, es') == (BackStep(mode, b1, e).0, sent.Then(BackStep(mode, b1, e).1))
  {
    RunBackStep(mode, b, es, e, es');
  }

  lemma ThenNothing(a: Sent)
    ensures a.Then(NOTHING) == a
  {
    assert a.rtp + [] == a.rtp && a.flows + [] == a.flows;
  }

  lemma ThenAssociates(a: Sent, b: Sent, c: Sent)
    ensures a.Then(b).Then(c) == a.Then(b.Then(c))
  {
    assert a.rtp + b.rtp + c.rtp == a.rtp + (b.rtp + c.rtp);
    assert a.flows + b.flows + c.flows == a.flows + (b.flows + c.flows);
  }

  /** Frame by frame, the pipeline sends what its output side makes of the whole timeline. */
  lemma {:induction false} RunSplits(mode: Mode, p: Params, f: Front, b: Back, raws: seq<Bytes>)
    requires FrontOk(mode, p, f) && BackOk(mode, b)
    ensures var (f', es) := RunFront(mode, p, f, raws); var (b', sent) := RunBack(mode, b, es);
            RunPipe(mode, p, f, b, raws) == (f', b', sent)
  {
    if raws != [] {
      var n := |raws| - 1;
      RunSplits(mode, p, f, b, raws[..n]);
      var (f', es) := RunFront(mode, p, f, raws[..n]);
      RunBackAppend(mode, b, es, FrontStep(mode, p, f', raws[n]).1);
    }
  }

  // ----- the AES67 path ---------------------------------------------------------

  /** The RTP packet of frame k of a timeline. */
  ghost function PacketOfFrame(mode: Mode, b: Back, es: seq<PcmEvent>, k: nat): RtpOut
    requires Events(mode, es) && k < |es|
  {
    RtpOut(RtpPacket(mode, RtpParams(b.payloadType, (b.seqno + k) % U16, es[k].ts, b.ssrc), es[k].pcm), es[k].concealed)
  }

  /** One packet a frame, in order. */
  ghost predicate RtpLog(mode: Mode, b: Back, es: seq<PcmEvent>, sent: Sent)
    requires Events(mode, es)
  {
    && sent.flows == [] && |sent.rtp| == |es|
    && forall k :: 0 <= k < |es| ==> sent.rtp[k] == PacketOfFrame(mode, b, es, k)
  }

  /** Identity kept, every packet numbered and counted. */
  ghost predicate RtpState(b: Back, es: seq<PcmEvent>, b': Back)
  {
    && b'.sink == None && b'.payloadType == b.payloadType && b'.ssrc == b.ssrc
    && b'.seqno == (b.seqno + |es|) % U16
    && (es != [] ==> b'.lastSeq == (b.seqno + |es| - 1) % U16 && b'.timestamp == es[|es| - 1].ts)
    && b'.packets == b.packets + |Reals(es)| && b'.concealed == b.concealed + Concealments(es)
  }

  lemma RtpLogStep(mode: Mode, b: Back, es: seq<PcmEvent>, sent: Sent, e: PcmEvent, es': seq<PcmEvent>)
    requires Events(mode, es) && IsPlanar(e.pcm, mode.nch, mode.sps) && RtpLog(mode, b, es, sent) && es' == es + [e]
    ensures Events(mode, es') && RtpLog(mode, b, es', sent.Then(Sent([PacketOfFrame(mode, b, es', |es|)], [])))
  {
  }

  lemma RtpStateStep(mode: Mode, b: Back, es: seq<PcmEvent>, b': Back, e: PcmEvent, es': seq<PcmEvent>)
    requires BackOk(mode, b') && IsPlanar(e.pcm, mode.nch, mode.sps) && RtpState(b, es, b') && es' == es + [e]
    ensures RtpState(b, es', BackStep(mode, b', e).0)
    ensures Events(mode, es') ==> BackStep(mode, b', e).1 == Sent([PacketOfFrame(mode, b, es', |es|)], [])
  {
    OneMoreCounted(es, e, es');
    ModAdd(b.seqno + |es|, 1, U16);
  }

  lemma OneMoreCounted(es: seq<PcmEvent>, e: PcmEvent, es': seq<PcmEvent>)
    requires es' == es + [e]
    ensures Concealments(es') == Concealments(es) + if e.concealed then 1 else 0
    ensures |Reals(es')| == |Reals(es)| + if e.concealed then 0 else 1
  {
    assert es'[..|es|] == es;
  }

  lemma {:induction false} RunRtp(mode: Mode, b: Back, es: seq<PcmEvent>)
    requires BackOk(mode, b) && Events(mode, es) && b.sink == None
    ensures RtpLog(mode, b, es, RunBack(mode, b, es).1)
    ensures RtpState(b, es, RunBack(mode, b, es).0)
  {
    if es == [] {
      SmallMod(b.seqno, U16);
    } else {
      var n := |es| - 1;
      RunRtp(mode, b, es[..n]);
      var (b', sent) := RunBack(mode, b, es[..n]);
      RtpLogStep(mode, b, es[..n], sent, es[n], es);
      RtpStateStep(mode, b, es[..n], b', es[n], es);
    }
  }

  /** Packet k of an AES67 run, as a receiver reads it. */
  ghost predicate Aes67Packet(mode: Mode, anchor: u32, payloadType: u8, ssrc: u32, es: seq<PcmEvent>, k: nat, out: RtpOut)
    requires Events(mode, es)
  {
    && k < |es| && out.concealed == es[k].concealed
    && PlainHeader(out.pkt, payloadType)
    && ReadHeader(out.pkt) == RtpParams(payloadType % 0x80, k % U16, SlotTs(anchor, mode.sps, k), ssrc)
    && out.pkt[RTP_HEADER_LEN..] == Payload(es[k].pcm, mode.nch, 0, mode.nch, mode.sps)
  }

  lemma Aes67PacketContents(mode: Mode, anchor: u32, b: Back, es: seq<PcmEvent>, k: nat)
    requires Events(mode, es) && k < |es| && b.seqno == 0 && GapFree(es, anchor, mode.sps)
    ensures Aes67Packet(mode, anchor, b.payloadType, b.ssrc, es, k, PacketOfFrame(mode, b, es, k))
  {
    var body := Payload(es[k].pcm, mode.nch, 0, mode.nch, mode.sps);
    var h := RtpParams(b.payloadType, k % U16, es[k].ts, b.ssrc);
    HeaderRoundTrip(h, body);
    assert (Header(h) + body)[RTP_HEADER_LEN..] == body;
  }

  /**
   The AES67 path: over any run of raw frames, packet k carries sequence number k and
   timestamp anchor + k * sps in their wrapping widths, whether its frame was received
   or filled in, and the samples of timeline frame k, interleaved and big-endian.
   */
  lemma Aes67Path(mode: Mode, p: Params, anchor: u32, payloadType: u8, ssrc: u32, raws: seq<Bytes>)
    requires Geometry(mode, p)
    ensures var es := RunFront(mode, p, FreshFront(mode, anchor), raws).1;
            var sent := RunPipe(mode, p, FreshFront(mode, anchor), FreshBack(payloadType, ssrc), raws).2;
            && sent.flows == [] && |sent.rtp| == |es|
            && forall k :: 0 <= k < |es| ==> Aes67Packet(mode, anchor, payloadType, ssrc, es, k, sent.rtp[k])
  {
    var f, b := FreshFront(mode, anchor), FreshBack(payloadType, ssrc);
    var es := RunFront(mode, p, f, raws).1;
    var sent := RunBack(mode, b, es).1;
    RunSplits(mode, p, f, b, raws);
    RunRtp(mode, b, es);
    TimelineIsGapFree(mode, p, anchor, raws);
    forall k | 0 <= k < |es| ensures Aes67Packet(mode, anchor, payloadType, ssrc, es, k, sent.rtp[k]) {
      Aes67PacketContents(mode, anchor, b, es, k);
    }
  }

  /** The books: packets sent, fills, losses and rejects add up over any run. */
  lemma Aes67Counts(mode: Mode, p: Params, anchor: u32, payloadType: u8, ssrc: u32, raws: seq<Bytes>)
    requires Geometry(mode, p)
    ensures var (f, b, sent) := RunPipe(mode, p, FreshFront(mode, anchor), FreshBack(payloadType, ssrc), raws);
            && b.packets == |Accepted(mode, raws)|
            && b.concealed == f.lossTotal == f.clock.lost
            && f.malformed == |raws| - b.packets
            && |sent.rtp| == b.packets + b.concealed
            && b.seqno == |sent.rtp| % U16
            && (sent.rtp != [] ==> b.lastSeq == (|sent.rtp| - 1) % U16)
  {
    var f, b := FreshFront(mode, anchor), FreshBack(payloadType, ssrc);
    RunSplits(mode, p, f, b, raws);
    RunRtp(mode, b, RunFront(mode, p, f, raws).1);
    TimelineIsGapFree(mode, p, anchor, raws);
    TimelineKeepsFrames(mode, p, f, raws);
  }

  // ----- the Dante path ---------------------------------------------------------

  lemma {:induction false} RunSink(mode: Mode, b: Back, es: seq<PcmEvent>)
    requires BackOk(mode, b) && Events(mode, es) && b.sink.Some?
    ensures var (b', sent) := RunBack(mode, b, es); var (pk', out) := RunPk(b.sink.value, es);
            && sent == Sent([], out) && b'.sink == Some(pk')
            && b'.packets == b.packets + |Reals(es)| && b'.concealed == b.concealed + Concealments(es)
  {
    if es != [] {
      RunSink(mode, b, es[..|es| - 1]);
    }
  }

  /** A packetizer that has seen nothing: empty window, sequence numbers at zero, every slice inside the mode. */
  ghost predicate FreshSink(mode: Mode, pk: PkState)
  {
    && pk.Valid() && pk.mode == mode && pk.frames == [] && AllFlowsOk(pk)
    && forall i :: 0 <= i < |pk.flows| ==> pk.flows[i].seqno == 0
  }

  /** The flows `dante_build_flows` lays out make such a packetizer. */
  lemma PartitionIsFresh(mode: Mode, fpp: nat, ts: u32, flows: seq<Flow>, width: int)
    requires mode.Fits() && 1 <= fpp <= MAX_FPP && Partition(flows, mode.nch, width)
    requires forall i :: 0 <= i < |flows| ==> flows[i].seqno == 0
    ensures FreshSink(mode, PkState(mode, fpp, [], ts, false, flows))
  {
    MulMono(1, fpp, mode.sps);
    forall i | 0 <= i < |flows| ensures FlowOk(flows[i], mode, fpp * mode.sps) {
      PartitionInside(flows, mode.nch, width, i);
    }
  }

  /** Everything a run sends through the packetizer, and how many windows that is. */
  lemma DanteOutput(mode: Mode, p: Params, anchor: u32, b: Back, raws: seq<Bytes>) returns (w: nat)
    requires Geometry(mode, p) && BackOk(mode, b) && b.sink.Some? && FreshSink(mode, b.sink.value)
    ensures var es := RunFront(mode, p, FreshFront(mode, anchor), raws).1; var pk := b.sink.value;
            && FullWindows(|es|, pk.fpp, w)
            && RunPipe(mode, p, FreshFront(mode, anchor), b, raws).2 == Sent([], AllEmits(pk, es, w))
  {
    var f := FreshFront(mode, anchor);
    var es := RunFront(mode, p, f, raws).1;
    RunSplits(mode, p, f, b, raws);
    RunSink(mode, b, es);
    w := RunIsWindows(b.sink.value, es);
  }

  /** Packet j of flow i of a Dante run, and everything a receiver reads in it. */
  ghost predicate DantePacket(mode: Mode, anchor: u32, pk: PkState, es: seq<PcmEvent>, i: nat, j: nat, out: Emit)
    requires Events(mode, es) && FreshSink(mode, pk) && i < |pk.flows| && Times(j + 1, pk.fpp) <= |es|
  {
    var fl := pk.flows[i];
    && out.flow == i
    && out.concealed == AnyConcealed(WindowOf(es, pk.fpp, j))
    && PlainHeader(out.pkt, fl.payloadType)
    && ReadHeader(out.pkt) == RtpParams(fl.payloadType % 0x80, j % U16, SlotTs(anchor, mode.sps, j * pk.fpp), fl.ssrc)
    && IsPlanar(out.pkt[RTP_HEADER_LEN..], pk.fpp * mode.sps, fl.nCh)
    && forall g, fc :: 0 <= g < pk.fpp * mode.sps && 0 <= fc < fl.nCh ==> DanteSample(mode, pk, es, i, j, out.pkt[RTP_HEADER_LEN..], g, fc)
  }

  /** Sample g of flow channel fc: byte-reversed sample g mod sps of timeline frame j * fpp + g / sps. */
  ghost predicate DanteSample(mode: Mode, pk: PkState, es: seq<PcmEvent>, i: nat, j: nat, body: Bytes, g: nat, fc: nat)
    requires Events(mode, es) && FreshSink(mode, pk) && i < |pk.flows|
    requires IsPlanar(body, pk.fpp * mode.sps, pk.flows[i].nCh) && g < pk.fpp * mode.sps && fc < pk.flows[i].nCh
  {
    var k := j * pk.fpp + g / mode.sps;
    && 0 <= k < |es|
    && PlanarAt(body, pk.fpp * mode.sps, pk.flows[i].nCh, g, fc)
       == Swapped(PlanarAt(es[k].pcm, mode.nch, mode.sps, pk.flows[i].chStart + fc, g % mode.sps))
  }

  lemma DantePacketContents(mode: Mode, anchor: u32, pk: PkState, es: seq<PcmEvent>, i: nat, j: nat)
    requires mode.Fits() && Events(mode, es) && FreshSink(mode, pk) && i < |pk.flows| && Times(j + 1, pk.fpp) <= |es|
    requires GapFree(es, anchor, mode.sps)
    ensures DantePacket(mode, anchor, pk, es, i, j, PacketOf(pk, es, i, j))
  {
    var win := WindowOf(es, pk.fpp, j);
    var fl := pk.flows[i];
    var body := PacketOf(pk, es, i, j).pkt[RTP_HEADER_LEN..];
    WindowFrame(es, pk.fpp, j, 0);
    FirstSample(pk, i);
    WindowPacketContents(pk, win, i, j, 0, 0);
    forall g, fc | 0 <= g < pk.fpp * mode.sps && 0 <= fc < fl.nCh
      ensures DanteSample(mode, pk, es, i, j, body, g, fc)
    {
      DanteSampleContents(mode, pk, es, i, j, body, g, fc);
    }
  }

  lemma DanteSampleContents(mode: Mode, pk: PkState, es: seq<PcmEvent>, i: nat, j: nat, body: Bytes, g: nat, fc: nat)
    requires Events(mode, es) && FreshSink(mode, pk) && i < |pk.flows| && Times(j + 1, pk.fpp) <= |es|
    requires g < pk.fpp * mode.sps && fc < pk.flows[i].nCh
    requires |PacketOf(pk, es, i, j).pkt| >= RTP_HEADER_LEN && body == PacketOf(pk, es, i, j).pkt[RTP_HEADER_LEN..]
    ensures IsPlanar(body, pk.fpp * mode.sps, pk.flows[i].nCh) && DanteSample(mode, pk, es, i, j, body, g, fc)
  {
    WindowPacketContents(pk, WindowOf(es, pk.fpp, j), i, j, g, fc);
    WindowFrame(es, pk.fpp, j, g / mode.sps);
  }

  lemma FirstSample(pk: PkState, i: nat)
    requires pk.Valid() && AllFlowsOk(pk) && i < |pk.flows|
    ensures 0 < pk.fpp * pk.mode.sps && 0 < pk.flows[i].nCh
  {
    assert FlowOk(pk.flows[i], pk.mode, pk.fpp * pk.mode.sps);
  }

  /** Packet j of flow i, where it stands in everything sent. */
  ghost predicate DanteSent(mode: Mode, anchor: u32, pk: PkState, es: seq<PcmEvent>, i: nat, j: nat, out: seq<Emit>)
    requires Events(mode, es) && FreshSink(mode, pk) && i < |pk.flows|
  {
    && Times(j + 1, pk.fpp) <= |es|
    && 0 <= j * |pk.flows| + i < |out|
    && DantePacket(mode, anchor, pk, es, i, j, out[j * |pk.flows| + i])
  }

  lemma DantePacketSent(mode: Mode, anchor: u32, pk: PkState, es: seq<PcmEvent>, w: nat, i: nat, j: nat)
    requires mode.Fits() && Events(mode, es) && FreshSink(mode, pk) && i < |pk.flows| && Times(w, pk.fpp) <= |es| && j < w
    requires GapFree(es, anchor, mode.sps)
    ensures DanteSent(mode, anchor, pk, es, i, j, AllEmits(pk, es, w))
  {
    PacketsInOrder(pk, es, w, i, j);
    DantePacketContents(mode, anchor, pk, es, i, j);
    TimesIs(j, |pk.flows|);
  }

  /**
   The Dante path: over any run of raw frames, with w windows filled, exactly w packets
   a flow go out, window by window and flow by flow. Packet j of a flow carries sequence
   number j, the timestamp of the first of its frames, whether any of them was filled in,
   and its slice of channels of each of them, interleaved and big-endian.
   */
  lemma DantePath(mode: Mode, p: Params, anchor: u32, b: Back, raws: seq<Bytes>)
    requires Geometry(mode, p) && BackOk(mode, b) && b.sink.Some? && FreshSink(mode, b.sink.value)
    ensures var es := RunFront(mode, p, FreshFront(mode, anchor), raws).1; var pk := b.sink.value;
            var sent := RunPipe(mode, p, FreshFront(mode, anchor), b, raws).2;
            && sent.rtp == [] && |sent.flows| == |es| / pk.fpp * |pk.flows|
            && forall i, j :: 0 <= i < |pk.flows| && 0 <= j < |es| / pk.fpp ==> DanteSent(mode, anchor, pk, es, i, j, sent.flows)
  {
    var pk := b.sink.value;
    var es := RunFront(mode, p, FreshFront(mode, anchor), raws).1;
    var w := DanteOutput(mode, p, anchor, b, raws);
    WindowsAre(|es|, pk.fpp, w);
    PacketCount(pk, es, w);
    TimesIs(w, |pk.flows|);
    TimelineIsGapFree(mode, p, anchor, raws);
    forall i, j | 0 <= i < |pk.flows| && 0 <= j < w
      ensures DanteSent(mode, anchor, pk, es, i, j, AllEmits(pk, es, w))
    {
      DantePacketSent(mode, anchor, pk, es, w, i, j);
    }
  }

  lemma WindowsAre(n: nat, fpp: nat, w: nat)
    requires fpp > 0 && FullWindows(n, fpp, w)
    ensures w == n / fpp
  {
    TimesIs(w, fpp);
    DivModUnique(n, fpp, w, n - w * fpp);
  }

  // ----- PTP ------------------------------------------------------------------

  /** Whatever arrives, the frame just accepted stands last in the timeline, under the clock's timestamp. */
  lemma LastStamp(mode: Mode, p: Params, anchor: u32, raws: seq<Bytes>)
    requires Geometry(mode, p) && AcceptedCounters(raws) != []
    ensures var es := RunFront(mode, p, FreshFront(mode, anchor), raws).1;
            && es != [] && !es[|es| - 1].concealed
            && es[|es| - 1].ts == RunClock(Anchored(mode.sps, anchor), AcceptedCounters(raws)).ts
  {
    var f := FreshFront(mode, anchor);
    TimelineIsGapFree(mode, p, anchor, raws);
    RunConceals(mode, p, anchor, raws);
    ClockSeesAccepted(mode, p, f, raws);
    ClockCountsSlots(mode.sps, anchor, AcceptedCounters(raws));
  }

  /**
   PTP alignment, end to end: anchored at the first accepted frame's instant, the frame
   just accepted carries the timestamp of the instant of index i if and only if what the
   clock is ahead of that instant comes to whole timestamp wraps.
   */
  lemma TaiStampedIff(mode: Mode, p: Params, raws: seq<Bytes>, indices: seq<int>, i: int,
                      sec0: u64, nsec0: u32, sec: u64, nsec: u32, rounding: nat, anchor: u32, own: u32, ahead: int)
    requires Geometry(mode, p) && mode.sampleRate <= SECOND
    requires indices != [] && AcceptedCounters(raws) == CountersOf(indices)
    requires InstantOf(sec0 * SECOND + nsec0, i - indices[0], mode.sps, mode.sampleRate, sec * SECOND + nsec, rounding)
    requires anchor == TaiToRtpTs(sec0, nsec0, mode.sampleRate) && own == TaiToRtpTs(sec, nsec, mode.sampleRate)
    requires ahead == Ahead(mode.sps, indices, i, rounding)
    ensures var es := RunFront(mode, p, FreshFront(mode, anchor), raws).1;
            && es != [] && !es[|es| - 1].concealed
            && es[|es| - 1].ts == (own + ahead) % U32
            && (es[|es| - 1].ts == own <==> ahead % U32 == 0)
  {
    LastStamp(mode, p, anchor, raws);
    var c := RunClock(Anchored(mode.sps, anchor), CountersOf(indices));
    StampedIff(c, mode.sps, mode.sampleRate, indices, i, sec0, nsec0, sec, nsec, rounding, anchor, own, ahead);
  }

  /**
   With frames lost but not repeated or reordered, the frame just accepted is stamped with
   its own instant, or one more where that instant was rounded down past a sample.
   */
  lemma TaiStamped(mode: Mode, p: Params, raws: seq<Bytes>, indices: seq<int>,
                   sec0: u64, nsec0: u32, sec: u64, nsec: u32, rounding: nat, anchor: u32, own: u32)
    requires Geometry(mode, p) && mode.sampleRate <= SECOND
    requires indices != [] && Forward(indices) && AcceptedCounters(raws) == CountersOf(indices)
    requires InstantOf(sec0 * SECOND + nsec0, indices[|indices| - 1] - indices[0], mode.sps, mode.sampleRate,
                       sec * SECOND + nsec, rounding)
    requires anchor == TaiToRtpTs(sec0, nsec0, mode.sampleRate) && own == TaiToRtpTs(sec, nsec, mode.sampleRate)
    ensures var es := RunFront(mode, p, FreshFront(mode, anchor), raws).1;
            && es != [] && !es[|es| - 1].concealed
            && es[|es| - 1].ts == (own + rounding) % U32
  {
    LastStamp(mode, p, anchor, raws);
    TaiAligned(mode.sps, mode.sampleRate, sec0, nsec0, sec, nsec, indices, rounding, anchor, own);
  }
}
