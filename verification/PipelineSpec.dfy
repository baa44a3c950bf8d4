/** What the pipeline does with raw frames, on values (src/pipeline.c). */
module PipelineSpec {
  import opened Words
  import opened Sample24
  import opened Reac
  import opened ReacDecode
  import opened RtpL24
  import opened MediaClock
  import opened PlcSpec
  import opened Plc
  import opened Packetizer
  import opened PacketizerRuns

  // ----- the input side: decode, clock, concealment ---------------------------

  /** What the pipeline remembers of the frames it has accepted; `lastTier` is None for the source's -1. */
  datatype Front = Front(clock: Clock, hists: Histories, lossTotal: nat, malformed: nat, lastTier: Option<Tier>)

  /** One packet geometry throughout. */
  ghost predicate Geometry(mode: Mode, p: Params)
  {
    mode.Fits() && p.Valid() && p.S == mode.sps && p.nch == mode.nch
  }

  ghost predicate FrontOk(mode: Mode, p: Params, f: Front)
  {
    Geometry(mode, p) && |f.hists| == p.nch && f.clock.sps == mode.sps
  }

  function FreshFront(mode: Mode, anchor: u32): Front
  {
    Front(Anchored(mode.sps, anchor), seq(mode.nch, _ => []), 0, 0, None)
  }

  /** The planar packet that fills loss k. */
  ghost function Fill(p: Params, hs: Histories, k: nat): (pcm: Bytes)
    requires p.Valid() && |hs| == p.nch
    ensures IsConcealed(p, hs, k, pcm)
  {
    Block(p.nch, p.S, (c: nat, s: nat) requires p.Valid() && c < |hs| && s < p.S => Store24(Concealed(p, hs[c], k, s)))
  }

  lemma FillIsUnique(p: Params, hs: Histories, k: nat, pcm: Bytes)
    requires p.Valid() && |hs| == p.nch && IsConcealed(p, hs, k, pcm)
    ensures pcm == Fill(p, hs, k)
  {
    PlanarEqual(pcm, Fill(p, hs, k), p.nch, p.S);
  }

  /** Timestamp of the packet `back` slots before one stamped ts. */
  function Before(ts: u32, back: int, sps: nat): u32
  {
    (ts - back * sps) % U32
  }

  /** The i-th concealed packet before a frame that reports `step`. */
  ghost function FillEvent(p: Params, hs: Histories, step: Step, i: nat): PcmEvent
    requires p.Valid() && |hs| == p.nch && i < step.silence
  {
    PcmEvent(Fill(p, hs, i), Before(step.ts, step.silence - i, p.S), true)
  }

  ghost function FillEvents(p: Params, hs: Histories, step: Step, n: nat): (es: seq<PcmEvent>)
    requires p.Valid() && |hs| == p.nch && n <= step.silence
    ensures |es| == n && forall i :: 0 <= i < n ==> es[i] == FillEvent(p, hs, step, i)
  {
    seq(n, i requires 0 <= i < n => FillEvent(p, hs, step, i))
  }

  /** The last tier reported once the first n losses of a gap are filled. */
  ghost function TierAt(p: Params, f: Front, n: nat): Option<Tier>
    requires |f.hists| == p.nch
  {
    if n == 0 then f.lastTier else Some(WorstTier(p, f.hists, n - 1, p.nch))
  }

  /** One raw frame: rejected, or accepted with the timeline frames it brings. */
  ghost function FrontStep(mode: Mode, p: Params, f: Front, raw: Bytes): (r: (Front, seq<PcmEvent>))
    requires FrontOk(mode, p, f)
    ensures FrontOk(mode, p, r.0) && Events(mode, r.1)
  {
    if !Inspect(raw).valid then (f.(malformed := f.malformed + 1), [])
    else
      var pcm := Decoded(raw, mode);
      var (clock, step) := OnCounter(f.clock, Inspect(raw).counter);
      (Front(clock, Observed(p, f.hists, pcm), f.lossTotal + step.silence, f.malformed, TierAt(p, f, step.silence)),
       FillEvents(p, f.hists, step, step.silence) + [PcmEvent(pcm, step.ts, false)])
  }

  // ----- the output side ------------------------------------------------------

  /** One call of the RTP emit callback. */
  datatype RtpOut = RtpOut(pkt: Bytes, concealed: bool)

  /** Everything sent, on either path. */
  datatype Sent = Sent(rtp: seq<RtpOut>, flows: seq<Emit>)
  {
    function Then(more: Sent): Sent
    {
      Sent(rtp + more.rtp, flows + more.flows)
    }
  }

  const NOTHING := Sent([], [])

  /** RTP identity and counters; `sink` is the packetizer of the Dante path. */
  datatype Back = Back(payloadType: u8, ssrc: u32, seqno: u16, timestamp: u32, lastSeq: u16,
                       packets: nat, concealed: nat, sink: Option<PkState>)

  ghost predicate BackOk(mode: Mode, b: Back)
  {
    mode.Fits() && (b.sink.Some? ==> b.sink.value.Valid() && b.sink.value.mode == mode)
  }

  function FreshBack(payloadType: u8, ssrc: u32): Back
  {
    Back(payloadType, ssrc, 0, 0, 0, 0, 0, None)
  }

  function Counted(b: Back, concealed: bool): Back
  {
    if concealed then b.(concealed := b.concealed + 1) else b.(packets := b.packets + 1)
  }

  /** The RTP packet of one timeline frame. */
  ghost function RtpPacket(mode: Mode, p: RtpParams, pcm: Bytes): Bytes
    requires IsPlanar(pcm, mode.nch, mode.sps)
  {
    Header(p) + Payload(pcm, mode.nch, 0, mode.nch, mode.sps)
  }

  /** `emit_pcm`: one RTP packet a frame, or the frame handed to the packetizer. */
  ghost function BackStep(mode: Mode, b: Back, e: PcmEvent): (r: (Back, Sent))
    requires BackOk(mode, b) && IsPlanar(e.pcm, mode.nch, mode.sps)
    ensures BackOk(mode, r.0)
  {
    match b.sink
    case None =>
      var pkt := RtpPacket(mode, RtpParams(b.payloadType, b.seqno, e.ts, b.ssrc), e.pcm);
      (Counted(b.(timestamp := e.ts, lastSeq := b.seqno, seqno := (b.seqno + 1) % U16), e.concealed),
       Sent([RtpOut(pkt, e.concealed)], []))
    case Some(pk) =>
      PushFrameValid(pk, e);
      var (pk', emits) := PushFrame(pk, e.pcm, e.ts, e.concealed);
      (Counted(b.(sink := Some(pk')), e.concealed), Sent([], emits))
  }

  lemma PushFrameValid(pk: PkState, e: PcmEvent)
    requires pk.Valid() && IsPlanar(e.pcm, pk.mode.nch, pk.mode.sps)
    ensures var pk' := PushFrame(pk, e.pcm, e.ts, e.concealed).0;
            pk'.Valid() && pk'.mode == pk.mode && pk'.fpp == pk.fpp
  {
  }

  ghost function RunBack(mode: Mode, b: Back, es: seq<PcmEvent>): (r: (Back, Sent))
    requires BackOk(mode, b) && Events(mode, es)
    ensures BackOk(mode, r.0)
  {
    if es == [] then (b, NOTHING)
    else
      var n := |es| - 1;
      var (b', sent) := RunBack(mode, b, es[..n]);
      var (b'', more) := BackStep(mode, b', es[n]);
      (b'', sent.Then(more))
  }

  /** One event more. */
  lemma RunBackStep(mode: Mode, b: Back, es: seq<PcmEvent>, e: PcmEvent, es': seq<PcmEvent>)
    requires BackOk(mode, b) && Events(mode, es) && IsPlanar(e.pcm, mode.nch, mode.sps) && es' == es + [e]
    ensures Events(mode, es')
    ensures var (b', sent) := RunBack(mode, b, es); var (b'', more) := BackStep(mode, b', e);
            RunBack(mode, b, es') == (b'', sent.Then(more))
  {
    assert es'[..|es|] == es;
  }

  lemma FillsGrow(p: Params, hs: Histories, step: Step, i: nat)
    requires p.Valid() && |hs| == p.nch && i < step.silence
    ensures FillEvents(p, hs, step, i + 1) == FillEvents(p, hs, step, i) + [FillEvent(p, hs, step, i)]
  {
  }

  // ----- frames in, packets out -----------------------------------------------

  /** `pipeline_on_frame` */
  ghost function PipeStep(mode: Mode, p: Params, f: Front, b: Back, raw: Bytes): (r: (Front, Back, Sent))
    requires FrontOk(mode, p, f) && BackOk(mode, b)
    ensures FrontOk(mode, p, r.0) && BackOk(mode, r.1)
  {
    var (f', es) := FrontStep(mode, p, f, raw);
    var (b', sent) := RunBack(mode, b, es);
    (f', b', sent)
  }

  ghost function RunPipe(mode: Mode, p: Params, f: Front, b: Back, raws: seq<Bytes>): (r: (Front, Back, Sent))
    requires FrontOk(mode, p, f) && BackOk(mode, b)
    ensures FrontOk(mode, p, r.0) && BackOk(mode, r.1)
  {
    if raws == [] then (f, b, NOTHING)
    else
      var n := |raws| - 1;
      var (f', b', sent) := RunPipe(mode, p, f, b, raws[..n]);
      var (f'', b'', more) := PipeStep(mode, p, f', b', raws[n]);
      (f'', b'', sent.Then(more))
  }

  /** The events of an accepted frame, one output step at a time. */
  lemma FrameEvents(mode: Mode, p: Params, f: Front, b: Back, raw: Bytes)
    requires FrontOk(mode, p, f) && BackOk(mode, b) && Inspect(raw).valid
    ensures var step := OnCounter(f.clock, Inspect(raw).counter).1;
            var (b', sent) := RunBack(mode, b, FillEvents(p, f.hists, step, step.silence));
            var (b'', more) := BackStep(mode, b', PcmEvent(Decoded(raw, mode), step.ts, false));
            PipeStep(mode, p, f, b, raw) == (FrontStep(mode, p, f, raw).0, b'', sent.Then(more))
  {
    var step := OnCounter(f.clock, Inspect(raw).counter).1;
    RunBackStep(mode, b, FillEvents(p, f.hists, step, step.silence), PcmEvent(Decoded(raw, mode), step.ts, false),
                FrontStep(mode, p, f, raw).1);
  }

  /** What is remembered of an accepted frame, in three moves: clock, fills, history. */
  lemma AcceptedFront(mode: Mode, p: Params, f: Front, raw: Bytes, f1: Front, f2: Front, f3: Front)
    requires FrontOk(mode, p, f) && Inspect(raw).valid
    requires var (clock, step) := OnCounter(f.clock, Inspect(raw).counter);
             && f1 == f.(clock := clock, lossTotal := f.lossTotal + step.silence)
             && f2 == f1.(lastTier := TierAt(p, f1, step.silence))
             && f3 == f2.(hists := Observed(p, f2.hists, Decoded(raw, mode)))
    ensures f3 == FrontStep(mode, p, f, raw).0
  {
  }

  /** What is sent for an accepted frame, in two moves: fills, the frame itself. */
  lemma AcceptedBack(mode: Mode, p: Params, f: Front, b: Back, raw: Bytes, step: Step, b2: Back, sent: Sent, b3: Back, more: Sent)
    requires FrontOk(mode, p, f) && BackOk(mode, b) && Inspect(raw).valid
    requires step == OnCounter(f.clock, Inspect(raw).counter).1
    requires (b2, sent) == RunBack(mode, b, FillEvents(p, f.hists, step, step.silence))
    requires BackOk(mode, b2) && (b3, more) == BackStep(mode, b2, PcmEvent(Decoded(raw, mode), step.ts, false))
    ensures PipeStep(mode, p, f, b, raw) == (FrontStep(mode, p, f, raw).0, b3, sent.Then(more))
  {
    FrameEvents(mode, p, f, b, raw);
  }

  lemma OneFrameMore(mode: Mode, p: Params, f: Front, b: Back, raws: seq<Bytes>, i: nat, f': Front, b': Back, sent: Sent)
    requires FrontOk(mode, p, f) && BackOk(mode, b) && i < |raws|
    requires (f', b', sent) == RunPipe(mode, p, f, b, raws[..i])
    ensures FrontOk(mode, p, f') && BackOk(mode, b')
    ensures var (f'', b'', more) := PipeStep(mode, p, f', b', raws[i]);
            RunPipe(mode, p, f, b, raws[..i + 1]) == (f'', b'', sent.Then(more))
  {
    assert raws[..i + 1][..i] == raws[..i];
  }
}
