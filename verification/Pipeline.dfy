/** The pipeline object: raw REAC frames in, RTP packets out (src/pipeline.c). */
module Pipeline {
  import opened Words
  import opened Sample24
  import opened Reac
  import opened ReacDecode
  import opened RtpL24
  import M = MediaClock
  import opened PlcSpec
  import C = Plc
  import K = Packetizer
  import opened PacketizerRuns
  import opened PipelineSpec

  const PCM_CAP := 2880
  const RTP_CAP := 2892

  class Pipeline {
    const mode: Mode
    const clock: M.MediaClock
    var payloadType: u8
    var ssrc: u32
    var seqno: u16
    var timestamp: u32
    const plc: C.Plc
    var packets: nat
    var concealed: nat
    var lossTotal: nat
    var malformed: nat
    var lastSeq: u16
    var lastTier: Option<Tier>
    var sink: K.Packetizer?

    /** The objects of the input side. */
    ghost function Inner(): set<object>
      reads this, clock, plc, plc.ch
    {
      {this, clock, plc} + plc.Rings()
    }

    /** The objects of the packetizer, when there is one. */
    ghost function Outer(): set<object>
      reads this, sink
    {
      if sink == null then {} else {sink, sink.planar, sink.flows}
    }

    ghost predicate Valid()
      reads this, clock, plc, plc.ch, Outer()
    {
      && clock.samplesPerPkt == mode.sps
      && this !in plc.Rings() && (clock as object) !in plc.Rings()
      && plc.Valid() && Geometry(mode, plc.p)
      && Inner() !! Outer()
      && (sink != null ==> sink.Valid() && sink.mode == mode)
    }

    ghost function Front(): Front
      requires plc.Valid()
      reads this, clock, plc, plc.ch, plc.Rings()
    {
      PipelineSpec.Front(clock.State(), plc.Remembered(), lossTotal, malformed, lastTier)
    }

    ghost function Back(): Back
      requires sink != null ==> sink.nFlows <= sink.flows.Length
      reads this, Outer()
    {
      PipelineSpec.Back(payloadType, ssrc, seqno, timestamp, lastSeq, packets, concealed,
                        if sink == null then None else Some(sink.State()))
    }

    /** `pipeline_init_ex`; non-positive tuning asks for the defaults. */
    constructor (mode: Mode, payloadType: u8, ssrc: u32, plcXfade: int, plcFadePkts: int)
      requires mode.Fits() && plcFadePkts < 0x1_0000
      ensures Valid() && fresh(Inner()) && this.mode == mode && plc.p == Tuned(mode.sps, mode.nch, plcFadePkts, plcXfade)
      ensures Front() == FreshFront(mode, 0)
      ensures Back() == FreshBack(payloadType, ssrc)
    {
      this.mode := mode;
      var c := new M.MediaClock(mode.sps, 0);
      var concealer := new C.Plc(mode.sps, mode.nch, plcFadePkts, plcXfade);
      clock := c;
      plc := concealer;
      this.payloadType, this.ssrc, seqno, timestamp := payloadType, ssrc, 0, 0;
      packets, concealed, lossTotal, malformed, lastSeq, lastTier := 0, 0, 0, 0, 0, None;
      sink := null;
    }

    /** `pipeline_set_pcm_sink`: a packetizer of the same geometry that shares nothing with the pipeline, or none. */
    method SetPcmSink(pk: K.Packetizer?)
      requires Valid() && (pk != null ==> pk.Valid() && pk.mode == mode && {pk, pk.planar, pk.flows} !! Inner())
      modifies this`sink
      ensures Valid() && Front() == old(Front())
      ensures Back() == old(Back()).(sink := if pk == null then None else Some(pk.State()))
    {
      sink := pk;
    }

    /** `pipeline_anchor` */
    method Anchor(anchor: u32)
      requires Valid()
      modifies clock
      ensures Valid() && Back() == old(Back())
      ensures Front() == old(Front()).(clock := M.Anchored(mode.sps, anchor))
    {
      clock.InitAnchored(mode.sps, anchor);
    }

    /** `emit_pcm` */
    method EmitPcm(pcm: Bytes, ts: u32, isConcealed: bool) returns (sent: Sent)
      requires Valid() && IsPlanar(pcm, mode.nch, mode.sps)
      modifies `seqno, `timestamp, `lastSeq, `packets, `concealed, Outer()
      ensures Valid() && Front() == old(Front()) && Outer() == old(Outer())
      ensures (Back(), sent) == BackStep(mode, old(Back()), PcmEvent(pcm, ts, isConcealed))
    {
      if sink != null {
        sent := EmitToSink(pcm, ts, isConcealed);
      } else {
        sent := EmitRtp(pcm, ts, isConcealed);
      }
      if isConcealed {
        concealed := concealed + 1;
      } else {
        packets := packets + 1;
      }
    }

    /** The Dante path: the packetizer takes the frame. */
    method EmitToSink(pcm: Bytes, ts: u32, isConcealed: bool) returns (sent: Sent)
      requires Valid() && IsPlanar(pcm, mode.nch, mode.sps) && sink != null
      modifies Outer()
      ensures Valid() && Front() == old(Front()) && Outer() == old(Outer())
      ensures var (pk, emits) := K.PushFrame(old(sink.State()), pcm, ts, isConcealed);
              Back() == old(Back()).(sink := Some(pk)) && sent == Sent([], emits)
    {
      var emits := sink.Push(pcm, ts, isConcealed);
      sent := Sent([], emits);
    }

    /** The default path: one RTP packet, and the step of the sequence number. */
    method EmitRtp(pcm: Bytes, ts: u32, isConcealed: bool) returns (sent: Sent)
      requires Valid() && IsPlanar(pcm, mode.nch, mode.sps) && sink == null
      modifies `seqno, `timestamp, `lastSeq
      ensures Valid() && Front() == old(Front())
      ensures Back() == old(Back()).(timestamp := ts, lastSeq := old(seqno), seqno := (old(seqno) + 1) % U16)
      ensures sent == Sent([RtpOut(RtpPacket(mode, RtpParams(payloadType, old(seqno), ts, ssrc), pcm), isConcealed)], [])
    {
      timestamp := ts;
      var n, pkt := BuildRtp(mode, RtpParams(payloadType, seqno, timestamp, ssrc), pcm);
      sent := NOTHING;
      if n > 0 {
        sent := Sent([RtpOut(pkt, isConcealed)], []);
      }
      lastSeq := seqno;
      seqno := (seqno + 1) % U16;
    }

    /** One turn of the concealment loop: the packet that fills loss i, in its own timeline slot. */
    method EmitFill(step: M.Step, i: nat) returns (sent: Sent)
      requires Valid() && i < step.silence
      modifies `seqno, `timestamp, `lastSeq, `packets, `concealed, `lastTier, Outer()
      ensures Valid() && Outer() == old(Outer())
      ensures Front() == old(Front()).(lastTier := TierAt(plc.p, old(Front()), i + 1))
      ensures (Back(), sent) == BackStep(mode, old(Back()), FillEvent(plc.p, old(plc.Remembered()), step, i))
    {
      ghost var front, back := Front(), Back();
      var cts := (step.ts - (step.silence - i) * mode.sps) % U32;
      var pcm, tier := ConcealPacket(plc, mode, i);
      assert PcmEvent(pcm, cts, true) == FillEvent(plc.p, front.hists, step, i);
      lastTier := Some(tier);
      assert Front() == front.(lastTier := TierAt(plc.p, front, i + 1));
      assert Back() == back;
      sent := EmitPcm(pcm, cts, true);
    }

    /** The concealment loop: one packet for every frame lost. */
    method EmitFills(step: M.Step) returns (sent: Sent)
      requires Valid()
      modifies `seqno, `timestamp, `lastSeq, `packets, `concealed, `lastTier, Outer()
      ensures Valid() && Outer() == old(Outer())
      ensures Front() == old(Front()).(lastTier := TierAt(plc.p, old(Front()), step.silence))
      ensures (Back(), sent) == RunBack(mode, old(Back()), FillEvents(plc.p, old(plc.Remembered()), step, step.silence))
    {
      ghost var front, back := Front(), Back();
      sent := NOTHING;
      for i := 0 to step.silence
        invariant Valid() && Outer() == old(Outer())
        invariant Front() == front.(lastTier := TierAt(plc.p, front, i))
        invariant (Back(), sent) == RunBack(mode, back, FillEvents(plc.p, front.hists, step, i))
      {
        FillsGrow(plc.p, front.hists, step, i);
        RunBackStep(mode, back, FillEvents(plc.p, front.hists, step, i), FillEvent(plc.p, front.hists, step, i),
                    FillEvents(plc.p, front.hists, step, i + 1));
        var more := EmitFill(step, i);
        sent := sent.Then(more);
      }
    }

    /** What follows a frame's fills: the frame itself, then its place in the concealment history. */
    method EmitReal(pcm: Bytes, ts: u32) returns (sent: Sent)
      requires Valid() && IsPlanar(pcm, mode.nch, mode.sps)
      modifies `seqno, `timestamp, `lastSeq, `packets, `concealed, Outer(), plc.Rings()
      ensures Valid() && Outer() == old(Outer()) && plc.Rings() == old(plc.Rings())
      ensures Front() == old(Front()).(hists := C.Observed(plc.p, old(plc.Remembered()), pcm))
      ensures (Back(), sent) == BackStep(mode, old(Back()), PcmEvent(pcm, ts, false))
    {
      sent := EmitPcm(pcm, ts, false);
      Remember(pcm);
    }

    /** `plc_observe` on a pipeline. */
    method Remember(pcm: Bytes)
      requires Valid() && IsPlanar(pcm, mode.nch, mode.sps)
      modifies plc.Rings()
      ensures Valid() && Outer() == old(Outer()) && plc.Rings() == old(plc.Rings()) && Back() == old(Back())
      ensures Front() == old(Front()).(hists := C.Observed(plc.p, old(plc.Remembered()), pcm))
    {
      plc.Observe(pcm);
    }

    /** `media_clock_on_packet` and the loss count. */
    method Account(counter: u16) returns (step: M.Step)
      requires Valid()
      modifies clock, `lossTotal
      ensures Valid() && Outer() == old(Outer()) && Back() == old(Back())
      ensures step == M.OnCounter(old(Front()).clock, counter).1
      ensures Front() == old(Front()).(clock := M.OnCounter(old(Front()).clock, counter).0,
                                       lossTotal := old(lossTotal) + step.silence)
    {
      step := clock.OnPacket(counter);
      lossTotal := lossTotal + step.silence;
    }

    /** A valid frame: its losses filled, then the frame itself. */
    method Accept(raw: Bytes, pcm: Bytes) returns (sent: Sent)
      requires Valid() && Inspect(raw).valid && pcm == Decoded(raw, mode)
      modifies this, clock, plc.Rings(), Outer()
      ensures Valid() && sink == old(sink) && plc.Rings() == old(plc.Rings())
      ensures (Front(), Back(), sent) == PipeStep(mode, plc.p, old(Front()), old(Back()), raw)
    {
      ghost var front, back := Front(), Back();
      var step := Account(Inspect(raw).counter);
      ghost var front1 := Front();
      var fills := EmitFills(step);
      ghost var front2, back2 := Front(), Back();
      var more := EmitReal(pcm, step.ts);
      sent := fills.Then(more);
      AcceptedFront(mode, plc.p, front, raw, front1, front2, Front());
      AcceptedBack(mode, plc.p, front, back, raw, step, back2, fills, Back(), more);
    }

    /** A malformed frame is counted, and nothing else happens. */
    method Reject(raw: Bytes) returns (sent: Sent)
      requires Valid() && !Inspect(raw).valid
      modifies `malformed
      ensures Valid()
      ensures Front() == old(Front()).(malformed := old(malformed) + 1) && Back() == old(Back()) && sent == Sent([], [])
      ensures (Front(), Back(), sent) == PipeStep(mode, plc.p, old(Front()), old(Back()), raw)
    {
      malformed := malformed + 1;
      sent := NOTHING;
      assert Back() == old(Back());
    }

    /** `pipeline_on_frame`: 0 and everything sent, or -1 and nothing. */
    method OnFrame(raw: Bytes) returns (ret: int, sent: Sent)
      requires Valid()
      modifies this, clock, plc.Rings(), Outer()
      ensures Valid() && sink == old(sink) && plc.Rings() == old(plc.Rings())
      ensures ret == if IsReacFrame(raw) then 0 else -1
      ensures (Front(), Back(), sent) == PipeStep(mode, plc.p, old(Front()), old(Back()), raw)
      ensures !IsReacFrame(raw) ==>
                Front() == old(Front()).(malformed := old(malformed) + 1) && Back() == old(Back()) && sent == Sent([], [])
    {
      var ns, pcm := DecodeFrame(raw, mode);
      if ns < 0 {
        sent := Reject(raw);
        ret := -1;
      } else {
        sent := Accept(raw, pcm);
        ret := 0;
      }
    }

    /** The daemon's loop over captured frames: everything sent for them, in order. */
    method FeedAll(raws: seq<Bytes>) returns (sent: Sent)
      requires Valid()
      modifies this, clock, plc.Rings(), Outer()
      ensures Valid() && sink == old(sink) && plc.Rings() == old(plc.Rings())
      ensures (Front(), Back(), sent) == RunPipe(mode, plc.p, old(Front()), old(Back()), raws)
    {
      ghost var front, back := Front(), Back();
      sent := NOTHING;
      for i := 0 to |raws|
        invariant Valid() && sink == old(sink) && plc.Rings() == old(plc.Rings())
        invariant (Front(), Back(), sent) == RunPipe(mode, plc.p, front, back, raws[..i])
      {
        ghost var f, b, before := Front(), Back(), sent;
        var ret, more := OnFrame(raws[i]);
        sent := sent.Then(more);
        OneFrameMore(mode, plc.p, front, back, raws, i, f, b, before);
      }
      assert raws[..|raws|] == raws;
    }
  }

  /** `rtp_l24_build` into a packet's own buffer. */
  method BuildRtp(mode: Mode, p: RtpParams, pcm: Bytes) returns (n: int, pkt: Bytes)
    requires mode.Fits() && IsPlanar(pcm, mode.nch, mode.sps)
    ensures n > 0 && pkt == RtpPacket(mode, p, pcm)
  {
    PacketFits(mode);
    var out := new u8[RTP_CAP](_ => 0);
    n := BuildFlow(out, RTP_CAP, p, pcm, mode.nch, 0, mode.nch, mode.sps);
    MulMono(1, mode.nch, mode.sps);
    pkt := out[..n];
  }

  /** `reac_decode` into a frame's own buffer. */
  method DecodeFrame(raw: Bytes, mode: Mode) returns (ns: int, pcm: Bytes)
    requires mode.Fits()
    ensures ns == if Inspect(raw).valid then mode.sps else -1
    ensures ns < 0 <==> !IsReacFrame(raw)
    ensures Inspect(raw).valid ==> pcm == Decoded(raw, mode)
  {
    PacketFits(mode);
    var out := new u8[PCM_CAP](_ => 0);
    ns := Decode(raw, mode, out);
    pcm := out[..3 * (mode.nch * mode.sps)];
  }

  /** The packet that fills loss i, and the worst tier it took. */
  method ConcealPacket(plc: C.Plc, mode: Mode, i: nat) returns (pcm: Bytes, tier: Tier)
    requires plc.Valid() && Geometry(mode, plc.p)
    ensures pcm == Fill(plc.p, plc.Remembered(), i)
    ensures tier == C.WorstTier(plc.p, plc.Remembered(), i, plc.p.nch)
  {
    PacketFits(mode);
    var cpcm := new u8[PCM_CAP](_ => 0);
    tier := plc.Conceal(cpcm, i);
    pcm := cpcm[..3 * (mode.nch * mode.sps)];
    FillIsUnique(plc.p, plc.Remembered(), i, pcm);
  }

  /** One frame's packet never outgrows the packet buffer. */
  lemma PacketFits(mode: Mode)
    requires mode.Fits()
    ensures RTP_HEADER_LEN + mode.nch * mode.sps * 3 <= RTP_CAP
    ensures 3 * (mode.nch * mode.sps) <= PCM_CAP
    ensures 0 <= mode.nch * mode.sps
  {
    MulMono(mode.nch, 40, mode.sps);
    MulMono(0, mode.nch, mode.sps);
  }
}
