/** Aggregation of decoded frames into per-flow RTP packets (src/packetizer.c). */
module Packetizer {
  import opened Words
  import opened Sample24
  import opened Reac
  import opened RtpL24

  const MAX_FPP := 4
  const PKT_CAP := 11532

  /** A contiguous channel slice with its own RTP identity. */
  datatype Flow = Flow(chStart: int, nCh: int, payloadType: u8, ssrc: u32, seqno: u16)

  /** One call of the emit callback. */
  datatype Emit = Emit(flow: nat, pkt: Bytes, concealed: bool)

  // ----- flow layout --------------------------------------------------------

  /** Flows that cut [0, nch) into contiguous, non-empty slices, all `width` wide but perhaps the last. */
  ghost predicate Partition(flows: seq<Flow>, nch: int, width: int)
  {
    && |flows| > 0
    && flows[0].chStart == 0
    && (forall i :: 0 <= i < |flows| ==> 1 <= flows[i].nCh <= width)
    && (forall i :: 0 <= i < |flows| - 1 ==> flows[i + 1].chStart == flows[i].chStart + flows[i].nCh && flows[i].nCh == width)
    && flows[|flows| - 1].chStart + flows[|flows| - 1].nCh == nch
  }

  /** `dante_build_flows`: the number of flows written, or -1 with nothing written. */
  method BuildFlows(flows: array<Flow>, max: nat, nChannels: int, chPerFlow: int, payloadType: u8, ssrcBase: u32)
    returns (n: int)
    requires max <= flows.Length
    modifies flows
    ensures n == -1 || (0 < n <= max && Partition(flows[..n], nChannels, chPerFlow))
    ensures n == -1 <==> chPerFlow <= 0 || nChannels <= 0 || nChannels > max * chPerFlow
    ensures n == -1 ==> flows[..] == old(flows[..])
    ensures n != -1 ==> flows[n..] == old(flows[n..])
    ensures forall i :: 0 <= i < n ==>
              flows[i].payloadType == payloadType && flows[i].ssrc == (ssrcBase + i) % U32 && flows[i].seqno == 0
  {
    if chPerFlow <= 0 || nChannels <= 0 {
      return -1;
    }
    n := (nChannels + chPerFlow - 1) / chPerFlow;
    CeilingDivides(nChannels, chPerFlow, max);
    if n > max {
      return -1;
    }
    WriteFlows(flows, n, nChannels, chPerFlow, payloadType, ssrcBase);
    BuiltPartition(flows[..n], nChannels, chPerFlow, payloadType, ssrcBase);
  }

  /** The loop of `dante_build_flows`. */
  method WriteFlows(flows: array<Flow>, n: nat, nChannels: int, chPerFlow: int, payloadType: u8, ssrcBase: u32)
    requires n <= flows.Length
    modifies flows
    ensures forall k :: 0 <= k < n ==> FlowBuilt(flows[k], k, nChannels, chPerFlow, payloadType, ssrcBase)
    ensures flows[n..] == old(flows[n..])
  {
    for i := 0 to n
      invariant forall k :: 0 <= k < i ==> FlowBuilt(flows[k], k, nChannels, chPerFlow, payloadType, ssrcBase)
      invariant forall k :: n <= k < flows.Length ==> flows[k] == old(flows[k])
    {
      SliceStartIs(i, chPerFlow);
      var start := i * chPerFlow;
      var width := nChannels - start;
      if width > chPerFlow {
        width := chPerFlow;
      }
      flows[i] := Flow(start, width, payloadType, (ssrcBase + i) % U32, 0);
    }
  }

  lemma BuiltPartition(flows: seq<Flow>, nch: int, width: int, payloadType: u8, ssrcBase: u32)
    requires |flows| > 0 && width > 0 && (|flows| - 1) * width < nch <= |flows| * width
    requires forall k :: 0 <= k < |flows| ==> FlowBuilt(flows[k], k, nch, width, payloadType, ssrcBase)
    ensures Partition(flows, nch, width)
  {
    SliceStartIs(|flows| - 1, width);
    SliceStartIs(|flows|, width);
    SlicesPartition(flows, nch, width);
  }

  ghost predicate FlowBuilt(fl: Flow, k: nat, nch: int, width: int, payloadType: u8, ssrcBase: u32)
  {
    && fl.chStart == SliceStart(k, width) && fl.nCh == Min(nch - fl.chStart, width)
    && fl.payloadType == payloadType && fl.ssrc == (ssrcBase + k) % U32 && fl.seqno == 0
  }

  ghost function SliceStart(k: nat, width: int): int
  {
    if k == 0 then 0 else SliceStart(k - 1, width) + width
  }

  lemma {:induction false} SliceStartIs(k: nat, width: int)
    ensures SliceStart(k, width) == k * width
  {
    if k > 0 {
      SliceStartIs(k - 1, width);
      assert k * width == (k - 1) * width + width;
    }
  }

  lemma {:induction false} SliceStartRises(i: nat, k: nat, width: int)
    requires i <= k && width > 0
    ensures SliceStart(i, width) <= SliceStart(k, width)
  {
    if i < k { SliceStartRises(i, k - 1, width); }
  }

  lemma CeilingDivides(a: int, b: int, max: nat)
    requires a > 0 && b > 0
    ensures var n := (a + b - 1) / b; n > 0 && (n - 1) * b < a <= n * b && (n > max <==> a > max * b)
  {
    var n := (a + b - 1) / b;
    assert a + b - 1 == n * b + (a + b - 1) % b;
    assert (n - 1) * b == n * b - b;
    DivLower(a + b - 1, b, 1);
    if n > max { MulMono(max, n - 1, b); } else { MulMono(n, max, b); }
  }

  lemma SlicesPartition(flows: seq<Flow>, nch: int, width: int)
    requires |flows| > 0 && width > 0 && SliceStart(|flows| - 1, width) < nch <= SliceStart(|flows|, width)
    requires forall k :: 0 <= k < |flows| ==>
               flows[k].chStart == SliceStart(k, width) && flows[k].nCh == Min(nch - flows[k].chStart, width)
    ensures Partition(flows, nch, width)
  {
    var n := |flows|;
    assert SliceStart(n, width) == SliceStart(n - 1, width) + width;
    forall i | 0 <= i < n
      ensures 1 <= flows[i].nCh <= width
      ensures i < n - 1 ==> flows[i + 1].chStart == flows[i].chStart + flows[i].nCh && flows[i].nCh == width
    {
      SliceStartRises(i, n - 1, width);
      if i < n - 1 {
        SliceStartRises(i + 1, n - 1, width);
        assert SliceStart(i + 1, width) == SliceStart(i, width) + width;
      }
    }
    forall i | 0 <= i < n - 1
      ensures flows[i + 1].chStart == flows[i].chStart + flows[i].nCh && flows[i].nCh == width
    {
    }
  }

  /** Every channel lies in exactly one flow of a partition. */
  lemma {:induction false} PartitionCovers(flows: seq<Flow>, nch: int, width: int, ch: int) returns (i: nat)
    requires Partition(flows, nch, width) && 0 <= ch < nch
    ensures i < |flows| && flows[i].chStart <= ch < flows[i].chStart + flows[i].nCh
    ensures forall k :: 0 <= k < |flows| && k != i ==> !(flows[k].chStart <= ch < flows[k].chStart + flows[k].nCh)
  {
    i := |flows| - 1;
    while flows[i].chStart > ch
      invariant i < |flows| && flows[i].chStart + flows[i].nCh > ch
    {
      i := i - 1;
    }
    forall k | 0 <= k < |flows| && k != i
      ensures !(flows[k].chStart <= ch < flows[k].chStart + flows[k].nCh)
    {
      if k < i { SlicesOrdered(flows, nch, width, k, i); } else { SlicesOrdered(flows, nch, width, i, k); }
    }
  }

  lemma {:induction false} SlicesOrdered(flows: seq<Flow>, nch: int, width: int, i: nat, k: nat)
    requires Partition(flows, nch, width) && i < k < |flows|
    ensures flows[i].chStart + flows[i].nCh <= flows[k].chStart
    decreases k - i
  {
    if i + 1 < k { SlicesOrdered(flows, nch, width, i + 1, k); }
  }

  // ----- specification ------------------------------------------------------

  /** The packetizer's state: the frames waiting in the window, and the flows. */
  datatype PkState = PkState(mode: Mode, fpp: nat, frames: seq<Bytes>, ts: u32, concealed: bool, flows: seq<Flow>)
  {
    ghost predicate Valid()
    {
      && mode.nch <= MAX_CHANNELS && 1 <= mode.sps <= 24 && 1 <= fpp <= MAX_FPP && |frames| < fpp
      && AllPlanar(mode, frames)
    }
  }

  ghost predicate AllPlanar(mode: Mode, frames: seq<Bytes>)
  {
    forall f :: 0 <= f < |frames| ==> IsPlanar(frames[f], mode.nch, mode.sps)
  }

  /** Sample g of channel c over consecutive frames. */
  ghost function FrameSample(mode: Mode, frames: seq<Bytes>, c: nat, g: nat): Sample3
    requires AllPlanar(mode, frames) && c < mode.nch && g < |frames| * mode.sps
  {
    RowIndex(|frames|, mode.sps, g);
    PlanarAt(frames[g / mode.sps], mode.nch, mode.sps, c, g % mode.sps)
  }

  /** The frames of a window laid end to end, channel by channel. */
  ghost function Window(mode: Mode, frames: seq<Bytes>): (b: Bytes)
    requires AllPlanar(mode, frames)
    ensures IsPlanar(b, mode.nch, |frames| * mode.sps)
    ensures forall c, g :: 0 <= c < mode.nch && 0 <= g < |frames| * mode.sps ==>
              PlanarAt(b, mode.nch, |frames| * mode.sps, c, g) == FrameSample(mode, frames, c, g)
  {
    MulMono(0, |frames|, mode.sps);
    Block(mode.nch, |frames| * mode.sps, (c: nat, g: nat) requires AllPlanar(mode, frames) && c < mode.nch && g < |frames| * mode.sps =>
      FrameSample(mode, frames, c, g))
  }

  predicate FlowOk(fl: Flow, mode: Mode, total: nat)
  {
    SliceOk(mode.nch, fl.chStart, fl.nCh, total)
  }

  /** The packet a flow makes of a full window. */
  ghost function FlowPacket(fl: Flow, mode: Mode, total: nat, ts: u32, window: Bytes): Bytes
    requires FlowOk(fl, mode, total) && IsPlanar(window, mode.nch, total)
  {
    Header(RtpParams(fl.payloadType, fl.seqno, ts, fl.ssrc)) + Payload(window, mode.nch, fl.chStart, fl.nCh, total)
  }

  function NextFlow(fl: Flow, mode: Mode, total: nat): Flow
  {
    if FlowOk(fl, mode, total) then fl.(seqno := (fl.seqno + 1) % U16) else fl
  }

  function NextFlows(flows: seq<Flow>, mode: Mode, total: nat): (r: seq<Flow>)
    ensures |r| == |flows| && forall i :: 0 <= i < |flows| ==> r[i] == NextFlow(flows[i], mode, total)
  {
    seq(|flows|, i requires 0 <= i < |flows| => NextFlow(flows[i], mode, total))
  }

  /** What one flow emits for a window: nothing when its slice does not exist. */
  ghost function EmitOf(fl: Flow, i: nat, mode: Mode, total: nat, ts: u32, concealed: bool, window: Bytes): seq<Emit>
    requires IsPlanar(window, mode.nch, total)
  {
    if FlowOk(fl, mode, total) then [Emit(i, FlowPacket(fl, mode, total, ts, window), concealed)] else []
  }

  /** The emits of the first n flows for one window. */
  ghost function Emits(flows: seq<Flow>, n: nat, mode: Mode, total: nat, ts: u32, concealed: bool, window: Bytes): seq<Emit>
    requires n <= |flows| && IsPlanar(window, mode.nch, total)
  {
    if n == 0 then []
    else
      Emits(flows, n - 1, mode, total, ts, concealed, window)
      + EmitOf(flows[n - 1], n - 1, mode, total, ts, concealed, window)
  }

  /** Accepting one frame: buffered, or the window sent on every flow and emptied. */
  ghost function PushFrame(pk: PkState, frame: Bytes, ts: u32, concealed: bool): (PkState, seq<Emit>)
    requires pk.Valid() && IsPlanar(frame, pk.mode.nch, pk.mode.sps)
  {
    var first := |pk.frames| == 0;
    var pk' := pk.(frames := pk.frames + [frame],
                   ts := if first then ts else pk.ts,
                   concealed := if first then concealed else pk.concealed || concealed);
    if |pk'.frames| < pk.fpp then (pk', [])
    else
      var total := pk.fpp * pk.mode.sps;
      (pk'.(frames := [], flows := NextFlows(pk.flows, pk.mode, total)),
       Emits(pk.flows, |pk.flows|, pk.mode, total, pk'.ts, pk'.concealed, Window(pk.mode, pk'.frames)))
  }

  // ----- the packetizer -----------------------------------------------------

  class Packetizer {
    const mode: Mode
    const fpp: nat
    var framesBuffered: nat
    var pendingTs: u32
    var pendingConcealed: bool
    const flows: array<Flow>
    const nFlows: nat
    const planar: array<u8>
    /** The frames behind the bytes in `planar`. */
    ghost var frames: seq<Bytes>

    ghost predicate Valid()
      reads this, planar
    {
      && mode.nch <= MAX_CHANNELS && 1 <= mode.sps <= 24 && 1 <= fpp <= MAX_FPP
      && nFlows <= flows.Length && planar.Length == 11520
      && |frames| == framesBuffered < fpp
      && (AllPlanar(mode, frames))
      && Buffered(mode, fpp, frames, planar[..])
    }

    ghost function State(): PkState
      reads this, flows
      requires nFlows <= flows.Length
    {
      PkState(mode, fpp, frames, pendingTs, pendingConcealed, flows[..nFlows])
    }

    constructor (mode: Mode, framesPerPacket: int, flows: array<Flow>, nFlows: nat)
      requires mode.nch <= MAX_CHANNELS && 1 <= mode.sps <= 24 && nFlows <= flows.Length
      ensures Valid() && fresh(planar) && this.flows == flows
      ensures State() == PkState(mode, if framesPerPacket < 1 then 1 else if framesPerPacket > 4 then 4 else framesPerPacket,
                                 [], 0, false, flows[..nFlows])
    {
      var f := framesPerPacket;
      if f < 1 {
        f := 1;
      }
      if f > MAX_FPP {
        f := MAX_FPP;
      }
      this.mode := mode;
      fpp := f;
      framesBuffered, pendingTs, pendingConcealed := 0, 0, false;
      this.flows, this.nFlows := flows, nFlows;
      planar := new u8[11520](_ => 0);
      frames := [];
      WindowFits(mode, f);
    }

    /** The per-channel copies of one frame into the window, at its sample offset. */
    method AppendFrame(frame: Bytes)
      requires Valid() && IsPlanar(frame, mode.nch, mode.sps)
      modifies planar
      ensures Buffered(mode, fpp, frames + [frame], planar[..])
    {
      for c := 0 to mode.nch
        invariant Appended(mode, fpp, frames, frame, planar[..], c)
      {
        CopyRow(frame, c);
      }
    }

    /** Channel c's samples of one frame, copied. */
    method CopyRow(frame: Bytes, c: nat)
      requires |frames| == framesBuffered && c < mode.nch && 1 <= mode.sps
      requires Appended(mode, fpp, frames, frame, planar[..], c)
      modifies planar
      ensures Appended(mode, fpp, frames, frame, planar[..], c + 1)
    {
      var f, sps := framesBuffered, mode.sps;
      var total := fpp * sps;
      RowPlace(mode.nch, fpp, sps, f, c);
      var at, from := c * total + f * sps, c * sps;
      ghost var was := planar[..];
      CopyBytes(planar, at * 3, frame, from * 3, sps * 3);
      CopiedBytesAreSamples(was, planar[..], at, frame, from, sps);
      AppendedStep(mode, fpp, frames, frame, was, planar[..], c);
    }

    /** One RTP packet per flow, of its slice of the full window. */
    method SendWindow() returns (emits: seq<Emit>)
      requires mode.nch <= MAX_CHANNELS && 1 <= mode.sps <= 24 && 1 <= fpp <= MAX_FPP && nFlows <= flows.Length
      requires |frames| == fpp && Buffered(mode, fpp, frames, planar[..])
      modifies flows
      ensures emits == Emits(old(flows[..nFlows]), nFlows, mode, fpp * mode.sps, pendingTs, pendingConcealed, Window(mode, frames))
      ensures forall i :: 0 <= i < nFlows ==> flows[i] == NextFlow(old(flows[i]), mode, fpp * mode.sps)
    {
      var total := fpp * mode.sps;
      ghost var was := flows[..nFlows];
      BufferedIsWindow(mode, fpp, frames, planar[..]);
      var window := planar[..3 * (mode.nch * total)];
      emits := [];
      for i := 0 to nFlows
        invariant emits == Emits(was, i, mode, total, pendingTs, pendingConcealed, window)
        invariant forall k :: 0 <= k < i ==> flows[k] == NextFlow(was[k], mode, total)
        invariant forall k :: i <= k < nFlows ==> flows[k] == was[k]
      {
        var e := SendFlow(i, window);
        emits := emits + e;
      }
    }

    /** One flow's packet, and the step of its sequence number. */
    method SendFlow(i: nat, window: Bytes) returns (emits: seq<Emit>)
      requires mode.nch <= MAX_CHANNELS && 1 <= mode.sps <= 24 && 1 <= fpp <= MAX_FPP && i < nFlows <= flows.Length
      requires IsPlanar(window, mode.nch, fpp * mode.sps)
      modifies flows
      ensures emits == EmitOf(old(flows[i]), i, mode, fpp * mode.sps, pendingTs, pendingConcealed, window)
      ensures flows[i] == NextFlow(old(flows[i]), mode, fpp * mode.sps)
      ensures forall k :: 0 <= k < flows.Length && k != i ==> flows[k] == old(flows[k])
    {
      var fl := flows[i];
      var total := fpp * mode.sps;
      var p := RtpParams(fl.payloadType, fl.seqno, pendingTs, fl.ssrc);
      var pkt := new u8[PKT_CAP](_ => 0);
      var n := BuildFlow(pkt, PKT_CAP, p, window, mode.nch, fl.chStart, fl.nCh, total);
      if FlowOk(fl, mode, total) { PacketFits(mode, fpp, fl); }
      emits := [];
      if n > 0 {
        emits := [Emit(i, pkt[..n], pendingConcealed)];
        flows[i] := fl.(seqno := (fl.seqno + 1) % U16);
      }
    }

    /** `packetizer_push` */
    method Push(frame: Bytes, ts: u32, concealed: bool) returns (emits: seq<Emit>)
      requires Valid() && IsPlanar(frame, mode.nch, mode.sps)
      modifies this, planar, flows
      ensures Valid()
      ensures (State(), emits) == PushFrame(old(State()), frame, ts, concealed)
    {
      ghost var pk := State();
      if framesBuffered == 0 {
        pendingTs := ts;
        pendingConcealed := false;
      }
      pendingConcealed := pendingConcealed || concealed;
      AppendFrame(frame);
      framesBuffered := framesBuffered + 1;
      frames := frames + [frame];
      if framesBuffered < fpp {
        return [];
      }
      emits := SendWindow();
      framesBuffered := 0;
      frames := [];
      assert flows[..nFlows] == NextFlows(pk.flows, mode, fpp * mode.sps);
    }
  }

  // ----- the window buffer --------------------------------------------------

  lemma WindowFits(mode: Mode, fpp: nat)
    requires mode.nch <= MAX_CHANNELS && 1 <= mode.sps <= 24 && fpp <= MAX_FPP
    ensures 3 * (mode.nch * (fpp * mode.sps)) <= 11520
  {
    MulMono(fpp, 4, mode.sps);
    MulMono(mode.nch, 40, fpp * mode.sps);
  }

  lemma FrameFits(fpp: nat, sps: nat, f: nat)
    requires f < fpp && sps > 0
    ensures 0 <= f * sps && f * sps + sps <= fpp * sps
  {
    PlanarBounds(fpp, sps, f, 0);
  }

  /** Where channel c of frame f goes in the window, and where it comes from. */
  lemma RowPlace(nch: nat, fpp: nat, sps: nat, f: nat, c: nat)
    requires f < fpp && c < nch && sps > 0
    ensures 0 <= c * (fpp * sps) + f * sps && c * (fpp * sps) + f * sps + sps <= nch * (fpp * sps)
    ensures 0 <= c * sps && c * sps + sps <= nch * sps
  {
    FrameFits(fpp, sps, f);
    PlanarBounds(nch, fpp * sps, c, f * sps);
    PlanarBounds(nch, sps, c, 0);
  }

  /** Sample s of frame f of channel c, in a window fpp frames long. */
  ghost function WindowAt(planar: Bytes, mode: Mode, fpp: nat, f: nat, c: nat, s: nat): Sample3
    requires f < fpp && c < mode.nch && s < mode.sps && |planar| >= 3 * (mode.nch * (fpp * mode.sps))
  {
    FrameFits(fpp, mode.sps, f);
    PlanarAt(planar, mode.nch, fpp * mode.sps, c, f * mode.sps + s)
  }

  /** The buffer holds these frames. */
  ghost predicate Buffered(mode: Mode, fpp: nat, frames: seq<Bytes>, planar: Bytes)
  {
    && |frames| <= fpp && 3 * (mode.nch * (fpp * mode.sps)) <= |planar|
    && (AllPlanar(mode, frames))
    && forall f, c, s :: 0 <= f < |frames| && 0 <= c < mode.nch && 0 <= s < mode.sps ==>
         WindowAt(planar, mode, fpp, f, c, s) == PlanarAt(frames[f], mode.nch, mode.sps, c, s)
  }

  /** The buffer holds these frames, and the first n channels of one more. */
  ghost predicate Appended(mode: Mode, fpp: nat, frames: seq<Bytes>, frame: Bytes, planar: Bytes, n: nat)
  {
    && Buffered(mode, fpp, frames, planar) && |frames| < fpp && IsPlanar(frame, mode.nch, mode.sps)
    && forall c, s :: 0 <= c < n && c < mode.nch && 0 <= s < mode.sps ==>
         WindowAt(planar, mode, fpp, |frames|, c, s) == PlanarAt(frame, mode.nch, mode.sps, c, s)
  }

  /** A flow's packet never outgrows the packet buffer. */
  lemma PacketFits(mode: Mode, fpp: nat, fl: Flow)
    requires mode.nch <= MAX_CHANNELS && 1 <= mode.sps <= 24 && fpp <= MAX_FPP && FlowOk(fl, mode, fpp * mode.sps)
    ensures RTP_HEADER_LEN + fl.nCh * (fpp * mode.sps) * 3 <= PKT_CAP
  {
    WindowFits(mode, fpp);
    MulMono(fl.nCh, mode.nch, fpp * mode.sps);
  }

  lemma BufferedSample(mode: Mode, fpp: nat, frames: seq<Bytes>, planar: Bytes, c: nat, g: nat)
    requires |frames| == fpp && Buffered(mode, fpp, frames, planar)
    requires c < mode.nch && g < fpp * mode.sps
    ensures PlanarAt(planar, mode.nch, fpp * mode.sps, c, g) == FrameSample(mode, frames, c, g)
  {
    RowIndex(fpp, mode.sps, g);
    var f, s := g / mode.sps, g % mode.sps;
    assert g == f * mode.sps + s;
    assert WindowAt(planar, mode, fpp, f, c, s) == PlanarAt(frames[f], mode.nch, mode.sps, c, s);
  }

  /** A full buffer is its window, byte for byte. */
  lemma BufferedIsWindow(mode: Mode, fpp: nat, frames: seq<Bytes>, planar: Bytes)
    requires mode.sps > 0 && |frames| == fpp && Buffered(mode, fpp, frames, planar)
    ensures planar[..3 * (mode.nch * (fpp * mode.sps))] == Window(mode, frames)
  {
    var total := fpp * mode.sps;
    var n := 3 * (mode.nch * total);
    forall c, g | 0 <= c < mode.nch && 0 <= g < total
      ensures PlanarAt(planar[..n], mode.nch, total, c, g) == PlanarAt(Window(mode, frames), mode.nch, total, c, g)
    {
      PlanarPrefix(planar, n, mode.nch, total, c, g);
      BufferedSample(mode, fpp, frames, planar, c, g);
    }
    PlanarEqual(planar[..n], Window(mode, frames), mode.nch, total);
  }

  /** The samples of frame F of channel c, and every other sample in the window, sit apart. */
  lemma SamplesApart(sps: nat, fpp: nat, F: nat, c: nat, f: nat, c': nat, s: nat)
    requires f < fpp && F < fpp && s < sps && (c' != c || f < F)
    ensures var total := fpp * sps; var at := c * total + F * sps; var i := c' * total + (f * sps + s);
            i < at || at + sps <= i
  {
    var total := fpp * sps;
    FrameFits(fpp, sps, f);
    FrameFits(fpp, sps, F);
    if c' == c {
      MulMono(f + 1, F, sps);
      assert (f + 1) * sps == f * sps + sps;
    } else if c' < c {
      MulMono(c' + 1, c, total);
      assert (c' + 1) * total == c' * total + total;
    } else {
      MulMono(c + 1, c', total);
      assert (c + 1) * total == c * total + total;
    }
  }

  /** `memcpy` */
  method CopyBytes(out: array<u8>, dst: nat, src: Bytes, from: nat, n: nat)
    requires dst + n <= out.Length && from + n <= |src|
    modifies out
    ensures out[..] == old(out[..dst]) + src[from..from + n] + old(out[dst + n..])
  {
    forall i | 0 <= i < n {
      out[dst + i] := src[from + i];
    }
  }

  lemma CopiedBytesAreSamples(before: Bytes, after: Bytes, at: nat, src: Bytes, from: nat, n: nat)
    requires 3 * (at + n) <= |before| && 3 * (from + n) <= |src|
    requires after == before[..3 * at] + src[3 * from..3 * from + 3 * n] + before[3 * at + 3 * n..]
    ensures SamplesCopied(before, after, at, src, from, n)
  {
    forall i | at <= i < at + n ensures SampleBytes(after, i) == SampleBytes(src, i - at + from) {
      var j, k := 3 * i, 3 * (i - at + from);
      assert after[j] == src[k] && after[j + 1] == src[k + 1] && after[j + 2] == src[k + 2];
    }
    forall i | 0 <= i && 3 * i + 3 <= |after| && (i < at || at + n <= i)
      ensures SampleBytes(after, i) == SampleBytes(before, i)
    {
    }
  }

  /** n samples copied, the rest of the block untouched. */
  ghost predicate SamplesCopied(before: Bytes, after: Bytes, at: nat, src: Bytes, from: nat, n: nat)
  {
    && |after| == |before| && 3 * (at + n) <= |after| && 3 * (from + n) <= |src|
    && (forall i :: at <= i < at + n ==> SampleBytes(after, i) == SampleBytes(src, i - at + from))
    && (forall i :: 0 <= i && 3 * i + 3 <= |after| && (i < at || at + n <= i) ==> SampleBytes(after, i) == SampleBytes(before, i))
  }

  lemma AppendedStep(mode: Mode, fpp: nat, frames: seq<Bytes>, frame: Bytes, before: Bytes, after: Bytes, c: nat)
    requires Appended(mode, fpp, frames, frame, before, c) && c < mode.nch && mode.sps > 0
    requires 0 <= c * (fpp * mode.sps) + |frames| * mode.sps && 0 <= c * mode.sps
    requires SamplesCopied(before, after, c * (fpp * mode.sps) + |frames| * mode.sps, frame, c * mode.sps, mode.sps)
    ensures Appended(mode, fpp, frames, frame, after, c + 1)
  {
    forall f, c', s | 0 <= f < |frames| && 0 <= c' < mode.nch && 0 <= s < mode.sps
      ensures WindowAt(after, mode, fpp, f, c', s) == WindowAt(before, mode, fpp, f, c', s)
    {
      KeptSample(mode, fpp, frames, frame, before, after, c, f, c', s);
    }
    forall c', s | 0 <= c' < c + 1 && 0 <= s < mode.sps
      ensures WindowAt(after, mode, fpp, |frames|, c', s) == PlanarAt(frame, mode.nch, mode.sps, c', s)
    {
      if c' < c {
        KeptSample(mode, fpp, frames, frame, before, after, c, |frames|, c', s);
      } else {
        FrameFits(fpp, mode.sps, |frames|);
        PlanarBounds(mode.nch, fpp * mode.sps, c, |frames| * mode.sps + s);
        PlanarBounds(mode.nch, mode.sps, c, s);
      }
    }
  }

  lemma KeptSample(mode: Mode, fpp: nat, frames: seq<Bytes>, frame: Bytes, before: Bytes, after: Bytes, c: nat, f: nat, c': nat, s: nat)
    requires |frames| < fpp && c < mode.nch && 3 * (mode.nch * (fpp * mode.sps)) <= |before|
    requires 0 <= c * (fpp * mode.sps) + |frames| * mode.sps && 0 <= c * mode.sps
    requires SamplesCopied(before, after, c * (fpp * mode.sps) + |frames| * mode.sps, frame, c * mode.sps, mode.sps)
    requires f <= |frames| && c' < mode.nch && s < mode.sps && (c' != c || f < |frames|)
    ensures WindowAt(after, mode, fpp, f, c', s) == WindowAt(before, mode, fpp, f, c', s)
  {
    SamplesApart(mode.sps, fpp, |frames|, c, f, c', s);
    FrameFits(fpp, mode.sps, f);
    PlanarBounds(mode.nch, fpp * mode.sps, c', f * mode.sps + s);
  }
}
