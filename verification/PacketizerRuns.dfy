/** What a run of frames through the packetizer sends, packet by packet. */
module PacketizerRuns {
  import opened Words
  import opened Sample24
  import opened Reac
  import opened RtpL24
  import opened Packetizer

  /** One frame of the timeline: its planar block, its timestamp, and whether it is loss fill. */
  datatype PcmEvent = PcmEvent(pcm: Bytes, ts: u32, concealed: bool)

  ghost predicate Events(mode: Mode, es: seq<PcmEvent>)
  {
    forall k :: 0 <= k < |es| ==> IsPlanar(es[k].pcm, mode.nch, mode.sps)
  }

  function Pcms(es: seq<PcmEvent>): (fs: seq<Bytes>)
    ensures |fs| == |es| && forall k :: 0 <= k < |es| ==> fs[k] == es[k].pcm
  {
    seq(|es|, k requires 0 <= k < |es| => es[k].pcm)
  }

  ghost predicate AnyConcealed(es: seq<PcmEvent>)
  {
    exists k :: 0 <= k < |es| && es[k].concealed
  }

  /** The packetizer after a run of frames, and everything it emitted. */
  ghost function RunPk(pk: PkState, es: seq<PcmEvent>): (r: (PkState, seq<Emit>))
    requires pk.Valid() && Events(pk.mode, es)
    ensures r.0.Valid() && r.0.mode == pk.mode && r.0.fpp == pk.fpp
  {
    if es == [] then (pk, [])
    else
      var n := |es| - 1;
      var (pk', out) := RunPk(pk, es[..n]);
      var (pk'', more) := PushFrame(pk', es[n].pcm, es[n].ts, es[n].concealed);
      (pk'', out + more)
  }

  // ----- closed form --------------------------------------------------------

  /** The flows after j windows: every flow that exists has sent j packets. */
  function FlowAt(fl: Flow, mode: Mode, total: nat, j: nat): Flow
  {
    if FlowOk(fl, mode, total) then fl.(seqno := (fl.seqno + j) % U16) else fl
  }

  function FlowsAt(flows: seq<Flow>, mode: Mode, total: nat, j: nat): (r: seq<Flow>)
    ensures |r| == |flows| && forall i :: 0 <= i < |flows| ==> r[i] == FlowAt(flows[i], mode, total, j)
  {
    seq(|flows|, i requires 0 <= i < |flows| => FlowAt(flows[i], mode, total, j))
  }

  lemma FlowsStep(flows: seq<Flow>, mode: Mode, total: nat, j: nat)
    ensures NextFlows(FlowsAt(flows, mode, total, j), mode, total) == FlowsAt(flows, mode, total, j + 1)
  {
    forall i | 0 <= i < |flows|
      ensures NextFlow(FlowAt(flows[i], mode, total, j), mode, total) == FlowAt(flows[i], mode, total, j + 1)
    {
      ModAdd(flows[i].seqno + j, 1, U16);
    }
  }

  /** What the flows emit for one window of frames, having sent j packets before. */
  ghost function WindowEmits(pk: PkState, win: seq<PcmEvent>, j: nat): seq<Emit>
    requires Events(pk.mode, win) && |win| == pk.fpp > 0
  {
    var total := pk.fpp * pk.mode.sps;
    Emits(FlowsAt(pk.flows, pk.mode, total, j), |pk.flows|, pk.mode, total,
          win[0].ts, AnyConcealed(win), Window(pk.mode, Pcms(win)))
  }

  /** The frames of window j. */
  ghost function WindowOf(es: seq<PcmEvent>, fpp: nat, j: nat): (win: seq<PcmEvent>)
    requires Times(j + 1, fpp) <= |es|
    ensures |win| == fpp
  {
    es[Times(j, fpp)..Times(j + 1, fpp)]
  }

  ghost function AllEmits(pk: PkState, es: seq<PcmEvent>, w: nat): seq<Emit>
    requires pk.fpp > 0 && Events(pk.mode, es) && Times(w, pk.fpp) <= |es|
  {
    if w == 0 then []
    else AllEmits(pk, es, w - 1) + WindowEmits(pk, WindowOf(es, pk.fpp, w - 1), w - 1)
  }

  lemma {:induction false} AllEmitsPrefix(pk: PkState, es: seq<PcmEvent>, n: nat, w: nat)
    requires pk.fpp > 0 && Events(pk.mode, es) && n <= |es| && Times(w, pk.fpp) <= n
    ensures AllEmits(pk, es[..n], w) == AllEmits(pk, es, w)
  {
    if w > 0 {
      AllEmitsPrefix(pk, es, n, w - 1);
      assert WindowOf(es[..n], pk.fpp, w - 1) == WindowOf(es, pk.fpp, w - 1);
    }
  }

  /** pk' is pk after w full windows and the frames `rest` of the next one. */
  ghost predicate Stands(pk: PkState, pk': PkState, w: nat, rest: seq<PcmEvent>)
  {
    && pk'.mode == pk.mode && pk'.fpp == pk.fpp
    && pk'.frames == Pcms(rest)
    && pk'.flows == FlowsAt(pk.flows, pk.mode, pk.fpp * pk.mode.sps, w)
    && (rest != [] ==> pk'.ts == rest[0].ts && pk'.concealed == AnyConcealed(rest))
  }

  /** pk' and out are what pk turns into when the open window w has grown to `win`. */
  ghost predicate Grown(pk: PkState, pk': PkState, w: nat, win: seq<PcmEvent>, out: seq<Emit>)
    requires Events(pk.mode, win) && 0 < |win| <= pk.fpp
  {
    if |win| < pk.fpp then out == [] && Stands(pk, pk', w, win)
    else out == WindowEmits(pk, win, w) && Stands(pk, pk', w + 1, [])
  }

  /** One more frame: it joins the window, or completes it and the window goes out. */
  lemma PushStands(pk: PkState, pk': PkState, w: nat, rest: seq<PcmEvent>, e: PcmEvent)
    requires pk.Valid() && pk'.Valid() && Stands(pk, pk', w, rest) && IsPlanar(e.pcm, pk.mode.nch, pk.mode.sps)
    requires Events(pk.mode, rest)
    ensures Grown(pk, PushFrame(pk', e.pcm, e.ts, e.concealed).0, w, rest + [e], PushFrame(pk', e.pcm, e.ts, e.concealed).1)
  {
    var win := rest + [e];
    assert Pcms(win) == pk'.frames + [e.pcm];
    assert AnyConcealed(win) == (AnyConcealed(rest) || e.concealed) by {
      assert win[|rest|] == e;
      assert forall k :: 0 <= k < |rest| ==> win[k] == rest[k];
    }
    assert win[0].ts == if rest == [] then e.ts else rest[0].ts;
    FlowsStep(pk.flows, pk.mode, pk.fpp * pk.mode.sps, w);
  }

  lemma FlowsFresh(flows: seq<Flow>, mode: Mode, total: nat)
    ensures FlowsAt(flows, mode, total, 0) == flows
  {
  }

  /** How many full windows fit in n frames. */
  ghost predicate FullWindows(n: nat, fpp: nat, w: nat)
  {
    Times(w, fpp) <= n < Times(w, fpp) + fpp
  }

  /** The state and output of a run, described by its full windows. */
  ghost predicate RunIs(pk: PkState, es: seq<PcmEvent>, w: nat, pk': PkState, out: seq<Emit>)
    requires pk.Valid() && Events(pk.mode, es)
  {
    && FullWindows(|es|, pk.fpp, w)
    && out == AllEmits(pk, es, w)
    && Stands(pk, pk', w, es[Times(w, pk.fpp)..])
  }

  /** The frames of the open window, when one more arrives. */
  lemma OpenWindow(es: seq<PcmEvent>, fpp: nat, w: nat)
    requires es != [] && FullWindows(|es| - 1, fpp, w)
    ensures es[..|es| - 1][Times(w, fpp)..] + [es[|es| - 1]] == es[Times(w, fpp)..]
    ensures if |es| - Times(w, fpp) < fpp then FullWindows(|es|, fpp, w)
            else FullWindows(|es|, fpp, w + 1) && WindowOf(es, fpp, w) == es[Times(w, fpp)..] && es[Times(w + 1, fpp)..] == []
  {
    assert Times(w + 1, fpp) == Times(w, fpp) + fpp;
  }

  /** The last window of a run, set apart. */
  lemma LastWindow(pk: PkState, es: seq<PcmEvent>, w: nat)
    requires pk.fpp > 0 && Events(pk.mode, es) && Times(w + 1, pk.fpp) == |es|
    ensures AllEmits(pk, es, w + 1) == AllEmits(pk, es, w) + WindowEmits(pk, es[Times(w, pk.fpp)..], w)
  {
    assert WindowOf(es, pk.fpp, w) == es[Times(w, pk.fpp)..];
  }

  lemma RunIsStep(pk: PkState, es: seq<PcmEvent>, w: nat, out: seq<Emit>, pk': PkState, more: seq<Emit>) returns (w': nat)
    requires pk.Valid() && es != [] && Events(pk.mode, es) && FullWindows(|es| - 1, pk.fpp, w)
    requires out == AllEmits(pk, es, w) && Grown(pk, pk', w, es[Times(w, pk.fpp)..], more)
    ensures RunIs(pk, es, w', pk', out + more)
  {
    OpenWindow(es, pk.fpp, w);
    if |es| - Times(w, pk.fpp) < pk.fpp {
      w' := w;
      assert more == [];
    } else {
      w' := w + 1;
      LastWindow(pk, es, w);
    }
  }

  /** A run of frames sends exactly its full windows; the rest stand in the buffer. */
  lemma {:induction false} RunIsWindows(pk: PkState, es: seq<PcmEvent>) returns (w: nat)
    requires pk.Valid() && pk.frames == [] && Events(pk.mode, es)
    ensures RunIs(pk, es, w, RunPk(pk, es).0, RunPk(pk, es).1)
  {
    if es == [] {
      w := 0;
      NothingRun(pk);
      assert RunPk(pk, es) == (pk, []);
    } else {
      var n := |es| - 1;
      var (pk', out) := RunPk(pk, es[..n]);
      var (pk'', more) := PushFrame(pk', es[n].pcm, es[n].ts, es[n].concealed);
      w := RunIsWindows(pk, es[..n]);
      PushStands(pk, pk', w, es[..n][Times(w, pk.fpp)..], es[n]);
      OpenWindow(es, pk.fpp, w);
      AllEmitsPrefix(pk, es, n, w);
      w := RunIsStep(pk, es, w, out, pk'', more);
      assert RunPk(pk, es) == (pk'', out + more);
    }
  }

  lemma NothingRun(pk: PkState)
    requires pk.Valid() && pk.frames == []
    ensures RunIs(pk, [], 0, pk, [])
  {
    FlowsFresh(pk.flows, pk.mode, pk.fpp * pk.mode.sps);
  }

  // ----- packet by packet ---------------------------------------------------

  ghost predicate AllFlowsOk(pk: PkState)
  {
    forall i :: 0 <= i < |pk.flows| ==> FlowOk(pk.flows[i], pk.mode, pk.fpp * pk.mode.sps)
  }

  /** Packet j of flow i of a run. */
  ghost function PacketOf(pk: PkState, es: seq<PcmEvent>, i: nat, j: nat): Emit
    requires pk.Valid() && AllFlowsOk(pk) && i < |pk.flows| && Events(pk.mode, es) && Times(j + 1, pk.fpp) <= |es|
  {
    WindowPacket(pk, WindowOf(es, pk.fpp, j), i, j)
  }

  /** What flow i sends for a window, having sent j packets before. */
  ghost function WindowPacket(pk: PkState, win: seq<PcmEvent>, i: nat, j: nat): Emit
    requires pk.Valid() && AllFlowsOk(pk) && i < |pk.flows| && Events(pk.mode, win) && |win| == pk.fpp
  {
    var total := pk.fpp * pk.mode.sps;
    Emit(i, FlowPacket(FlowAt(pk.flows[i], pk.mode, total, j), pk.mode, total, win[0].ts, Window(pk.mode, Pcms(win))), AnyConcealed(win))
  }

  lemma {:induction false} EmitsInOrder(flows: seq<Flow>, n: nat, mode: Mode, total: nat, ts: u32, concealed: bool, window: Bytes)
    requires n <= |flows| && IsPlanar(window, mode.nch, total)
    requires forall i :: 0 <= i < |flows| ==> FlowOk(flows[i], mode, total)
    ensures var out := Emits(flows, n, mode, total, ts, concealed, window);
            |out| == n && forall i :: 0 <= i < n ==> out[i] == Emit(i, FlowPacket(flows[i], mode, total, ts, window), concealed)
  {
    if n > 0 { EmitsInOrder(flows, n - 1, mode, total, ts, concealed, window); }
  }

  lemma WindowEmitsInOrder(pk: PkState, win: seq<PcmEvent>, j: nat)
    requires pk.Valid() && AllFlowsOk(pk) && Events(pk.mode, win) && |win| == pk.fpp
    ensures |WindowEmits(pk, win, j)| == |pk.flows|
    ensures forall i :: 0 <= i < |pk.flows| ==> WindowEmits(pk, win, j)[i] == WindowPacket(pk, win, i, j)
  {
    var total := pk.fpp * pk.mode.sps;
    EmitsInOrder(FlowsAt(pk.flows, pk.mode, total, j), |pk.flows|, pk.mode, total, win[0].ts, AnyConcealed(win), Window(pk.mode, Pcms(win)));
  }

  lemma {:induction false} PacketCount(pk: PkState, es: seq<PcmEvent>, w: nat)
    requires pk.Valid() && AllFlowsOk(pk) && Events(pk.mode, es) && Times(w, pk.fpp) <= |es|
    ensures |AllEmits(pk, es, w)| == Times(w, |pk.flows|)
  {
    if w > 0 {
      PacketCount(pk, es, w - 1);
      WindowEmitsInOrder(pk, WindowOf(es, pk.fpp, w - 1), w - 1);
    }
  }

  /** e stands at this place in the output. */
  ghost predicate SentAt(out: seq<Emit>, at: nat, e: Emit)
  {
    at < |out| && out[at] == e
  }

  lemma SentLater(out: seq<Emit>, all: seq<Emit>, at: nat, e: Emit)
    requires SentAt(out, at, e) && out <= all
    ensures SentAt(all, at, e)
  {
  }

  lemma SentLast(out: seq<Emit>, more: seq<Emit>, i: nat)
    requires i < |more|
    ensures SentAt(out + more, |out| + i, more[i])
  {
  }

  lemma {:induction false} LaterWindowsFollow(pk: PkState, es: seq<PcmEvent>, j: nat, w: nat)
    requires pk.fpp > 0 && Events(pk.mode, es) && j <= w && Times(w, pk.fpp) <= |es|
    ensures Times(j, pk.fpp) <= |es| && AllEmits(pk, es, j) <= AllEmits(pk, es, w)
  {
    if j < w { LaterWindowsFollow(pk, es, j, w - 1); }
  }

  lemma PacketInItsWindow(pk: PkState, es: seq<PcmEvent>, i: nat, j: nat, all: seq<Emit>)
    requires pk.Valid() && AllFlowsOk(pk) && Events(pk.mode, es) && Times(j + 1, pk.fpp) <= |es|
    requires i < |pk.flows| && AllEmits(pk, es, j) + WindowEmits(pk, WindowOf(es, pk.fpp, j), j) <= all
    ensures SentAt(all, Times(j, |pk.flows|) + i, PacketOf(pk, es, i, j))
  {
    var win := WindowOf(es, pk.fpp, j);
    var out := AllEmits(pk, es, j);
    PacketCount(pk, es, j);
    WindowEmitsInOrder(pk, win, j);
    SentLast(out, WindowEmits(pk, win, j), i);
    SentLater(out + WindowEmits(pk, win, j), all, |out| + i, WindowEmits(pk, win, j)[i]);
  }

  /** Packets go out window by window, and within a window flow by flow. */
  lemma PacketsInOrder(pk: PkState, es: seq<PcmEvent>, w: nat, i: nat, j: nat)
    requires pk.Valid() && AllFlowsOk(pk) && Events(pk.mode, es) && Times(w, pk.fpp) <= |es|
    requires i < |pk.flows| && j < w
    ensures Times(j + 1, pk.fpp) <= |es|
    ensures SentAt(AllEmits(pk, es, w), Times(j, |pk.flows|) + i, PacketOf(pk, es, i, j))
  {
    LaterWindowsFollow(pk, es, j + 1, w);
    PacketInItsWindow(pk, es, i, j, AllEmits(pk, es, w));
  }

  /** What a receiver finds in the packet a flow makes of a window, its j-th. */
  lemma WindowPacketContents(pk: PkState, win: seq<PcmEvent>, i: nat, j: nat, g: nat, fc: nat)
    requires pk.Valid() && AllFlowsOk(pk) && i < |pk.flows| && Events(pk.mode, win) && |win| == pk.fpp
    requires g < pk.fpp * pk.mode.sps && fc < pk.flows[i].nCh
    ensures var pkt := WindowPacket(pk, win, i, j).pkt; var fl := pk.flows[i];
            && PlainHeader(pkt, fl.payloadType)
            && ReadHeader(pkt) == RtpParams(fl.payloadType % 0x80, (fl.seqno + j) % U16, win[0].ts, fl.ssrc)
            && IsPlanar(pkt[RTP_HEADER_LEN..], pk.fpp * pk.mode.sps, fl.nCh)
            && 0 <= g / pk.mode.sps < |win| && fl.chStart + fc < pk.mode.nch
            && PlanarAt(pkt[RTP_HEADER_LEN..], pk.fpp * pk.mode.sps, fl.nCh, g, fc)
               == Swapped(PlanarAt(win[g / pk.mode.sps].pcm, pk.mode.nch, pk.mode.sps, fl.chStart + fc, g % pk.mode.sps))
  {
    var fl, total := pk.flows[i], pk.fpp * pk.mode.sps;
    var fl' := FlowAt(fl, pk.mode, total, j);
    var window := Window(pk.mode, Pcms(win));
    var body := Payload(window, pk.mode.nch, fl.chStart, fl.nCh, total);
    var p := RtpParams(fl.payloadType, fl'.seqno, win[0].ts, fl.ssrc);
    HeaderRoundTrip(p, body);
    assert (Header(p) + body)[RTP_HEADER_LEN..] == body;
    RowIndex(pk.fpp, pk.mode.sps, g);
    assert PlanarAt(body, total, fl.nCh, g, fc) == Swapped(PlanarAt(window, pk.mode.nch, total, fl.chStart + fc, g));
    assert PlanarAt(window, pk.mode.nch, total, fl.chStart + fc, g) == FrameSample(pk.mode, Pcms(win), fl.chStart + fc, g);
  }

  /** Frame f of window j is frame j * fpp + f of the timeline. */
  lemma WindowFrame(es: seq<PcmEvent>, fpp: nat, j: nat, f: nat)
    requires Times(j + 1, fpp) <= |es| && f < fpp
    ensures 0 <= j * fpp + f < |es| && WindowOf(es, fpp, j)[f] == es[j * fpp + f]
  {
    TimesIs(j, fpp);
  }

  /**
   Scatter and gather: of the flows of a partition exactly one carries a given
   channel, and its payload gives back every sample of it.
   */
  lemma FlowsReconstruct(flows: seq<Flow>, width: int, mode: Mode, total: nat, window: Bytes, ch: nat, g: nat) returns (i: nat)
    requires Partition(flows, mode.nch, width) && IsPlanar(window, mode.nch, total) && ch < mode.nch && g < total
    ensures i < |flows| && flows[i].chStart <= ch < flows[i].chStart + flows[i].nCh
    ensures forall k :: 0 <= k < |flows| && k != i ==> !(flows[k].chStart <= ch < flows[k].chStart + flows[k].nCh)
    ensures FlowOk(flows[i], mode, total)
    ensures Swapped(PlanarAt(Payload(window, mode.nch, flows[i].chStart, flows[i].nCh, total), total, flows[i].nCh, g, ch - flows[i].chStart))
         == PlanarAt(window, mode.nch, total, ch, g)
  {
    i := PartitionCovers(flows, mode.nch, width, ch);
    PartitionInside(flows, mode.nch, width, i);
    var fl := flows[i];
    assert fl.chStart + (ch - fl.chStart) == ch;
  }

  lemma PartitionInside(flows: seq<Flow>, nch: int, width: int, i: nat)
    requires Partition(flows, nch, width) && i < |flows|
    ensures 0 <= flows[i].chStart && flows[i].chStart + flows[i].nCh <= nch
  {
    if i > 0 { SlicesOrdered(flows, nch, width, 0, i); }
    if i < |flows| - 1 { SlicesOrdered(flows, nch, width, i, |flows| - 1); }
  }
}
