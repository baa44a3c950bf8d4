/** Playback to capture: what the sink stages is what the ring delivers. */
module Loopback {
  import opened Words
  import opened Sample24
  import opened Reac
  import opened ReacDecode
  import opened SinkNode
  import opened Ring
  import P = RingProtocol
  import F = RingFifo
  import Runs = RingRuns
  import T = ReacTx
  import Rx = ReacRx
  import Codec

  // ----- the sink's side --------------------------------------------------------

  /** One graph cycle of the sink: its quantum and its ports. */
  datatype Cycle = Cycle(n: nat, ports: Ports)

  ghost predicate CycleOk(nch: nat, q: Cycle)
  {
    |q.ports| == nch && Supplied(q.ports, q.n)
  }

  /** The columns a cycle feeds: none while no port is linked. */
  function Fed(nch: nat, q: Cycle): (cols: seq<Column>)
    requires CycleOk(nch, q)
    ensures AllWide(cols, nch)
  {
    if AnyLinked(q.ports) then Columns(q.ports, q.n, q.n) else []
  }

  ghost predicate CyclesOk(nch: nat, qs: seq<Cycle>)
  {
    forall i :: 0 <= i < |qs| ==> CycleOk(nch, qs[i])
  }

  ghost function AllFed(nch: nat, qs: seq<Cycle>): (cols: seq<Column>)
    requires CyclesOk(nch, qs)
    ensures AllWide(cols, nch)
  {
    if qs == [] then [] else AllFed(nch, qs[..|qs| - 1]) + Fed(nch, qs[|qs| - 1])
  }

  /** A run of sink cycles, and the frames it sends. */
  ghost function RunSink(nch: nat, src: Bytes, st: Sink, qs: seq<Cycle>): (r: (Sink, seq<Bytes>))
    requires |src| == 6 && SinkOk(nch, st) && CyclesOk(nch, qs)
    ensures SinkOk(nch, r.0)
  {
    if qs == [] then (st, [])
    else
      var n := |qs| - 1;
      var (st', out) := RunSink(nch, src, st, qs[..n]);
      var (st'', more) := StageAll(nch, src, st', Fed(nch, qs[n]));
      (st'', out + more)
  }

  lemma {:induction false} StageAppend(nch: nat, src: Bytes, st: Sink, a: seq<Column>, b: seq<Column>)
    requires |src| == 6 && SinkOk(nch, st) && AllWide(a, nch) && AllWide(b, nch)
    ensures AllWide(a + b, nch)
    ensures var (st', out) := StageAll(nch, src, st, a); var (st'', more) := StageAll(nch, src, st', b);
            StageAll(nch, src, st, a + b) == (st'', out + more)
  {
    if b == [] {
      assert a + b == a;
      assert StageAll(nch, src, st, a).1 + [] == StageAll(nch, src, st, a).1;
    } else {
      var n := |b| - 1;
      var (st1, out1) := StageAll(nch, src, st, a);
      var (st2, out2) := StageAll(nch, src, st1, b[..n]);
      var (st3, out3) := StageOne(nch, src, st2, b[n]);
      StageAppend(nch, src, st, a, b[..n]);
      LastOfBoth(a, b);
      Regroup(out1, out2, out3);
    }
  }

  lemma LastApart<T>(s: seq<T>)
    requires s != []
    ensures s[..|s| - 1] + [s[|s| - 1]] == s
  {
  }

  lemma LastOfBoth<T>(a: seq<T>, b: seq<T>)
    requires b != []
    ensures (a + b)[..|a + b| - 1] == a + b[..|b| - 1] && (a + b)[|a + b| - 1] == b[|b| - 1]
  {
  }

  lemma Regroup<T>(a: seq<T>, b: seq<T>, c: seq<T>)
    ensures (a + b) + c == a + (b + c)
  {
  }

  /** However the graph cuts its quanta, the frames depend on the columns fed alone. */
  lemma {:induction false} SinkIgnoresQuanta(nch: nat, src: Bytes, st: Sink, qs: seq<Cycle>)
    requires |src| == 6 && SinkOk(nch, st) && CyclesOk(nch, qs)
    ensures RunSink(nch, src, st, qs) == StageAll(nch, src, st, AllFed(nch, qs))
  {
    if qs != [] {
      var n := |qs| - 1;
      SinkIgnoresQuanta(nch, src, st, qs[..n]);
      assert AllFed(nch, qs) == AllFed(nch, qs[..n]) + Fed(nch, qs[n]);
      StageAppend(nch, src, st, AllFed(nch, qs[..n]), Fed(nch, qs[n]));
    }
  }

  // ----- the wire ---------------------------------------------------------------

  const WIRE_RATE := 48000

  function Wire(): Mode
  {
    Mode(WIRE_RATE, MAX_CHANNELS, SAMPLES_PER_PKT)
  }

  /** What comes back of a sample: its 24-bit value; nothing on channels the sink does not have. */
  function Heard(nch: nat, col: Column, c: nat): Sample
    requires |col| == nch
  {
    T.Dequantised(T.Quantised(if c < nch then col[c] else 0.0))
  }

  /** Channel c of the columns fed, as heard. */
  function HeardAll(nch: nat, cols: seq<Column>, c: nat): (xs: seq<Sample>)
    requires AllWide(cols, nch)
    ensures |xs| == |cols| && forall t :: 0 <= t < |cols| ==> xs[t] == Heard(nch, cols[t], c)
  {
    seq(|cols|, t requires 0 <= t < |cols| && AllWide(cols, nch) => Heard(nch, cols[t], c))
  }

  /** What a cycle plays to channel c, from its ports alone: nothing while none is linked, silence on a channel that is not. */
  function Played(q: Cycle, c: nat): (xs: seq<Sample>)
    requires Supplied(q.ports, q.n)
  {
    if forall i :: 0 <= i < |q.ports| ==> q.ports[i] == None then []
    else if c < |q.ports| && q.ports[c].Some? then q.ports[c].value[..q.n]
    else seq(q.n, _ => 0.0)
  }

  /** Everything the cycles play to channel c, end to end. */
  function PlayedTo(qs: seq<Cycle>, c: nat): (xs: seq<Sample>)
    requires forall i :: 0 <= i < |qs| ==> Supplied(qs[i].ports, qs[i].n)
  {
    if qs == [] then [] else PlayedTo(qs[..|qs| - 1], c) + Played(qs[|qs| - 1], c)
  }

  /** Samples after the wire: each its own 24-bit value. */
  function Wired(xs: seq<Sample>): (ys: seq<Sample>)
    ensures |ys| == |xs| && forall t :: 0 <= t < |xs| ==> ys[t] == T.Dequantised(T.Quantised(xs[t]))
  {
    seq(|xs|, t requires 0 <= t < |xs| => T.Dequantised(T.Quantised(xs[t])))
  }

  predicate OnGrid(x: Sample)
  {
    exists k: s24 :: x == T.Dequantised(k)
  }

  /** Samples on the 24-bit grid come back exactly. */
  lemma GridIsHeard(xs: seq<Sample>)
    requires forall t :: 0 <= t < |xs| ==> OnGrid(xs[t])
    ensures Wired(xs) == xs
  {
    forall t | 0 <= t < |xs| ensures Wired(xs)[t] == xs[t] {
      var k: s24 :| xs[t] == T.Dequantised(k);
      T.GridIsExact(k);
    }
  }

  lemma CycleHeard(nch: nat, q: Cycle, c: nat)
    requires CycleOk(nch, q)
    ensures HeardAll(nch, Fed(nch, q), c) == Wired(Played(q, c))
  {
    if c < nch {
      forall s | 0 <= s < |Fed(nch, q)| ensures Fed(nch, q)[s][c] == Played(q, c)[s] {
        ColumnsArePorts(q.ports, q.n, c, s);
      }
    }
  }

  /** What is heard of the columns fed is what was played, over the wire. */
  lemma {:induction false} HeardIsPlayed(nch: nat, qs: seq<Cycle>, c: nat)
    requires CyclesOk(nch, qs)
    ensures HeardAll(nch, AllFed(nch, qs), c) == Wired(PlayedTo(qs, c))
  {
    if qs != [] {
      var n := |qs| - 1;
      HeardIsPlayed(nch, qs[..n], c);
      CycleHeard(nch, qs[n], c);
      HeardAppend(nch, AllFed(nch, qs[..n]), Fed(nch, qs[n]), c);
      WiredAppend(PlayedTo(qs[..n], c), Played(qs[n], c));
    }
  }

  lemma WiredAppend(xs: seq<Sample>, ys: seq<Sample>)
    ensures Wired(xs + ys) == Wired(xs) + Wired(ys)
  {
  }

  lemma FrameHeard(nch: nat, src: Bytes, group: seq<Column>, counter: u16, c: nat)
    requires |src| == 6 && nch <= MAX_CHANNELS && |group| == SAMPLES_PER_PKT && AllWide(group, nch) && c < MAX_CHANNELS
    ensures Inspect(GroupFrame(nch, src, group, counter)) == Frame(counter, true)
    ensures Rx.RxPlane(GroupFrame(nch, src, group, counter), Wire(), c) == HeardAll(nch, group, c)
  {
    var planes := GroupPlanes(nch, group);
    var raw := GroupFrame(nch, src, group, counter);
    Codec.EncodedFrameIsValid(planes, nch, SAMPLES_PER_PKT, counter, src);
    forall s | 0 <= s < SAMPLES_PER_PKT ensures Rx.RxPlane(raw, Wire(), c)[s] == HeardAll(nch, group, c)[s] {
      Codec.EncodeDecode(planes, nch, SAMPLES_PER_PKT, counter, src, WIRE_RATE, c, s);
      T.GridIsExact(0);
    }
  }

  // ----- the ring's side --------------------------------------------------------

  /** What happens to the ring between two frames: a frame fed in, or a quantum read out. */
  datatype RingOp = Feed(raw: Bytes) | Read(n: nat)

  /** One channel of the ring, and all that its reads have delivered, without padding. */
  datatype Channel = Channel(queue: seq<Sample>, out: seq<Sample>)

  /** The effect of `feed_frame` and of a read on channel c, as the ring's own calls state it. */
  ghost function ChannelStep(mode: Mode, room: nat, c: nat, ch: Channel, op: RingOp): Channel
    requires mode.Fits() && c < mode.nch && |ch.queue| <= room
    ensures |ChannelStep(mode, room, c, ch, op).queue| <= room
  {
    match op
    case Feed(raw) =>
      ch.(queue := Rx.FedQueue(mode, room, c, ch.queue, raw))
    case Read(n) =>
      Channel(Rest(ch.queue, n), ch.out + Served(ch.queue, n))
  }

  ghost function RunChannel(mode: Mode, room: nat, c: nat, ops: seq<RingOp>): (ch: Channel)
    requires mode.Fits() && c < mode.nch
    ensures |ch.queue| <= room
  {
    if ops == [] then Channel([], [])
    else ChannelStep(mode, room, c, RunChannel(mode, room, c, ops[..|ops| - 1]), ops[|ops| - 1])
  }

  /** No frame ever finds too little room. */
  ghost predicate NoOverrun(mode: Mode, room: nat, c: nat, ops: seq<RingOp>)
    requires mode.Fits() && c < mode.nch
  {
    forall k :: 0 <= k < |ops| && ops[k].Feed? ==> |RunChannel(mode, room, c, ops[..k]).queue| + mode.sps <= room
  }

  /** The frames fed, in order. */
  function FramesIn(ops: seq<RingOp>): (raws: seq<Bytes>)
    ensures |raws| <= |ops|
  {
    if ops == [] then []
    else
      var n := |ops| - 1;
      FramesIn(ops[..n]) + if ops[n].Feed? then [ops[n].raw] else []
  }

  /** Channel c of a run of frames, end to end. */
  ghost function PlaneOf(mode: Mode, raws: seq<Bytes>, c: nat): seq<Sample>
    requires mode.Fits() && c < mode.nch
  {
    if raws == [] then []
    else
      var n := |raws| - 1;
      PlaneOf(mode, raws[..n], c) + if Inspect(raws[n]).valid then Rx.RxPlane(raws[n], mode, c) else []
  }

  /** What one operation adds to channel c, when it fits. */
  ghost function PlaneFed(mode: Mode, op: RingOp, c: nat): seq<Sample>
    requires mode.Fits() && c < mode.nch
  {
    if op.Feed? && Inspect(op.raw).valid then Rx.RxPlane(op.raw, mode, c) else []
  }

  lemma StepConserves(mode: Mode, room: nat, c: nat, ch: Channel, op: RingOp)
    requires mode.Fits() && c < mode.nch && |ch.queue| <= room
    requires op.Feed? ==> |ch.queue| + mode.sps <= room
    ensures var ch' := ChannelStep(mode, room, c, ch, op);
            ch'.out + ch'.queue == ch.out + ch.queue + PlaneFed(mode, op, c)
  {
    if op.Read? {
      Moved(ch.out, ch.queue, Min(op.n, |ch.queue|));
    } else if Inspect(op.raw).valid {
      Joined(ch.out, ch.queue, Rx.RxPlane(op.raw, mode, c), Min(mode.sps, room - |ch.queue|));
    } else {
      Joined(ch.out, ch.queue, [], 0);
    }
  }

  lemma Moved(out: seq<Sample>, queue: seq<Sample>, got: nat)
    requires got <= |queue|
    ensures (out + queue[..got]) + queue[got..] == out + queue + []
  {
  }

  lemma Joined(out: seq<Sample>, queue: seq<Sample>, plane: seq<Sample>, w: nat)
    requires w == |plane|
    ensures out + (queue + plane[..w]) == out + queue + plane
    ensures queue + [] == queue
  {
  }

  lemma PlaneStep(mode: Mode, c: nat, ops: seq<RingOp>)
    requires mode.Fits() && c < mode.nch && ops != []
    ensures PlaneOf(mode, FramesIn(ops), c) == PlaneOf(mode, FramesIn(ops[..|ops| - 1]), c) + PlaneFed(mode, ops[|ops| - 1], c)
  {
    var n := |ops| - 1;
    var before, after := FramesIn(ops[..n]), FramesIn(ops);
    if ops[n].Feed? {
      assert after[..|after| - 1] == before;
    } else {
      assert after == before;
      assert PlaneOf(mode, before, c) + [] == PlaneOf(mode, before, c);
    }
  }

  /** With no overrun, what was delivered and what still waits are exactly what was fed. */
  lemma {:induction false} RingDelivers(mode: Mode, room: nat, c: nat, ops: seq<RingOp>)
    requires mode.Fits() && c < mode.nch && NoOverrun(mode, room, c, ops)
    ensures var ch := RunChannel(mode, room, c, ops);
            ch.out + ch.queue == PlaneOf(mode, FramesIn(ops), c)
  {
    if ops != [] {
      var n := |ops| - 1;
      forall k | 0 <= k < n ensures ops[..n][..k] == ops[..k] {
      }
      RingDelivers(mode, room, c, ops[..n]);
      StepConserves(mode, room, c, RunChannel(mode, room, c, ops[..n]), ops[n]);
      PlaneStep(mode, c, ops);
    }
  }

  // ----- end to end -------------------------------------------------------------

  lemma HeardAppend(nch: nat, cols: seq<Column>, group: seq<Column>, c: nat)
    requires AllWide(cols, nch) && AllWide(group, nch)
    ensures AllWide(cols + group, nch)
    ensures HeardAll(nch, cols + group, c) == HeardAll(nch, cols, c) + HeardAll(nch, group, c)
  {
  }

  lemma PlaneAppend(mode: Mode, raws: seq<Bytes>, raw: Bytes, c: nat)
    requires mode.Fits() && c < mode.nch && Inspect(raw).valid
    ensures PlaneOf(mode, raws + [raw], c) == PlaneOf(mode, raws, c) + Rx.RxPlane(raw, mode, c)
  {
    assert (raws + [raw])[..|raws|] == raws;
  }

  /** Frame m is the m-th group of columns, under counter m. */
  ghost predicate FramesOf(nch: nat, src: Bytes, cols: seq<Column>, frames: seq<Bytes>)
    requires |src| == 6 && AllWide(cols, nch) && 12 * |frames| <= |cols|
  {
    forall m :: 0 <= m < |frames| ==> frames[m] == GroupFrame(nch, src, Group(cols, m), m % U16)
  }

  /** The frames of k groups carry, channel by channel, the columns of those groups. */
  lemma {:induction false} FramesHeard(nch: nat, src: Bytes, cols: seq<Column>, frames: seq<Bytes>, c: nat)
    requires |src| == 6 && nch <= MAX_CHANNELS && AllWide(cols, nch) && c < MAX_CHANNELS && 12 * |frames| <= |cols|
    requires FramesOf(nch, src, cols, frames)
    ensures PlaneOf(Wire(), frames, c) == HeardAll(nch, cols[..12 * |frames|], c)
  {
    if frames != [] {
      var m := |frames| - 1;
      FramesHeard(nch, src, cols, frames[..m], c);
      LastFrameHeard(nch, src, cols, frames[..m], frames[m], c);
      LastApart(frames);
    }
  }

  lemma LastFrameHeard(nch: nat, src: Bytes, cols: seq<Column>, raws: seq<Bytes>, raw: Bytes, c: nat)
    requires |src| == 6 && nch <= MAX_CHANNELS && AllWide(cols, nch) && c < MAX_CHANNELS && 12 * |raws| + 12 <= |cols|
    requires AllWide(Group(cols, |raws|), nch) && raw == GroupFrame(nch, src, Group(cols, |raws|), |raws| % U16)
    ensures PlaneOf(Wire(), raws + [raw], c) == PlaneOf(Wire(), raws, c) + HeardAll(nch, Group(cols, |raws|), c)
    ensures HeardAll(nch, cols[..12 * |raws| + 12], c) == HeardAll(nch, cols[..12 * |raws|], c) + HeardAll(nch, Group(cols, |raws|), c)
  {
    var m := |raws|;
    FrameHeard(nch, src, Group(cols, m), m % U16, c);
    PlaneAppend(Wire(), raws, raw, c);
    HeardAppend(nch, cols[..12 * m], Group(cols, m), c);
    assert cols[..12 * m] + Group(cols, m) == cols[..12 * m + 12];
  }

  lemma HeardPrefix(nch: nat, cols: seq<Column>, k: nat, c: nat, out: seq<Sample>, queue: seq<Sample>)
    requires AllWide(cols, nch) && k <= |cols| && out + queue == HeardAll(nch, cols[..k], c)
    ensures out <= HeardAll(nch, cols, c) && |out| + |queue| == k
  {
    assert HeardAll(nch, cols[..k], c) == HeardAll(nch, cols, c)[..k];
    assert |out + queue| == k;
    assert forall i :: 0 <= i < |out| ==> out[i] == (out + queue)[i] == HeardAll(nch, cols, c)[i];
  }

  /** The frames that reach the ring are the first groups of what the sink was fed. */
  lemma FramesReceived(nch: nat, src: Bytes, qs: seq<Cycle>, frames: seq<Bytes>, c: nat)
    requires |src| == 6 && nch <= MAX_CHANNELS && CyclesOk(nch, qs) && c < MAX_CHANNELS
    requires frames <= RunSink(nch, src, Sink([], 0), qs).1
    ensures 12 * |frames| <= |AllFed(nch, qs)|
    ensures PlaneOf(Wire(), frames, c) == HeardAll(nch, AllFed(nch, qs)[..12 * |frames|], c)
  {
    var cols := AllFed(nch, qs);
    SinkIgnoresQuanta(nch, src, Sink([], 0), qs);
    StagedInTwelves(nch, src, cols);
    FramesHeard(nch, src, cols, frames, c);
  }

  /**
   Loopback: for any quanta into the sink, with its frames arriving unharmed and in
   order, and the ring never overrun, the reads of every channel deliver a prefix of
   what was played to the port of that channel, each sample at its own 24-bit value.
   */
  lemma LoopbackDelivers(nch: nat, src: Bytes, qs: seq<Cycle>, room: nat, ops: seq<RingOp>, c: nat)
    requires |src| == 6 && nch <= MAX_CHANNELS && CyclesOk(nch, qs) && c < MAX_CHANNELS
    requires FramesIn(ops) <= RunSink(nch, src, Sink([], 0), qs).1
    requires NoOverrun(Wire(), room, c, ops)
    ensures var ch := RunChannel(Wire(), room, c, ops);
            && ch.out <= Wired(PlayedTo(qs, c))
            && |ch.out| + |ch.queue| == 12 * |FramesIn(ops)|
  {
    FramesReceived(nch, src, qs, FramesIn(ops), c);
    RingDelivers(Wire(), room, c, ops);
    var ch := RunChannel(Wire(), room, c, ops);
    HeardPrefix(nch, AllFed(nch, qs), 12 * |FramesIn(ops)|, c, ch.out, ch.queue);
    HeardIsPlayed(nch, qs, c);
  }

  // ----- end to end, with feeder and reader as two threads ------------------------

  /** The writes shown are, in order, of these frames, each published whole on channel c. */
  ghost predicate Carries(es: seq<P.Event>, raws: seq<Bytes>, c: nat)
    requires c < MAX_CHANNELS
  {
    if es == [] then raws == []
    else
      var n := |es| - 1;
      if es[n].Published? then
        && raws != [] && Carries(es[..n], raws[..|raws| - 1], c)
        && CarriesFrame(es[n], raws[|raws| - 1], c)
      else Carries(es[..n], raws, c)
  }

  ghost predicate CarriesFrame(e: P.Event, raw: Bytes, c: nat)
    requires e.Published? && c < MAX_CHANNELS
  {
    Inspect(raw).valid && e.w == SAMPLES_PER_PKT && c < |e.planes| && e.planes[c] == Rx.RxPlane(raw, Wire(), c)
  }

  lemma {:induction false} CarriedInput(es: seq<P.Event>, raws: seq<Bytes>, c: nat)
    requires c < MAX_CHANNELS && Carries(es, raws, c)
    ensures F.Input(es, c) == PlaneOf(Wire(), raws, c)
  {
    if es != [] {
      var n := |es| - 1;
      if es[n].Published? {
        CarriedInput(es[..n], raws[..|raws| - 1], c);
        assert es[n].planes[c][..es[n].w] == es[n].planes[c];
      } else {
        CarriedInput(es[..n], raws, c);
        assert F.Added(es[n], c) == [];
      }
    }
  }

  /**
   Loopback with both threads at work: in every interleaving of the feeder's and the
   reader's steps, with the sink's frames arriving unharmed and in order, none of them cut
   short by a full ring and nothing trimmed, the reads of a channel deliver a prefix of
   what was played to its port, each sample at its own 24-bit value.
   */
  lemma ConcurrentLoopback(nch: nat, src: Bytes, qs: seq<Cycle>, frames: seq<Bytes>, ss: seq<P.State>, es: seq<P.Event>, c: nat)
    requires |src| == 6 && nch <= MAX_CHANNELS && CyclesOk(nch, qs)
    requires frames <= RunSink(nch, src, Sink([], 0), qs).1
    requires F.Run(ss, es) && c < ss[0].Channels() && c < MAX_CHANNELS && Carries(es, frames, c) && Runs.ReadsAll(es, c)
    ensures var heard := Wired(PlayedTo(qs, c));
            && F.Taken(es) <= |heard| && Runs.Output(es, c) == heard[..F.Taken(es)]
  {
    Runs.OutputIsInput(ss, es, c);
    CarriedInput(es, frames, c);
    FramesReceived(nch, src, qs, frames, c);
    var cols, k := AllFed(nch, qs), 12 * |frames|;
    assert HeardAll(nch, cols[..k], c) == HeardAll(nch, cols, c)[..k];
    HeardIsPlayed(nch, qs, c);
  }
}
