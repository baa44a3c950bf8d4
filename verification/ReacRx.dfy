/** The feeder: wire frames decoded into the ring (`feed_frame` of pipewire/src/reac_rx.c). */
module ReacRx {
  import opened Words
  import opened Sample24
  import opened Reac
  import opened ReacDecode
  import opened Ring
  import T = ReacTx

  /** Channel c of a frame, as normalised samples. */
  ghost function RxPlane(raw: Bytes, mode: Mode, c: nat): (xs: seq<Sample>)
    requires mode.Fits() && |raw| == FRAME_BYTES && c < mode.nch
    ensures |xs| == mode.sps
    ensures forall s :: 0 <= s < mode.sps ==> xs[s] == T.Dequantised(Load24(PlanarAt(Decoded(raw, mode), mode.nch, mode.sps, c, s)))
  {
    seq(mode.sps, s requires 0 <= s < mode.sps => T.Dequantised(Load24(PlanarAt(Decoded(raw, mode), mode.nch, mode.sps, c, s))))
  }

  /**
   Channel c's queue after a frame is fed in, in a ring with room for `room` samples:
   malformed frames add nothing, and the newest samples are lost if it is full.
   */
  ghost function FedQueue(mode: Mode, room: nat, c: nat, queue: seq<Sample>, raw: Bytes): (q: seq<Sample>)
    requires mode.Fits() && c < mode.nch && |queue| <= room
    ensures |q| <= room
  {
    if Inspect(raw).valid then queue + RxPlane(raw, mode, c)[..Min(mode.sps, room - |queue|)] else queue
  }

  /** The float at place k of the planar buffer. */
  function Converted(pcm: Bytes, k: nat): Sample
    requires 3 * k + 3 <= |pcm|
  {
    T.Dequantised(Load24(SampleBytes(pcm, k)))
  }

  /** One channel's samples, converted in place order. */
  method ConvertChannel(pcm: Bytes, planar: array<Sample>, ch: nat, ns: nat)
    requires 0 <= ch * ns && ch * ns + ns <= planar.Length && 3 * (ch * ns + ns) <= |pcm|
    requires forall k :: 0 <= k < ch * ns ==> planar[k] == Converted(pcm, k)
    modifies planar
    ensures forall k :: 0 <= k < ch * ns + ns ==> planar[k] == Converted(pcm, k)
  {
    for s := 0 to ns
      invariant forall k :: 0 <= k < ch * ns + s ==> planar[k] == Converted(pcm, k)
    {
      planar[ch * ns + s] := T.Dequantised(Load24(SampleBytes(pcm, ch * ns + s)));
    }
  }

  /** The conversion loops of `feed_frame`. */
  method Convert(pcm: Bytes, mode: Mode) returns (planar: seq<Sample>)
    requires mode.Fits() && IsPlanar(pcm, mode.nch, mode.sps)
    ensures |planar| == 480
    ensures 0 <= mode.nch * mode.sps <= 480
    ensures forall k :: 0 <= k < mode.nch * mode.sps ==> planar[k] == Converted(pcm, k)
  {
    MulMono(0, mode.nch, mode.sps);
    var buf := new Sample[480](_ => 0.0);
    var d := 0;
    for ch := 0 to mode.nch
      invariant d == ch * mode.sps <= mode.nch * mode.sps
      invariant forall k :: 0 <= k < d ==> buf[k] == Converted(pcm, k)
    {
      PlanarBounds(mode.nch, mode.sps, ch, 0);
      ConvertChannel(pcm, buf, ch, mode.sps);
      d := d + mode.sps;
    }
    planar := buf[..];
  }

  lemma ConvertedIsPlane(raw: Bytes, mode: Mode, planar: seq<Sample>, channels: nat, c: nat)
    requires mode.Fits() && |raw| == FRAME_BYTES && c < channels <= mode.nch && mode.nch * mode.sps <= |planar|
    requires forall k :: 0 <= k < mode.nch * mode.sps ==> planar[k] == Converted(Decoded(raw, mode), k)
    ensures channels * mode.sps <= |planar| && PlanesOf(planar, channels, mode.sps)[c] == RxPlane(raw, mode, c)
  {
    MulMono(channels, mode.nch, mode.sps);
    forall s | 0 <= s < mode.sps
      ensures PlanesOf(planar, channels, mode.sps)[c][s] == RxPlane(raw, mode, c)[s]
    {
      PlanarBounds(mode.nch, mode.sps, c, s);
    }
  }

  class ReacRx {
    const ring: ReacRing
    var framesOk: nat
    var framesBad: nat

    constructor (ring: ReacRing)
      ensures this.ring == ring && framesOk == framesBad == 0
    {
      this.ring, framesOk, framesBad := ring, 0, 0;
    }

    /** `feed_frame`: a valid frame's samples join the ring, the newest lost if it is full; any other frame is counted bad. */
    method FeedFrame(mode: Mode, raw: Bytes)
      requires mode.Fits() && ring.Valid() && ring.channels <= mode.nch && mode.sps <= ring.mask
      modifies this, ring`head, ring`overruns, ring.buf
      ensures ring.Valid()
      ensures framesOk == old(framesOk) + if Inspect(raw).valid then 1 else 0
      ensures framesBad == old(framesBad) + if Inspect(raw).valid then 0 else 1
      ensures framesBad == old(framesBad) <==> IsReacFrame(raw)
      ensures ring.overruns == old(ring.overruns)
                + if Inspect(raw).valid then mode.sps - Min(mode.sps, ring.mask - old(ring.Count())) else 0
      ensures forall c :: 0 <= c < ring.channels ==>
                ring.Contents(c) == FedQueue(mode, ring.mask, c, old(ring.Contents(c)), raw)
    {
      var s24buf := new u8[1440](_ => 0);
      var ns := Decode(raw, mode, s24buf);
      if ns < 0 {
        framesBad := framesBad + 1;
        return;
      }
      var pcm := s24buf[..3 * (mode.nch * mode.sps)];
      var planar := Convert(pcm, mode);
      MulMono(ring.channels, mode.nch, mode.sps);
      var w := ring.Write(planar, ns);
      forall c | 0 <= c < ring.channels ensures PlanesOf(planar, ring.channels, mode.sps)[c] == RxPlane(raw, mode, c) {
        ConvertedIsPlane(raw, mode, planar, ring.channels, c);
      }
      framesOk := framesOk + 1;
    }
  }
}
