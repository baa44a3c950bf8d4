/** RTP L24 packets from planar blocks (src/rtp_l24.c). */
module RtpL24 {
  import opened Words
  import opened Sample24

  const RTP_HEADER_LEN := 12
  const RTP_VERSION := 2

  datatype RtpParams = RtpParams(payloadType: u8, seqno: u16, timestamp: u32, ssrc: u32)

  // ----- header -------------------------------------------------------------

  /** Unsigned big-endian 32-bit word. */
  function Be32(x: u32): Bytes
  {
    [x / 0x100_0000 % 0x100, x / 0x1_0000 % 0x100, x / 0x100 % 0x100, x % 0x100]
  }

  /** The fixed header of section 5.1 of RFC 3550, with no padding, extension, CSRC or marker. */
  function Header(p: RtpParams): (b: Bytes)
    ensures |b| == RTP_HEADER_LEN
  {
    [RTP_VERSION * 0x40, p.payloadType % 0x80, p.seqno / 0x100 % 0x100, p.seqno % 0x100] + Be32(p.timestamp) + Be32(p.ssrc)
  }

  /** What a receiver reads from the first twelve bytes of a packet. */
  function ReadHeader(b: Bytes): RtpParams
    requires |b| >= RTP_HEADER_LEN
  {
    RtpParams(b[1] % 0x80, 0x100 * b[2] as int + b[3] as int, ReadBe32(b[4..8]), ReadBe32(b[8..12]))
  }

  /** Version 2 with no padding, extension or contributing source; marker zero before the payload type. */
  ghost predicate PlainHeader(b: Bytes, payloadType: u8)
  {
    |b| >= 12 && b[0] == 0x80 && b[1] == payloadType % 0x80
  }

  function ReadBe32(b: Bytes): u32
    requires |b| == 4
  {
    0x100_0000 * b[0] as int + 0x1_0000 * b[1] as int + 0x100 * b[2] as int + b[3] as int
  }

  lemma Be32RoundTrip(x: u32)
    ensures ReadBe32(Be32(x)) == x
  {
    FourBytes(x);
  }

  /** A receiver reads back sequence number, timestamp and source as written, the 7-bit payload type, and no marker. */
  lemma HeaderRoundTrip(p: RtpParams, payload: Bytes)
    ensures ReadHeader(Header(p) + payload) == p.(payloadType := p.payloadType % 0x80)
    ensures PlainHeader(Header(p) + payload, p.payloadType)
  {
    var b := Header(p) + payload;
    Be32RoundTrip(p.timestamp);
    Be32RoundTrip(p.ssrc);
    assert b[4..8] == Be32(p.timestamp) && b[8..12] == Be32(p.ssrc);
  }

  // ----- payload ------------------------------------------------------------

  /** Little-endian sample to big-endian, or back. */
  function Swapped(b: Sample3): Sample3
  {
    [b[2], b[1], b[0]]
  }

  /** Channels chStart.. of a planar block, interleaved frame by frame in big-endian order. */
  ghost function Payload(planar: Bytes, totalNch: nat, chStart: nat, flowNch: nat, n: nat): (b: Bytes)
    requires chStart + flowNch <= totalNch && |planar| >= 3 * (totalNch * n)
    ensures IsPlanar(b, n, flowNch)
    ensures forall s, fc :: 0 <= s < n && 0 <= fc < flowNch ==>
              PlanarAt(b, n, flowNch, s, fc) == Swapped(PlanarAt(planar, totalNch, n, chStart + fc, s))
  {
    Block(n, flowNch, (s: nat, fc: nat) requires s < n && fc < flowNch =>
      Swapped(PlanarAt(planar, totalNch, n, chStart + fc, s)))
  }

  /** The slice of channels asked for exists. */
  predicate SliceOk(totalNch: int, chStart: int, flowNch: int, n: int)
  {
    chStart >= 0 && flowNch > 0 && n > 0 && chStart + flowNch <= totalNch
  }

  /** `write_rtp_header` */
  method WriteRtpHeader(out: array<u8>, p: RtpParams)
    requires out.Length >= RTP_HEADER_LEN
    modifies out
    ensures out[..RTP_HEADER_LEN] == Header(p)
    ensures out[RTP_HEADER_LEN..] == old(out[RTP_HEADER_LEN..])
  {
    out[0] := RTP_VERSION * 0x40;
    out[1] := p.payloadType % 0x80;
    out[2] := p.seqno / 0x100 % 0x100;
    out[3] := p.seqno % 0x100;
    out[4] := p.timestamp / 0x100_0000 % 0x100;
    out[5] := p.timestamp / 0x1_0000 % 0x100;
    out[6] := p.timestamp / 0x100 % 0x100;
    out[7] := p.timestamp % 0x100;
    out[8] := p.ssrc / 0x100_0000 % 0x100;
    out[9] := p.ssrc / 0x1_0000 % 0x100;
    out[10] := p.ssrc / 0x100 % 0x100;
    out[11] := p.ssrc % 0x100;
  }

  /** `rtp_l24_build_flow`: the packet's length, or -1 with nothing written. */
  method BuildFlow(out: array<u8>, cap: nat, p: RtpParams, planar: Bytes,
                   totalNch: int, chStart: int, flowNch: int, nSamples: int) returns (len: int)
    requires cap <= out.Length
    requires SliceOk(totalNch, chStart, flowNch, nSamples) ==> |planar| >= 3 * (totalNch * nSamples)
    modifies out
    ensures len == if chStart < 0 || flowNch <= 0 || nSamples <= 0 || chStart + flowNch > totalNch || cap < 12 + flowNch * nSamples * 3
                   then -1 else 12 + flowNch * nSamples * 3
    ensures len == -1 ==> out[..] == old(out[..])
    ensures len != -1 ==> 0 <= len <= out.Length && out[len..] == old(out[len..])
    ensures len != -1 ==> out[..len] == Header(p) + Payload(planar, totalNch, chStart, flowNch, nSamples)
  {
    if chStart < 0 || flowNch <= 0 || nSamples <= 0 || chStart + flowNch > totalNch {
      return -1;
    }
    MulMono(0, nSamples, flowNch);
    assert flowNch * nSamples == nSamples * flowNch;
    var payload := flowNch * nSamples * 3;
    var total := RTP_HEADER_LEN + payload;
    if cap < total {
      return -1;
    }
    WriteRtpHeader(out, p);
    WritePayload(out, p, planar, totalNch, chStart, flowNch, nSamples);
    len := total;
  }

  /** The re-interleaving loops, after the header. */
  method WritePayload(out: array<u8>, ghost p: RtpParams, planar: Bytes,
                      totalNch: nat, chStart: nat, flowNch: nat, nSamples: nat)
    requires SliceOk(totalNch, chStart, flowNch, nSamples) && |planar| >= 3 * (totalNch * nSamples)
    requires RTP_HEADER_LEN + 3 * (nSamples * flowNch) <= out.Length && out[..RTP_HEADER_LEN] == Header(p)
    modifies out
    ensures var total := RTP_HEADER_LEN + 3 * (nSamples * flowNch);
            && out[..total] == Header(p) + Payload(planar, totalNch, chStart, flowNch, nSamples)
            && out[total..] == old(out[total..])
  {
    ghost var want := Header(p) + Payload(planar, totalNch, chStart, flowNch, nSamples);
    assert forall j :: 0 <= j < RTP_HEADER_LEN ==> out[j] == out[..RTP_HEADER_LEN][j] == want[j];
    for s := 0 to nSamples
      invariant 0 <= s * flowNch && RTP_HEADER_LEN + 3 * (s * flowNch) <= |want|
      invariant forall j :: 0 <= j < RTP_HEADER_LEN + 3 * (s * flowNch) ==> out[j] == want[j]
      invariant forall j :: |want| <= j < out.Length ==> out[j] == old(out[j])
    {
      PlanarBounds(nSamples, flowNch, s, 0);
      InterleaveFrame(out, p, planar, totalNch, chStart, flowNch, nSamples, s);
      assert (s + 1) * flowNch == s * flowNch + flowNch;
    }
    assert out[..|want|] == want;
  }

  /** One time sample of every channel of the slice. */
  method InterleaveFrame(out: array<u8>, ghost p: RtpParams, planar: Bytes,
                         totalNch: nat, chStart: nat, flowNch: nat, nSamples: nat, s: nat)
    requires SliceOk(totalNch, chStart, flowNch, nSamples) && s < nSamples
    requires |planar| >= 3 * (totalNch * nSamples)
    requires RTP_HEADER_LEN + 3 * (nSamples * flowNch) <= out.Length
    requires 0 <= s * flowNch && s * flowNch + flowNch <= nSamples * flowNch
    requires var want := Header(p) + Payload(planar, totalNch, chStart, flowNch, nSamples);
             forall j :: 0 <= j < RTP_HEADER_LEN + 3 * (s * flowNch) ==> out[j] == want[j]
    modifies out
    ensures var want := Header(p) + Payload(planar, totalNch, chStart, flowNch, nSamples);
            forall j :: 0 <= j < RTP_HEADER_LEN + 3 * (s * flowNch + flowNch) ==> out[j] == want[j]
    ensures forall j :: RTP_HEADER_LEN + 3 * (nSamples * flowNch) <= j < out.Length ==> out[j] == old(out[j])
  {
    ghost var want := Header(p) + Payload(planar, totalNch, chStart, flowNch, nSamples);
    var base := s * flowNch;
    for fc := 0 to flowNch
      invariant forall j :: 0 <= j < RTP_HEADER_LEN + 3 * (base + fc) ==> out[j] == want[j]
      invariant forall j :: RTP_HEADER_LEN + 3 * (nSamples * flowNch) <= j < out.Length ==> out[j] == old(out[j])
    {
      var ch := chStart + fc;
      PlanarBounds(totalNch, nSamples, ch, s);
      PlanarBounds(nSamples, flowNch, s, fc);
      var src := (ch * nSamples + s) * 3;
      var dst := RTP_HEADER_LEN + (base + fc) * 3;
      PayloadInOrder(p, planar, totalNch, chStart, flowNch, nSamples, s, fc, base, src);
      out[dst] := planar[src + 2];
      out[dst + 1] := planar[src + 1];
      out[dst + 2] := planar[src];
    }
  }

  /** The sample at the write position is the byte-swapped one at src. */
  lemma PayloadInOrder(p: RtpParams, planar: Bytes, totalNch: nat, chStart: nat, flowNch: nat, n: nat,
                       s: nat, fc: nat, base: nat, src: nat)
    requires chStart + flowNch <= totalNch && |planar| >= 3 * (totalNch * n) && s < n && fc < flowNch
    requires base == s * flowNch && src == 3 * ((chStart + fc) * n + s)
    ensures src + 3 <= |planar|
    ensures var want := Header(p) + Payload(planar, totalNch, chStart, flowNch, n);
            var dst := RTP_HEADER_LEN + 3 * (base + fc);
            && dst + 3 <= |want|
            && want[dst] == planar[src + 2] && want[dst + 1] == planar[src + 1] && want[dst + 2] == planar[src]
  {
    PlanarBounds(totalNch, n, chStart + fc, s);
    PlanarBounds(n, flowNch, s, fc);
    var body := Payload(planar, totalNch, chStart, flowNch, n);
    assert PlanarAt(body, n, flowNch, s, fc) == Swapped(PlanarAt(planar, totalNch, n, chStart + fc, s));
    var k := 3 * (base + fc);
    assert body[k..k + 3] == Swapped(planar[src..src + 3]);
    assert body[k] == body[k..k + 3][0] && body[k + 1] == body[k..k + 3][1] && body[k + 2] == body[k..k + 3][2];
  }
}
