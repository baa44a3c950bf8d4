/** Frame validation and de-interleaving (src/reac_decode.c). */
module ReacDecode {
  import opened Words
  import opened Sample24
  import opened Reac

  datatype Frame = Frame(counter: u16, valid: bool)

  /** `reac_frame_inspect` */
  function Inspect(raw: Bytes): Frame
  {
    if |raw| != FRAME_BYTES then Frame(0, false)
    else if raw[12] != 0x88 || raw[13] != 0x19 then Frame(0, false)
    else if raw[|raw| - 2] != END_MARKER_0 || raw[|raw| - 1] != END_MARKER_1 then Frame(0, false)
    else Frame(raw[14] as int + 0x100 * raw[15] as int, true)
  }

  /** A REAC frame, part by part: link addresses, ethertype, counter, control block and audio, end marker. */
  ghost predicate ReacFrame(raw: Bytes, link: Bytes, lo: u8, hi: u8, body: Bytes)
  {
    |link| == 12 && |body| == 1474 && raw == link + [0x88, 0x19, lo, hi] + body + [0xC2, 0xEA]
  }

  ghost predicate IsReacFrame(raw: Bytes)
  {
    exists link, lo, hi, body :: ReacFrame(raw, link, lo, hi, body)
  }

  /** Accepted are exactly the REAC frames, under the counter they carry lowest byte first. */
  lemma AcceptedIff(raw: Bytes)
    ensures Inspect(raw).valid <==> IsReacFrame(raw)
    ensures forall link, lo, hi, body :: ReacFrame(raw, link, lo, hi, body) ==> Inspect(raw) == Frame(lo as int + 256 * hi as int, true)
  {
    if Inspect(raw).valid {
      assert ReacFrame(raw, raw[..12], raw[14], raw[15], raw[16..1490]);
    }
    forall link, lo, hi, body | ReacFrame(raw, link, lo, hi, body)
      ensures Inspect(raw) == Frame(lo as int + 256 * hi as int, true)
    {
      FrameEnds(raw, link, lo, hi, body);
    }
  }

  lemma FrameEnds(raw: Bytes, link: Bytes, lo: u8, hi: u8, body: Bytes)
    requires ReacFrame(raw, link, lo, hi, body)
    ensures |raw| == 1492 && raw[12] == 0x88 && raw[13] == 0x19 && raw[14] == lo && raw[15] == hi
    ensures raw[1490] == 0xC2 && raw[1491] == 0xEA
  {
  }

  /** Sample s of channel c on the wire: sample-major, all channels of a time sample together. */
  function WireAt(raw: Bytes, mode: Mode, c: nat, s: nat): Sample3
    requires mode.Fits() && |raw| == FRAME_BYTES && c < mode.nch && s < mode.sps
  {
    PlanarBounds(mode.sps, mode.nch, s, c);
    SampleBytes(raw[HEADER_LEN..], s * mode.nch + c)
  }

  /** The planar block a valid frame decodes to. */
  ghost function Decoded(raw: Bytes, mode: Mode): (pcm: Bytes)
    requires mode.Fits() && |raw| == FRAME_BYTES
    ensures IsPlanar(pcm, mode.nch, mode.sps)
    ensures forall c, s :: 0 <= c < mode.nch && 0 <= s < mode.sps ==>
              PlanarAt(pcm, mode.nch, mode.sps, c, s) == WireAt(raw, mode, c, s)
  {
    Block(mode.nch, mode.sps, (c: nat, s: nat) requires c < mode.nch && s < mode.sps => WireAt(raw, mode, c, s))
  }

  /** `reac_decode`: samples per channel written, or -1 with nothing written for anything but a REAC frame. */
  method Decode(raw: Bytes, mode: Mode, out: array<u8>) returns (ns: int)
    requires mode.Fits() && out.Length >= 3 * (mode.nch * mode.sps)
    modifies out
    ensures ns == if Inspect(raw).valid then mode.sps else -1
    ensures ns != -1 <==> IsReacFrame(raw)
    ensures ns == -1 ==> out[..] == old(out[..])
    ensures ns != -1 ==>
              var n := 3 * (mode.nch * mode.sps);
              |raw| == FRAME_BYTES && out[..n] == Decoded(raw, mode) && out[n..] == old(out[n..])
  {
    AcceptedIff(raw);
    var f := Inspect(raw);
    if !f.valid {
      return -1;
    }
    ns := mode.sps;
    Deinterleave(raw, mode, out);
  }

  /** The channels, one after the other. */
  method Deinterleave(raw: Bytes, mode: Mode, out: array<u8>)
    requires mode.Fits() && |raw| == FRAME_BYTES && out.Length >= 3 * (mode.nch * mode.sps)
    modifies out
    ensures var n := 3 * (mode.nch * mode.sps); out[..n] == Decoded(raw, mode) && out[n..] == old(out[n..])
  {
    ghost var want := Decoded(raw, mode);
    var d := 0;
    for ch := 0 to mode.nch
      invariant d == 3 * (ch * mode.sps) <= |want|
      invariant forall j :: 0 <= j < d ==> out[j] == want[j]
      invariant forall j :: |want| <= j < out.Length ==> out[j] == old(out[j])
    {
      PlanarBounds(mode.nch, mode.sps, ch, 0);
      d := DecodeChannel(raw, mode, ch, d, out);
    }
    assert out[..d] == want;
  }

  /** The time samples of one channel, copied to the write position d. */
  method DecodeChannel(raw: Bytes, mode: Mode, ch: nat, d: nat, out: array<u8>) returns (d': nat)
    requires mode.Fits() && |raw| == FRAME_BYTES && ch < mode.nch && d == 3 * (ch * mode.sps)
    requires d <= |Decoded(raw, mode)| <= out.Length
    requires forall j :: 0 <= j < d ==> out[j] == Decoded(raw, mode)[j]
    modifies out
    ensures d' == 3 * (ch * mode.sps + mode.sps) <= |Decoded(raw, mode)|
    ensures forall j :: 0 <= j < d' ==> out[j] == Decoded(raw, mode)[j]
    ensures forall j :: |Decoded(raw, mode)| <= j < out.Length ==> out[j] == old(out[j])
  {
    var audio := raw[HEADER_LEN..];
    var nch := mode.nch;
    ghost var want := Decoded(raw, mode);
    PlanarBounds(nch, mode.sps, ch, 0);
    d' := d;
    for s := 0 to mode.sps
      invariant d' == 3 * (ch * mode.sps + s) <= |want|
      invariant forall j :: 0 <= j < d' ==> out[j] == want[j]
      invariant forall j :: |want| <= j < out.Length ==> out[j] == old(out[j])
    {
      PlanarBounds(nch, mode.sps, ch, s);
      PlanarBounds(mode.sps, nch, s, ch);
      var sptr := (s * nch + ch) * RESOLUTION;
      DecodedInOrder(raw, mode, ch, s, d', sptr);
      out[d'], out[d' + 1], out[d' + 2] := audio[sptr], audio[sptr + 1], audio[sptr + 2];
      d' := d' + 3;
    }
  }

  /** The sample written at d is the one read at sptr. */
  lemma DecodedInOrder(raw: Bytes, mode: Mode, c: nat, s: nat, d: nat, sptr: nat)
    requires mode.Fits() && |raw| == FRAME_BYTES && c < mode.nch && s < mode.sps
    requires d == 3 * (c * mode.sps + s) && sptr == 3 * (s * mode.nch + c)
    ensures sptr + 3 <= FRAME_BYTES - HEADER_LEN && d + 3 <= |Decoded(raw, mode)|
    ensures Decoded(raw, mode)[d..d + 3] == raw[HEADER_LEN..][sptr..sptr + 3]
  {
    PlanarBounds(mode.nch, mode.sps, c, s);
    PlanarBounds(mode.sps, mode.nch, s, c);
    assert PlanarAt(Decoded(raw, mode), mode.nch, mode.sps, c, s) == WireAt(raw, mode, c, s);
  }
}
