/** The codec chain as a whole: decoder, RTP packets and encoder against each other. */
module Codec {
  import opened Words
  import opened Sample24
  import opened Reac
  import opened ReacDecode
  import opened RtpL24
  import Tx = ReacTx

  /**
   Decoding a frame and building its RTP packet cancel but for byte order: byte j of
   sample i of the payload is byte 2 - j of the i-th sample on the REAC wire.
   */
  lemma PayloadReversesWire(raw: Bytes, mode: Mode, i: nat, j: nat)
    requires mode.Fits() && |raw| == FRAME_BYTES && i < mode.nch * mode.sps && j < 3
    ensures var body := Payload(Decoded(raw, mode), mode.nch, 0, mode.nch, mode.sps);
            && 3 * i + j < |body| && 50 + 3 * i + 2 - j < |raw|
            && body[3 * i + j] == raw[50 + 3 * i + 2 - j]
  {
    var pcm := Decoded(raw, mode);
    var body := Payload(pcm, mode.nch, 0, mode.nch, mode.sps);
    var s, c := SplitIndex(mode.sps, mode.nch, i);
    PlanarBounds(mode.sps, mode.nch, s, c);
    assert PlanarAt(body, mode.sps, mode.nch, s, c) == Swapped(PlanarAt(pcm, mode.nch, mode.sps, 0 + c, s));
    assert PlanarAt(pcm, mode.nch, mode.sps, c, s) == WireAt(raw, mode, c, s);
    WireBytes(raw, mode, c, s, i);
    assert body[3 * i + j] == body[3 * i..3 * i + 3][j];
  }

  lemma WireBytes(raw: Bytes, mode: Mode, c: nat, s: nat, i: nat)
    requires mode.Fits() && |raw| == FRAME_BYTES && c < mode.nch && s < mode.sps && i == s * mode.nch + c
    ensures HEADER_LEN + 3 * i + 3 <= |raw|
    ensures forall j :: 0 <= j < 3 ==> WireAt(raw, mode, c, s)[j] == raw[HEADER_LEN + 3 * i + j]
  {
    PlanarBounds(mode.sps, mode.nch, s, c);
  }

  /** The decoder's transposition, byte by byte: sample s of channel c lies at wire place s * nch + c. */
  lemma DecodedBytes(raw: Bytes, mode: Mode, c: nat, s: nat, j: nat, at: nat, from: nat)
    requires mode.Fits() && |raw| == FRAME_BYTES && c < mode.nch && s < mode.sps && j < 3
    requires at == 3 * (c * mode.sps + s) + j && from == 50 + 3 * (s * mode.nch + c) + j
    ensures at < |Decoded(raw, mode)| && from < |raw| && Decoded(raw, mode)[at] == raw[from]
  {
    WireByte(raw, mode, c, s, j, from);
    DecodedByte(Decoded(raw, mode), raw, mode, c, s, j, at);
  }

  lemma WireByte(raw: Bytes, mode: Mode, c: nat, s: nat, j: nat, from: nat)
    requires mode.Fits() && |raw| == FRAME_BYTES && c < mode.nch && s < mode.sps && j < 3
    requires from == 50 + 3 * (s * mode.nch + c) + j
    ensures from < |raw| && WireAt(raw, mode, c, s)[j] == raw[from]
  {
    PlanarBounds(mode.sps, mode.nch, s, c);
  }

  lemma DecodedByte(pcm: Bytes, raw: Bytes, mode: Mode, c: nat, s: nat, j: nat, at: nat)
    requires mode.Fits() && |raw| == FRAME_BYTES && c < mode.nch && s < mode.sps && j < 3
    requires pcm == Decoded(raw, mode) && at == 3 * (c * mode.sps + s) + j
    ensures at < |pcm| && pcm[at] == WireAt(raw, mode, c, s)[j]
  {
    PlanarByte(pcm, mode.nch, mode.sps, c, s, j);
    assert PlanarAt(pcm, mode.nch, mode.sps, c, s) == WireAt(raw, mode, c, s);
  }

  lemma PlanarByte(block: Bytes, nch: nat, n: nat, c: nat, s: nat, j: nat)
    requires c < nch && s < n && |block| >= 3 * (nch * n) && j < 3
    ensures 0 <= 3 * (c * n + s) + j < |block| && PlanarAt(block, nch, n, c, s)[j] == block[3 * (c * n + s) + j]
  {
    PlanarBounds(nch, n, c, s);
  }

  /** The RTP transposition, byte by byte: channel fc of time sample s, highest byte first. */
  lemma PayloadBytes(planar: Bytes, nch: nat, chStart: nat, flowNch: nat, n: nat, s: nat, fc: nat, j: nat, at: nat, from: nat)
    requires chStart + flowNch <= nch && |planar| >= 3 * (nch * n) && s < n && fc < flowNch && j < 3
    requires at == 3 * (s * flowNch + fc) + j && from == 3 * ((chStart + fc) * n + s) + 2 - j
    ensures var body := Payload(planar, nch, chStart, flowNch, n);
            at < |body| && from < |planar| && body[at] == planar[from]
  {
    var body := Payload(planar, nch, chStart, flowNch, n);
    PlanarByte(body, n, flowNch, s, fc, j);
    PlanarByte(planar, nch, n, chStart + fc, s, 2 - j);
    assert PlanarAt(body, n, flowNch, s, fc) == Swapped(PlanarAt(planar, nch, n, chStart + fc, s));
  }

  /** The encoder's frame, byte by byte round its audio: broadcast, own source, ethertype, counter, an empty control block, end marker. */
  lemma EncodedFrameBytes(planar: Tx.Planes, nch: nat, ns: nat, counter: u16, src: Bytes)
    requires Tx.SuppliesTx(planar, nch, ns) && |src| == 6
    ensures var raw := Tx.TxFrame(planar, nch, ns, counter, src);
            && |raw| == 1492
            && (forall j :: 0 <= j < 6 ==> raw[j] == 0xFF)
            && (forall j :: 6 <= j < 12 ==> raw[j] == src[j - 6])
            && raw[12] == 0x88 && raw[13] == 0x19
            && raw[14] as int + 256 * raw[15] as int == counter
            && (forall j :: 16 <= j < 50 ==> raw[j] == 0)
            && raw[1490] == 0xC2 && raw[1491] == 0xEA
  {
    var raw := Tx.TxFrame(planar, nch, ns, counter, src);
    var header := Tx.TxHeader(counter, src);
    assert forall j :: 0 <= j < 50 ==> raw[j] == header[j];
  }

  /** The encoder's frames are well formed and carry its counter. */
  lemma EncodedFrameIsValid(planar: Tx.Planes, nch: nat, ns: nat, counter: u16, src: Bytes)
    requires Tx.SuppliesTx(planar, nch, ns) && |src| == 6
    ensures Inspect(Tx.TxFrame(planar, nch, ns, counter, src)) == Frame(counter, true)
  {
    var raw := Tx.TxFrame(planar, nch, ns, counter, src);
    var header := Tx.TxHeader(counter, src);
    assert raw[..HEADER_LEN] == header;
    assert header[12] == 0x88 && header[13] == 0x19;
    assert header[14] == counter % 0x100 && header[15] == counter / 0x100 % 0x100;
    assert forall j :: 0 <= j < HEADER_LEN ==> raw[j] == header[j];
  }

  /** Where the encoder's audio lies in its frame. */
  lemma TxAudioAt(planar: Tx.Planes, nch: nat, ns: nat, counter: u16, src: Bytes, k: nat)
    requires Tx.SuppliesTx(planar, nch, ns) && |src| == 6 && k + 3 <= 1440
    ensures |Tx.TxAudio(planar, nch, ns)| == 1440 && |Tx.TxFrame(planar, nch, ns, counter, src)| == FRAME_BYTES
    ensures Tx.TxFrame(planar, nch, ns, counter, src)[HEADER_LEN..][k..k + 3] == Tx.TxAudio(planar, nch, ns)[k..k + 3]
  {
    MiddlePart(Tx.TxHeader(counter, src), Tx.TxAudio(planar, nch, ns), [END_MARKER_0, END_MARKER_1], k);
  }

  lemma MiddlePart(head: Bytes, body: Bytes, tail: Bytes, k: nat)
    requires k + 3 <= |body|
    ensures (head + body + tail)[|head|..][k..k + 3] == body[k..k + 3]
  {
  }

  /** The sample the encoder is given for a place in the frame: silence where none is supplied. */
  lemma GivenSample(planar: Tx.Planes, nch: nat, ns: nat, c: nat, s: nat)
    requires Tx.SuppliesTx(planar, nch, ns) && c < 40 && s < 12
    ensures c < nch && s < ns && planar[c].Some? ==> Tx.TxValue(planar, nch, ns, c, s) == planar[c].value[s]
    ensures c >= nch || s >= ns || planar[c].None? ==> Tx.Quantised(Tx.TxValue(planar, nch, ns, c, s)) == 0
  {
    Tx.RoundsToNearest(0.0, 0);
  }

  /**
   Encoder, then decoder: every channel of the 40-channel frame reads back its own
   clamped 24-bit value; channels and samples not supplied read back zero.
   */
  lemma EncodeDecode(planar: Tx.Planes, nch: nat, ns: nat, counter: u16, src: Bytes, rate: nat, c: nat, s: nat)
    requires Tx.SuppliesTx(planar, nch, ns) && |src| == 6 && c < 40 && s < 12
    ensures var pcm := Decoded(Tx.TxFrame(planar, nch, ns, counter, src), Mode(rate, 40, 12));
            var given := c < nch && s < ns && planar[c].Some?;
            Load24(PlanarAt(pcm, 40, 12, c, s)) == if given then Tx.Quantised(planar[c].value[s]) else 0
  {
    var mode := Mode(rate, MAX_CHANNELS, SAMPLES_PER_PKT);
    var raw := Tx.TxFrame(planar, nch, ns, counter, src);
    var audio := Tx.TxAudio(planar, nch, ns);
    var k := 3 * (s * MAX_CHANNELS + c);
    PlanarBounds(SAMPLES_PER_PKT, MAX_CHANNELS, s, c);
    TxAudioAt(planar, nch, ns, counter, src, k);
    assert PlanarAt(audio, SAMPLES_PER_PKT, MAX_CHANNELS, s, c) == audio[k..k + 3];
    assert PlanarAt(Decoded(raw, mode), 40, 12, c, s) == WireAt(raw, mode, c, s);
    LoadStored(Tx.Quantised(Tx.TxValue(planar, nch, ns, c, s)));
    GivenSample(planar, nch, ns, c, s);
  }
}
