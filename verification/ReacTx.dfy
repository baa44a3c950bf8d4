/** The downstream frame encoder (pipewire/src/reac_tx.c). Float samples are reals: scaling by 2^23 is exact. */
module ReacTx {
  import opened Words
  import opened Sample24
  import opened Reac

  // ----- quantisation -------------------------------------------------------

  /** `lrintf`: to nearest, ties to even. */
  function RoundHalfEven(x: real): int
  {
    var f := x.Floor;
    var d := x - f as real;
    if d < 0.5 || (d == 0.5 && f % 2 == 0) then f else f + 1
  }

  /** The 24-bit value `f32_to_s24le` stores. */
  function Quantised(v: Sample): s24
  {
    var x := v * 8388608.0;
    var y := if x > 8388607.0 then 8388607.0 else x;
    var z := if y < -8388608.0 then -8388608.0 else y;
    RoundHalfEven(z)
  }

  /** `s24le_to_f32` of the feeder. */
  function Dequantised(v: s24): Sample
  {
    v as real / 8388608.0
  }

  /** Samples on the 24-bit grid survive exactly. */
  lemma GridIsExact(k: s24)
    ensures Quantised(Dequantised(k)) == k
  {
    assert Dequantised(k) * 8388608.0 == k as real;
  }

  /** The round trip stays within half a 24-bit step exactly for the inputs within half a step of the 24-bit range. */
  lemma QuantisationError(v: Sample)
    ensures -0.5 <= Quantised(v) as real - v * 8388608.0 <= 0.5 <==> -8388608.5 <= v * 8388608.0 <= 8388607.5
    ensures Dequantised(Quantised(v)) - v == (Quantised(v) as real - v * 8388608.0) / 8388608.0
  {
  }

  function Distance(x: real, y: real): real
  {
    if x < y then y - x else x - y
  }

  /** Rounding goes to a nearest integer, and between two of them to the even one. */
  lemma RoundsToNearest(x: real, k: int)
    ensures Distance(RoundHalfEven(x) as real, x) <= Distance(k as real, x)
    ensures Distance(RoundHalfEven(x) as real, x) == Distance(k as real, x) && k != RoundHalfEven(x) ==> RoundHalfEven(x) % 2 == 0
  {
    var q := RoundHalfEven(x);
    assert x.Floor as real <= x < x.Floor as real + 1.0;
    if k < x.Floor { assert k as real <= x.Floor as real - 1.0; }
    if k > x.Floor + 1 { assert k as real >= x.Floor as real + 2.0; }
  }

  /** What is stored is, of all 24-bit values, a nearest one, for every input: overs clip to the rail they pass. */
  lemma QuantisedIsNearest(v: Sample, k: s24)
    ensures Distance(Quantised(v) as real, v * 8388608.0) <= Distance(k as real, v * 8388608.0)
    ensures v * 8388608.0 >= 8388607.0 ==> Quantised(v) == 8388607
    ensures v * 8388608.0 <= -8388608.0 ==> Quantised(v) == -8388608
  {
    var x := v * 8388608.0;
    assert k as real <= 8388607.0 && k as real >= -8388608.0;
    if -8388608.0 <= x <= 8388607.0 { RoundsToNearest(x, k); }
  }

  /** In range and half way between two 24-bit values, the even one is stored. */
  lemma QuantisedTiesToEven(v: Sample, k: s24)
    requires -8388608.0 <= v * 8388608.0 <= 8388607.0 && k != Quantised(v)
    requires Distance(Quantised(v) as real, v * 8388608.0) == Distance(k as real, v * 8388608.0)
    ensures Quantised(v) % 2 == 0
  {
    RoundsToNearest(v * 8388608.0, k);
  }

  /** A louder sample is never stored lower. */
  lemma QuantisedRises(v: Sample, w: Sample)
    requires v <= w
    ensures Quantised(v) <= Quantised(w)
  {
    assert v * 8388608.0 <= w * 8388608.0;
  }

  // ----- the frame ----------------------------------------------------------

  /** A plane per channel; an unlinked input port has none. */
  type Planes = seq<Option<seq<Sample>>>

  ghost predicate SuppliesTx(planar: Planes, nch: nat, ns: nat)
  {
    nch <= |planar| && forall ch :: 0 <= ch < nch && planar[ch].Some? ==> |planar[ch].value| >= Min(ns, SAMPLES_PER_PKT)
  }

  /** What goes out at time sample s of channel ch of the 40-channel frame. */
  function TxValue(planar: Planes, nch: nat, ns: nat, ch: nat, s: nat): Sample
    requires SuppliesTx(planar, nch, ns) && s < SAMPLES_PER_PKT
  {
    if s < ns && ch < nch && planar[ch].Some? then planar[ch].value[s] else 0.0
  }

  function TxHeader(counter: u16, src: Bytes): (b: Bytes)
    requires |src| == 6
    ensures |b| == HEADER_LEN
  {
    [0xFF, 0xFF, 0xFF, 0xFF, 0xFF, 0xFF] + src + [0x88, 0x19, counter % 0x100, counter / 0x100 % 0x100] + seq(34, _ => 0)
  }

  /** The audio region: sample-major, 40 channels a time sample. */
  ghost function TxAudio(planar: Planes, nch: nat, ns: nat): (b: Bytes)
    requires SuppliesTx(planar, nch, ns)
    ensures IsPlanar(b, SAMPLES_PER_PKT, MAX_CHANNELS) && |b| == 1440
    ensures forall s, ch :: 0 <= s < SAMPLES_PER_PKT && 0 <= ch < MAX_CHANNELS ==>
              PlanarAt(b, SAMPLES_PER_PKT, MAX_CHANNELS, s, ch) == Store24(Quantised(TxValue(planar, nch, ns, ch, s)))
  {
    Block(SAMPLES_PER_PKT, MAX_CHANNELS, (s: nat, ch: nat) requires s < SAMPLES_PER_PKT && SuppliesTx(planar, nch, ns) =>
      Store24(Quantised(TxValue(planar, nch, ns, ch, s))))
  }

  ghost function TxFrame(planar: Planes, nch: nat, ns: nat, counter: u16, src: Bytes): (b: Bytes)
    requires SuppliesTx(planar, nch, ns) && |src| == 6
    ensures |b| == FRAME_BYTES
  {
    TxHeader(counter, src) + TxAudio(planar, nch, ns) + [END_MARKER_0, END_MARKER_1]
  }

  function Patched(out: Bytes, d: nat, b: Sample3): (r: Bytes)
    requires d + 3 <= |out|
    ensures |r| == |out| && r[d] == b[0] && r[d + 1] == b[1] && r[d + 2] == b[2]
    ensures forall j :: 0 <= j < |out| && !(d <= j < d + 3) ==> r[j] == out[j]
  {
    out[..d] + b + out[d + 3..]
  }

  /** `f32_to_s24le` */
  method PutSample(v: Sample, out: array<u8>, d: nat)
    requires d + 3 <= out.Length
    modifies out
    ensures out[..] == Patched(old(out[..]), d, Store24(Quantised(v)))
  {
    var s := Quantised(v);
    out[d] := s % 0x100;
    out[d + 1] := (s / 0x100) % 0x100;
    out[d + 2] := (s / 0x1_0000) % 0x100;
  }

  /** The L2 header over a cleared frame. */
  method WriteTxHeader(out: array<u8>, counter: u16, src: Bytes)
    requires out.Length >= FRAME_BYTES && |src| == 6
    modifies out
    ensures forall j :: 0 <= j < HEADER_LEN ==> out[j] == TxHeader(counter, src)[j]
    ensures forall j :: HEADER_LEN <= j < FRAME_BYTES ==> out[j] == 0
    ensures forall j :: FRAME_BYTES <= j < out.Length ==> out[j] == old(out[j])
  {
    for i := 0 to FRAME_BYTES
      invariant forall j :: 0 <= j < i ==> out[j] == 0
      invariant forall j :: FRAME_BYTES <= j < out.Length ==> out[j] == old(out[j])
    {
      out[i] := 0;
    }
    for i := 0 to 6
      invariant forall j :: 0 <= j < i ==> out[j] == 0xFF && out[6 + j] == src[j]
      invariant forall j :: 12 <= j < FRAME_BYTES ==> out[j] == 0
      invariant forall j :: FRAME_BYTES <= j < out.Length ==> out[j] == old(out[j])
    {
      out[i], out[6 + i] := 0xFF, src[i];
    }
    out[12], out[13] := 0x88, 0x19;
    out[COUNTER_OFF], out[COUNTER_OFF + 1] := counter % 0x100, counter / 0x100 % 0x100;
  }

  /** `reac_tx_build` */
  method Build(out: array<u8>, planar: Planes, nch: nat, ns: nat, counter: u16, src: Bytes) returns (len: nat)
    requires out.Length >= FRAME_BYTES && |src| == 6 && SuppliesTx(planar, nch, ns)
    modifies out
    ensures len == FRAME_BYTES
    ensures out[..FRAME_BYTES] == TxFrame(planar, nch, ns, counter, src)
    ensures out[FRAME_BYTES..] == old(out[FRAME_BYTES..])
  {
    WriteTxHeader(out, counter, src);
    var frames := if ns < SAMPLES_PER_PKT then ns else SAMPLES_PER_PKT;
    ghost var want := TxHeader(counter, src) + TxAudio(planar, nch, ns);
    for s := 0 to frames
      invariant Written(out[..], want, HEADER_LEN + 120 * s)
      invariant forall j :: FRAME_BYTES <= j < out.Length ==> out[j] == old(out[j])
    {
      BuildRow(out, planar, nch, ns, s, want);
    }
    SilentTail(planar, nch, ns, frames);
    out[FRAME_BYTES - 2], out[FRAME_BYTES - 1] := END_MARKER_0, END_MARKER_1;
    len := FRAME_BYTES;
    assert out[..FRAME_BYTES] == want + [END_MARKER_0, END_MARKER_1];
  }

  /** The frame holds what is wanted below d, and is still clear from there on. */
  ghost predicate Written(out: Bytes, want: Bytes, d: nat)
  {
    && |out| >= FRAME_BYTES && |want| == FRAME_BYTES - 2 && d <= |want|
    && (forall j :: 0 <= j < d ==> out[j] == want[j])
    && (forall j :: d <= j < FRAME_BYTES ==> out[j] == 0)
  }

  /** One time sample of all forty channels. */
  method BuildRow(out: array<u8>, planar: Planes, nch: nat, ns: nat, s: nat, ghost want: Bytes)
    requires SuppliesTx(planar, nch, ns) && s < Min(ns, SAMPLES_PER_PKT)
    requires Written(out[..], want, HEADER_LEN + 120 * s) && want[HEADER_LEN..] == TxAudio(planar, nch, ns)
    modifies out
    ensures Written(out[..], want, HEADER_LEN + 120 * s + 120)
    ensures forall j :: FRAME_BYTES <= j < out.Length ==> out[j] == old(out[j])
  {
    var N := MAX_CHANNELS;
    for ch := 0 to N
      invariant Written(out[..], want, HEADER_LEN + 120 * s + 3 * ch)
      invariant forall j :: FRAME_BYTES <= j < out.Length ==> out[j] == old(out[j])
    {
      var v := if ch < nch && planar[ch].Some? then planar[ch].value[s] else 0.0;
      var d := HEADER_LEN + (s * N + ch) * RESOLUTION;
      RowStep(planar, nch, ns, s, ch, out[..], want, d);
      assert v == TxValue(planar, nch, ns, ch, s);
      PutSample(v, out, d);
    }
  }

  lemma RowStep(planar: Planes, nch: nat, ns: nat, s: nat, ch: nat, out: Bytes, want: Bytes, d: nat)
    requires SuppliesTx(planar, nch, ns) && s < SAMPLES_PER_PKT && ch < MAX_CHANNELS
    requires Written(out, want, d) && d == HEADER_LEN + 120 * s + 3 * ch && want[HEADER_LEN..] == TxAudio(planar, nch, ns)
    ensures d + 3 <= FRAME_BYTES - 2
    ensures Written(Patched(out, d, Store24(Quantised(TxValue(planar, nch, ns, ch, s)))), want, d + 3)
  {
    AudioInOrder(planar, nch, ns, s, ch);
    WrittenStep(out, want, d, Store24(Quantised(TxValue(planar, nch, ns, ch, s))), TxAudio(planar, nch, ns));
  }

  lemma WrittenStep(out: Bytes, want: Bytes, d: nat, b: Sample3, audio: Bytes)
    requires Written(out, want, d) && HEADER_LEN <= d && d + 3 <= |want| && want[HEADER_LEN..] == audio
    requires var k := d - HEADER_LEN; audio[k] == b[0] && audio[k + 1] == b[1] && audio[k + 2] == b[2]
    ensures Written(Patched(out, d, b), want, d + 3)
  {
    var k := d - HEADER_LEN;
    assert want[d] == audio[k] && want[d + 1] == audio[k + 1] && want[d + 2] == audio[k + 2];
  }

  lemma ThreeBytes(block: Bytes, k: nat, b: Sample3)
    requires k + 3 <= |block| && b == block[k..k + 3]
    ensures block[k] == b[0] && block[k + 1] == b[1] && block[k + 2] == b[2]
  {
  }

  lemma AudioInOrder(planar: Planes, nch: nat, ns: nat, s: nat, ch: nat)
    requires SuppliesTx(planar, nch, ns) && s < SAMPLES_PER_PKT && ch < MAX_CHANNELS
    ensures var b := Store24(Quantised(TxValue(planar, nch, ns, ch, s)));
            var k := 120 * s + 3 * ch;
            var audio := TxAudio(planar, nch, ns);
            k + 3 <= 1440 && audio[k] == b[0] && audio[k + 1] == b[1] && audio[k + 2] == b[2]
  {
    var audio := TxAudio(planar, nch, ns);
    var k := 120 * s + 3 * ch;
    var b := PlanarAt(audio, SAMPLES_PER_PKT, MAX_CHANNELS, s, ch);
    PlanarBounds(SAMPLES_PER_PKT, MAX_CHANNELS, s, ch);
    assert 3 * (s * MAX_CHANNELS + ch) == k;
    ThreeBytes(audio, k, b);
  }

  /** Time samples the caller did not supply are zero bytes. */
  lemma SilentTail(planar: Planes, nch: nat, ns: nat, frames: nat)
    requires SuppliesTx(planar, nch, ns) && frames == Min(ns, SAMPLES_PER_PKT)
    ensures forall j :: 120 * frames <= j < 1440 ==> TxAudio(planar, nch, ns)[j] == 0
  {
    forall j | 120 * frames <= j < 1440 ensures TxAudio(planar, nch, ns)[j] == 0 {
      var s, ch := AudioIndex(j);
      SilentSample(planar, nch, ns, s, ch);
    }
  }

  lemma AudioIndex(j: nat) returns (s: nat, ch: nat)
    requires j < 1440
    ensures s < SAMPLES_PER_PKT && ch < MAX_CHANNELS
    ensures var k := 120 * s + 3 * ch; j == k || j == k + 1 || j == k + 2
  {
    s, ch := j / 120, j % 120 / 3;
  }

  lemma SilentSample(planar: Planes, nch: nat, ns: nat, s: nat, ch: nat)
    requires SuppliesTx(planar, nch, ns) && ns <= s < SAMPLES_PER_PKT && ch < MAX_CHANNELS
    ensures var k := 120 * s + 3 * ch; var audio := TxAudio(planar, nch, ns);
            audio[k] == audio[k + 1] == audio[k + 2] == 0
  {
    AudioInOrder(planar, nch, ns, s, ch);
    SilenceIsZero();
  }

  lemma SilenceIsZero()
    ensures Store24(Quantised(0.0)) == [0, 0, 0]
  {
    assert RoundHalfEven(0.0) == 0;
  }

  // ----- the emitter --------------------------------------------------------

  class ReacTx {
    const src: Bytes
    var counter: u16

    constructor (src: Bytes)
      requires |src| == 6
      ensures this.src == src && counter == 0
    {
      this.src, counter := src, 0;
    }

    /** `reac_tx_emit`: the frame handed to the socket; the counter advances whatever the socket says. */
    method Emit(planar: Planes, nch: nat, ns: nat) returns (frame: Bytes)
      requires |src| == 6 && SuppliesTx(planar, nch, ns)
      modifies this
      ensures frame == TxFrame(planar, nch, ns, old(counter), src)
      ensures counter == (old(counter) + 1) % U16
    {
      var buf := new u8[FRAME_BYTES](_ => 0);
      var len := Build(buf, planar, nch, ns, counter, src);
      frame := buf[..];
      assert frame == buf[..FRAME_BYTES];
      counter := (counter + 1) % U16;
    }
  }
}
