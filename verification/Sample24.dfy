/** Signed 24-bit little-endian samples (`load24` and `store24` of src/plc.c). */
module Sample24 {
  import opened Words

  const SMAX := 8388607
  const SMIN := -8388608

  type Sample3 = b: Bytes | |b| == 3 witness [0, 0, 0]
  type s24 = x: int | -8388608 <= x <= 8388607

  function Load24(b: Sample3): s24
  {
    var v := b[0] as int + 0x100 * b[1] as int + 0x1_0000 * b[2] as int;
    if v >= 0x80_0000 then v - 0x100_0000 else v
  }

  function Clamp24(x: int): s24
  {
    if x > SMAX then SMAX else if x < SMIN then SMIN else x
  }

  /** The clamp, then the three low bytes of the two's complement word. */
  function Store24(x: int): Sample3
  {
    var v := Clamp24(x);
    [v % 0x100, (v / 0x100) % 0x100, (v / 0x1_0000) % 0x100]
  }

  /** The three bytes, lowest first, are the sample modulo 2^24, as two's complement has it. */
  lemma LittleEndian(b: Sample3)
    ensures (Load24(b) - (b[0] as int + 256 * b[1] as int + 65536 * b[2] as int)) % 16777216 == 0
  {
  }

  lemma StoredLittleEndian(x: s24)
    ensures var b := Store24(x); (x - (b[0] as int + 256 * b[1] as int + 65536 * b[2] as int)) % 16777216 == 0
  {
    LoadStored(x);
    LittleEndian(Store24(x));
  }

  /** The clamp goes to the nearest 24-bit value. */
  lemma ClampIsNearest(x: int, k: s24)
    ensures Abs(Clamp24(x) - x) <= Abs(k - x)
  {
  }

  lemma LoadStored(x: int)
    ensures Load24(Store24(x)) == Clamp24(x)
  {
  }

  lemma StoreLoaded(b: Sample3)
    ensures Store24(Load24(b)) == b
  {
    var x := Load24(b);
    var hi := if b[2] >= 0x80 then b[2] as int - 0x100 else b[2] as int;
    assert x == b[0] as int + 0x100 * (b[1] as int + 0x100 * hi);
    DivModUnique(x, 0x100, b[1] as int + 0x100 * hi, b[0]);
    DivModUnique(x, 0x1_0000, hi, b[0] as int + 0x100 * b[1] as int);
    DivModUnique(b[1] as int + 0x100 * hi, 0x100, hi, b[1]);
    DivModUnique(hi, 0x100, if b[2] >= 0x80 then -1 else 0, b[2]);
  }

  /** Sample i of a block of 3-byte samples. */
  function SampleBytes(block: Bytes, i: nat): (b: Sample3)
    requires 3 * i + 3 <= |block|
  {
    block[3 * i..3 * i + 3]
  }

  // ----- planar blocks ------------------------------------------------------

  lemma PlanarBounds(nch: nat, n: nat, c: nat, s: nat)
    requires c < nch && s < n
    ensures 0 <= c * n && c * n + s < nch * n && c * n + n <= nch * n
  {
    MulMono(0, c, n);
    MulMono(c + 1, nch, n);
    assert (c + 1) * n == c * n + n;
  }

  /** A block holds nch planes of n samples. */
  ghost predicate IsPlanar(block: Bytes, nch: nat, n: nat)
  {
    |block| == 3 * (nch * n)
  }

  /** Sample s of channel c: channel c's n samples are contiguous. */
  function PlanarAt(block: Bytes, nch: nat, n: nat, c: nat, s: nat): (b: Sample3)
    requires c < nch && s < n && |block| >= 3 * (nch * n)
  {
    PlanarBounds(nch, n, c, s);
    SampleBytes(block, c * n + s)
  }

  lemma PlanarPrefix(block: Bytes, len: nat, nch: nat, n: nat, c: nat, s: nat)
    requires c < nch && s < n && 3 * (nch * n) <= len <= |block|
    ensures PlanarAt(block[..len], nch, n, c, s) == PlanarAt(block, nch, n, c, s)
  {
    PlanarBounds(nch, n, c, s);
    var i := 3 * (c * n + s);
    assert block[..len][i..i + 3] == block[i..i + 3];
  }

  /** Planar blocks with the same samples are the same block. */
  lemma PlanarEqual(a: Bytes, b: Bytes, nch: nat, n: nat)
    requires IsPlanar(a, nch, n) && IsPlanar(b, nch, n)
    requires forall c, s :: 0 <= c < nch && 0 <= s < n ==> PlanarAt(a, nch, n, c, s) == PlanarAt(b, nch, n, c, s)
    ensures a == b
  {
    forall i | 0 <= i < nch * n ensures SampleBytes(a, i) == SampleBytes(b, i) {
      var c, s := SplitIndex(nch, n, i);
      assert PlanarAt(a, nch, n, c, s) == PlanarAt(b, nch, n, c, s);
    }
    BlocksEqual(a, b, nch * n);
  }

  /** Byte i of the block whose sample c of row r is f(r, c). */
  ghost function BlockByte(rows: nat, cols: nat, f: (nat, nat) --> Sample3, i: nat): u8
    requires forall r, c :: 0 <= r < rows && 0 <= c < cols ==> f.requires(r, c)
    requires i < 3 * (rows * cols)
  {
    RowIndex(rows, cols, i / 3);
    f(i / 3 / cols, i / 3 % cols)[i % 3]
  }

  lemma BlockBytes(rows: nat, cols: nat, f: (nat, nat) --> Sample3, r: nat, c: nat, j: nat)
    requires forall r, c :: 0 <= r < rows && 0 <= c < cols ==> f.requires(r, c)
    requires r < rows && c < cols && j < 3
    ensures 0 <= 3 * (r * cols + c) + j < 3 * (rows * cols)
    ensures BlockByte(rows, cols, f, 3 * (r * cols + c) + j) == f(r, c)[j]
  {
    PlanarBounds(rows, cols, r, c);
    DivModUnique(r * cols + c, cols, r, c);
    DivModUnique(3 * (r * cols + c) + j, 3, r * cols + c, j);
  }

  lemma BlockReads(rows: nat, cols: nat, f: (nat, nat) --> Sample3, b: Bytes)
    requires forall r, c :: 0 <= r < rows && 0 <= c < cols ==> f.requires(r, c)
    requires IsPlanar(b, rows, cols) && forall i :: 0 <= i < |b| ==> b[i] == BlockByte(rows, cols, f, i)
    ensures forall r, c :: 0 <= r < rows && 0 <= c < cols ==> PlanarAt(b, rows, cols, r, c) == f(r, c)
  {
    forall r, c | 0 <= r < rows && 0 <= c < cols ensures PlanarAt(b, rows, cols, r, c) == f(r, c) {
      PlanarBounds(rows, cols, r, c);
      var i := 3 * (r * cols + c);
      BlockBytes(rows, cols, f, r, c, 0);
      BlockBytes(rows, cols, f, r, c, 1);
      BlockBytes(rows, cols, f, r, c, 2);
      assert b[i..i + 3] == [b[i], b[i + 1], b[i + 2]];
    }
  }

  /** The block whose sample c of row r is f(r, c). */
  ghost function Block(rows: nat, cols: nat, f: (nat, nat) --> Sample3): (b: Bytes)
    requires forall r, c :: 0 <= r < rows && 0 <= c < cols ==> f.requires(r, c)
    ensures IsPlanar(b, rows, cols)
    ensures forall r, c :: 0 <= r < rows && 0 <= c < cols ==> PlanarAt(b, rows, cols, r, c) == f(r, c)
  {
    BlockSize(rows, cols);
    var b := seq<u8>(3 * (rows * cols), i requires 0 <= i < 3 * (rows * cols) => BlockByte(rows, cols, f, i));
    BlockReads(rows, cols, f, b);
    b
  }

  lemma BlockSize(rows: nat, cols: nat)
    ensures 0 <= rows * cols
  {
    MulMono(0, rows, cols);
  }

  lemma RowIndex(rows: nat, cols: nat, i: nat)
    requires i < rows * cols
    ensures cols > 0 && 0 <= i / cols < rows && 0 <= i % cols < cols
  {
    DivUpper(i, cols, rows);
  }

  lemma SplitIndex(nch: nat, n: nat, i: nat) returns (c: nat, s: nat)
    requires i < nch * n
    ensures c < nch && s < n && i == c * n + s
  {
    c, s := i / n, i % n;
    DivUpper(i, n, nch);
  }

  /** Two blocks of n samples with equal samples are equal. */
  lemma BlocksEqual(a: Bytes, b: Bytes, n: nat)
    requires |a| == |b| == 3 * n
    requires forall i :: 0 <= i < n ==> SampleBytes(a, i) == SampleBytes(b, i)
    ensures a == b
  {
    forall j | 0 <= j < 3 * n ensures a[j] == b[j] {
      assert SampleBytes(a, j / 3)[j % 3] == SampleBytes(b, j / 3)[j % 3];
    }
  }
}
