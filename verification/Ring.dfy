/** The sample ring of pipewire/src/reac_ring.c as its callers see it, one call at a time. */
module Ring {
  import opened Words
  import opened RingIndex
  import opened RingProtocol
  import opened RingRefinement

  // ----- planes inside a flat buffer ----------------------------------------

  lemma CellBounds(c: nat, channels: nat, p: nat, len: nat)
    requires c < channels && p < len
    ensures 0 <= c * len + p < channels * len
    ensures c * len + len <= channels * len
  {
    MulMono(c + 1, channels, len);
    assert (c + 1) * len == c * len + len;
  }

  lemma CellsDiffer(c: nat, p: nat, c': nat, p': nat, len: nat)
    requires p < len && p' < len && (c != c' || p != p')
    ensures c * len + p != c' * len + p'
  {
    if c < c' {
      MulMono(c + 1, c', len);
      assert (c + 1) * len == c * len + len;
    } else if c' < c {
      MulMono(c' + 1, c, len);
      assert (c' + 1) * len == c' * len + len;
    }
  }

  /** Row c, column p of a flat block of rows of `len`. */
  ghost function Cell<T>(flat: seq<T>, channels: nat, len: nat, c: nat, p: nat): T
    requires channels * len <= |flat| && c < channels && p < len
  {
    CellBounds(c, channels, p, len);
    flat[Place(c, len, p)]
  }

  /** `planar[c*len + p]` for every channel c. */
  ghost function PlanesOf<T>(flat: seq<T>, channels: nat, len: nat): (r: seq<seq<T>>)
    requires channels * len <= |flat|
    ensures |r| == channels
    ensures forall c :: 0 <= c < channels ==> |r[c]| == len
    ensures forall c, p :: 0 <= c < channels && 0 <= p < len ==> r[c][p] == Cell(flat, channels, len, c, p)
  {
    seq(channels, c requires 0 <= c < channels =>
      seq(len, p requires 0 <= p < len => Cell(flat, channels, len, c, p)))
  }

  lemma StoreInPlane(flat: seq<Sample>, flat': seq<Sample>, channels: nat, len: nat, c: nat, p: nat, v: Sample)
    requires channels * len <= |flat| && c < channels && p < len
    requires 0 <= c * len + p < |flat| && flat' == flat[c * len + p := v]
    ensures PlanesOf(flat', channels, len) == Stored(PlanesOf(flat, channels, len), c, p, v)
  {
    var r, r' := Stored(PlanesOf(flat, channels, len), c, p, v), PlanesOf(flat', channels, len);
    forall c', p' | 0 <= c' < channels && 0 <= p' < len ensures r'[c'][p'] == r[c'][p'] {
      CellBounds(c', channels, p', len);
      if c' != c || p' != p { CellsDiffer(c, p, c', p', len); }
    }
    forall c' | 0 <= c' < channels ensures r'[c'] == r[c'] {
    }
  }

  // ----- the ring -----------------------------------------------------------

  class ReacRing {
    const buf: array<Sample>
    const capacity: u32
    const mask: u32
    const channels: u32
    var head: u32
    var tail: u32
    var underruns: nat
    var overruns: nat

    ghost predicate Valid()
      reads this
    {
      && IsCapacity(capacity) && mask == capacity - 1
      && buf.Length == channels * capacity
      && head < capacity && tail < capacity
    }

    ghost function Planes(): (r: Planes)
      requires Valid()
      reads this, buf
      ensures |r| == channels && Sized(r, capacity)
    {
      PlanesOf(buf[..], channels, capacity)
    }

    /** Samples held per channel. */
    ghost function Count(): (n: nat)
      requires Valid()
      reads this
      ensures n <= mask
    {
      (head - tail) % capacity
    }

    /** The samples of channel c, oldest first. */
    ghost function Contents(c: nat): (q: seq<Sample>)
      requires Valid() && c < channels
      reads this, buf
      ensures |q| == Count()
    {
      Window(Planes()[c], tail, Count())
    }

    constructor (channels: u32, capacityFrames: u32)
      requires capacityFrames <= 0x8000_0000
      ensures Valid() && fresh(buf)
      ensures this.channels == channels && LeastCapacity(capacity, capacityFrames)
      ensures Count() == 0 && underruns == overruns == 0
      ensures forall i :: 0 <= i < buf.Length ==> buf[i] == 0.0
    {
      var cap := NextPow2(capacityFrames);
      CapacityBounds(cap);
      MulMono(0, channels, cap);
      SmallMod(0, cap);
      buf := new Sample[channels * cap](_ => 0.0);
      this.channels, capacity, mask := channels, cap, cap - 1;
      head, tail, underruns, overruns := 0, 0, 0, 0;
    }

    method Readable() returns (n: u32)
      requires Valid()
      ensures n == Count()
    {
      DistanceIsMod(head, tail, capacity);
      n := Distance(head, tail, mask);
    }

    method Writable() returns (n: u32)
      requires Valid()
      ensures n == mask - Count()
    {
      var readable := Readable();
      n := mask - readable;
    }

    /** `slot[pos] = src[s]; pos = (pos + 1) & mask` over the samples of channel c, from index h on. */
    method CopyChannel(planar: seq<Sample>, stride: nat, w: nat, h: u32, c: nat, ghost hist: Planes, ghost at: nat)
      requires Valid() && c < channels && w <= stride && channels * stride <= |planar|
      requires h == Slot(at, capacity) && tail <= at && at + w < tail + capacity
      requires Progress(Planes(), hist, tail, at, capacity, PlanesOf(planar, channels, stride), c, 0, w)
      modifies buf
      ensures Progress(Planes(), hist, tail, at, capacity, PlanesOf(planar, channels, stride), c, w, w)
    {
      var pos := h;
      ghost var src := PlanesOf(planar, channels, stride);
      for s := 0 to w
        invariant Progress(Planes(), hist, tail, at, capacity, src, c, s, w)
        invariant pos == Slot(at + s, capacity)
      {
        CellBounds(c, channels, pos, capacity);
        CellBounds(c, channels, s, stride);
        ghost var flat := buf[..];
        buf[c * capacity + pos] := planar[c * stride + s];
        StoreInPlane(flat, buf[..], channels, capacity, c, pos, planar[c * stride + s]);
        StoredSample(PlanesOf(flat, channels, capacity), hist, tail, at, capacity, src, c, s, w);
        Advance(at + s, 1, capacity);
        pos := Wrap(pos + 1, mask);
      }
    }

    /** The copy loops of a write, channel by channel. */
    method CopyChannels(planar: seq<Sample>, stride: nat, w: nat, h: u32, ghost hist: Planes, ghost at: nat)
      requires Valid() && w <= stride && channels * stride <= |planar|
      requires h == Slot(at, capacity) && tail <= at && at + w < tail + capacity
      requires Progress(Planes(), hist, tail, at, capacity, PlanesOf(planar, channels, stride), 0, 0, w)
      modifies buf
      ensures Progress(Planes(), hist, tail, at, capacity, PlanesOf(planar, channels, stride), channels, 0, w)
    {
      for c := 0 to channels
        invariant Progress(Planes(), hist, tail, at, capacity, PlanesOf(planar, channels, stride), c, 0, w)
      {
        CopyChannel(planar, stride, w, h, c, hist, at);
      }
    }

    /** The head lies as many samples past the tail as the ring holds. */
    lemma HeadHere()
      requires Valid()
      ensures head == Slot(tail + Count(), capacity)
    {
      HeadIsSlot(head, tail, capacity);
    }

    /** The samples in place behind those held, not yet published. */
    method CopyBehind(planar: seq<Sample>, stride: nat, w: nat, ghost count: nat)
      requires Valid() && w <= stride && count == Count() && count + w < capacity && channels * stride <= |planar|
      modifies buf
      ensures forall c :: 0 <= c < channels ==>
                Window(Planes()[c], tail, count + w) == old(Contents(c)) + PlanesOf(planar, channels, stride)[c][..w]
    {
      ghost var src := PlanesOf(planar, channels, stride);
      ghost var hist := HistoryOf(Planes(), tail, tail + count, capacity);
      HeadHere();
      CopyChannels(planar, stride, w, head, hist, tail + count);
      AppendedWindows(old(Planes()), Planes(), tail, count, capacity, src, w);
    }

    /** The copy loops and the release store of `head`, once w samples are known to fit. */
    method CopyAndPublish(planar: seq<Sample>, stride: nat, w: nat)
      requires Valid() && w <= stride && w <= mask - Count() && channels * stride <= |planar|
      modifies this`head, buf
      ensures Valid()
      ensures Count() == old(Count()) + w
      ensures forall c :: 0 <= c < channels ==>
                Contents(c) == old(Contents(c)) + PlanesOf(planar, channels, stride)[c][..w]
    {
      var h := head;
      ghost var count := Count();
      CopyBehind(planar, stride, w, count);
      head := NextHead(h, w, count);
    }

    /** The producer's call: appends the oldest w of the samples offered, losing the newest that do not fit. */
    method Write(planar: seq<Sample>, n: u32) returns (w: u32)
      requires Valid()
      requires channels * Min(n, mask) <= |planar|
      modifies this`head, this`overruns, buf
      ensures Valid()
      ensures w == Min(Min(n, mask), mask - old(Count()))
      ensures overruns == old(overruns) + Min(n, mask) - w
      ensures Count() == old(Count()) + w
      ensures forall c :: 0 <= c < channels ==>
                Contents(c) == old(Contents(c)) + PlanesOf(planar, channels, Min(n, mask))[c][..w]
    {
      var n := if n > mask then mask else n;
      var stride := n;
      var freeSlots := Writable();
      w := n;
      if w > freeSlots {
        overruns := overruns + (w - freeSlots);
        w := freeSlots;
        if w == 0 {
          return;
        }
      }
      CopyAndPublish(planar, stride, w);
    }

    /** The release store of `tail`: the oldest k samples of every channel are given up. */
    method Consume(t: u32, k: nat)
      requires Valid() && t == tail && k <= Count()
      modifies this`tail
      ensures Valid()
      ensures Count() == old(Count()) - k
      ensures forall c :: 0 <= c < channels ==> Contents(c) == old(Contents(c))[k..]
    {
      TailAdvances(head, t, k, capacity);
      WindowsSplit(Planes(), t, k, Count(), capacity);
      tail := Wrap(t + k, mask);
    }

    /** `(h + w) & mask`, the head after w samples more. */
    method NextHead(h: u32, w: nat, ghost count: nat) returns (next: u32)
      requires Valid() && count + w < capacity && h == head && count == Count()
      ensures next < capacity && (next - tail) % capacity == count + w
    {
      HeadHere();
      ghost var after := HeadAdvances(h, tail, count, w, capacity);
      next := Wrap(h + w, mask);
    }

    /** One plane of a read: `got` samples from index t on, then zeros up to n. */
    method ReadChannel(out: array<Sample>, c: nat, n: nat, got: nat, t: u32)
      requires Valid() && c < channels && t < capacity && got <= n <= out.Length && got <= mask && out != buf
      modifies out
      ensures out[..n] == Window(Planes()[c], t, got) + Zeros(n - got)
      ensures out[n..] == old(out[n..])
    {
      ghost var want := Window(Planes()[c], t, got) + Zeros(n - got);
      ghost var planes := Planes();
      SmallMod(t, capacity);
      var pos := t;
      for s := 0 to got
        invariant Planes() == planes
        invariant forall i :: 0 <= i < s ==> out[i] == want[i]
        invariant forall i :: n <= i < out.Length ==> out[i] == old(out[i])
        invariant pos == Slot(t + s, capacity)
      {
        CellBounds(c, channels, pos, capacity);
        out[s] := buf[c * capacity + pos];
        assert out[s] == Planes()[c][pos];
        Advance(t + s, 1, capacity);
        pos := Wrap(pos + 1, mask);
      }
      for s := got to n
        invariant forall i :: 0 <= i < s ==> out[i] == want[i]
        invariant forall i :: n <= i < out.Length ==> out[i] == old(out[i])
      {
        out[s] := 0.0;
      }
      assert out[..n] == want;
    }

    /** The copy loops of a read. */
    method ReadPlanes(dst: seq<array<Sample>>, nch: nat, n: nat, got: nat, t: u32)
      requires Valid() && nch <= channels && nch <= |dst| && t < capacity && got <= n && got <= mask
      requires forall d :: d in dst ==> d.Length >= n && d != buf
      modifies dst
      ensures forall c :: 0 <= c < nch && LastUse(dst, c, nch) ==> dst[c][..n] == Window(Planes()[c], t, got) + Zeros(n - got)
      ensures forall d :: d in dst ==> d[n..] == old(d[n..])
      ensures forall d :: d in dst && d !in dst[..nch] ==> d[..] == old(d[..])
    {
      ghost var planes := Planes();
      ghost var want := seq(nch, c requires 0 <= c < nch => Window(planes[c], t, got) + Zeros(n - got));
      for c := 0 to nch
        invariant Planes() == planes
        invariant forall c' :: 0 <= c' < c && LastUse(dst, c', nch) ==> dst[c'][..n] == want[c']
        invariant forall d :: d in dst ==> d[n..] == old(d[n..])
        invariant forall d :: d in dst && d !in dst[..nch] ==> d[..] == old(d[..])
      {
        assert forall c' :: 0 <= c' < c && LastUse(dst, c', nch) ==> dst[c'] != dst[c];
        ReadChannel(dst[c], c, n, got, t);
      }
    }

    /**
     The consumer's call: the oldest samples of every plane, then silence. Planes
     may share a destination (unlinked ports do); the last of them is what stays there.
     */
    method ReadPlanar(dst: seq<array<Sample>>, chans: u32, n: u32) returns (got: u32)
      requires Valid() && Min(chans, channels) <= |dst|
      requires forall d :: d in dst ==> d.Length >= n && d != buf
      modifies this`tail, this`underruns, dst
      ensures Valid()
      ensures got == Min(n, old(Count()))
      ensures underruns == old(underruns) + n - got
      ensures Count() == old(Count()) - got
      ensures forall c :: 0 <= c < channels ==> Contents(c) == Rest(old(Contents(c)), n)
      ensures forall c :: 0 <= c < Min(chans, channels) && LastUse(dst, c, Min(chans, channels)) ==>
                dst[c][..n] == Served(old(Contents(c)), n) + Zeros(n - got)
      ensures forall d :: d in dst ==> d[n..] == old(d[n..])
      ensures forall d :: d in dst && d !in dst[..Min(chans, channels)] ==> d[..] == old(d[..])
    {
      var avail := Readable();
      got := if avail < n then avail else n;
      var t := tail;
      var nch := if chans < channels then chans else channels;
      WindowsSplit(Planes(), t, got, Count(), capacity);
      ReadPlanes(dst, nch, n, got, t);
      Consume(t, got);
      if got < n {
        underruns := underruns + (n - got);
      }
    }

    /** The consumer's latency bound: drops the oldest samples beyond `keep`. */
    method Trim(keep: u32) returns (drop: u32)
      requires Valid()
      modifies this`tail
      ensures Valid()
      ensures drop == if old(Count()) <= keep then 0 else old(Count()) - keep
      ensures Count() == Min(old(Count()), keep)
      ensures forall c :: 0 <= c < channels ==> Contents(c) == old(Contents(c))[drop..]
    {
      var avail := Readable();
      if avail <= keep {
        return 0;
      }
      drop := avail - keep;
      Consume(tail, drop);
    }
  }

  /**
   The documented layout, `planar[c * n + s]`: the write takes its stride after the
   clamp to `mask`, so it reads every sample where the documentation puts it exactly
   when n was not clamped or there is only one channel.
   */
  lemma LayoutHonoured(channels: nat, n: nat, mask: nat)
    requires mask > 0
    ensures (forall c, s :: 0 <= c < channels && 0 <= s < Min(n, mask) ==> Place(c, Min(n, mask), s) == Place(c, n, s))
       <==> n <= mask || channels <= 1
  {
    if n > mask && channels > 1 {
      assert Place(1, mask, 0) != Place(1, n, 0);
    }
  }

  /** Where sample s of channel c lies in a flat buffer with this stride. */
  function Place(c: nat, stride: nat, s: nat): int
  {
    c * stride + s
  }

  // ----- specification helpers ----------------------------------------------

  /** What a read of n samples takes from a queue. */
  function Served(queue: seq<Sample>, n: nat): seq<Sample>
  {
    queue[..Min(n, |queue|)]
  }

  /** What it leaves. */
  function Rest(queue: seq<Sample>, n: nat): (r: seq<Sample>)
    ensures Served(queue, n) + r == queue
  {
    queue[Min(n, |queue|)..]
  }

  /** `count` samples of a plane from index t on, round the ring. */
  ghost function Window(plane: seq<Sample>, t: nat, count: nat): (q: seq<Sample>)
    requires |plane| > 0
    ensures |q| == count
  {
    seq(count, i requires 0 <= i < count => plane[Slot(t + i, |plane|)])
  }

  /** Planes read as if every sample since index zero were still there. */
  ghost function HistoryOf(planes: Planes, lo: nat, hi: nat, cap: nat): (hist: Planes)
    requires cap > 0 && Sized(planes, cap) && lo <= hi
    ensures |hist| == |planes| && Sized(hist, hi) && Held(planes, hist, lo, hi, cap)
    ensures forall c :: 0 <= c < |planes| ==> hist[c][lo..] == Window(planes[c], lo, hi - lo)
  {
    seq(|planes|, c requires 0 <= c < |planes| => seq(hi, k requires 0 <= k < hi => planes[c][Slot(k, cap)]))
  }

  lemma HeadIsSlot(head: int, tail: int, cap: int)
    requires 0 <= head && 0 <= tail
    requires head < cap && tail < cap
    ensures head == Slot(tail + (head - tail) % cap, cap)
  {
    ModAdd(head - tail, tail, cap);
    SmallMod(head, cap);
  }

  /** `(h + w) & mask` leaves w more samples between tail and head. */
  lemma HeadAdvances(h: nat, tail: nat, count: nat, w: nat, cap: nat) returns (next: nat)
    requires IsCapacity(cap) && tail < cap && count + w < cap && h == Slot(tail + count, cap)
    ensures 2 <= cap <= 0x8000_0000 && next < cap
    ensures next == Wrap(h + w, cap - 1)
    ensures (next - tail) % cap == count + w
  {
    next := NextIndex(h, tail + count, w, cap, tail + count + w);
    CountIs(next, tail, count + w, tail + count + w, cap);
  }

  /** `(i + w) & mask`, for the stored index i of total `from`. */
  lemma NextIndex(i: nat, from: nat, w: nat, cap: nat, total: nat) returns (next: nat)
    requires IsCapacity(cap) && w < cap && i == Slot(from, cap) && total == from + w
    ensures 2 <= cap <= 0x8000_0000 && next < cap
    ensures next == Wrap(i + w, cap - 1) == Slot(total, cap)
  {
    Advance(from, w, cap);
    next := Slot(total, cap);
  }

  /** `(t + k) & mask` leaves k fewer samples between tail and head. */
  lemma TailAdvances(head: int, t: int, k: int, cap: int)
    requires 0 <= head && 0 <= t && 0 <= k && 0 <= cap && IsCapacity(cap) && head < cap && t < cap && k <= (head - t) % cap
    ensures 2 <= cap <= 0x8000_0000
    ensures Wrap(t + k, cap - 1) == Slot(t + k, cap)
    ensures (head - Wrap(t + k, cap - 1)) % cap == (head - t) % cap - k
  {
    CapacityBounds(cap);
    SmallMod(t, cap);
    Advance(t, k, cap);
    ModSub(head, t + k, cap);
    SmallMod(head, cap);
    ModAdd(head - t, -k, cap);
    SmallMod((head - t) % cap - k, cap);
  }

  /** A window from index t splits at k into the window before it and the one from `(t + k) & mask` on. */
  lemma WindowSplits(plane: seq<Sample>, t: nat, k: nat, count: nat)
    requires |plane| > 0 && k <= count
    ensures Window(plane, t, k) == Window(plane, t, count)[..k]
    ensures Window(plane, Slot(t + k, |plane|), count - k) == Window(plane, t, count)[k..]
  {
    forall i | 0 <= i < count - k
      ensures Window(plane, Slot(t + k, |plane|), count - k)[i] == Window(plane, t, count)[k..][i]
    {
      SlotAdd(t + k, i, |plane|);
      assert t + k + i == t + (k + i);
    }
  }

  lemma WindowsSplit(planes: Planes, t: nat, k: nat, count: nat, cap: nat)
    requires cap > 0 && Sized(planes, cap) && k <= count
    ensures forall c :: 0 <= c < |planes| ==>
              && Window(planes[c], t, k) == Window(planes[c], t, count)[..k]
              && Window(planes[c], Slot(t + k, cap), count - k) == Window(planes[c], t, count)[k..]
  {
    forall c | 0 <= c < |planes|
      ensures Window(planes[c], t, k) == Window(planes[c], t, count)[..k]
      ensures Window(planes[c], Slot(t + k, cap), count - k) == Window(planes[c], t, count)[k..]
    {
      WindowSplits(planes[c], t, k, count);
    }
  }

  /** Channel c is the last of the first nch to be read into its destination. */
  ghost predicate LastUse(dst: seq<array<Sample>>, c: nat, nch: nat)
    requires c < nch <= |dst|
  {
    forall c' :: c < c' < nch ==> dst[c'] != dst[c]
  }

  lemma CountIs(head: int, tail: int, count: int, total: int, cap: int)
    requires 0 <= tail && 0 <= count && tail < cap && count < cap && total == tail + count && head == Slot(total, cap)
    ensures (head - tail) % cap == count
  {
    ModAdd(total, -tail, cap);
    assert total - tail == count;
    SmallMod(count, cap);
  }

  /** The copy loops at channel c, sample s: the held samples untouched, channels below c done, s samples of c. */
  ghost predicate Progress(planes: Planes, hist: Planes, lo: nat, at: nat, cap: nat, src: Planes, c: nat, s: nat, w: nat)
  {
    && cap > 0 && |planes| == |hist| == |src| && Sized(planes, cap) && Sized(hist, at)
    && c <= |src| && s <= w && (forall c' :: 0 <= c' < |src| ==> w <= |src[c']|)
    && Held(planes, hist, lo, at, cap)
    && (forall c' :: 0 <= c' < c ==> Copied(planes, at, cap, src, c', w))
    && (c < |src| ==> Copied(planes, at, cap, src, c, s))
  }

  lemma StoredSample(planes: Planes, hist: Planes, lo: nat, at: nat, cap: nat, src: Planes, c: nat, s: nat, w: nat)
    requires Progress(planes, hist, lo, at, cap, src, c, s, w) && c < |src| && s < w
    requires lo <= at && at + w < lo + cap
    ensures Progress(Stored(planes, c, Slot(at + s, cap), src[c][s]), hist, lo, at, cap, src, c, s + 1, w)
  {
    var pos := Slot(at + s, cap);
    FreshSlot(lo, at + s, cap);
    StoreKeepsHeld(planes, hist, lo, at, cap, c, pos, src[c][s]);
    StoreExtendsCopied(planes, at, cap, src, c, s, pos);
    forall c' | 0 <= c' < c ensures Copied(Stored(planes, c, pos, src[c][s]), at, cap, src, c', w) {
      StoreKeepsCopied(planes, at, cap, src, c, pos, src[c][s], c', w);
    }
  }

  /** When the copy loops are done, every window has grown by the first w samples of its source plane. */
  lemma AppendedWindows(before: Planes, planes: Planes, t: nat, count: nat, cap: nat, src: Planes, w: nat)
    requires cap > 0 && |before| == |planes| && Sized(before, cap)
    requires Progress(planes, HistoryOf(before, t, t + count, cap), t, t + count, cap, src, |src|, 0, w)
    ensures forall c :: 0 <= c < |planes| ==>
              Window(planes[c], t, count + w) == Window(before[c], t, count) + src[c][..w]
  {
    var hist := HistoryOf(before, t, t + count, cap);
    PublishHolds(planes, hist, t, t + count, cap, src, w);
    forall c | 0 <= c < |planes|
      ensures Window(planes[c], t, count + w) == Window(before[c], t, count) + src[c][..w]
    {
      var want := hist[c] + src[c][..w];
      assert Append(hist, src, w)[c] == want;
      assert Window(planes[c], t, count + w) == want[t..];
      assert want[t..] == hist[c][t..] + src[c][..w];
    }
  }
}
