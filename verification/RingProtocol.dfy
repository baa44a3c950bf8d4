/**
 The producer/consumer protocol of pipewire/src/reac_ring.c as a transition
 system: every index load, slot copy, counter bump and index store is a step of
 its own, and the steps of the two threads interleave arbitrarily (the
 acquire/release accesses are taken as sequentially consistent).
 */
module RingProtocol {
  import opened Words
  import opened RingIndex

  type Planes = seq<seq<Sample>>

  /** Where the feeder thread stands inside `reac_ring_write`; n is the clamped count. */
  datatype Producer =
    | PIdle
    | PLoadHead(src: Planes, n: nat)
    | PLoadTail(src: Planes, n: nat, h: u32)
    | PAccount(src: Planes, n: nat, free: nat, seen: nat)
    | PReload(src: Planes, n: nat, w: nat, seen: nat)
    | PCopy(src: Planes, n: nat, w: nat, seen: nat, h: u32, c: nat, i: nat, pos: u32)
    | PPublish(src: Planes, n: nat, w: nat, seen: nat, h: u32)

  /** Where the realtime thread stands inside `reac_ring_trim` (T) or `reac_ring_read_planar` (R). */
  datatype Consumer =
    | CIdle
    | TLoadHead(keep: nat)
    | TLoadTail(keep: nat, h: u32, seen: nat)
    | TReload(keep: nat, seen: nat, drop: nat)
    | TStore(keep: nat, seen: nat, drop: nat, t: u32)
    | RLoadHead(n: nat, nch: nat)
    | RLoadTail(n: nat, nch: nat, h: u32, seen: nat)
    | RReload(n: nat, nch: nat, seen: nat, got: nat)
    | RCopy(n: nat, nch: nat, seen: nat, got: nat, t: u32, out: Planes, cur: seq<Sample>, pos: u32)
    | RStore(n: nat, seen: nat, got: nat, t: u32, out: Planes)
    | RAccount(n: nat, got: nat)

  /** What a step shows outside the ring: a call with the caller's own arguments, what a call moved, or nothing. */
  datatype Event =
    | Tau
    | WriteCall(src: Planes, n: nat)
    | TrimCall(keep: nat)
    | ReadCall(count: nat, channels: nat)
    | Published(planes: Planes, w: nat)
    | Delivered(out: Planes, got: nat)
    | Trimmed(drop: nat)

  /**
   Shared memory, the two program counters, and history: `hist[c]` is every
   sample of channel c published so far (`written` of them), `consumed` how many
   of those the tail has passed. `seen` in a program counter is history too: the
   total behind the index of the other thread when that index was loaded.
   */
  datatype State = State(
    cap: nat,
    planes: Planes,
    head: u32,
    tail: u32,
    overruns: nat,
    underruns: nat,
    p: Producer,
    c: Consumer,
    hist: Planes,
    written: nat,
    consumed: nat,
    offered: nat,
    requested: nat,
    delivered: nat,
    trimmed: nat)
  {
    function Channels(): nat { |planes| }
  }

  // ----- shape --------------------------------------------------------------

  /** Every plane supplies at least n samples. */
  ghost predicate Supplies(src: Planes, channels: nat, n: nat)
  {
    |src| == channels && forall c :: 0 <= c < channels ==> |src[c]| >= n
  }

  ghost predicate ProducerShape(s: State)
  {
    match s.p
    case PIdle => true
    case PLoadHead(src, n) => Supplies(src, s.Channels(), n) && n < s.cap
    case PLoadTail(src, n, h) => Supplies(src, s.Channels(), n) && n < s.cap
    case PAccount(src, n, free, seen) => Supplies(src, s.Channels(), n) && free < n < s.cap
    case PReload(src, n, w, seen) => Supplies(src, s.Channels(), w) && w < s.cap
    case PCopy(src, n, w, seen, h, c, i, pos) =>
      Supplies(src, s.Channels(), w) && w < s.cap && c < s.Channels() && i < w && pos < s.cap
    case PPublish(src, n, w, seen, h) => Supplies(src, s.Channels(), w) && w < s.cap && h < s.cap
  }

  ghost predicate ConsumerShape(s: State)
  {
    match s.c
    case TReload(keep, seen, drop) => drop < s.cap
    case TStore(keep, seen, drop, t) => drop < s.cap && t < s.cap
    case RLoadHead(n, nch) => nch <= s.Channels()
    case RLoadTail(n, nch, h, seen) => nch <= s.Channels()
    case RReload(n, nch, seen, got) => nch <= s.Channels() && got <= n && got < s.cap
    case RCopy(n, nch, seen, got, t, out, cur, pos) =>
      |out| < nch <= s.Channels() && |cur| < n && got <= n && got < s.cap && pos < s.cap && t < s.cap
    case RStore(n, seen, got, t, out) => got <= n && got < s.cap && t < s.cap
    case RAccount(n, got) => got <= n
    case _ => true
  }

  ghost predicate Shape(s: State)
  {
    && IsCapacity(s.cap)
    && 2 <= s.cap <= 0x8000_0000
    && (forall c :: 0 <= c < s.Channels() ==> |s.planes[c]| == s.cap)
    && |s.hist| == s.Channels()
    && (forall c :: 0 <= c < s.Channels() ==> |s.hist[c]| == s.written)
    && s.head < s.cap && s.tail < s.cap
    && ProducerShape(s)
    && ConsumerShape(s)
  }

  // ----- the producer's steps -----------------------------------------------

  /** `slot[pos] = src[s]` then `pos = (pos + 1) & mask`, and on to the next sample or channel. */
  function AfterCopy(s: State): Producer
    requires s.p.PCopy? && 2 <= s.cap <= 0x8000_0000 && s.p.pos < s.cap
  {
    var PCopy(src, n, w, seen, h, c, i, pos) := s.p;
    if i + 1 < w then PCopy(src, n, w, seen, h, c, i + 1, Wrap(pos + 1, s.cap - 1))
    else if c + 1 < s.Channels() then PCopy(src, n, w, seen, h, c + 1, 0, h)
    else PPublish(src, n, w, seen, h)
  }

  function Append(hist: Planes, src: Planes, w: nat): (r: Planes)
    requires |hist| == |src| && forall c :: 0 <= c < |src| ==> w <= |src[c]|
    ensures |r| == |hist|
    ensures forall c :: 0 <= c < |hist| ==> r[c] == hist[c] + src[c][..w]
  {
    seq(|hist|, c requires 0 <= c < |hist| => hist[c] + src[c][..w])
  }

  ghost function ProducerStep(s: State): State
    requires Shape(s) && !s.p.PIdle?
  {
    match s.p
    case PLoadHead(src, n) => s.(p := PLoadTail(src, n, s.head))
    case PLoadTail(src, n, h) =>
      var free := s.cap - 1 - Distance(h, s.tail, s.cap - 1);
      if n > free then s.(p := PAccount(src, n, free, s.consumed))
      else s.(p := PReload(src, n, n, s.consumed))
    case PAccount(src, n, free, seen) =>
      var s' := s.(overruns := s.overruns + (n - free));
      if free == 0 then s'.(p := PIdle) else s'.(p := PReload(src, n, free, seen))
    case PReload(src, n, w, seen) =>
      if w == 0 || s.Channels() == 0 then s.(p := PPublish(src, n, w, seen, s.head))
      else s.(p := PCopy(src, n, w, seen, s.head, 0, 0, s.head))
    case PCopy(src, n, w, seen, h, c, i, pos) =>
      s.(planes := s.planes[c := s.planes[c][pos := src[c][i]]], p := AfterCopy(s))
    case PPublish(src, n, w, seen, h) =>
      s.(head := Wrap(h + w, s.cap - 1), p := PIdle,
         hist := Append(s.hist, src, w), written := s.written + w)
  }

  function ProducerEvent(s: State): Event
  {
    if s.p.PPublish? then Published(s.p.src, s.p.w) else Tau
  }

  // ----- the consumer's steps -----------------------------------------------

  function Zeros(n: nat): (z: seq<Sample>)
    ensures |z| == n && forall i :: 0 <= i < n ==> z[i] == 0.0
  {
    seq(n, _ => 0.0)
  }

  /** The copy loops start, unless there is nothing to fill. */
  function StartRead(n: nat, nch: nat, seen: nat, got: nat, t: u32): Consumer
  {
    if nch == 0 || n == 0 then RStore(n, seen, got, t, seq(nch, _ => []))
    else RCopy(n, nch, seen, got, t, [], [], t)
  }

  /** One sample of the current plane filled: `out[s] = slot[pos]` below `got`, zero from there on. */
  function AfterFill(s: State): Consumer
    requires s.c.RCopy? && |s.c.out| < s.Channels() && 2 <= s.cap <= 0x8000_0000
    requires s.c.pos < s.cap == |s.planes[|s.c.out|]|
  {
    var RCopy(n, nch, seen, got, t, out, cur, pos) := s.c;
    var v := if |cur| < got then s.planes[|out|][pos] else 0.0;
    var pos' := if |cur| < got then Wrap(pos + 1, s.cap - 1) else pos;
    if |cur| + 1 < n then RCopy(n, nch, seen, got, t, out, cur + [v], pos')
    else if |out| + 1 < nch then RCopy(n, nch, seen, got, t, out + [cur + [v]], [], t)
    else RStore(n, seen, got, t, out + [cur + [v]])
  }

  ghost function ConsumerStep(s: State): State
    requires Shape(s) && !s.c.CIdle?
  {
    match s.c
    case TLoadHead(keep) => s.(c := TLoadTail(keep, s.head, s.written))
    case TLoadTail(keep, h, seen) =>
      var avail := Distance(h, s.tail, s.cap - 1);
      if avail <= keep then s.(c := CIdle) else s.(c := TReload(keep, seen, avail - keep))
    case TReload(keep, seen, drop) => s.(c := TStore(keep, seen, drop, s.tail))
    case TStore(keep, seen, drop, t) =>
      s.(tail := Wrap(t + drop, s.cap - 1), c := CIdle,
         consumed := s.consumed + drop, trimmed := s.trimmed + drop)
    case RLoadHead(n, nch) => s.(c := RLoadTail(n, nch, s.head, s.written))
    case RLoadTail(n, nch, h, seen) =>
      var avail := Distance(h, s.tail, s.cap - 1);
      s.(c := RReload(n, nch, seen, if avail < n then avail else n))
    case RReload(n, nch, seen, got) => s.(c := StartRead(n, nch, seen, got, s.tail))
    case RCopy(n, nch, seen, got, t, out, cur, pos) => s.(c := AfterFill(s))
    case RStore(n, seen, got, t, out) =>
      s.(tail := Wrap(t + got, s.cap - 1),
         c := if got < n then RAccount(n, got) else CIdle,
         consumed := s.consumed + got, delivered := s.delivered + got)
    case RAccount(n, got) => s.(underruns := s.underruns + (n - got), c := CIdle)
  }

  function ConsumerEvent(s: State): Event
  {
    if s.c.TStore? then Trimmed(s.c.drop)
    else if s.c.RStore? then Delivered(s.c.out, s.c.got)
    else Tau
  }

  // ----- the transition relation --------------------------------------------

  function BeginWrite(s: State, src: Planes, n: nat): State
    requires s.cap > 0
  {
    var n' := if n > s.cap - 1 then s.cap - 1 else n;
    s.(p := PLoadHead(src, n'), offered := s.offered + n')
  }

  function BeginRead(s: State, n: nat, channels: nat): State
  {
    s.(c := RLoadHead(n, if channels < s.Channels() then channels else s.Channels()),
       requested := s.requested + n)
  }

  /** The feeder calls `reac_ring_write` with any count and planes long enough for what is kept of it. */
  ghost predicate WriteCalled(s: State, e: Event, s': State)
    requires Shape(s)
  {
    && s.p.PIdle? && e.WriteCall? && Supplies(e.src, s.Channels(), Min(e.n, s.cap - 1))
    && s' == BeginWrite(s, e.src, e.n)
  }

  ghost predicate TrimCalled(s: State, e: Event, s': State)
  {
    s.c.CIdle? && e.TrimCall? && s' == s.(c := TLoadHead(e.keep))
  }

  ghost predicate ReadCalled(s: State, e: Event, s': State)
  {
    s.c.CIdle? && e.ReadCall? && s' == BeginRead(s, e.count, e.channels)
  }

  ghost predicate Next(s: State, e: Event, s': State)
    requires Shape(s)
  {
    || WriteCalled(s, e, s') || TrimCalled(s, e, s') || ReadCalled(s, e, s')
    || (!s.p.PIdle? && e == ProducerEvent(s) && s' == ProducerStep(s))
    || (!s.c.CIdle? && e == ConsumerEvent(s) && s' == ConsumerStep(s))
  }

  ghost predicate Init(s: State)
  {
    && IsCapacity(s.cap)
    && (forall c :: 0 <= c < s.Channels() ==> |s.planes[c]| == s.cap)
    && s.head == s.tail == 0
    && s.p == PIdle && s.c == CIdle
    && s.overruns == s.underruns == 0
    && s.hist == seq(s.Channels(), _ => [])
    && s.written == s.consumed == s.offered == s.requested == s.delivered == s.trimmed == 0
  }
}
