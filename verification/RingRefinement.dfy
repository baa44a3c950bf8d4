/** Every interleaving of the ring protocol refines a FIFO queue per channel. */
module RingRefinement {
  import opened Words
  import opened RingIndex
  import opened RingProtocol

  // ----- the invariant ------------------------------------------------------

  ghost predicate Sized(planes: Planes, len: nat)
  {
    forall c :: 0 <= c < |planes| ==> |planes[c]| == len
  }

  /** The slots from tail to head hold the last published, unconsumed samples of every channel. */
  ghost predicate Held(planes: Planes, hist: Planes, lo: nat, hi: nat, cap: nat)
    requires cap > 0 && |planes| == |hist| && Sized(planes, cap) && Sized(hist, hi)
  {
    forall c, k :: 0 <= c < |planes| && lo <= k < hi ==> planes[c][Slot(k, cap)] == hist[c][k]
  }

  /** The first k samples of src[c] sit in the slots of plane c from sample `at` on. */
  ghost predicate Copied(planes: Planes, at: nat, cap: nat, src: Planes, c: nat, k: nat)
    requires cap > 0 && c < |planes| == |src| && Sized(planes, cap) && k <= |src[c]|
  {
    forall j :: 0 <= j < k ==> planes[c][Slot(at + j, cap)] == src[c][j]
  }

  /** The w samples to write are all of the n that fit below the tail observed, one slot staying empty. */
  ghost predicate Roomy(s: State, n: nat, w: nat, seen: nat)
  {
    seen <= s.consumed && w == Min(n, seen + s.cap - 1 - s.written)
  }

  ghost predicate ProducerInv(s: State)
    requires Shape(s)
  {
    match s.p
    case PIdle => true
    case PLoadHead(src, n) => true
    case PLoadTail(src, n, h) => h == s.head
    case PAccount(src, n, free, seen) => Roomy(s, n, free, seen)
    case PReload(src, n, w, seen) => Roomy(s, n, w, seen)
    case PCopy(src, n, w, seen, h, c, i, pos) =>
      && Roomy(s, n, w, seen) && h == s.head
      && pos == Slot(s.written + i, s.cap)
      && (forall c' :: 0 <= c' < c ==> Copied(s.planes, s.written, s.cap, src, c', w))
      && Copied(s.planes, s.written, s.cap, src, c, i)
    case PPublish(src, n, w, seen, h) =>
      && Roomy(s, n, w, seen) && h == s.head
      && (forall c' :: 0 <= c' < s.Channels() ==> Copied(s.planes, s.written, s.cap, src, c', w))
  }

  /** The head value a reader loaded is the total published at that moment. */
  ghost predicate Snapshot(s: State, h: u32, seen: nat)
    requires s.cap > 0
  {
    s.consumed <= seen <= s.written && h == Slot(seen, s.cap)
  }

  /** One plane as `reac_ring_read_planar` must hand it over: the oldest samples, then silence. */
  ghost function Oldest(hist: seq<Sample>, consumed: nat, got: nat, n: nat): (r: seq<Sample>)
    requires got <= n && consumed + got <= |hist|
    ensures |r| == n
  {
    hist[consumed..consumed + got] + Zeros(n - got)
  }

  ghost predicate Filled(hist: Planes, consumed: nat, out: Planes, got: nat, n: nat)
  {
    && |out| <= |hist| && got <= n
    && forall c :: 0 <= c < |out| ==> consumed + got <= |hist[c]| && out[c] == Oldest(hist[c], consumed, got, n)
  }

  /** The got samples to read are all of the n that were published when the head was observed. */
  ghost predicate Available(s: State, n: nat, seen: nat, got: nat)
  {
    s.consumed <= seen <= s.written && got == Min(n, seen - s.consumed)
  }

  ghost predicate ConsumerInv(s: State)
    requires Shape(s)
  {
    match s.c
    case CIdle => true
    case TLoadHead(keep) => true
    case TLoadTail(keep, h, seen) => Snapshot(s, h, seen)
    case TReload(keep, seen, drop) => s.consumed + drop + keep == seen <= s.written
    case TStore(keep, seen, drop, t) => s.consumed + drop + keep == seen <= s.written && t == s.tail
    case RLoadHead(n, nch) => true
    case RLoadTail(n, nch, h, seen) => Snapshot(s, h, seen)
    case RReload(n, nch, seen, got) => Available(s, n, seen, got)
    case RCopy(n, nch, seen, got, t, out, cur, pos) =>
      && Available(s, n, seen, got) && t == s.tail
      && Filled(s.hist, s.consumed, out, got, n)
      && cur == Oldest(s.hist[|out|], s.consumed, got, n)[..|cur|]
      && (|cur| < got ==> pos == Slot(s.consumed + |cur|, s.cap))
    case RStore(n, seen, got, t, out) =>
      Available(s, n, seen, got) && t == s.tail && Filled(s.hist, s.consumed, out, got, n)
    case RAccount(n, got) => true
  }

  /** Samples of the write in progress that no counter has taken yet. */
  ghost function ProducerPending(s: State): nat
  {
    match s.p
    case PIdle => 0
    case PLoadHead(_, n) => n
    case PLoadTail(_, n, _) => n
    case PAccount(_, n, _, _) => n
    case PReload(_, _, w, _) => w
    case PCopy(_, _, w, _, _, _, _, _) => w
    case PPublish(_, _, w, _, _) => w
  }

  /** Samples of the read in progress that no counter has taken yet. */
  ghost function ConsumerPending(s: State): int
  {
    match s.c
    case RLoadHead(n, _) => n
    case RLoadTail(n, _, _, _) => n
    case RReload(n, _, _, _) => n
    case RCopy(n, _, _, _, _, _, _, _) => n
    case RStore(n, _, _, _, _) => n
    case RAccount(n, got) => n - got
    case _ => 0
  }

  /** Every sample offered, requested or consumed is accounted for exactly once. */
  ghost predicate Conserved(s: State)
  {
    && s.offered == s.written + s.overruns + ProducerPending(s)
    && s.requested == s.delivered + s.underruns + ConsumerPending(s)
    && s.consumed == s.delivered + s.trimmed
  }

  ghost predicate Inv(s: State)
  {
    && Shape(s)
    && s.consumed <= s.written <= s.consumed + s.cap - 1
    && s.head == Slot(s.written, s.cap)
    && s.tail == Slot(s.consumed, s.cap)
    && Held(s.planes, s.hist, s.consumed, s.written, s.cap)
    && ProducerInv(s)
    && ConsumerInv(s)
    && Conserved(s)
  }

  // ----- every step keeps the invariant ------------------------------------

  lemma InitInv(s: State)
    requires Init(s)
    ensures Inv(s)
  {
    CapacityBounds(s.cap);
  }

  /** What the reader has gathered stands while more is published behind it. */
  lemma ReaderUnmoved(s: State, s': State)
    requires Inv(s) && Shape(s') && s'.c == s.c && s'.cap == s.cap && s'.Channels() == s.Channels()
    requires s'.consumed == s.consumed && s'.tail == s.tail && s.written <= s'.written
    requires forall c :: 0 <= c < s.Channels() ==> s.hist[c] <= s'.hist[c]
    ensures ConsumerInv(s')
  {
    if s.c.RCopy? {
      OldestGrows(s.hist, s'.hist, s.consumed, s.c.got, s.c.n);
      assert s.hist[|s.c.out|] <= s'.hist[|s.c.out|];
    } else if s.c.RStore? {
      OldestGrows(s.hist, s'.hist, s.consumed, s.c.got, s.c.n);
    }
  }

  lemma OldestGrows(hist: Planes, hist': Planes, consumed: nat, got: nat, n: nat)
    requires |hist| == |hist'| && got <= n
    requires forall c :: 0 <= c < |hist| ==> hist[c] <= hist'[c] && consumed + got <= |hist[c]|
    ensures forall c :: 0 <= c < |hist| ==> Oldest(hist'[c], consumed, got, n) == Oldest(hist[c], consumed, got, n)
  {
  }

  lemma ProducerMoved(s: State, s': State)
    requires Inv(s) && Shape(s')
    requires s' == s.(p := s'.p, overruns := s'.overruns, offered := s'.offered)
    requires ProducerInv(s') && Conserved(s')
    ensures Inv(s')
  {
    ReaderUnmoved(s, s');
  }

  lemma LoadHeadKeepsInv(s: State)
    requires Inv(s) && (s.p.PLoadHead? || s.p.PReload?)
    ensures Inv(ProducerStep(s))
  {
    ProducerMoved(s, ProducerStep(s));
  }

  lemma LoadTailKeepsInv(s: State)
    requires Inv(s) && s.p.PLoadTail?
    ensures Inv(ProducerStep(s))
  {
    DistanceOfTotals(s.written, s.consumed, s.cap);
    ProducerMoved(s, ProducerStep(s));
  }

  lemma AccountKeepsInv(s: State)
    requires Inv(s) && s.p.PAccount?
    ensures Inv(ProducerStep(s))
  {
    ProducerMoved(s, ProducerStep(s));
  }

  ghost function Stored(planes: Planes, c: nat, pos: nat, v: Sample): (r: Planes)
    requires c < |planes| && pos < |planes[c]|
  {
    planes[c := planes[c][pos := v]]
  }

  /** Storing into a slot of none of the held samples leaves them held. */
  lemma StoreKeepsHeld(planes: Planes, hist: Planes, lo: nat, hi: nat, cap: nat, c: nat, pos: nat, v: Sample)
    requires cap > 0 && |planes| == |hist| && Sized(planes, cap) && Sized(hist, hi) && c < |planes| && pos < cap
    requires Held(planes, hist, lo, hi, cap) && forall k :: lo <= k < hi ==> Slot(k, cap) != pos
    ensures Sized(Stored(planes, c, pos, v), cap)
    ensures Held(Stored(planes, c, pos, v), hist, lo, hi, cap)
  {
  }

  lemma StoreExtendsCopied(planes: Planes, at: nat, cap: nat, src: Planes, c: nat, i: nat, pos: nat)
    requires cap > 0 && c < |planes| == |src| && Sized(planes, cap) && i < |src[c]| && pos < cap
    requires Copied(planes, at, cap, src, c, i)
    requires pos == Slot(at + i, cap) && forall k :: at <= k < at + i ==> Slot(k, cap) != pos
    ensures var planes' := Stored(planes, c, pos, src[c][i]);
            Sized(planes', cap) && Copied(planes', at, cap, src, c, i + 1)
  {
    var planes' := Stored(planes, c, pos, src[c][i]);
    forall j | 0 <= j < i + 1 ensures planes'[c][Slot(at + j, cap)] == src[c][j] {
    }
  }

  lemma StoreKeepsCopied(planes: Planes, at: nat, cap: nat, src: Planes, c: nat, pos: nat, v: Sample, c': nat, k: nat)
    requires cap > 0 && c < |planes| == |src| && Sized(planes, cap) && pos < cap
    requires c' < |src| && c' != c && k <= |src[c']| && Copied(planes, at, cap, src, c', k)
    ensures Sized(Stored(planes, c, pos, v), cap)
    ensures Copied(Stored(planes, c, pos, v), at, cap, src, c', k)
  {
  }

  lemma CopyStepShape(s: State)
    requires Inv(s) && s.p.PCopy?
    ensures Shape(ProducerStep(s)) && ProducerStep(s).Channels() == s.Channels()
    ensures ProducerStep(s).planes == Stored(s.planes, s.p.c, s.p.pos, s.p.src[s.p.c][s.p.i])
  {
    Advance(s.written + s.p.i, 1, s.cap);
  }

  lemma CopyStepCopies(s: State)
    requires Inv(s) && s.p.PCopy? && Shape(ProducerStep(s))
    requires ProducerStep(s).planes == Stored(s.planes, s.p.c, s.p.pos, s.p.src[s.p.c][s.p.i])
    ensures ProducerInv(ProducerStep(s))
  {
    var PCopy(src, n, w, seen, h, c, i, pos) := s.p;
    Advance(s.written + i, 1, s.cap);
    FreshSlot(s.written, s.written + i, s.cap);
    StoreExtendsCopied(s.planes, s.written, s.cap, src, c, i, pos);
    forall c' | 0 <= c' < c ensures Copied(ProducerStep(s).planes, s.written, s.cap, src, c', w) {
      StoreKeepsCopied(s.planes, s.written, s.cap, src, c, pos, src[c][i], c', w);
    }
  }

  lemma CopyStepKeepsInv(s: State)
    requires Inv(s) && s.p.PCopy?
    ensures Inv(ProducerStep(s))
  {
    var s' := ProducerStep(s);
    CopyStepShape(s);
    FreshSlot(s.consumed, s.written + s.p.i, s.cap);
    StoreKeepsHeld(s.planes, s.hist, s.consumed, s.written, s.cap, s.p.c, s.p.pos, s.p.src[s.p.c][s.p.i]);
    CopyStepCopies(s);
    ReaderUnmoved(s, s');
    assert s'.offered == s.offered && ProducerPending(s') == ProducerPending(s);
  }

  lemma PublishHolds(planes: Planes, hist: Planes, lo: nat, hi: nat, cap: nat, src: Planes, w: nat)
    requires cap > 0 && |planes| == |hist| == |src| && Sized(planes, cap) && Sized(hist, hi)
    requires Held(planes, hist, lo, hi, cap)
    requires forall c :: 0 <= c < |src| ==> w <= |src[c]| && Copied(planes, hi, cap, src, c, w)
    ensures Sized(Append(hist, src, w), hi + w)
    ensures Held(planes, Append(hist, src, w), lo, hi + w, cap)
  {
    var hist' := Append(hist, src, w);
    forall c, k | 0 <= c < |planes| && lo <= k < hi + w ensures planes[c][Slot(k, cap)] == hist'[c][k] {
      if k >= hi {
        assert Copied(planes, hi, cap, src, c, w);
        assert k == hi + (k - hi);
      }
    }
  }

  lemma PublishStepKeepsInv(s: State)
    requires Inv(s) && s.p.PPublish?
    ensures Inv(ProducerStep(s))
  {
    Advance(s.written, s.p.w, s.cap);
    PublishHolds(s.planes, s.hist, s.consumed, s.written, s.cap, s.p.src, s.p.w);
    ReaderUnmoved(s, ProducerStep(s));
  }

  lemma ConsumerMoved(s: State, s': State)
    requires Inv(s) && Shape(s')
    requires s' == s.(c := s'.c, underruns := s'.underruns, requested := s'.requested)
    requires ConsumerInv(s') && Conserved(s')
    ensures Inv(s')
  {
    WriterUnmoved(s, s');
  }

  /** Moving the tail forward leaves the writer's claims as they were. */
  lemma WriterUnmoved(s: State, s': State)
    requires Inv(s) && Shape(s') && s'.p == s.p && s'.cap == s.cap && s'.planes == s.planes
    requires s'.written == s.written && s'.head == s.head && s.consumed <= s'.consumed
    ensures ProducerInv(s')
  {
  }

  lemma TailMoved(s: State, s': State)
    requires Inv(s) && Shape(s')
    requires s' == s.(c := s'.c, tail := s'.tail, consumed := s'.consumed, delivered := s'.delivered, trimmed := s'.trimmed)
    requires s.consumed <= s'.consumed <= s.written && s'.tail == Slot(s'.consumed, s.cap)
    requires s'.c.CIdle? || s'.c.RAccount?
    requires Conserved(s')
    ensures Inv(s')
  {
    WriterUnmoved(s, s');
  }

  lemma TrimLoadsKeepInv(s: State)
    requires Inv(s) && (s.c.TLoadHead? || s.c.TLoadTail? || s.c.TReload?)
    ensures Inv(ConsumerStep(s))
  {
    if s.c.TLoadTail? { DistanceOfTotals(s.c.seen, s.consumed, s.cap); }
    ConsumerMoved(s, ConsumerStep(s));
  }

  lemma TrimStoreKeepsInv(s: State)
    requires Inv(s) && s.c.TStore?
    ensures Inv(ConsumerStep(s))
  {
    Advance(s.consumed, s.c.drop, s.cap);
    var s' := ConsumerStep(s);
    assert s'.c == CIdle && s'.consumed == s.consumed + s.c.drop && s'.trimmed == s.trimmed + s.c.drop;
    assert s' == s.(c := s'.c, tail := s'.tail, consumed := s'.consumed, trimmed := s'.trimmed);
    assert Shape(s');
    TailMoved(s, s');
  }

  lemma ReadLoadsKeepInv(s: State)
    requires Inv(s) && (s.c.RLoadHead? || s.c.RLoadTail?)
    ensures Inv(ConsumerStep(s))
  {
    if s.c.RLoadTail? { DistanceOfTotals(s.c.seen, s.consumed, s.cap); }
    ConsumerMoved(s, ConsumerStep(s));
  }

  lemma StartReadKeepsInv(s: State)
    requires Inv(s) && s.c.RReload?
    ensures Inv(ConsumerStep(s))
  {
    var s' := ConsumerStep(s);
    assert Shape(s');
    ConsumerMoved(s, s');
  }

  lemma FillStepKeepsInv(s: State)
    requires Inv(s) && s.c.RCopy?
    ensures Inv(ConsumerStep(s))
  {
    FillKeepsShape(s);
    FillStepFills(s);
    ConsumerMoved(s, ConsumerStep(s));
  }

  lemma FillKeepsShape(s: State)
    requires Inv(s) && s.c.RCopy?
    ensures Shape(ConsumerStep(s)) && ConsumerStep(s) == s.(c := AfterFill(s))
  {
    var RCopy(n, nch, seen, got, t, out, cur, pos) := s.c;
    if |cur| < got { Advance(s.consumed + |cur|, 1, s.cap); }
  }

  /** The next sample to hand over is in the slot read, or is silence. */
  lemma OldestAt(planes: Planes, hist: Planes, lo: nat, hi: nat, cap: nat, c: nat, i: nat, got: nat, n: nat)
    requires cap > 0 && |planes| == |hist| && Sized(planes, cap) && Sized(hist, hi) && c < |planes|
    requires Held(planes, hist, lo, hi, cap) && lo + got <= hi && got <= n && i < n
    ensures Oldest(hist[c], lo, got, n)[i] == if i < got then planes[c][Slot(lo + i, cap)] else 0.0
  {
  }

  /** One more sample of the plane being gathered. */
  lemma FillExtends(want: seq<Sample>, cur: seq<Sample>, v: Sample)
    requires |cur| < |want| && cur == want[..|cur|] && v == want[|cur|]
    ensures cur + [v] == want[..|cur| + 1]
    ensures |cur| + 1 == |want| ==> cur + [v] == want
  {
  }

  /** The sample a fill step adds is the one due. */
  lemma NextSample(s: State) returns (v: Sample)
    requires Inv(s) && s.c.RCopy?
    ensures var want := Oldest(s.hist[|s.c.out|], s.consumed, s.c.got, s.c.n); var cur := s.c.cur;
            && v == (if |cur| < s.c.got then s.planes[|s.c.out|][s.c.pos] else 0.0)
            && cur + [v] == want[..|cur| + 1]
            && (|cur| + 1 == s.c.n ==> cur + [v] == want)
  {
    var RCopy(n, nch, seen, got, t, out, cur, pos) := s.c;
    v := if |cur| < got then s.planes[|out|][pos] else 0.0;
    OldestAt(s.planes, s.hist, s.consumed, s.written, s.cap, |out|, |cur|, got, n);
    FillExtends(Oldest(s.hist[|out|], s.consumed, got, n), cur, v);
  }

  /** The slot of the sample after the next. */
  lemma NextPosition(s: State)
    requires Inv(s) && s.c.RCopy?
    ensures |s.c.cur| < s.c.got ==> Wrap(s.c.pos + 1, s.cap - 1) == Slot(s.consumed + |s.c.cur| + 1, s.cap)
  {
    if |s.c.cur| < s.c.got { NextSlot(s.c.pos, s.consumed + |s.c.cur|, s.cap); }
  }

  lemma NextSlot(pos: u32, total: nat, cap: nat)
    requires IsCapacity(cap) && pos == Slot(total, cap)
    ensures 2 <= cap <= 0x8000_0000 && Wrap(pos + 1, cap - 1) == Slot(total + 1, cap)
  {
    CapacityBounds(cap);
    Advance(total, 1, cap);
  }

  lemma StillGathering(s: State, s': State, v: Sample, pos: u32)
    requires Inv(s) && s.c.RCopy? && Shape(s') && s' == s.(c := s.c.(cur := s.c.cur + [v], pos := pos))
    requires s.c.cur + [v] == Oldest(s.hist[|s.c.out|], s.consumed, s.c.got, s.c.n)[..|s.c.cur| + 1]
    requires |s.c.cur| + 1 < s.c.got ==> pos == Slot(s.consumed + |s.c.cur| + 1, s.cap)
    ensures ConsumerInv(s')
  {
  }

  lemma FillGoesOn(s: State)
    requires Inv(s) && s.c.RCopy? && |s.c.cur| + 1 < s.c.n && Shape(ConsumerStep(s))
    ensures ConsumerInv(ConsumerStep(s))
  {
    var v := NextSample(s);
    NextPosition(s);
    StillGathering(s, ConsumerStep(s), v, ConsumerStep(s).c.pos);
  }

  lemma FillEndsPlane(s: State)
    requires Inv(s) && s.c.RCopy? && |s.c.cur| + 1 == s.c.n && Shape(ConsumerStep(s))
    ensures ConsumerInv(ConsumerStep(s))
  {
    var v := NextSample(s);
    assert Filled(s.hist, s.consumed, s.c.out + [s.c.cur + [v]], s.c.got, s.c.n);
  }

  lemma FillStepFills(s: State)
    requires Inv(s) && s.c.RCopy? && Shape(ConsumerStep(s))
    ensures ConsumerInv(ConsumerStep(s))
  {
    if |s.c.cur| + 1 < s.c.n {
      FillGoesOn(s);
    } else {
      FillEndsPlane(s);
    }
  }

  lemma FinishReadKeepsInv(s: State)
    requires Inv(s) && (s.c.RStore? || s.c.RAccount?)
    ensures Inv(ConsumerStep(s))
  {
    if s.c.RStore? {
      Advance(s.consumed, s.c.got, s.cap);
      TailMoved(s, ConsumerStep(s));
    } else {
      ConsumerMoved(s, ConsumerStep(s));
    }
  }

  lemma ProducerStepKeepsInv(s: State)
    requires Inv(s) && !s.p.PIdle?
    ensures Inv(ProducerStep(s))
  {
    match s.p
    case PLoadHead(_, _) => LoadHeadKeepsInv(s);
    case PLoadTail(_, _, _) => LoadTailKeepsInv(s);
    case PAccount(_, _, _, _) => AccountKeepsInv(s);
    case PReload(_, _, _, _) => LoadHeadKeepsInv(s);
    case PCopy(_, _, _, _, _, _, _, _) => CopyStepKeepsInv(s);
    case PPublish(_, _, _, _, _) => PublishStepKeepsInv(s);
  }

  lemma ConsumerStepKeepsInv(s: State)
    requires Inv(s) && !s.c.CIdle?
    ensures Inv(ConsumerStep(s))
  {
    match s.c
    case TLoadHead(_) => TrimLoadsKeepInv(s);
    case TLoadTail(_, _, _) => TrimLoadsKeepInv(s);
    case TReload(_, _, _) => TrimLoadsKeepInv(s);
    case TStore(_, _, _, _) => TrimStoreKeepsInv(s);
    case RLoadHead(_, _) => ReadLoadsKeepInv(s);
    case RLoadTail(_, _, _, _) => ReadLoadsKeepInv(s);
    case RReload(_, _, _, _) => StartReadKeepsInv(s);
    case RCopy(_, _, _, _, _, _, _, _) => FillStepKeepsInv(s);
    case RStore(_, _, _, _, _) => FinishReadKeepsInv(s);
    case RAccount(_, _) => FinishReadKeepsInv(s);
  }

  lemma CallKeepsInv(s: State, e: Event, s': State)
    requires Inv(s) && (WriteCalled(s, e, s') || TrimCalled(s, e, s') || ReadCalled(s, e, s'))
    ensures Inv(s')
  {
    if WriteCalled(s, e, s') {
      ProducerMoved(s, s');
    } else {
      ConsumerMoved(s, s');
    }
  }

  lemma NextKeepsInv(s: State, e: Event, s': State)
    requires Inv(s) && Next(s, e, s')
    ensures Inv(s')
  {
    if WriteCalled(s, e, s') || TrimCalled(s, e, s') || ReadCalled(s, e, s') {
      CallKeepsInv(s, e, s');
    } else if !s.p.PIdle? && s' == ProducerStep(s) {
      ProducerStepKeepsInv(s);
    } else {
      ConsumerStepKeepsInv(s);
    }
  }
}
