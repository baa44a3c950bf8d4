/** What the ring's invariant means to its two callers, over whole runs. */
module RingFifo {
  import opened Words
  import opened RingIndex
  import opened RingProtocol
  import opened RingRefinement

  // ----- refinement of a FIFO -----------------------------------------------

  /** The abstract queue: per channel, what is published and not yet consumed, oldest first. */
  ghost function Queue(s: State): (q: Planes)
    requires Inv(s)
    ensures |q| == s.Channels()
  {
    seq(s.Channels(), c requires 0 <= c < s.Channels() => s.hist[c][s.consumed..])
  }

  /** A queue per channel, pushed and popped by the same count on all of them. */
  ghost predicate FifoStep(q: Planes, e: Event, q': Planes)
  {
    && |q'| == |q|
    && match e {
      case Published(src, w) =>
        |src| == |q| && forall c :: 0 <= c < |q| ==> w <= |src[c]| && q'[c] == q[c] + src[c][..w]
      case Delivered(out, got) =>
        && |out| <= |q|
        && (forall c :: 0 <= c < |q| ==> got <= |q[c]| && q'[c] == q[c][got..])
        && (forall c :: 0 <= c < |out| ==> got <= |out[c]| && out[c] == q[c][..got] + Zeros(|out[c]| - got))
      case Trimmed(drop) =>
        forall c :: 0 <= c < |q| ==> drop <= |q[c]| && q'[c] == q[c][drop..]
      case _ => q' == q
    }
  }

  lemma SameQueue(s: State, s': State)
    requires Inv(s) && Inv(s') && s'.hist == s.hist && s'.consumed == s.consumed
    ensures Queue(s') == Queue(s)
  {
  }

  lemma PublishEnqueues(s: State)
    requires Inv(s) && s.p.PPublish? && Inv(ProducerStep(s))
    ensures FifoStep(Queue(s), ProducerEvent(s), Queue(ProducerStep(s)))
  {
    var s' := ProducerStep(s);
    forall c | 0 <= c < s.Channels()
      ensures Queue(s')[c] == Queue(s)[c] + s.p.src[c][..s.p.w]
    {
      assert s'.hist[c] == s.hist[c] + s.p.src[c][..s.p.w];
    }
  }

  lemma PopsOldest(hist: seq<Sample>, lo: nat, got: nat, n: nat)
    requires lo + got <= |hist| && got <= n
    ensures hist[lo..][got..] == hist[lo + got..]
    ensures Oldest(hist, lo, got, n) == hist[lo..][..got] + Zeros(n - got)
  {
  }

  lemma TrimDequeues(s: State)
    requires Inv(s) && s.c.TStore? && Inv(ConsumerStep(s))
    ensures FifoStep(Queue(s), ConsumerEvent(s), Queue(ConsumerStep(s)))
  {
    forall c | 0 <= c < s.Channels()
      ensures s.c.drop <= |Queue(s)[c]| && Queue(ConsumerStep(s))[c] == Queue(s)[c][s.c.drop..]
    {
      PopsOldest(s.hist[c], s.consumed, s.c.drop, s.c.drop);
    }
  }

  lemma ReadDequeues(s: State)
    requires Inv(s) && s.c.RStore? && Inv(ConsumerStep(s))
    ensures FifoStep(Queue(s), ConsumerEvent(s), Queue(ConsumerStep(s)))
  {
    var out, got, n := s.c.out, s.c.got, s.c.n;
    forall c | 0 <= c < s.Channels()
      ensures got <= |Queue(s)[c]| && Queue(ConsumerStep(s))[c] == Queue(s)[c][got..]
    {
      PopsOldest(s.hist[c], s.consumed, got, n);
    }
    forall c | 0 <= c < |out|
      ensures |out[c]| == n && out[c] == Queue(s)[c][..got] + Zeros(n - got)
    {
      PopsOldest(s.hist[c], s.consumed, got, n);
      assert out[c] == Oldest(s.hist[c], s.consumed, got, n);
    }
  }

  /** The step of a call that moves samples. */
  predicate Moves(e: Event)
  {
    e.Published? || e.Delivered? || e.Trimmed?
  }

  /** Every other step leaves the queues alone. */
  lemma QuietStep(s: State, e: Event, s': State)
    requires Inv(s) && Next(s, e, s')
    ensures !Moves(e) ==> s'.hist == s.hist && s'.consumed == s.consumed
    ensures Moves(e) ==> (!s.p.PIdle? && e == ProducerEvent(s) && s' == ProducerStep(s) && s.p.PPublish?)
                         || (!s.c.CIdle? && e == ConsumerEvent(s) && s' == ConsumerStep(s) && (s.c.TStore? || s.c.RStore?))
  {
  }

  /** Every step of every interleaving is a step of the FIFO queues, or changes none of them. */
  lemma StepRefinesFifo(s: State, e: Event, s': State)
    requires Inv(s) && Next(s, e, s')
    ensures Inv(s') && FifoStep(Queue(s), e, Queue(s'))
  {
    NextKeepsInv(s, e, s');
    QuietStep(s, e, s');
    if !Moves(e) {
      SameQueue(s, s');
    } else if e.Published? {
      PublishEnqueues(s);
    } else if e.Trimmed? {
      TrimDequeues(s);
    } else {
      ReadDequeues(s);
    }
  }

  // ----- runs, in terms of what goes in and what comes out ------------------

  /** The states ss are the run that shows the events es. */
  ghost predicate Run(ss: seq<State>, es: seq<Event>)
  {
    && |ss| == |es| + 1
    && Init(ss[0])
    && forall i :: 0 <= i < |es| ==> Shape(ss[i]) && Next(ss[i], es[i], ss[i + 1])
  }

  /** Everything published to channel c. */
  function Input(es: seq<Event>, c: nat): seq<Sample>
  {
    if es == [] then [] else Input(es[..|es| - 1], c) + Added(es[|es| - 1], c)
  }

  /** How many samples per channel the reader has taken or dropped. */
  function Taken(es: seq<Event>): nat
  {
    if es == [] then 0 else Taken(es[..|es| - 1]) + Removed(es[|es| - 1])
  }

  lemma {:induction false} RunHistory(ss: seq<State>, es: seq<Event>)
    requires Run(ss, es)
    ensures Inv(ss[|es|]) && ss[|es|].Channels() == ss[0].Channels() && ss[|es|].cap == ss[0].cap
    ensures ss[|es|].consumed == Taken(es)
    ensures forall c :: 0 <= c < ss[0].Channels() ==> ss[|es|].hist[c] == Input(es, c)
  {
    var n := |es|;
    if n == 0 {
      InitInv(ss[0]);
    } else {
      RunHistory(ss[..n], es[..n - 1]);
      var s, e, s' := ss[n - 1], es[n - 1], ss[n];
      StepRefinesFifo(s, e, s');
      StepHistory(s, e, s');
    }
  }

  /** What one event adds to the input of channel c. */
  function Added(e: Event, c: nat): seq<Sample>
  {
    if e.Published? && c < |e.planes| && e.w <= |e.planes[c]| then e.planes[c][..e.w] else []
  }

  function Removed(e: Event): nat
  {
    if e.Delivered? then e.got else if e.Trimmed? then e.drop else 0
  }

  lemma ProducerHistory(s: State)
    requires Inv(s) && !s.p.PIdle?
    ensures var s' := ProducerStep(s); var e := ProducerEvent(s);
            && s'.Channels() == s.Channels() == |s'.hist| && s'.cap == s.cap
            && s'.consumed == s.consumed + Removed(e)
            && forall c :: 0 <= c < s.Channels() ==> s'.hist[c] == s.hist[c] + Added(e, c)
  {
  }

  lemma StepHistory(s: State, e: Event, s': State)
    requires Inv(s) && Next(s, e, s')
    ensures s'.Channels() == s.Channels() == |s'.hist| && s'.cap == s.cap
    ensures s'.consumed == s.consumed + Removed(e)
    ensures forall c :: 0 <= c < s.Channels() ==> s'.hist[c] == s.hist[c] + Added(e, c)
  {
    if !s.p.PIdle? && s' == ProducerStep(s) && e == ProducerEvent(s) {
      ProducerHistory(s);
    } else {
      assert s'.hist == s.hist && !e.Published?;
    }
  }

  lemma DeliveredIsOldest(s: State, e: Event, s': State, c: nat)
    requires Inv(s) && Next(s, e, s') && e.Delivered? && c < |e.out|
    ensures c < s.Channels() && s.consumed + e.got <= |s.hist[c]| && e.got <= |e.out[c]|
    ensures e.out[c] == s.hist[c][s.consumed..s.consumed + e.got] + Zeros(|e.out[c]| - e.got)
  {
    assert s.c.RStore? && e == ConsumerEvent(s);
    assert e.out[c] == Oldest(s.hist[c], s.consumed, s.c.got, s.c.n);
  }

  /**
   FIFO over every run: what a read hands over is, on every channel, the samples
   published so far starting right after those already taken, then silence.
   */
  lemma ReadsAreFifo(ss: seq<State>, es: seq<Event>, i: nat, c: nat)
    requires Run(ss, es) && i < |es| && es[i].Delivered? && c < |es[i].out|
    ensures c < ss[0].Channels()
    ensures var got, before := es[i].got, es[..i];
            && got <= |es[i].out[c]|
            && Taken(before) + got <= |Input(before, c)|
            && es[i].out[c] == Input(before, c)[Taken(before)..Taken(before) + got] + Zeros(|es[i].out[c]| - got)
  {
    RunHistory(ss[..i + 1], es[..i]);
    DeliveredIsOldest(ss[i], es[i], ss[i + 1], c);
  }

  // ----- the two threads never touch the same slot --------------------------

  /** No slot of the write in flight is one the reader may still hand over. */
  lemma InFlightDisjoint(s: State, j: nat, k: nat)
    requires Inv(s) && (s.p.PCopy? || s.p.PPublish?)
    requires j < s.p.w && s.consumed <= k < s.written
    ensures Slot(s.written + j, s.cap) != Slot(k, s.cap)
  {
    DistinctSlots(k, s.written + j, s.cap);
  }

  /** The slot being stored and the slot being loaded at the same moment differ. */
  lemma NoSharedSlot(s: State)
    requires Inv(s) && s.p.PCopy? && s.c.RCopy? && |s.c.cur| < s.c.got
    ensures s.p.pos != s.c.pos
  {
    DistinctSlots(s.consumed + |s.c.cur|, s.written + s.p.i, s.cap);
  }

  // ----- counts -------------------------------------------------------------

  /** What one event adds to the books: samples asked to be written, clamped to the ring; published; asked for; read; trimmed. */
  datatype Books = Books(offered: nat, published: nat, requested: nat, read: nat, trimmed: nat)

  function Entry(b: Books, e: Event, cap: nat): Books
    requires cap > 0
  {
    match e
    case Tau => b
    case WriteCall(_, n) => b.(offered := b.offered + Min(n, cap - 1))
    case TrimCall(_) => b
    case ReadCall(n, _) => b.(requested := b.requested + n)
    case Published(_, w) => b.(published := b.published + w)
    case Delivered(_, got) => b.(read := b.read + got)
    case Trimmed(drop) => b.(trimmed := b.trimmed + drop)
  }

  /** The books of a run, kept by its events alone. */
  function BooksOf(es: seq<Event>, cap: nat): Books
    requires cap > 0
  {
    if es == [] then Books(0, 0, 0, 0, 0) else Entry(BooksOf(es[..|es| - 1], cap), es[|es| - 1], cap)
  }

  /** The totals a state carries along. */
  function BooksIn(s: State): Books
  {
    Books(s.offered, s.written, s.requested, s.delivered, s.trimmed)
  }

  lemma EntryMade(s: State, e: Event, s': State)
    requires Inv(s) && Next(s, e, s')
    ensures BooksIn(s') == Entry(BooksIn(s), e, s.cap)
  {
    if WriteCalled(s, e, s') || TrimCalled(s, e, s') || ReadCalled(s, e, s') {
    } else if !s.p.PIdle? && s' == ProducerStep(s) && e == ProducerEvent(s) {
      ProducerEntry(s);
    } else {
      ConsumerEntry(s);
    }
  }

  lemma ProducerEntry(s: State)
    requires Inv(s) && !s.p.PIdle?
    ensures BooksIn(ProducerStep(s)) == Entry(BooksIn(s), ProducerEvent(s), s.cap)
  {
  }

  lemma ConsumerEntry(s: State)
    requires Inv(s) && !s.c.CIdle?
    ensures BooksIn(ConsumerStep(s)) == Entry(BooksIn(s), ConsumerEvent(s), s.cap)
  {
  }

  lemma {:induction false} RunBooks(ss: seq<State>, es: seq<Event>)
    requires Run(ss, es)
    ensures ss[0].cap > 0 && BooksIn(ss[|es|]) == BooksOf(es, ss[0].cap)
  {
    RunHistory(ss, es);
    if es != [] {
      var n := |es| - 1;
      RunBooks(ss[..n + 1], es[..n]);
      RunHistory(ss[..n + 1], es[..n]);
      EntryMade(ss[n], es[n], ss[n + 1]);
    }
  }

  /** The books balance in this state, with its own loss counters, and the fill never exceeds the mask. */
  ghost predicate Balanced(b: Books, s: State)
    requires IsCapacity(s.cap) && 2 <= s.cap <= 0x8000_0000
  {
    && (s.p.PIdle? ==> b.offered == b.published + s.overruns)
    && (s.c.CIdle? ==> b.requested == b.read + s.underruns)
    && b.published == b.read + b.trimmed + Distance(s.head, s.tail, s.cap - 1)
    && Distance(s.head, s.tail, s.cap - 1) <= s.cap - 1
  }

  lemma InvBalances(s: State)
    requires Inv(s)
    ensures Balanced(BooksIn(s), s)
  {
    DistanceOfTotals(s.written, s.consumed, s.cap);
  }

  /**
   Conservation over every run, by its calls and what they moved: of the samples offered
   (each call's count, at most the mask) all are published or counted as overrun, of those
   requested all are read or counted as underrun, and of those published all are read,
   trimmed or still readable.
   */
  lemma RunConserves(ss: seq<State>, es: seq<Event>)
    requires Run(ss, es)
    ensures Inv(ss[|es|]) && ss[|es|].cap == ss[0].cap && Balanced(BooksOf(es, ss[0].cap), ss[|es|])
  {
    RunHistory(ss, es);
    RunBooks(ss, es);
    InvBalances(ss[|es|]);
  }

  /** A write publishes everything that fits below the tail it observed; what it loses is the newest. */
  lemma PublishesWhatFits(s: State)
    requires Inv(s) && s.p.PPublish?
    ensures s.p.seen <= s.consumed
    ensures s.p.w == Min(s.p.n, s.p.seen + s.cap - 1 - s.written)
    ensures ProducerStep(s).written == s.written + s.p.w
  {
  }

  /** A read takes everything that was published when it observed the head, up to n. */
  lemma DeliversWhatIsThere(s: State)
    requires Inv(s) && s.c.RStore?
    ensures s.c.seen <= s.written
    ensures s.c.got == Min(s.c.n, s.c.seen - s.consumed)
    ensures forall c :: 0 <= c < |s.c.out| ==> |s.c.out[c]| == s.c.n
  {
    forall c | 0 <= c < |s.c.out| ensures |s.c.out[c]| == s.c.n {
      assert s.c.out[c] == Oldest(s.hist[c], s.consumed, s.c.got, s.c.n);
    }
  }

  /** A trim leaves at most `keep` samples relative to the head it observed: exactly `keep` when it drops any. */
  lemma TrimBoundsLatency(s: State)
    requires Inv(s) && (s.c.TLoadTail? || s.c.TStore?)
    ensures var s' := ConsumerStep(s);
            && (s.c.TStore? ==> s.c.seen - s'.consumed == s.c.keep)
            && (s.c.TLoadTail? ==> (s'.c.CIdle? <==> s.c.seen - s.consumed <= s.c.keep))
  {
    if s.c.TLoadTail? { DistanceOfTotals(s.c.seen, s.consumed, s.cap); }
  }

  // ----- the realtime side never waits --------------------------------------

  /** Steps the reader still has to take before its call returns, whatever the writer does. */
  ghost function ReaderWork(s: State): nat
  {
    match s.c
    case CIdle => 0
    case TLoadHead(_) => 4
    case TLoadTail(_, _, _) => 3
    case TReload(_, _, _) => 2
    case TStore(_, _, _, _) => 1
    case RLoadHead(n, nch) => 5 + n * nch
    case RLoadTail(n, nch, _, _) => 4 + n * nch
    case RReload(n, nch, _, _) => 3 + n * nch
    case RCopy(n, nch, _, _, _, out, cur, _) =>
      var left := n * nch - n * |out| - |cur|;
      2 + if left > 0 then left else 0
    case RStore(_, _, _, _, _) => 2
    case RAccount(_, _) => 1
  }

  lemma CellsLeft(n: nat, nch: nat, o: nat, i: nat)
    requires o < nch && i < n
    ensures n * nch - n * o - i >= 1
    ensures n * (o + 1) == n * o + n
  {
    assert n * nch == n * o + n + n * (nch - o - 1);
    assert n * (nch - o - 1) >= 0;
  }

  lemma CopyWorks(s: State)
    requires Inv(s) && s.c.RCopy?
    ensures ReaderWork(ConsumerStep(s)) < ReaderWork(s)
  {
    CellsLeft(s.c.n, s.c.nch, |s.c.out|, |s.c.cur|);
  }

  lemma ReaderStepWorks(s: State)
    requires Inv(s) && !s.c.CIdle?
    ensures ReaderWork(ConsumerStep(s)) < ReaderWork(s)
  {
    if s.c.RCopy? {
      CopyWorks(s);
    } else if s.c.RReload? {
      assert s.c.nch != 0 && s.c.n != 0 ==> s.c.n * s.c.nch >= 1;
    }
  }

  /** Every reader step brings its call nearer to its end, and no writer step delays it. */
  lemma ReaderIsWaitFree(s: State, e: Event, s': State)
    requires Inv(s) && Next(s, e, s') && !s.c.CIdle?
    ensures ReaderWork(s') < ReaderWork(s) || (s'.c == s.c && s'.p != s.p)
  {
    ReaderStepWorks(s);
  }
}
