/** How much every call of the ring moves, over whole runs of both threads. */
module RingRuns {
  import opened Words
  import opened Reac
  import opened RingIndex
  import opened RingProtocol
  import opened RingRefinement
  import opened RingFifo

  // ----- the reader's calls -------------------------------------------------------

  /** The total behind the head, in a reader's call that has loaded it. */
  function HeadSeen(c: Consumer): int
  {
    match c
    case TLoadTail(_, _, seen) => seen
    case TReload(_, seen, _) => seen
    case TStore(_, seen, _, _) => seen
    case RLoadTail(_, _, _, seen) => seen
    case RReload(_, _, seen, _) => seen
    case RCopy(_, _, seen, _, _, _, _, _) => seen
    case RStore(_, seen, _, _, _) => seen
    case _ => -1
  }

  /** The samples asked for and the planes in use of a read in progress; a trim in progress has none. */
  function Asked(c: Consumer): Option<(nat, nat)>
  {
    match c
    case RLoadHead(n, nch) => Some((n, nch))
    case RLoadTail(n, nch, _, _) => Some((n, nch))
    case RReload(n, nch, _, _) => Some((n, nch))
    case RCopy(n, nch, _, _, _, _, _, _) => Some((n, nch))
    case RStore(n, _, _, _, out) => Some((n, |out|))
    case _ => None
  }

  /** How much a trim in progress is to keep. */
  function Keeping(c: Consumer): Option<nat>
  {
    match c
    case TLoadHead(keep) => Some(keep)
    case TLoadTail(keep, _, _) => Some(keep)
    case TReload(keep, _, _) => Some(keep)
    case TStore(keep, _, _, _) => Some(keep)
    case _ => None
  }

  /** The reader's call in progress in state k is the one made at step j. */
  ghost predicate ReaderCalledAt(ss: seq<State>, es: seq<Event>, j: nat, k: nat)
  {
    && j < k < |ss| == |es| + 1
    && (es[j].ReadCall? || es[j].TrimCall?)
    && Asked(ss[k].c) == (if es[j].ReadCall? then Some((es[j].count, Min(es[j].channels, ss[0].Channels()))) else None)
    && Keeping(ss[k].c) == (if es[j].TrimCall? then Some(es[j].keep) else None)
    && forall x :: j < x < k ==> !es[x].ReadCall? && !es[x].TrimCall?
  }

  lemma ReaderCallMade(s: State, e: Event, s': State)
    requires Shape(s) && Next(s, e, s') && (e.ReadCall? || e.TrimCall?)
    ensures Asked(s'.c) == if e.ReadCall? then Some((e.count, Min(e.channels, s.Channels()))) else None
    ensures Keeping(s'.c) == if e.TrimCall? then Some(e.keep) else None
  {
  }

  predicate InCall(c: Consumer)
  {
    Asked(c) != None || Keeping(c) != None
  }

  /** Between its call and its end a reader keeps its arguments, and what it saw of the head once it has seen it. */
  lemma ReaderCallGoesOn(s: State, e: Event, s': State)
    requires Shape(s) && Next(s, e, s') && InCall(s'.c) && !e.ReadCall? && !e.TrimCall?
    ensures Asked(s.c) == Asked(s'.c) && Keeping(s.c) == Keeping(s'.c)
    ensures s'.consumed == s.consumed
    ensures HeadSeen(s'.c) >= 0 && !s.c.RLoadHead? && !s.c.TLoadHead? ==> HeadSeen(s.c) == HeadSeen(s'.c)
  {
    if !s.c.CIdle? && s' == ConsumerStep(s) { ReaderStepGoesOn(s); }
  }

  lemma ReaderStepGoesOn(s: State)
    requires Shape(s) && !s.c.CIdle? && InCall(ConsumerStep(s).c)
    ensures var s' := ConsumerStep(s);
            && Asked(s.c) == Asked(s'.c) && Keeping(s.c) == Keeping(s'.c) && s'.consumed == s.consumed
            && (HeadSeen(s'.c) >= 0 && !s.c.RLoadHead? && !s.c.TLoadHead? ==> HeadSeen(s.c) == HeadSeen(s'.c))
  {
  }

  lemma {:induction false} ReaderWasCalled(ss: seq<State>, es: seq<Event>, k: nat) returns (j: nat)
    requires Run(ss, es) && k <= |es| && InCall(ss[k].c)
    ensures ReaderCalledAt(ss, es, j, k)
  {
    assert k > 0;
    ChannelsKept(ss, es, k - 1);
    if es[k - 1].ReadCall? || es[k - 1].TrimCall? {
      j := k - 1;
      ReaderCallMade(ss[k - 1], es[k - 1], ss[k]);
    } else {
      ReaderCallGoesOn(ss[k - 1], es[k - 1], ss[k]);
      j := ReaderWasCalled(ss, es, k - 1);
      ReadStillCalled(ss, es, j, k);
    }
  }

  lemma ReadStillCalled(ss: seq<State>, es: seq<Event>, j: nat, k: nat)
    requires 0 < k < |ss| && ReaderCalledAt(ss, es, j, k - 1)
    requires Asked(ss[k].c) == Asked(ss[k - 1].c) && Keeping(ss[k].c) == Keeping(ss[k - 1].c)
    requires !es[k - 1].ReadCall? && !es[k - 1].TrimCall?
    ensures ReaderCalledAt(ss, es, j, k)
  {
  }

  lemma ChannelsKept(ss: seq<State>, es: seq<Event>, k: nat)
    requires Run(ss, es) && k <= |es|
    ensures ss[k].Channels() == ss[0].Channels() && ss[k].cap == ss[0].cap
  {
    RunHistory(ss[..k + 1], es[..k]);
  }

  /** Step m of the run loads the head for the reader's call in progress in state k. */
  ghost predicate HeadLoadedAt(ss: seq<State>, es: seq<Event>, m: nat, k: nat)
  {
    && m < k < |ss| == |es| + 1
    && (ss[m].c.RLoadHead? || ss[m].c.TLoadHead?)
    && HeadSeen(ss[k].c) == ss[m].written && ss[m].consumed == ss[k].consumed
    && forall x :: m <= x < k ==> !es[x].ReadCall? && !es[x].TrimCall?
  }

  lemma {:induction false} HeadWasLoaded(ss: seq<State>, es: seq<Event>, k: nat) returns (m: nat)
    requires Run(ss, es) && k <= |es| && HeadSeen(ss[k].c) >= 0
    ensures HeadLoadedAt(ss, es, m, k)
  {
    assert k > 0;
    var s, e, s' := ss[k - 1], es[k - 1], ss[k];
    NoCallHere(s, e, s');
    ReaderCallGoesOn(s, e, s');
    if s.c.RLoadHead? || s.c.TLoadHead? {
      m := k - 1;
      LoadsHead(s, e, s');
    } else {
      m := HeadWasLoaded(ss, es, k - 1);
      HeadStillSeen(ss, es, m, k);
    }
  }

  lemma HeadStillSeen(ss: seq<State>, es: seq<Event>, m: nat, k: nat)
    requires 0 < k < |ss| && HeadLoadedAt(ss, es, m, k - 1)
    requires HeadSeen(ss[k].c) == HeadSeen(ss[k - 1].c) && ss[k].consumed == ss[k - 1].consumed
    requires !es[k - 1].ReadCall? && !es[k - 1].TrimCall?
    ensures HeadLoadedAt(ss, es, m, k)
  {
  }

  lemma NoCallHere(s: State, e: Event, s': State)
    requires Shape(s) && Next(s, e, s') && HeadSeen(s'.c) >= 0
    ensures !e.ReadCall? && !e.TrimCall? && InCall(s'.c)
  {
  }

  lemma LoadsHead(s: State, e: Event, s': State)
    requires Shape(s) && Next(s, e, s') && HeadSeen(s'.c) >= 0 && (s.c.RLoadHead? || s.c.TLoadHead?)
    ensures HeadSeen(s'.c) == s.written
  {
  }

  // ----- the writer's calls -------------------------------------------------------

  /** The total behind the tail, in a writer's call that has loaded it. */
  function TailSeen(p: Producer): int
  {
    match p
    case PAccount(_, _, _, seen) => seen
    case PReload(_, _, _, seen) => seen
    case PCopy(_, _, _, seen, _, _, _, _) => seen
    case PPublish(_, _, _, seen, _) => seen
    case _ => -1
  }

  /** The planes and the clamped count of a write in progress. */
  function Offering(p: Producer): Option<(Planes, nat)>
  {
    match p
    case PIdle => None
    case PLoadHead(src, n) => Some((src, n))
    case PLoadTail(src, n, _) => Some((src, n))
    case PAccount(src, n, _, _) => Some((src, n))
    case PReload(src, n, _, _) => Some((src, n))
    case PCopy(src, n, _, _, _, _, _, _) => Some((src, n))
    case PPublish(src, n, _, _, _) => Some((src, n))
  }

  /** The write in progress in state k is the one called at step j, its count clamped to the mask. */
  ghost predicate WriterCalledAt(ss: seq<State>, es: seq<Event>, j: nat, k: nat)
  {
    && j < k < |ss| == |es| + 1 && es[j].WriteCall?
    && Offering(ss[k].p) == Some((es[j].src, Min(es[j].n, ss[0].cap - 1)))
    && forall x :: j < x < k ==> !es[x].WriteCall? && !es[x].Published?
  }

  lemma WriterCallMade(s: State, e: Event, s': State)
    requires Shape(s) && Next(s, e, s') && e.WriteCall?
    ensures Offering(s'.p) == Some((e.src, Min(e.n, s.cap - 1)))
  {
  }

  lemma WriterCallGoesOn(s: State, e: Event, s': State)
    requires Shape(s) && Next(s, e, s') && Offering(s'.p) != None && !e.WriteCall?
    ensures Offering(s.p) == Offering(s'.p) && s'.written == s.written && !e.Published?
    ensures TailSeen(s'.p) >= 0 && !s.p.PLoadTail? ==> TailSeen(s.p) == TailSeen(s'.p)
    ensures TailSeen(s'.p) >= 0 && s.p.PLoadTail? ==> TailSeen(s'.p) == s.consumed
  {
    if !s.p.PIdle? && s' == ProducerStep(s) { WriterStepGoesOn(s); }
  }

  lemma WriterStepGoesOn(s: State)
    requires Shape(s) && !s.p.PIdle? && Offering(ProducerStep(s).p) != None
    ensures var s' := ProducerStep(s);
            && Offering(s.p) == Offering(s'.p) && s'.written == s.written && !ProducerEvent(s).Published?
            && (TailSeen(s'.p) >= 0 && !s.p.PLoadTail? ==> TailSeen(s.p) == TailSeen(s'.p))
            && (TailSeen(s'.p) >= 0 && s.p.PLoadTail? ==> TailSeen(s'.p) == s.consumed)
  {
  }

  /** Step k - 1 of a run. */
  lemma StepOf(ss: seq<State>, es: seq<Event>, k: nat)
    requires Run(ss, es) && 0 < k <= |es|
    ensures Shape(ss[k - 1]) && Next(ss[k - 1], es[k - 1], ss[k]) && ss[k - 1].cap == ss[0].cap
  {
    ChannelsKept(ss, es, k - 1);
  }

  lemma {:induction false} WriterWasCalled(ss: seq<State>, es: seq<Event>, k: nat) returns (j: nat)
    requires Run(ss, es) && k <= |es| && Offering(ss[k].p) != None
    ensures WriterCalledAt(ss, es, j, k)
  {
    assert k > 0;
    StepOf(ss, es, k);
    if es[k - 1].WriteCall? {
      j := k - 1;
      WriterCallMade(ss[k - 1], es[k - 1], ss[k]);
      WriteJustCalled(ss, es, k);
    } else {
      WriterCallGoesOn(ss[k - 1], es[k - 1], ss[k]);
      j := WriterWasCalled(ss, es, k - 1);
      WriteStillCalled(ss, es, j, k);
    }
  }

  lemma WriteJustCalled(ss: seq<State>, es: seq<Event>, k: nat)
    requires 0 < k < |ss| == |es| + 1 && es[k - 1].WriteCall?
    requires Offering(ss[k].p) == Some((es[k - 1].src, Min(es[k - 1].n, ss[0].cap - 1)))
    ensures WriterCalledAt(ss, es, k - 1, k)
  {
  }

  lemma WriteStillCalled(ss: seq<State>, es: seq<Event>, j: nat, k: nat)
    requires 0 < k < |ss| && WriterCalledAt(ss, es, j, k - 1)
    requires Offering(ss[k].p) == Offering(ss[k - 1].p) && !es[k - 1].WriteCall? && !es[k - 1].Published?
    ensures WriterCalledAt(ss, es, j, k)
  {
  }

  /** Step m of the run loads the tail for the write in progress in state k. */
  ghost predicate TailLoadedAt(ss: seq<State>, es: seq<Event>, m: nat, k: nat)
  {
    && m < k < |ss| == |es| + 1 && ss[m].p.PLoadTail?
    && TailSeen(ss[k].p) == ss[m].consumed && ss[m].written == ss[k].written
    && forall x :: m <= x < k ==> !es[x].WriteCall?
  }

  lemma {:induction false} TailWasLoaded(ss: seq<State>, es: seq<Event>, k: nat) returns (m: nat)
    requires Run(ss, es) && k <= |es| && TailSeen(ss[k].p) >= 0
    ensures TailLoadedAt(ss, es, m, k)
  {
    assert k > 0;
    var s, e, s' := ss[k - 1], es[k - 1], ss[k];
    NoWriteCallHere(s, e, s');
    WriterCallGoesOn(s, e, s');
    if s.p.PLoadTail? {
      m := k - 1;
    } else {
      m := TailWasLoaded(ss, es, k - 1);
      TailStillSeen(ss, es, m, k);
    }
  }

  lemma TailStillSeen(ss: seq<State>, es: seq<Event>, m: nat, k: nat)
    requires 0 < k < |ss| && TailLoadedAt(ss, es, m, k - 1)
    requires TailSeen(ss[k].p) == TailSeen(ss[k - 1].p) && ss[k].written == ss[k - 1].written && !es[k - 1].WriteCall?
    ensures TailLoadedAt(ss, es, m, k)
  {
  }

  lemma NoWriteCallHere(s: State, e: Event, s': State)
    requires Shape(s) && Next(s, e, s') && TailSeen(s'.p) >= 0
    ensures !e.WriteCall? && Offering(s'.p) != None
  {
  }

  // ----- amounts ----------------------------------------------------------------

  lemma InvHolds(ss: seq<State>, es: seq<Event>, k: nat)
    requires Run(ss, es) && k <= |es|
    ensures Inv(ss[k]) && ss[k].Channels() == ss[0].Channels()
  {
    RunHistory(ss[..k + 1], es[..k]);
  }

  /** The totals of a state, in terms of what the run has shown so far. */
  lemma RunCounts(ss: seq<State>, es: seq<Event>, k: nat, c: nat)
    requires Run(ss, es) && k <= |es| && c < ss[0].Channels()
    ensures ss[k].cap == ss[0].cap && ss[k].consumed == Taken(es[..k]) && ss[k].written == |Input(es[..k], c)|
  {
    RunHistory(ss[..k + 1], es[..k]);
  }

  lemma DeliveryAt(ss: seq<State>, es: seq<Event>, i: nat)
    requires Run(ss, es) && i < |es| && es[i].Delivered?
    ensures HeadSeen(ss[i].c) >= 0 && |es[i].out| <= ss[0].Channels() && Asked(ss[i].c).Some? && InCall(ss[i].c)
    ensures Asked(ss[i].c).value.1 == |es[i].out|
    ensures forall c :: 0 <= c < |es[i].out| ==> |es[i].out[c]| == Asked(ss[i].c).value.0
    ensures es[i].got == Min(Asked(ss[i].c).value.0, HeadSeen(ss[i].c) - ss[i].consumed)
  {
    InvHolds(ss, es, i);
    DeliveryShown(ss[i], es[i], ss[i + 1]);
    DeliversWhatIsThere(ss[i]);
  }

  lemma DeliveryShown(s: State, e: Event, s': State)
    requires Inv(s) && Next(s, e, s') && e.Delivered?
    ensures s.c.RStore? && |e.out| <= s.Channels() && e.out == s.c.out && e.got == s.c.got
  {
    assert s.c.RStore? && e == ConsumerEvent(s);
    assert Filled(s.hist, s.consumed, s.c.out, s.c.got, s.c.n);
  }

  lemma TrimAt(ss: seq<State>, es: seq<Event>, i: nat)
    requires Run(ss, es) && i < |es| && es[i].Trimmed?
    ensures HeadSeen(ss[i].c) >= 0 && Keeping(ss[i].c).Some? && InCall(ss[i].c)
    ensures HeadSeen(ss[i].c) - ss[i].consumed == Keeping(ss[i].c).value + es[i].drop
  {
    InvHolds(ss, es, i);
    TrimShown(ss[i], es[i], ss[i + 1]);
  }

  lemma TrimShown(s: State, e: Event, s': State)
    requires Inv(s) && Next(s, e, s') && e.Trimmed?
    ensures s.c.TStore? && e.drop == s.c.drop && s.consumed + s.c.drop + s.c.keep == s.c.seen
  {
  }

  lemma PublicationAt(ss: seq<State>, es: seq<Event>, i: nat)
    requires Run(ss, es) && i < |es| && es[i].Published?
    ensures TailSeen(ss[i].p) >= 0 && Offering(ss[i].p).Some? && es[i].planes == Offering(ss[i].p).value.0
    ensures es[i].w == Min(Offering(ss[i].p).value.1, TailSeen(ss[i].p) + ss[i].cap - 1 - ss[i].written)
  {
    InvHolds(ss, es, i);
    PublicationShown(ss[i], es[i], ss[i + 1]);
    PublishesWhatFits(ss[i]);
  }

  lemma PublicationShown(s: State, e: Event, s': State)
    requires Inv(s) && Next(s, e, s') && e.Published?
    ensures s.p.PPublish? && e.planes == s.p.src && e.w == s.p.w
  {
  }

  /** What a delivery hands over is a read's own shape: a plane of its count for every channel both sides have. */
  ghost predicate AnswersRead(call: Event, e: Event, channels: nat)
  {
    && call.ReadCall? && e.Delivered? && |e.out| == Min(call.channels, channels)
    && forall c :: 0 <= c < |e.out| ==> |e.out[c]| == call.count
  }

  /**
   How much a read delivers: called at step j, of the samples asked for, all that were
   published when the call loaded the head, at step m, and not yet taken.
   */
  lemma ReadTakesAvailable(ss: seq<State>, es: seq<Event>, i: nat, c: nat)
    returns (j: nat, m: nat, published: nat, taken: nat)
    requires Run(ss, es) && i < |es| && es[i].Delivered? && c < ss[0].Channels()
    ensures j < m < i && ReaderCalledAt(ss, es, j, i) && HeadLoadedAt(ss, es, m, i)
    ensures AnswersRead(es[j], es[i], ss[0].Channels())
    ensures published == |Input(es[..m], c)| && taken == Taken(es[..i])
    ensures es[i].got == Min(es[j].count, published - taken)
  {
    DeliveryAt(ss, es, i);
    j := ReaderWasCalled(ss, es, i);
    m := HeadWasLoaded(ss, es, i);
    published, taken := ss[m].written, ss[i].consumed;
    RunCounts(ss, es, i, c);
    RunCounts(ss, es, m, c);
  }

  /** How much a trim drops: all but `keep` of what was published when it loaded the head, and not yet taken. */
  lemma TrimLeavesKeep(ss: seq<State>, es: seq<Event>, i: nat, c: nat)
    returns (j: nat, m: nat, published: nat, taken: nat)
    requires Run(ss, es) && i < |es| && es[i].Trimmed? && c < ss[0].Channels()
    ensures j < m < i && ReaderCalledAt(ss, es, j, i) && HeadLoadedAt(ss, es, m, i) && es[j].TrimCall?
    ensures published == |Input(es[..m], c)| && taken == Taken(es[..i])
    ensures published - taken - es[i].drop == es[j].keep
  {
    TrimAt(ss, es, i);
    j := ReaderWasCalled(ss, es, i);
    m := HeadWasLoaded(ss, es, i);
    published, taken := ss[m].written, ss[i].consumed;
    RunCounts(ss, es, i, c);
    RunCounts(ss, es, m, c);
  }

  /**
   How much a write publishes: called at step j, of its own planes, as many samples as were
   asked for, at most the mask, and fit beside those published and not taken when the call
   loaded the tail, at step m.
   */
  lemma WriteFillsRoom(ss: seq<State>, es: seq<Event>, i: nat, c: nat)
    returns (j: nat, m: nat, published: nat, taken: nat)
    requires Run(ss, es) && i < |es| && es[i].Published? && c < ss[0].Channels()
    ensures j < m < i && WriterCalledAt(ss, es, j, i) && TailLoadedAt(ss, es, m, i)
    ensures es[i].planes == es[j].src
    ensures published == |Input(es[..i], c)| && taken == Taken(es[..m])
    ensures es[i].w == Min(Min(es[j].n, ss[0].cap - 1), ss[0].cap - 1 - (published - taken))
  {
    PublicationAt(ss, es, i);
    j := WriterWasCalled(ss, es, i);
    m := TailWasLoaded(ss, es, i);
    published, taken := ss[i].written, ss[m].consumed;
    RunCounts(ss, es, i, c);
    RunCounts(ss, es, m, c);
  }

  /** A write that ends at step i without publishing found the ring full when it loaded the tail, at step m. */
  lemma EmptyHandedWrite(ss: seq<State>, es: seq<Event>, i: nat, c: nat)
    returns (j: nat, m: nat, published: nat, taken: nat)
    requires Run(ss, es) && i < |es| && !ss[i].p.PIdle? && ss[i + 1].p.PIdle? && !es[i].Published? && c < ss[0].Channels()
    ensures j < m < i && WriterCalledAt(ss, es, j, i) && TailLoadedAt(ss, es, m, i)
    ensures published == |Input(es[..i], c)| && taken == Taken(es[..m])
    ensures es[j].n > 0 && published - taken == ss[0].cap - 1
  {
    InvHolds(ss, es, i);
    GaveUp(ss[i], es[i], ss[i + 1]);
    j := WriterWasCalled(ss, es, i);
    m := TailWasLoaded(ss, es, i);
    published, taken := ss[i].written, ss[m].consumed;
    RunCounts(ss, es, i, c);
    RunCounts(ss, es, m, c);
  }

  lemma GaveUp(s: State, e: Event, s': State)
    requires Inv(s) && Next(s, e, s') && !s.p.PIdle? && s'.p.PIdle? && !e.Published?
    ensures s.p.PAccount? && s.p.n > 0 && s.written - s.p.seen == s.cap - 1
  {
  }

  // ----- calls that nothing interrupts -----------------------------------------------

  /** Before and after step i, the queues, and the step between them. */
  lemma QueueStep(ss: seq<State>, es: seq<Event>, i: nat, c: nat)
    requires Run(ss, es) && i < |es| && c < ss[0].Channels()
    ensures Inv(ss[i]) && Inv(ss[i + 1]) && ss[i].Channels() == ss[i + 1].Channels() == ss[0].Channels()
    ensures |Queue(ss[i])[c]| == ss[i].written - ss[i].consumed
    ensures FifoStep(Queue(ss[i]), es[i], Queue(ss[i + 1]))
  {
    InvHolds(ss, es, i);
    InvHolds(ss, es, i + 1);
    StepRefinesFifo(ss[i], es[i], ss[i + 1]);
  }

  /** Channel c's queue before and after step i of a run. */
  ghost predicate QueuesAt(ss: seq<State>, es: seq<Event>, i: nat, c: nat, q: seq<Sample>, q': seq<Sample>)
  {
    && Run(ss, es) && i < |es| && Inv(ss[i]) && Inv(ss[i + 1])
    && c < ss[0].Channels() && c < |Queue(ss[i])| == |Queue(ss[i + 1])|
    && q == Queue(ss[i])[c] && q' == Queue(ss[i + 1])[c]
  }

  /** A read during which nothing is published serves the queue as it stands: the contract of the ring's own call. */
  lemma UninterruptedRead(ss: seq<State>, es: seq<Event>, i: nat, c: nat, j: nat, m: nat, q: seq<Sample>, q': seq<Sample>)
    requires QueuesAt(ss, es, i, c, q, q') && es[i].Delivered?
    requires ReaderCalledAt(ss, es, j, i) && HeadLoadedAt(ss, es, m, i) && ss[m].written == ss[i].written
    ensures AnswersRead(es[j], es[i], ss[0].Channels())
    ensures es[i].got == Min(es[j].count, |q|) && q' == q[es[i].got..]
    ensures c < es[j].channels ==> es[i].out[c] == q[..es[i].got] + Zeros(es[j].count - es[i].got)
  {
    DeliveryAt(ss, es, i);
    QueueStep(ss, es, i, c);
  }

  /** A write during which nothing is taken adds to the queue what fits beside it: the contract of the ring's own call. */
  lemma UninterruptedWrite(ss: seq<State>, es: seq<Event>, i: nat, c: nat, j: nat, m: nat, q: seq<Sample>, q': seq<Sample>)
    requires QueuesAt(ss, es, i, c, q, q') && es[i].Published?
    requires WriterCalledAt(ss, es, j, i) && TailLoadedAt(ss, es, m, i) && ss[m].consumed == ss[i].consumed
    ensures es[i].planes == es[j].src && c < |es[j].src|
    ensures es[i].w == Min(Min(es[j].n, ss[0].cap - 1), ss[0].cap - 1 - |q|) <= |es[j].src[c]|
    ensures q' == q + es[j].src[c][..es[i].w]
  {
    PublicationAt(ss, es, i);
    ChannelsKept(ss, es, i);
    QueueStep(ss, es, i, c);
  }

  /** A trim during which nothing is published leaves the newest `keep` of the queue: the contract of the ring's own call. */
  lemma UninterruptedTrim(ss: seq<State>, es: seq<Event>, i: nat, c: nat, j: nat, m: nat, q: seq<Sample>, q': seq<Sample>)
    requires QueuesAt(ss, es, i, c, q, q') && es[i].Trimmed?
    requires ReaderCalledAt(ss, es, j, i) && HeadLoadedAt(ss, es, m, i) && ss[m].written == ss[i].written
    ensures es[j].TrimCall? && es[i].drop == |q| - es[j].keep >= 0
    ensures q' == q[es[i].drop..]
  {
    TrimAt(ss, es, i);
    QueueStep(ss, es, i, c);
  }

  // ----- everything delivered -----------------------------------------------------------

  /** Everything read from channel c, end to end, without padding. */
  function Output(es: seq<Event>, c: nat): seq<Sample>
  {
    if es == [] then [] else Output(es[..|es| - 1], c) + Handed(es[|es| - 1], c)
  }

  function Handed(e: Event, c: nat): seq<Sample>
  {
    if e.Delivered? && c < |e.out| && e.got <= |e.out[c]| then e.out[c][..e.got] else []
  }

  /** Every read asks for channel c, and nothing is trimmed. */
  ghost predicate ReadsAll(es: seq<Event>, c: nat)
  {
    forall i :: 0 <= i < |es| ==> !es[i].Trimmed? && (es[i].Delivered? ==> c < |es[i].out|)
  }

  /** With no trim the reads of a channel, in every interleaving, deliver its published samples from the first on, in order. */
  lemma {:induction false} OutputIsInput(ss: seq<State>, es: seq<Event>, c: nat)
    requires Run(ss, es) && ReadsAll(es, c) && c < ss[0].Channels()
    ensures Taken(es) <= |Input(es, c)| && Output(es, c) == Input(es, c)[..Taken(es)]
  {
    if es != [] {
      var n := |es| - 1;
      OutputIsInput(ss[..n + 1], es[..n], c);
      if es[n].Delivered? { ReadsAreFifo(ss, es, n, c); }
      OutputStep(es, c, Input(es[..n], c), Taken(es[..n]));
    }
  }

  lemma OutputStep(es: seq<Event>, c: nat, before: seq<Sample>, lo: nat)
    requires es != [] && before == Input(es[..|es| - 1], c) && lo == Taken(es[..|es| - 1]) <= |before|
    requires Output(es[..|es| - 1], c) == before[..lo]
    requires var e := es[|es| - 1];
             && !e.Trimmed?
             && (e.Delivered? ==> c < |e.out| && e.got <= |e.out[c]| && lo + e.got <= |before|
                                  && e.out[c] == before[lo..lo + e.got] + Zeros(|e.out[c]| - e.got))
    ensures Taken(es) <= |Input(es, c)| && Output(es, c) == Input(es, c)[..Taken(es)]
  {
    LastEvent(es, c);
    EventOutput(es[|es| - 1], c, before, lo);
  }

  lemma EventOutput(e: Event, c: nat, before: seq<Sample>, lo: nat)
    requires lo <= |before| && !e.Trimmed?
    requires e.Delivered? ==> c < |e.out| && e.got <= |e.out[c]| && lo + e.got <= |before|
                              && e.out[c] == before[lo..lo + e.got] + Zeros(|e.out[c]| - e.got)
    ensures lo + Removed(e) <= |before + Added(e, c)|
    ensures before[..lo] + Handed(e, c) == (before + Added(e, c))[..lo + Removed(e)]
  {
    var added, handed := Added(e, c), Handed(e, c);
    if e.Delivered? {
      HandsOver(e.out[c], before, lo, e.got);
      Extends(before, lo, e.got, handed, added);
    } else {
      Extends(before, lo, 0, handed, added);
    }
  }

  lemma LastEvent(es: seq<Event>, c: nat)
    requires es != []
    ensures var n := |es| - 1;
            && Input(es, c) == Input(es[..n], c) + Added(es[n], c)
            && Output(es, c) == Output(es[..n], c) + Handed(es[n], c)
            && Taken(es) == Taken(es[..n]) + Removed(es[n])
  {
  }

  lemma Extends(all: seq<Sample>, lo: nat, got: nat, handed: seq<Sample>, added: seq<Sample>)
    requires lo + got <= |all| && handed == all[lo..lo + got]
    ensures all[..lo] + handed == (all + added)[..lo + got]
  {
  }

  lemma HandsOver(out: seq<Sample>, all: seq<Sample>, lo: nat, got: nat)
    requires lo + got <= |all| && got <= |out| && out == all[lo..lo + got] + Zeros(|out| - got)
    ensures out[..got] == all[lo..lo + got]
  {
  }
}
