/** The playback node: graph quanta staged into 12-sample frames (`on_process` of pipewire/src/reac_sink_node.c). */
module SinkNode {
  import opened Words
  import opened Reac
  import T = ReacTx

  /** One time sample of every channel. */
  type Column = seq<Sample>

  /** A port's buffer for this quantum; an unlinked port has none. */
  type Ports = seq<Option<seq<Sample>>>

  predicate AnyLinked(ports: Ports)
  {
    exists c :: 0 <= c < |ports| && ports[c].Some?
  }

  ghost predicate Supplied(ports: Ports, n: nat)
  {
    forall c :: 0 <= c < |ports| && ports[c].Some? ==> |ports[c].value| >= n
  }

  /** Time sample s across the ports; unlinked ports are silent. */
  function ColumnAt(ports: Ports, n: nat, s: nat): (col: Column)
    requires Supplied(ports, n) && s < n
    ensures |col| == |ports|
  {
    seq(|ports|, c requires 0 <= c < |ports| => if ports[c].Some? then ports[c].value[s] else 0.0)
  }

  /** The first k columns of a quantum. */
  function Columns(ports: Ports, n: nat, k: nat): (cols: seq<Column>)
    requires Supplied(ports, n) && k <= n
    ensures |cols| == k && AllWide(cols, |ports|)
  {
    seq(k, s requires 0 <= s < k => ColumnAt(ports, n, s))
  }

  /** Channel c of the columns is port c's buffer, and silence where that port is not linked. */
  lemma ColumnsArePorts(ports: Ports, n: nat, c: nat, s: nat)
    requires Supplied(ports, n) && c < |ports| && s < n
    ensures ports[c].Some? ==> Columns(ports, n, n)[s][c] == ports[c].value[s]
    ensures ports[c].None? ==> Columns(ports, n, n)[s][c] == 0.0
  {
  }

  ghost predicate AllWide(cols: seq<Column>, nch: nat)
  {
    forall s :: 0 <= s < |cols| ==> |cols[s]| == nch
  }

  // ----- specification --------------------------------------------------------

  /** Columns waiting for their frame, and the frame counter. */
  datatype Sink = Sink(staged: seq<Column>, counter: u16)

  ghost predicate SinkOk(nch: nat, st: Sink)
  {
    nch <= MAX_CHANNELS && |st.staged| < SAMPLES_PER_PKT && AllWide(st.staged, nch)
  }

  /** A full group of columns, turned into planes. */
  function GroupPlanes(nch: nat, group: seq<Column>): (p: T.Planes)
    requires |group| == SAMPLES_PER_PKT && AllWide(group, nch)
    ensures T.SuppliesTx(p, nch, SAMPLES_PER_PKT) && |p| == nch
    ensures forall c :: 0 <= c < nch ==> p[c].Some? && |p[c].value| == SAMPLES_PER_PKT
    ensures forall c, s :: 0 <= c < nch && 0 <= s < SAMPLES_PER_PKT ==> p[c].value[s] == group[s][c]
  {
    seq(nch, c requires 0 <= c < nch && |group| == SAMPLES_PER_PKT && AllWide(group, nch) =>
      Some(seq(SAMPLES_PER_PKT, s requires 0 <= s < SAMPLES_PER_PKT => group[s][c])))
  }

  /** The frame of a full group. */
  ghost function GroupFrame(nch: nat, src: Bytes, group: seq<Column>, counter: u16): Bytes
    requires |src| == 6 && |group| == SAMPLES_PER_PKT && AllWide(group, nch)
  {
    T.TxFrame(GroupPlanes(nch, group), nch, SAMPLES_PER_PKT, counter, src)
  }

  /** One column more: it waits, or completes a frame. */
  ghost function StageOne(nch: nat, src: Bytes, st: Sink, col: Column): (r: (Sink, seq<Bytes>))
    requires |src| == 6 && SinkOk(nch, st) && |col| == nch
    ensures SinkOk(nch, r.0)
  {
    var group := st.staged + [col];
    if |group| < SAMPLES_PER_PKT then (st.(staged := group), [])
    else (Sink([], (st.counter + 1) % U16), [GroupFrame(nch, src, group, st.counter)])
  }

  ghost function StageAll(nch: nat, src: Bytes, st: Sink, cols: seq<Column>): (r: (Sink, seq<Bytes>))
    requires |src| == 6 && SinkOk(nch, st) && AllWide(cols, nch)
    ensures SinkOk(nch, r.0)
  {
    if cols == [] then (st, [])
    else
      var n := |cols| - 1;
      var (st', out) := StageAll(nch, src, st, cols[..n]);
      var (st'', more) := StageOne(nch, src, st', cols[n]);
      (st'', out + more)
  }

  // ----- the node -------------------------------------------------------------

  class ReacSinkNode {
    const tx: T.ReacTx
    const txOpen: bool
    const channels: nat
    const stage: array2<Sample>
    var staged: nat

    ghost predicate Shape()
    {
      && |tx.src| == 6 && channels <= MAX_CHANNELS
      && stage.Length0 == MAX_CHANNELS && stage.Length1 == SAMPLES_PER_PKT
    }

    ghost predicate Valid()
      reads this
    {
      Shape() && staged < SAMPLES_PER_PKT
    }

    /** Column s of the stage. */
    ghost function StageColumn(s: nat): (col: Column)
      requires Shape() && s < SAMPLES_PER_PKT
      reads stage
      ensures |col| == channels
    {
      seq(channels, c requires 0 <= c < channels reads stage requires Shape() => stage[c, s])
    }

    ghost function StageColumns(n: nat): (cols: seq<Column>)
      requires Shape() && n <= SAMPLES_PER_PKT
      reads stage
      ensures |cols| == n && AllWide(cols, channels)
    {
      seq(n, s requires 0 <= s < n reads stage requires Shape() => StageColumn(s))
    }

    ghost function State(): Sink
      requires Valid()
      reads this, stage, tx
    {
      Sink(StageColumns(staged), tx.counter)
    }

    constructor (tx: T.ReacTx, open: bool, channels: nat)
      requires |tx.src| == 6
      ensures Valid() && fresh(stage) && this.tx == tx && txOpen == open
      ensures this.channels == Min(channels, MAX_CHANNELS)
      ensures State() == Sink([], tx.counter)
    {
      this.tx, txOpen := tx, open;
      this.channels := if channels > MAX_CHANNELS then MAX_CHANNELS else channels;
      stage := new Sample[MAX_CHANNELS, SAMPLES_PER_PKT]((_, _) => 0.0);
      staged := 0;
    }

    /** Time sample s of every port into the open column of the stage. */
    method StageSample(ports: Ports, n: nat, s: nat)
      requires Valid() && |ports| == channels && Supplied(ports, n) && s < n
      modifies stage
      ensures StageColumns(staged + 1) == old(StageColumns(staged)) + [ColumnAt(ports, n, s)]
    {
      for c := 0 to channels
        invariant forall i, j :: 0 <= i < MAX_CHANNELS && 0 <= j < SAMPLES_PER_PKT && j != staged ==> stage[i, j] == old(stage[i, j])
        invariant forall i :: 0 <= i < c ==> stage[i, staged] == ColumnAt(ports, n, s)[i]
      {
        stage[c, staged] := if ports[c].Some? then ports[c].value[s] else 0.0;
      }
      assert StageColumn(staged) == ColumnAt(ports, n, s);
      forall j | 0 <= j < staged ensures StageColumn(j) == old(StageColumn(j)) {
      }
    }

    /** The stage, full, goes out as a frame. */
    method EmitStage() returns (frame: Bytes)
      requires Shape()
      modifies tx
      ensures frame == GroupFrame(channels, tx.src, StageColumns(SAMPLES_PER_PKT), old(tx.counter))
      ensures tx.counter == (old(tx.counter) + 1) % U16
    {
      var planar: T.Planes := [];
      ghost var group := StageColumns(SAMPLES_PER_PKT);
      for c := 0 to channels
        invariant |planar| == c
        invariant forall i :: 0 <= i < c ==> planar[i] == GroupPlanes(channels, group)[i]
      {
        var plane := seq(SAMPLES_PER_PKT, s requires 0 <= s < SAMPLES_PER_PKT && Shape() && c < channels reads this, stage => stage[c, s]);
        assert forall s :: 0 <= s < SAMPLES_PER_PKT ==> plane[s] == group[s][c];
        assert plane == GroupPlanes(channels, group)[c].value;
        planar := planar + [Some(plane)];
      }
      assert planar == GroupPlanes(channels, group);
      frame := tx.Emit(planar, channels, SAMPLES_PER_PKT);
    }

    /** One time sample: staged, and the frame sent when it is the twelfth. */
    method Accumulate(ports: Ports, n: nat, s: nat) returns (frames: seq<Bytes>)
      requires Valid() && |ports| == channels && Supplied(ports, n) && s < n
      modifies `staged, stage, tx
      ensures Valid()
      ensures (State(), frames) == StageOne(channels, tx.src, old(State()), ColumnAt(ports, n, s))
    {
      ghost var st := State();
      StageSample(ports, n, s);
      staged := staged + 1;
      assert StageColumns(staged) == st.staged + [ColumnAt(ports, n, s)];
      frames := [];
      if staged == SAMPLES_PER_PKT {
        var frame := EmitStage();
        frames := [frame];
        staged := 0;
        assert State() == Sink([], (st.counter + 1) % U16);
      } else {
        assert State() == Sink(st.staged + [ColumnAt(ports, n, s)], st.counter);
      }
    }

    /** One graph cycle: the frames sent. With no socket, or no port linked, nothing is taken. */
    method OnProcess(n: nat, ports: Ports) returns (frames: seq<Bytes>)
      requires Valid() && |ports| == channels && Supplied(ports, n)
      modifies this, stage, tx
      ensures Valid()
      ensures (State(), frames) == if txOpen && AnyLinked(ports) then StageAll(channels, tx.src, old(State()), Columns(ports, n, n))
                                   else (old(State()), [])
    {
      frames := [];
      if !txOpen {
        return;
      }
      var have := CountLinked(ports);
      if have == 0 {
        return;
      }
      for s := 0 to n
        invariant Valid()
        invariant (State(), frames) == StageAll(channels, tx.src, old(State()), Columns(ports, n, s))
      {
        var more := Accumulate(ports, n, s);
        frames := frames + more;
        assert Columns(ports, n, s + 1)[..s] == Columns(ports, n, s);
      }
    }
  }

  method CountLinked(ports: Ports) returns (have: nat)
    ensures have > 0 <==> AnyLinked(ports)
  {
    have := 0;
    for c := 0 to |ports|
      invariant have > 0 <==> AnyLinked(ports[..c])
    {
      if ports[c].Some? {
        assert ports[..c + 1][c].Some?;
        have := have + 1;
      } else {
        assert forall i :: 0 <= i < c ==> ports[..c + 1][i] == ports[..c][i];
      }
    }
    assert ports[..|ports|] == ports;
  }

  // ----- runs -----------------------------------------------------------------

  /** Group m of the columns fed. */
  ghost function Group(cols: seq<Column>, m: nat): (g: seq<Column>)
    requires 12 * m + 12 <= |cols|
    ensures |g| == SAMPLES_PER_PKT
  {
    cols[12 * m..12 * m + 12]
  }

  /**
   Staging over any run: frame m carries the m-th twelve columns and counter m, and
   what does not fill a frame waits.
   */
  lemma {:induction false} StagedInTwelves(nch: nat, src: Bytes, cols: seq<Column>)
    requires |src| == 6 && nch <= MAX_CHANNELS && AllWide(cols, nch)
    ensures var (st, out) := StageAll(nch, src, Sink([], 0), cols);
            && st == Sink(cols[12 * (|cols| / 12)..], |cols| / 12 % U16)
            && |out| == |cols| / 12
            && forall m :: 0 <= m < |out| ==> out[m] == GroupFrame(nch, src, Group(cols, m), m % U16)
  {
    if cols != [] {
      var n := |cols| - 1;
      StagedInTwelves(nch, src, cols[..n]);
      var (st, out) := StageAll(nch, src, Sink([], 0), cols[..n]);
      StagedStep(nch, src, cols, st, out);
    }
  }

  lemma StagedStep(nch: nat, src: Bytes, cols: seq<Column>, st: Sink, out: seq<Bytes>)
    requires |src| == 6 && nch <= MAX_CHANNELS && AllWide(cols, nch) && cols != []
    requires var before := cols[..|cols| - 1]; var w := |before| / 12;
             && AllWide(before, nch)
             && st == Sink(before[12 * w..], w % U16) && |out| == w
             && forall m :: 0 <= m < w ==> out[m] == GroupFrame(nch, src, Group(before, m), m % U16)
    ensures var (st', more) := StageOne(nch, src, st, cols[|cols| - 1]); var w' := |cols| / 12;
            && st' == Sink(cols[12 * w'..], w' % U16) && |out + more| == w'
            && forall m :: 0 <= m < w' ==> (out + more)[m] == GroupFrame(nch, src, Group(cols, m), m % U16)
  {
    var n := |cols| - 1;
    var w := n / 12;
    Twelves(n);
    assert st.staged + [cols[n]] == cols[12 * w..];
    forall m | 0 <= m < w ensures Group(cols[..n], m) == Group(cols, m) {
    }
    if n + 1 == 12 * w + 12 {
      assert cols[12 * w..] == Group(cols, w);
      assert cols[12 * (w + 1)..] == [];
      ModAdd(w, 1, U16);
    }
  }

  lemma Twelves(n: nat)
    ensures 12 * (n / 12) <= n < 12 * (n / 12) + 12
    ensures (n + 1) / 12 == if n + 1 == 12 * (n / 12) + 12 then n / 12 + 1 else n / 12
  {
  }
}
