/** What a call of `pcap_source_next` does to a file, on values, and when it ends (src/pcap_source.c). */
module PcapLoop {
  import opened Words
  import opened Reac

  // ----- words ----------------------------------------------------------------

  /** `rd_u32` */
  function Rd32(b: Bytes, swap: bool): u32
    requires |b| == 4
  {
    if swap then 0x100_0000 * b[0] as int + 0x1_0000 * b[1] as int + 0x100 * b[2] as int + b[3] as int
    else b[0] as int + 0x100 * b[1] as int + 0x1_0000 * b[2] as int + 0x100_0000 * b[3] as int
  }

  /** A word in the byte order of a capture file: little-endian, or swapped. */
  function Wr32(x: u32, swap: bool): (b: Bytes)
    ensures |b| == 4
  {
    var b0, b1, b2, b3 := x % 0x100, x / 0x100 % 0x100, x / 0x1_0000 % 0x100, x / 0x100_0000 % 0x100;
    if swap then [b3, b2, b1, b0] else [b0, b1, b2, b3]
  }

  lemma WordRoundTrip(x: u32, swap: bool)
    ensures Rd32(Wr32(x, swap), swap) == x
  {
    FourBytes(x);
  }

  const MAGIC: u32 := 0xA1B2_C3D4
  const MAGIC_SWAP: u32 := 0xD4C3_B2A1

  /** The first four bytes of a file in either byte order. */
  lemma MagicBytes(b: Bytes)
    requires |b| == 4
    ensures Rd32(b, false) == MAGIC <==> b == [0xD4, 0xC3, 0xB2, 0xA1]
    ensures Rd32(b, false) == MAGIC_SWAP <==> b == [0xA1, 0xB2, 0xC3, 0xD4]
  {
  }

  // ----- one call, on values ----------------------------------------------------

  /** What a call of `pcap_source_next` comes to, and where it leaves the file. */
  datatype Outcome =
    | Eof(pos: nat)
    | Failed(pos: nat, partial: Bytes)
    | Record(pos: nat, frame: Bytes, tsUsec: u64)

  function Result(o: Outcome): int
  {
    match o case Eof(_) => 0 case Failed(_, _) => -1 case Record(_, frame, _) => |frame|
  }

  function HeaderWord(data: Bytes, pos: nat, k: nat, swap: bool): u32
    requires pos + 16 <= |data| && k < 4
  {
    Rd32(data[pos + 4 * k..pos + 4 * k + 4], swap)
  }

  function TsUsec(data: Bytes, pos: nat, swap: bool): u64
    requires pos + 16 <= |data|
  {
    HeaderWord(data, pos, 0, swap) * 1_000_000 + HeaderWord(data, pos, 1, swap)
  }

  /** The record that starts at pos, once it is known to fit the caller's buffer. */
  function ReadBody(data: Bytes, pos: nat, swap: bool): Outcome
    requires pos + 16 <= |data|
  {
    var incl := HeaderWord(data, pos, 2, swap);
    if pos + 16 + incl > |data| then Failed(|data|, data[pos + 16..])
    else Record(pos + 16 + incl, data[pos + 16..pos + 16 + incl], TsUsec(data, pos, swap))
  }

  /** The next record no larger than cap; seeking past the end is no error, and reads as the end of the file. */
  function ReadNext(data: Bytes, pos: nat, swap: bool, cap: nat): Outcome
    decreases if pos < |data| then |data| - pos else 0
  {
    if pos >= |data| then Eof(pos)
    else if pos + 16 > |data| then Failed(|data|, [])
    else
      var incl := HeaderWord(data, pos, 2, swap);
      if incl > cap then ReadNext(data, pos + 16 + incl, swap, cap)
      else ReadBody(data, pos, swap)
  }

  lemma {:induction false} RecordFits(data: Bytes, pos: nat, swap: bool, cap: nat)
    ensures var o := ReadNext(data, pos, swap, cap); o.Record? ==> |o.frame| <= cap && pos + 16 <= o.pos <= |data|
    decreases if pos < |data| then |data| - pos else 0
  {
    if pos + 16 <= |data| {
      var incl := HeaderWord(data, pos, 2, swap);
      if incl > cap { RecordFits(data, pos + 16 + incl, swap, cap); }
    }
  }

  // ----- the skip loop, by the width of `long` ------------------------------------

  /** `(long)incl`: where `long` has 32 bits, lengths from 2^31 up turn negative. */
  function AsLong(incl: u32, wide: bool): int
  {
    if wide || incl < 0x8000_0000 then incl else incl - U32
  }

  /** One turn of the loop: the call is over, or the loop goes on at another place. */
  datatype Turn = Over(o: Outcome) | Onward(next: nat)

  /** Seeking before the start of the file fails; seeking back inside it does not. */
  function TurnAt(data: Bytes, pos: nat, swap: bool, cap: nat, wide: bool): Turn
  {
    if pos >= |data| then Over(Eof(pos))
    else if pos + 16 > |data| then Over(Failed(|data|, []))
    else
      var incl := HeaderWord(data, pos, 2, swap);
      var next := pos + 16 + AsLong(incl, wide);
      if incl <= cap then Over(ReadBody(data, pos, swap))
      else if next < 0 then Over(Failed(pos + 16, []))
      else Onward(next)
  }

  /** What the call comes to, if it does within so many turns. */
  function Within(data: Bytes, pos: nat, swap: bool, cap: nat, wide: bool, turns: nat): Option<Outcome>
    decreases turns
  {
    if turns == 0 then None
    else
      match TurnAt(data, pos, swap, cap, wide)
      case Over(o) => Some(o)
      case Onward(next) => Within(data, next, swap, cap, wide, turns - 1)
  }

  ghost predicate Ends(data: Bytes, pos: nat, swap: bool, cap: nat, wide: bool)
  {
    exists turns: nat :: Within(data, pos, swap, cap, wide, turns).Some?
  }

  /** What a call that ends comes to. */
  ghost function Comes(data: Bytes, pos: nat, swap: bool, cap: nat, wide: bool): Outcome
    requires Ends(data, pos, swap, cap, wide)
  {
    var turns: nat :| Within(data, pos, swap, cap, wide, turns).Some?;
    Within(data, pos, swap, cap, wide, turns).value
  }

  lemma {:induction false} WithinAgrees(data: Bytes, pos: nat, swap: bool, cap: nat, wide: bool, m: nat, n: nat)
    requires Within(data, pos, swap, cap, wide, m).Some? && Within(data, pos, swap, cap, wide, n).Some?
    ensures Within(data, pos, swap, cap, wide, m) == Within(data, pos, swap, cap, wide, n)
    decreases m
  {
    var turn := TurnAt(data, pos, swap, cap, wide);
    if turn.Onward? { WithinAgrees(data, turn.next, swap, cap, wide, m - 1, n - 1); }
  }

  lemma ComesTo(data: Bytes, pos: nat, swap: bool, cap: nat, wide: bool, turns: nat, o: Outcome)
    requires Within(data, pos, swap, cap, wide, turns) == Some(o)
    ensures Ends(data, pos, swap, cap, wide) && Comes(data, pos, swap, cap, wide) == o
  {
    var n: nat :| Within(data, pos, swap, cap, wide, n).Some? && Comes(data, pos, swap, cap, wide) == Within(data, pos, swap, cap, wide, n).value;
    WithinAgrees(data, pos, swap, cap, wide, turns, n);
  }

  /** Every oversized header the loop passes over from here has a length that fits 31 bits. */
  predicate SmallSkips(data: Bytes, pos: nat, swap: bool, cap: nat)
    decreases if pos < |data| then |data| - pos else 0
  {
    pos + 16 <= |data| && HeaderWord(data, pos, 2, swap) > cap ==>
      && HeaderWord(data, pos, 2, swap) < 0x8000_0000
      && SmallSkips(data, pos + 16 + HeaderWord(data, pos, 2, swap), swap, cap)
  }

  /** With a 64-bit `long`, or with lengths below 2^31, every turn moves on and the call ends. */
  lemma {:induction false} ForwardEnds(data: Bytes, pos: nat, swap: bool, cap: nat, wide: bool) returns (turns: nat)
    requires wide || SmallSkips(data, pos, swap, cap)
    ensures Within(data, pos, swap, cap, wide, turns) == Some(ReadNext(data, pos, swap, cap))
    ensures Ends(data, pos, swap, cap, wide) && Comes(data, pos, swap, cap, wide) == ReadNext(data, pos, swap, cap)
    decreases if pos < |data| then |data| - pos else 0
  {
    if pos + 16 <= |data| && HeaderWord(data, pos, 2, swap) > cap {
      var next := pos + 16 + HeaderWord(data, pos, 2, swap);
      assert TurnAt(data, pos, swap, cap, wide) == Onward(next);
      turns := ForwardEnds(data, next, swap, cap, wide);
      turns := turns + 1;
    } else {
      turns := 1;
    }
    ComesTo(data, pos, swap, cap, wide, turns, ReadNext(data, pos, swap, cap));
  }

  /** Where the loop stands after so many turns, if it is still going. */
  function Visited(data: Bytes, pos: nat, swap: bool, cap: nat, wide: bool, turns: nat): Option<nat>
    decreases turns
  {
    if turns == 0 then Some(pos)
    else
      match TurnAt(data, pos, swap, cap, wide)
      case Over(_) => None
      case Onward(next) => Visited(data, next, swap, cap, wide, turns - 1)
  }

  lemma {:induction false} StillGoing(data: Bytes, pos: nat, swap: bool, cap: nat, wide: bool, turns: nat)
    ensures Within(data, pos, swap, cap, wide, turns).None? <==> Visited(data, pos, swap, cap, wide, turns).Some?
    decreases turns
  {
    if turns > 0 {
      var turn := TurnAt(data, pos, swap, cap, wide);
      if turn.Onward? { StillGoing(data, turn.next, swap, cap, wide, turns - 1); }
    }
  }

  /** Going on from where the loop stands after m turns. */
  lemma {:induction false} VisitedAdd(data: Bytes, pos: nat, swap: bool, cap: nat, wide: bool, m: nat, n: nat)
    requires Visited(data, pos, swap, cap, wide, m).Some?
    ensures Visited(data, pos, swap, cap, wide, m + n)
         == Visited(data, Visited(data, pos, swap, cap, wide, m).value, swap, cap, wide, n)
    decreases m
  {
    if m > 0 {
      var turn := TurnAt(data, pos, swap, cap, wide);
      VisitedAdd(data, turn.next, swap, cap, wide, m - 1, n);
    }
  }

  /** The loop comes back to a place it has been at. */
  ghost predicate Returns(data: Bytes, pos: nat, swap: bool, cap: nat, wide: bool, i: nat, j: nat)
  {
    i < j && Visited(data, pos, swap, cap, wide, j).Some?
    && Visited(data, pos, swap, cap, wide, i) == Visited(data, pos, swap, cap, wide, j)
  }

  /** A place visited twice is visited for ever. */
  lemma {:induction false} GoesRound(data: Bytes, pos: nat, swap: bool, cap: nat, wide: bool, period: nat, turns: nat)
    requires period > 0 && Visited(data, pos, swap, cap, wide, period) == Some(pos)
    ensures Within(data, pos, swap, cap, wide, turns).None?
    decreases turns
  {
    if turns <= period {
      EarlierVisit(data, pos, swap, cap, wide, turns, period);
      StillGoing(data, pos, swap, cap, wide, turns);
    } else {
      GoesRound(data, pos, swap, cap, wide, period, turns - period);
      StillGoing(data, pos, swap, cap, wide, turns - period);
      VisitedAdd(data, pos, swap, cap, wide, period, turns - period);
      StillGoing(data, pos, swap, cap, wide, turns);
    }
  }

  lemma {:induction false} EarlierVisit(data: Bytes, pos: nat, swap: bool, cap: nat, wide: bool, m: nat, n: nat)
    requires m <= n && Visited(data, pos, swap, cap, wide, n).Some?
    ensures Visited(data, pos, swap, cap, wide, m).Some?
    decreases m
  {
    if m > 0 {
      EarlierVisit(data, TurnAt(data, pos, swap, cap, wide).next, swap, cap, wide, m - 1, n - 1);
    }
  }

  lemma ReturnsNeverEnds(data: Bytes, pos: nat, swap: bool, cap: nat, wide: bool, i: nat, j: nat)
    requires Returns(data, pos, swap, cap, wide, i, j)
    ensures !Ends(data, pos, swap, cap, wide)
  {
    var here := Visited(data, pos, swap, cap, wide, i).value;
    VisitedAdd(data, pos, swap, cap, wide, i, j - i);
    forall turns: nat ensures Within(data, pos, swap, cap, wide, turns).None? {
      StillGoing(data, pos, swap, cap, wide, turns);
      if turns <= i {
        EarlierVisit(data, pos, swap, cap, wide, turns, j);
      } else {
        GoesRound(data, here, swap, cap, wide, j - i, turns - i);
        StillGoing(data, here, swap, cap, wide, turns - i);
        VisitedAdd(data, pos, swap, cap, wide, i, turns - i);
      }
    }
  }

  /** The places of the first n turns. */
  ghost function Places(data: Bytes, pos: nat, swap: bool, cap: nat, wide: bool, n: nat): (ps: seq<nat>)
    requires forall k :: 0 <= k < n ==> Visited(data, pos, swap, cap, wide, k).Some?
    ensures |ps| == n && forall k :: 0 <= k < n ==> Some(ps[k]) == Visited(data, pos, swap, cap, wide, k)
  {
    seq(n, k requires 0 <= k < n => Visited(data, pos, swap, cap, wide, k).value)
  }

  /** More places than there are numbers below the bound: two are the same. */
  lemma {:induction false} Pigeonhole(ps: seq<nat>, bound: nat) returns (i: nat, j: nat)
    requires |ps| > bound > 0 && forall k :: 0 <= k < |ps| ==> ps[k] < bound
    ensures i < j < |ps| && ps[i] == ps[j]
    decreases bound
  {
    var top := bound - 1;
    if top == 0 {
      i, j := 0, 1;
    } else if k :| 0 <= k < |ps| && ps[k] == top {
      if m :| 0 <= m < |ps| && m != k && ps[m] == top {
        i, j := if k < m then k else m, if k < m then m else k;
      } else {
        i, j := Pigeonhole(ps[..k] + ps[k + 1..], top);
        i, j := if i < k then i else i + 1, if j < k then j else j + 1;
      }
    } else {
      i, j := Pigeonhole(ps, top);
    }
  }

  lemma {:induction false} OngoingInside(data: Bytes, pos: nat, swap: bool, cap: nat, wide: bool, k: nat)
    requires Visited(data, pos, swap, cap, wide, k + 1).Some?
    ensures Visited(data, pos, swap, cap, wide, k).Some? && Visited(data, pos, swap, cap, wide, k).value < |data|
    decreases k
  {
    if k > 0 {
      OngoingInside(data, TurnAt(data, pos, swap, cap, wide).next, swap, cap, wide, k - 1);
    } else {
      assert Visited(data, pos, swap, cap, wide, 1).Some?;
      assert TurnAt(data, pos, swap, cap, wide).Onward?;
    }
  }

  /**
   When a call ends: exactly when its loop comes back to no place it has been at; and
   then it does within one turn for every byte of the file, and one more.
   */
  lemma EndsIffNoReturn(data: Bytes, pos: nat, swap: bool, cap: nat, wide: bool)
    ensures Ends(data, pos, swap, cap, wide) <==> forall i: nat, j: nat :: !Returns(data, pos, swap, cap, wide, i, j)
    ensures Ends(data, pos, swap, cap, wide) <==> Within(data, pos, swap, cap, wide, |data| + 1).Some?
  {
    var n := |data| + 1;
    if Within(data, pos, swap, cap, wide, n).None? {
      StillGoing(data, pos, swap, cap, wide, n);
      forall k | 0 <= k < n
        ensures Visited(data, pos, swap, cap, wide, k).Some? && Visited(data, pos, swap, cap, wide, k).value < |data|
      {
        EarlierVisit(data, pos, swap, cap, wide, k + 1, n);
        OngoingInside(data, pos, swap, cap, wide, k);
      }
      var i, j := Pigeonhole(Places(data, pos, swap, cap, wide, n), |data|);
      assert Returns(data, pos, swap, cap, wide, i, j);
      ReturnsNeverEnds(data, pos, swap, cap, wide, i, j);
    } else {
      forall i: nat, j: nat ensures !Returns(data, pos, swap, cap, wide, i, j) {
        if Returns(data, pos, swap, cap, wide, i, j) { ReturnsNeverEnds(data, pos, swap, cap, wide, i, j); }
      }
    }
  }

  /** A corrupt length of 2^32 - 16: a 32-bit `long` seeks back over the header just read, for ever. */
  lemma StuckHeader(data: Bytes, pos: nat, swap: bool, cap: nat)
    requires pos + 16 <= |data| && HeaderWord(data, pos, 2, swap) == 0xFFFF_FFF0 > cap
    ensures !Ends(data, pos, swap, cap, false) && Ends(data, pos, swap, cap, true)
  {
    assert TurnAt(data, pos, swap, cap, false) == Onward(pos);
    assert Visited(data, pos, swap, cap, false, 1) == Visited(data, pos, swap, cap, false, 0) == Some(pos);
    ReturnsNeverEnds(data, pos, swap, cap, false, 0, 1);
    var turns := ForwardEnds(data, pos, swap, cap, true);
  }
}
