/** Whole capture files, written and read back. */
module PcapFiles {
  import opened Words
  import opened PcapLoop

  /** A packet as a capture file holds it. */
  datatype Packet = Packet(sec: u32, usec: u32, orig: u32, body: Bytes)

  type PacketList = ps: seq<Packet> | forall k :: 0 <= k < |ps| ==> |ps[k].body| < 0x1_0000_0000 witness []

  function EncodePacket(p: Packet, swap: bool): (b: Bytes)
    requires |p.body| < 0x1_0000_0000
    ensures |b| == 16 + |p.body|
  {
    Wr32(p.sec, swap) + Wr32(p.usec, swap) + Wr32(|p.body|, swap) + Wr32(p.orig, swap) + p.body
  }

  function EncodePackets(ps: PacketList, swap: bool): Bytes
  {
    if ps == [] then [] else EncodePacket(ps[0], swap) + EncodePackets(ps[1..], swap)
  }

  /** A capture file: magic number, 20 more bytes of file header, packets. */
  function EncodeFile(ps: PacketList, rest: Bytes, swap: bool): (b: Bytes)
    requires |rest| == 20
    ensures |b| >= 24
  {
    Wr32(MAGIC, swap) + rest + EncodePackets(ps, swap)
  }

  /** A frame as the caller gets it. */
  datatype Got = Got(frame: Bytes, tsUsec: u64)

  function GotOf(p: Packet): Got
  {
    Got(p.body, p.sec * 1_000_000 + p.usec)
  }

  /** Calling `pcap_source_next` for as long as it returns a length: the frames, and the result that ends it. */
  function Drain(data: Bytes, pos: nat, swap: bool, cap: nat): (r: (seq<Got>, int))
    decreases if pos < |data| then |data| - pos else 0
  {
    RecordFits(data, pos, swap, cap);
    match ReadNext(data, pos, swap, cap)
    case Record(pos', frame, ts) =>
      if frame == [] then ([], 0)
      else
        var (more, ret) := Drain(data, pos', swap, cap);
        ([Got(frame, ts)] + more, ret)
    case o => ([], Result(o))
  }

  /**
   The packets a caller's loop sees: those that fit, in order, up to the first empty
   one, which reads as the end of the file.
   */
  function Seen(ps: PacketList, cap: nat): seq<Got>
  {
    if ps == [] then []
    else if |ps[0].body| > cap then Seen(ps[1..], cap)
    else if ps[0].body == [] then []
    else [GotOf(ps[0])] + Seen(ps[1..], cap)
  }

  lemma PartOf(pre: Bytes, a: Bytes, part: Bytes, b: Bytes, at: nat)
    requires at == |pre| + |a|
    ensures at + |part| <= |pre + (a + part + b)| && (pre + (a + part + b))[at..at + |part|] == part
  {
  }

  /** The three header words of an encoded packet in use, and its body, where they lie in the file. */
  lemma PacketParts(pre: Bytes, p: Packet, suffix: Bytes, swap: bool, data: Bytes, at: nat)
    requires |p.body| < 0x1_0000_0000 && at == |pre| && data == pre + (EncodePacket(p, swap) + suffix)
    ensures at + 16 + |p.body| <= |data|
    ensures data[at..at + 4] == Wr32(p.sec, swap)
    ensures data[at + 4..at + 8] == Wr32(p.usec, swap)
    ensures data[at + 8..at + 12] == Wr32(|p.body|, swap)
    ensures data[at + 16..at + 16 + |p.body|] == p.body
  {
    FiveParts(pre, Wr32(p.sec, swap), Wr32(p.usec, swap), Wr32(|p.body|, swap), Wr32(p.orig, swap), p.body, suffix, data, at);
  }

  lemma FiveParts(pre: Bytes, sec: Bytes, usec: Bytes, len: Bytes, orig: Bytes, body: Bytes, suffix: Bytes, data: Bytes, at: nat)
    requires |sec| == |usec| == |len| == |orig| == 4 && at == |pre|
    requires data == pre + (sec + usec + len + orig + body + suffix)
    ensures at + 16 + |body| <= |data|
    ensures data[at..at + 4] == sec && data[at + 4..at + 8] == usec && data[at + 8..at + 12] == len
    ensures data[at + 16..at + 16 + |body|] == body
  {
    var head := sec + usec + len + orig;
    Regroup(sec, usec, len, orig, body, suffix);
    PartOf(pre, [], sec, usec + len + orig + body + suffix, at);
    PartOf(pre, sec, usec, len + orig + body + suffix, at + 4);
    PartOf(pre, sec + usec, len, orig + body + suffix, at + 8);
    PartOf(pre, head, body, suffix, at + 16);
  }

  lemma Regroup(a: Bytes, b: Bytes, c: Bytes, d: Bytes, e: Bytes, f: Bytes)
    ensures var all := a + b + c + d + e + f;
            && all == [] + a + (b + c + d + e + f)
            && all == a + b + (c + d + e + f)
            && all == a + b + c + (d + e + f)
  {
  }

  /** What the header of an encoded packet reads back as. */
  lemma PacketHeader(pre: Bytes, p: Packet, suffix: Bytes, swap: bool, data: Bytes, at: nat)
    requires |p.body| < 0x1_0000_0000 && at == |pre| && data == pre + (EncodePacket(p, swap) + suffix)
    ensures at + 16 + |p.body| <= |data|
    ensures HeaderWord(data, at, 2, swap) == |p.body|
    ensures ReadBody(data, at, swap) == Record(at + 16 + |p.body|, p.body, GotOf(p).tsUsec)
  {
    PacketParts(pre, p, suffix, swap, data, at);
    WordRoundTrip(p.sec, swap);
    WordRoundTrip(p.usec, swap);
    WordRoundTrip(|p.body|, swap);
  }

  lemma DrainSkips(data: Bytes, pos: nat, swap: bool, cap: nat, next: nat)
    requires pos + 16 <= |data| && HeaderWord(data, pos, 2, swap) > cap && next == pos + 16 + HeaderWord(data, pos, 2, swap)
    ensures Drain(data, pos, swap, cap) == Drain(data, next, swap, cap)
  {
  }

  lemma DrainTakes(data: Bytes, pos: nat, swap: bool, cap: nat, frame: Bytes, ts: u64, next: nat)
    requires pos + 16 <= |data| && HeaderWord(data, pos, 2, swap) == |frame| <= cap
    requires ReadBody(data, pos, swap) == Record(next, frame, ts) && next > pos
    ensures frame == [] ==> Drain(data, pos, swap, cap) == ([], 0)
    ensures frame != [] ==>
              var (more, ret) := Drain(data, next, swap, cap);
              Drain(data, pos, swap, cap) == ([Got(frame, ts)] + more, ret)
  {
  }

  /** A packet stands at `at` in the file, and the rest of the file starts at `next`. */
  ghost predicate PacketAt(data: Bytes, at: nat, p: Packet, swap: bool, next: nat)
  {
    && |p.body| < 0x1_0000_0000 && next == at + 16 + |p.body| <= |data|
    && HeaderWord(data, at, 2, swap) == |p.body|
    && ReadBody(data, at, swap) == Record(next, p.body, GotOf(p).tsUsec)
  }

  /** One packet in front of what the caller's loop makes of the rest. */
  lemma FirstPacket(data: Bytes, at: nat, p: Packet, swap: bool, next: nat, cap: nat, more: seq<Got>, ret: int)
    requires PacketAt(data, at, p, swap, next) && Drain(data, next, swap, cap) == (more, ret)
    ensures |p.body| > cap ==> Drain(data, at, swap, cap) == (more, ret)
    ensures p.body == [] ==> Drain(data, at, swap, cap) == ([], 0)
    ensures 0 < |p.body| <= cap ==> Drain(data, at, swap, cap) == ([GotOf(p)] + more, ret)
  {
    if |p.body| > cap {
      DrainSkips(data, at, swap, cap, next);
    } else {
      DrainTakes(data, at, swap, cap, p.body, GotOf(p).tsUsec, next);
    }
  }

  /** The packets stand in the file from `at` on, and after them these bytes to its end. */
  ghost predicate PacketsFrom(data: Bytes, at: nat, ps: PacketList, swap: bool, tail: Bytes)
  {
    at <= |data| && data[at..] == EncodePackets(ps, swap) + tail
  }

  /** The first of the packets from `at` on, and where the rest of them start. */
  lemma SplitPackets(data: Bytes, at: nat, ps: PacketList, swap: bool, tail: Bytes) returns (next: nat)
    requires PacketsFrom(data, at, ps, swap, tail) && ps != []
    ensures PacketAt(data, at, ps[0], swap, next) && PacketsFrom(data, next, ps[1..], swap, tail)
  {
    var first, suffix := EncodePacket(ps[0], swap), EncodePackets(ps[1..], swap) + tail;
    next := Split(data, at, first, suffix) by {
      assert EncodePackets(ps, swap) + tail == first + suffix;
    }
    PacketHeader(data[..at], ps[0], suffix, swap, data, at);
  }

  lemma Split(data: Bytes, at: nat, first: Bytes, suffix: Bytes) returns (next: nat)
    requires at <= |data| && data[at..] == first + suffix
    ensures next == at + |first| <= |data| && data[next..] == suffix && data == data[..at] + (first + suffix)
  {
    next := at + |first|;
    assert data[next..] == data[at..][|first|..];
  }

  /** One of the packets is empty, and so reads as the end of the file. */
  predicate AnyEmpty(ps: PacketList)
  {
    exists k :: 0 <= k < |ps| && ps[k].body == []
  }

  lemma AnyEmptyStep(ps: PacketList)
    requires ps != []
    ensures AnyEmpty(ps) <==> ps[0].body == [] || AnyEmpty(ps[1..])
  {
    if AnyEmpty(ps) && ps[0].body != [] {
      var k :| 0 <= k < |ps| && ps[k].body == [];
      assert ps[1..][k - 1].body == [];
    }
  }

  /** Wherever the packets start, the caller's loop sees them, and then what comes of the bytes behind them. */
  lemma {:induction false} DrainsPackets(data: Bytes, at: nat, ps: PacketList, swap: bool, cap: nat, tail: Bytes, ret: int)
    requires PacketsFrom(data, at, ps, swap, tail) && Drain(data, |data| - |tail|, swap, cap) == ([], ret)
    ensures Drain(data, at, swap, cap) == (Seen(ps, cap), if AnyEmpty(ps) then 0 else ret)
    decreases |ps|
  {
    if ps == [] {
      assert |data[at..]| == |tail|;
    } else {
      var next := SplitPackets(data, at, ps, swap, tail);
      DrainsPackets(data, next, ps[1..], swap, cap, tail, ret);
      AnyEmptyStep(ps);
      FirstPacket(data, at, ps[0], swap, next, cap, Seen(ps[1..], cap), if AnyEmpty(ps[1..]) then 0 else ret);
    }
  }

  /** The file header tells the byte order, and the packets follow it. */
  lemma FileParts(data: Bytes, ps: PacketList, rest: Bytes, swap: bool, tail: Bytes)
    requires |rest| == 20 && data == EncodeFile(ps, rest, swap) + tail
    ensures |data| >= 24 && data[..4] == (if swap then [0xA1, 0xB2, 0xC3, 0xD4] else [0xD4, 0xC3, 0xB2, 0xA1])
    ensures PacketsFrom(data, 24, ps, swap, tail)
  {
    assert data[..4] == Wr32(MAGIC, swap);
    FileHeader(data, Wr32(MAGIC, swap), rest, EncodePackets(ps, swap), tail);
  }

  lemma FileHeader(data: Bytes, magic: Bytes, rest: Bytes, body: Bytes, tail: Bytes)
    requires |magic| == 4 && |rest| == 20 && data == magic + rest + body + tail
    ensures data[24..] == body + tail
  {
  }

  /**
   Reading a capture file of either byte order from the start: every packet that fits
   comes back whole, in order, with its timestamp; oversized ones are skipped; then the
   end of the file is reported, never an error.
   */
  lemma DrainsFile(ps: PacketList, rest: Bytes, swap: bool, cap: nat)
    requires |rest| == 20
    ensures var data := EncodeFile(ps, rest, swap);
            && data[..4] == (if swap then [0xA1, 0xB2, 0xC3, 0xD4] else [0xD4, 0xC3, 0xB2, 0xA1])
            && Drain(data, 24, swap, cap) == (Seen(ps, cap), 0)
  {
    var data := EncodeFile(ps, rest, swap);
    assert data == data + [];
    FileParts(data, ps, rest, swap, []);
    DrainsPackets(data, 24, ps, swap, cap, [], 0);
  }

  /** What a call makes of a record that the file ends inside of. */
  lemma CutRecord(data: Bytes, at: nat, p: Packet, swap: bool, cap: nat, part: Bytes)
    requires |p.body| < 0x1_0000_0000 && at < |data| && data[at..] == part
    requires |part| < 16 + |p.body| && part == EncodePacket(p, swap)[..|part|]
    ensures Drain(data, at, swap, cap) == ([], if |part| >= 16 && |p.body| > cap then 0 else -1)
  {
    assert |data[at..]| == |data| - at;
    if |part| >= 16 {
      CutLength(data, at, p, swap, part);
      var next := at + 16 + |p.body|;
      assert next > |data|;
      if |p.body| > cap {
        assert Drain(data, next, swap, cap) == ([], 0);
        DrainSkips(data, at, swap, cap, next);
      } else {
        assert ReadNext(data, at, swap, cap).Failed?;
      }
    } else {
      assert ReadNext(data, at, swap, cap).Failed?;
    }
  }

  /** The length a cut record's header still gives. */
  lemma CutLength(data: Bytes, at: nat, p: Packet, swap: bool, part: Bytes)
    requires |p.body| < 0x1_0000_0000 && at <= |data| && data[at..] == part
    requires 16 <= |part| < 16 + |p.body| && part == EncodePacket(p, swap)[..|part|]
    ensures HeaderWord(data, at, 2, swap) == |p.body|
  {
    var whole := EncodePacket(p, swap);
    PacketHeader([], p, [], swap, whole, 0) by { assert whole == [] + (whole + []); }
    assert data[at + 8..at + 12] == data[at..][8..12] == whole[8..12];
  }

  /**
   A capture cut off inside a record: the packets before it come back as from a whole file,
   and then the cut is an error, never the end of the file, unless an empty packet ended
   the loop before it, or the record was one to skip.
   */
  lemma DrainsCutFile(ps: PacketList, p: Packet, part: Bytes, rest: Bytes, swap: bool, cap: nat)
    requires |rest| == 20 && |p.body| < 0x1_0000_0000
    requires 0 < |part| < 16 + |p.body| && part == EncodePacket(p, swap)[..|part|]
    ensures var skipped := |part| >= 16 && |p.body| > cap;
            Drain(EncodeFile(ps, rest, swap) + part, 24, swap, cap) == (Seen(ps, cap), if AnyEmpty(ps) || skipped then 0 else -1)
  {
    var data := EncodeFile(ps, rest, swap) + part;
    var at := |data| - |part|;
    FileParts(data, ps, rest, swap, part);
    CutRecord(data, at, p, swap, cap, part);
    DrainsPackets(data, 24, ps, swap, cap, part, if |part| >= 16 && |p.body| > cap then 0 else -1);
  }

  lemma SkipsOn(data: Bytes, at: nat, p: Packet, swap: bool, next: nat, cap: nat)
    requires PacketAt(data, at, p, swap, next) && |p.body| < 0x8000_0000 && SmallSkips(data, next, swap, cap)
    ensures SmallSkips(data, at, swap, cap)
  {
  }

  lemma {:induction false} SmallPacketsSkip(data: Bytes, at: nat, ps: PacketList, swap: bool, cap: nat)
    requires PacketsFrom(data, at, ps, swap, []) && forall k :: 0 <= k < |ps| ==> |ps[k].body| < 0x8000_0000
    ensures SmallSkips(data, at, swap, cap)
    decreases |ps|
  {
    if ps != [] {
      var next := SplitPackets(data, at, ps, swap, []);
      SmallPacketsSkip(data, next, ps[1..], swap, cap);
      SkipsOn(data, at, ps[0], swap, next, cap);
    }
  }

  /**
   From any packet of a file whose packets stay below 2^31 bytes the call ends, and reads
   the same whatever the width of `long`.
   */
  lemma SmallPacketsRead(data: Bytes, at: nat, ps: PacketList, swap: bool, cap: nat, wide: bool)
    requires PacketsFrom(data, at, ps, swap, [])
    requires wide || forall k :: 0 <= k < |ps| ==> |ps[k].body| < 0x8000_0000
    ensures Ends(data, at, swap, cap, wide) && Comes(data, at, swap, cap, wide) == ReadNext(data, at, swap, cap)
  {
    if !wide { SmallPacketsSkip(data, at, ps, swap, cap); }
    var turns := ForwardEnds(data, at, swap, cap, wide);
  }

  // ----- empty packets -------------------------------------------------------------

  /** Every packet that has bytes and fits. */
  function Fitting(ps: PacketList, cap: nat): seq<Got>
  {
    if ps == [] then []
    else if 0 < |ps[0].body| <= cap then [GotOf(ps[0])] + Fitting(ps[1..], cap)
    else Fitting(ps[1..], cap)
  }

  /** An empty packet stands before one that has bytes and fits. */
  predicate EmptyBefore(ps: PacketList, cap: nat)
  {
    if ps == [] then false
    else if ps[0].body == [] then Fitting(ps[1..], cap) != []
    else EmptyBefore(ps[1..], cap)
  }

  /** The caller's loop sees every fitting packet exactly when no empty packet stands before one. */
  lemma {:induction false} SeesAllIffNoneEmpty(ps: PacketList, cap: nat)
    ensures Seen(ps, cap) == Fitting(ps, cap) <==> !EmptyBefore(ps, cap)
    ensures |Seen(ps, cap)| <= |Fitting(ps, cap)|
  {
    if ps != [] {
      SeesAllIffNoneEmpty(ps[1..], cap);
      if 0 < |ps[0].body| <= cap {
        assert Seen(ps, cap)[1..] == Seen(ps[1..], cap);
        assert Fitting(ps, cap)[1..] == Fitting(ps[1..], cap);
      }
    }
  }
}
