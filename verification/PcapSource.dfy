/** Reading capture files record by record (src/pcap_source.c). The file is its bytes and a position. */
module PcapSource {
  import opened Words
  import opened Reac
  import opened PcapLoop

  /** `wide` says whether the target's `long` has 64 bits or 32. */
  class PcapSource {
    const wide: bool
    var file: Option<Bytes>
    var pos: nat
    var swapped: bool

    constructor (wide: bool)
      ensures this.wide == wide && file == None && pos == 0 && !swapped
    {
      this.wide := wide;
      file, pos, swapped := None, 0, false;
    }

    /** `fread`: as many of n bytes as are left. */
    method Fread(n: nat) returns (got: Bytes)
      requires file.Some?
      modifies `pos
      ensures got == if old(pos) >= |file.value| then [] else file.value[old(pos)..Min(old(pos) + n, |file.value|)]
      ensures pos == old(pos) + |got|
    {
      var data := file.value;
      if pos >= |data| {
        return [];
      }
      got := data[pos..if pos + n < |data| then pos + n else |data|];
      pos := pos + |got|;
    }

    /** `pcap_source_open` on a path that names this file, or none. */
    method Open(path: Option<Bytes>) returns (ret: int)
      modifies this
      ensures ret == if path.Some? && IsCapture(path.value) then 0 else -1
      ensures ret == 0 ==> file == path && pos == 24 && swapped == (path.value[..4] == [0xA1, 0xB2, 0xC3, 0xD4])
      ensures ret == -1 ==> file == None && swapped == old(swapped)
    {
      file := path;
      if file == None {
        return -1;
      }
      pos := 0;
      var gh := Fread(24);
      if |gh| != 24 {
        file := None;
        return -1;
      }
      assert gh[0..4] == path.value[..4];
      MagicBytes(gh[0..4]);
      var magic := Rd32(gh[0..4], false);
      if magic == MAGIC {
        swapped := false;
      } else if magic == MAGIC_SWAP {
        swapped := true;
      } else {
        file := None;
        return -1;
      }
      ret := 0;
    }

    /** A record header: how many of its 16 bytes were there, and its capture time and length if all were. */
    method ReadHeader(ghost cap: nat) returns (got: nat, sec: u32, usec: u32, incl: u32)
      requires file.Some?
      modifies `pos
      ensures got < 16 ==> TurnAt(file.value, old(pos), swapped, cap, wide) == Over(if got == 0 then Eof(pos) else Failed(pos, []))
      ensures got >= 16 ==>
                && got == 16
                && pos == old(pos) + 16 <= |file.value|
                && incl == HeaderWord(file.value, old(pos), 2, swapped)
                && sec * 1_000_000 + usec == TsUsec(file.value, old(pos), swapped)
    {
      ghost var data, at := file.value, pos;
      var ph := Fread(16);
      got, sec, usec, incl := |ph|, 0, 0, 0;
      if got == 16 {
        HeaderPart(data, at, ph, 0);
        HeaderPart(data, at, ph, 1);
        HeaderPart(data, at, ph, 2);
        sec := Rd32(ph[0..4], swapped);
        usec := Rd32(ph[4..8], swapped);
        incl := Rd32(ph[8..12], swapped);
      }
    }

    /** The body of a record that fits, after its header at `at`. */
    method TakeBody(buf: array<u8>, ghost at: nat, sec: u32, usec: u32, incl: u32) returns (ret: int, tsUsec: u64)
      requires file.Some? && pos == at + 16 <= |file.value| && incl <= buf.Length
      requires incl == HeaderWord(file.value, at, 2, swapped)
      requires sec * 1_000_000 + usec == TsUsec(file.value, at, swapped)
      modifies `pos, buf
      ensures Taken(ReadBody(file.value, at, swapped), ret, pos, tsUsec, old(buf[..]), buf[..])
    {
      ghost var data := file.value;
      var body := Fread(incl);
      Fill(buf, body);
      if |body| != incl {
        assert body == data[at + 16..];
        return -1, 0;
      }
      assert body == data[at + 16..at + 16 + incl];
      tsUsec := sec * 1_000_000 + usec;
      ret := incl;
    }

    /** `fseek(f, (long)incl, SEEK_CUR)`: false before the start of the file. */
    method Seek(incl: u32) returns (ok: bool)
      modifies `pos
      ensures ok <==> old(pos) + AsLong(incl, wide) >= 0
      ensures pos == if ok then old(pos) + AsLong(incl, wide) else old(pos)
    {
      var target := pos + AsLong(incl, wide);
      ok := target >= 0;
      if ok {
        pos := target;
      }
    }

    /** One turn of the loop: the call is over, or the file stands at another place. */
    method Turn(buf: array<u8>, cap: nat) returns (over: bool, ret: int, tsUsec: u64)
      requires cap <= buf.Length && file.Some?
      modifies `pos, buf
      ensures match TurnAt(file.value, old(pos), swapped, cap, wide)
              case Over(o) => over && Taken(o, ret, pos, tsUsec, old(buf[..]), buf[..])
              case Onward(next) => !over && pos == next && buf[..] == old(buf[..])
    {
      ghost var at := pos;
      over, ret, tsUsec := true, 0, 0;
      var got, sec, usec, incl := ReadHeader(cap);
      if got == 0 {
        return;
      }
      if got != 16 {
        ret := -1;
      } else if incl <= cap {
        ret, tsUsec := TakeBody(buf, at, sec, usec, incl);
      } else {
        var ok := Seek(incl);
        over := !ok;
        ret := -1;
      }
    }

    /** The loop of `pcap_source_next`, known to end in so many turns with the outcome o. */
    method Loop(buf: array<u8>, cap: nat, ghost left: nat, ghost o: Outcome) returns (ret: int, tsUsec: u64)
      requires cap <= buf.Length && file.Some? && Within(file.value, pos, swapped, cap, wide, left) == Some(o)
      modifies `pos, buf
      ensures Taken(o, ret, pos, tsUsec, old(buf[..]), buf[..])
    {
      ghost var data, turns := file.value, left;
      while true
        invariant file == Some(data) && buf[..] == old(buf[..])
        invariant Within(data, pos, swapped, cap, wide, turns) == Some(o)
        decreases turns
      {
        OneTurn(data, pos, swapped, cap, wide, turns, o);
        var over;
        over, ret, tsUsec := Turn(buf, cap);
        if over {
          return;
        }
        turns := turns - 1;
      }
    }

    /**
     `pcap_source_next`: the record's length, 0 at the end of the file, -1 on a short read
     or a failed seek. A call that does not end, as some with a 32-bit `long` do not, has
     no result.
     */
    method Next(buf: array<u8>, cap: nat) returns (ret: int, tsUsec: u64)
      requires cap <= buf.Length
      requires file.Some? ==> Ends(file.value, pos, swapped, cap, wide)
      modifies `pos, buf
      ensures file == None ==> ret == -1 && pos == old(pos) && buf[..] == old(buf[..])
      ensures file.Some? ==> Taken(Comes(file.value, old(pos), swapped, cap, wide), ret, pos, tsUsec, old(buf[..]), buf[..])
    {
      if file == None {
        return -1, 0;
      }
      ghost var turns: nat :| Within(file.value, pos, swapped, cap, wide, turns).Some?;
      ghost var o := Within(file.value, pos, swapped, cap, wide, turns).value;
      ComesTo(file.value, pos, swapped, cap, wide, turns, o);
      ret, tsUsec := Loop(buf, cap, turns, o);
    }
  }

  /** A whole file header, under the magic number in either byte order. */
  predicate IsCapture(data: Bytes)
  {
    |data| >= 24 && (data[..4] == [0xD4, 0xC3, 0xB2, 0xA1] || data[..4] == [0xA1, 0xB2, 0xC3, 0xD4])
  }

  lemma OneTurn(data: Bytes, pos: nat, swap: bool, cap: nat, wide: bool, turns: nat, o: Outcome)
    requires Within(data, pos, swap, cap, wide, turns) == Some(o)
    ensures turns > 0
    ensures match TurnAt(data, pos, swap, cap, wide)
            case Over(o') => o == o'
            case Onward(next) => Within(data, next, swap, cap, wide, turns - 1) == Some(o)
  {
  }

  lemma HeaderPart(data: Bytes, at: nat, ph: Bytes, k: nat)
    requires at + 16 <= |data| && ph == data[at..at + 16] && k < 4
    ensures ph[4 * k..4 * k + 4] == data[at + 4 * k..at + 4 * k + 4]
  {
  }

  /** A call's result, position, timestamp and buffer, as its outcome has them. */
  ghost predicate Taken(o: Outcome, ret: int, pos: nat, tsUsec: u64, before: Bytes, after: Bytes)
  {
    && ret == Result(o) && pos == o.pos
    && match o
       case Eof(_) => after == before
       case Failed(_, partial) => |partial| <= |before| && after == partial + before[|partial|..]
       case Record(_, frame, ts) => tsUsec == ts && |frame| <= |before| && after == frame + before[|frame|..]
  }

  /** The bytes `fread` stores. */
  method Fill(buf: array<u8>, got: Bytes)
    requires |got| <= buf.Length
    modifies buf
    ensures buf[..] == got + old(buf[|got|..])
  {
    forall i | 0 <= i < |got| {
      buf[i] := got[i];
    }
  }
}
