/** The capture node's realtime cycle (`on_process` of pipewire/src/reac_source_node.c). */
module SourceNode {
  import opened Words
  import opened Ring
  import opened RingProtocol

  const MAX_QUANTUM: u32 := 8192

  ghost predicate Linked(ports: seq<array?<Sample>>)
  {
    exists i :: 0 <= i < |ports| && ports[i] != null
  }

  class ReacSourceNode {
    const ring: ReacRing
    const channels: u32
    const scratch: array<Sample>

    ghost predicate Valid()
      reads this, ring
    {
      ring.Valid() && scratch.Length == MAX_QUANTUM && scratch != ring.buf
    }

    constructor (ring: ReacRing, channels: u32)
      requires ring.Valid()
      ensures Valid() && this.ring == ring && this.channels == channels && fresh(scratch)
    {
      this.ring, this.channels := ring, channels;
      scratch := new Sample[MAX_QUANTUM];
    }

    /** The destination of every port: its own buffer, or the scratch buffer while it is unlinked. */
    method Destinations(ports: seq<array?<Sample>>) returns (dst: seq<array<Sample>>, gotPorts: nat)
      requires |ports| == channels
      ensures |dst| == channels
      ensures forall i :: 0 <= i < channels ==> dst[i] == if ports[i] != null then ports[i] else scratch
      ensures gotPorts > 0 <==> Linked(ports)
    {
      dst := [];
      gotPorts := 0;
      for c := 0 to channels
        invariant |dst| == c
        invariant forall i :: 0 <= i < c ==> dst[i] == if ports[i] != null then ports[i] else scratch
        invariant gotPorts > 0 <==> exists i :: 0 <= i < c && ports[i] != null
      {
        var b := ports[c];
        if b != null {
          dst := dst + [b];
          gotPorts := gotPorts + 1;
        } else {
          dst := dst + [scratch];
        }
      }
    }

    /** What one cycle of q frames does to a ring that held `count` samples per channel. */
    ghost predicate Cycled(q: nat, count: nat, drop: nat, got: nat)
    {
      drop == (if count <= 4 * q then 0 else count - 4 * q) && got == Min(q, count - drop)
    }

    /** Trim to four quanta, then read one. */
    method TrimAndRead(dst: seq<array<Sample>>, q: u32) returns (ghost drop: nat, got: nat)
      requires Valid() && q <= MAX_QUANTUM && |dst| == channels
      requires forall d :: d in dst ==> d.Length >= q && d != ring.buf
      modifies ring`tail, ring`underruns, dst
      ensures Valid()
      ensures Cycled(q, old(ring.Count()), drop, got)
      ensures ring.Count() == old(ring.Count()) - drop - got
      ensures ring.underruns == old(ring.underruns) + q - got
      ensures forall c :: 0 <= c < ring.channels ==> ring.Contents(c) == old(ring.Contents(c))[drop + got..]
      ensures forall c :: 0 <= c < Min(channels, ring.channels) && LastUse(dst, c, Min(channels, ring.channels)) ==>
                dst[c][..q] == old(ring.Contents(c))[drop..drop + got] + Zeros(q - got)
    {
      ghost var before := seq(ring.channels, c requires 0 <= c < ring.channels reads ring, ring.buf requires ring.Valid() => ring.Contents(c));
      drop := ring.Trim(q * 4);
      got := ring.ReadPlanar(dst, channels, q);
      DroppedThenTaken(before, drop, got);
    }

    /**
     One realtime cycle. `ports[c]` is the buffer of port c, null while it is
     unlinked; an unlinked port's samples go to the scratch buffer, so every plane
     moves on by the same count. With nothing linked the ring is left alone.
     */
    method OnProcess(duration: u32, ports: seq<array?<Sample>>) returns (ghost drop: nat, ghost got: nat)
      requires Valid() && |ports| == channels
      requires forall p :: p in ports && p != null ==>
                 p.Length >= Min(duration, MAX_QUANTUM) && p != ring.buf && p != scratch
      requires forall i, j :: 0 <= i < j < |ports| && ports[i] != null ==> ports[i] != ports[j]
      modifies ring`tail, ring`underruns, scratch, set p | p in ports && p != null
      ensures Valid()
      ensures !Linked(ports) ==> ring.tail == old(ring.tail) && ring.underruns == old(ring.underruns)
      ensures Linked(ports) ==>
                var q := Min(duration, 8192);
                && Cycled(q, old(ring.Count()), drop, got)
                && ring.Count() == old(ring.Count()) - drop - got
                && ring.underruns == old(ring.underruns) + q - got
                && (forall c :: 0 <= c < ring.channels ==> ring.Contents(c) == old(ring.Contents(c))[drop + got..])
                && (forall c :: 0 <= c < Min(channels, ring.channels) && ports[c] != null ==>
                      ports[c][..q] == old(ring.Contents(c))[drop..drop + got] + Zeros(q - got))
    {
      drop, got := 0, 0;
      var nframes := if duration > MAX_QUANTUM then MAX_QUANTUM else duration;
      var dst, gotPorts := Destinations(ports);
      if gotPorts == 0 {
        return;
      }
      drop, got := TrimAndRead(dst, nframes);
      forall c | 0 <= c < Min(channels, ring.channels) && ports[c] != null
        ensures LastUse(dst, c, Min(channels, ring.channels))
      {
      }
    }
  }

  lemma DroppedThenTaken(qs: seq<seq<Sample>>, drop: nat, got: nat)
    requires forall c :: 0 <= c < |qs| ==> |qs[c]| >= drop + got
    ensures forall c :: 0 <= c < |qs| ==> qs[c][drop..][got..] == qs[c][drop + got..] && qs[c][drop..][..got] == qs[c][drop..drop + got]
  {
  }
}
