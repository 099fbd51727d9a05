/** The pipe of kernel/pipe.c: a ring of PIPESIZE bytes with 32-bit counters that wrap.

    pipewrite and piperead hold the pipe's lock except while they sleep, so an interleaving is a
    sequence of the stretches between sleeps; methods `Write` and `Read` are those stretches. */
module Pipe {

  const PIPESIZE := 512
  const WRAP := 0x1_0000_0000 // the counters are 32 bits wide

  datatype Ring = Ring(data: seq<int>, nread: nat, nwrite: nat)

  predicate Full(r: Ring) { r.nwrite == (r.nread + PIPESIZE) % WRAP }

  predicate Empty(r: Ring) { r.nread == r.nwrite }

  function Put(r: Ring, c: int): (r': Ring)
    requires |r.data| == PIPESIZE
  {
    Ring(r.data[r.nwrite % PIPESIZE := c], r.nread, (r.nwrite + 1) % WRAP)
  }

  function Front(r: Ring): (c: int)
    requires |r.data| == PIPESIZE
  {
    r.data[r.nread % PIPESIZE]
  }

  function Get(r: Ring): (r': Ring) { r.(nread := (r.nread + 1) % WRAP) }

  /** The ring after all the bytes `accepted` so far, of which `delivered` have been read. */
  ghost predicate Carries(r: Ring, accepted: seq<int>, delivered: seq<int>) {
    && |r.data| == PIPESIZE
    && delivered <= accepted
    && |accepted| - |delivered| <= PIPESIZE
    && r.nwrite == |accepted| % WRAP
    && r.nread == |delivered| % WRAP
    && forall k :: |delivered| <= k < |accepted| ==> r.data[k % PIPESIZE] == accepted[k]
  }

  // PIPESIZE divides the range of the counters, so a wrapped counter names the same place.
  lemma WrappedIndex(n: nat)
    ensures n % WRAP % PIPESIZE == n % PIPESIZE
    ensures (n % WRAP + 1) % WRAP == (n + 1) % WRAP
    ensures (n % WRAP + PIPESIZE) % WRAP == (n + PIPESIZE) % WRAP
  {
    assert n == n / WRAP * WRAP + n % WRAP;
    assert WRAP == 8388608 * PIPESIZE;
  }

  /** Despite the wrap-around, the two tests of the code are exact. */
  lemma TestsExact(r: Ring, accepted: seq<int>, delivered: seq<int>)
    requires Carries(r, accepted, delivered)
    ensures Full(r) <==> |accepted| - |delivered| == PIPESIZE
    ensures Empty(r) <==> delivered == accepted
  {
  }

  lemma PutCarries(r: Ring, accepted: seq<int>, delivered: seq<int>, c: int)
    requires Carries(r, accepted, delivered) && !Full(r)
    ensures Carries(Put(r, c), accepted + [c], delivered)
  {
    TestsExact(r, accepted, delivered);
    WrappedIndex(|accepted|);
    var r', a' := Put(r, c), accepted + [c];
    forall k | |delivered| <= k < |a'| ensures r'.data[k % PIPESIZE] == a'[k] {
      if k < |accepted| {
        DifferentPlaces(k, |accepted|);
      }
    }
  }

  // Fewer than PIPESIZE bytes apart, two bytes never share a place.
  lemma DifferentPlaces(k: nat, n: nat)
    requires k < n < k + PIPESIZE
    ensures k % PIPESIZE != n % PIPESIZE
  {
  }

  lemma GetCarries(r: Ring, accepted: seq<int>, delivered: seq<int>)
    requires Carries(r, accepted, delivered) && !Empty(r)
    ensures |delivered| < |accepted| && Front(r) == accepted[|delivered|]
    ensures Carries(Get(r), accepted, delivered + [Front(r)])
  {
    TestsExact(r, accepted, delivered);
    WrappedIndex(|delivered|);
    assert accepted[..|delivered|] == delivered;
    assert r.data[|delivered| % PIPESIZE] == accepted[|delivered|];
  }

  // ----- Every interleaving -----

  datatype Event = WriteByte(c: int) | ReadByte

  datatype History = History(ring: Ring, accepted: seq<int>, delivered: seq<int>)

  /** A byte is accepted unless the ring is full, and delivered unless it is empty. */
  function Step(h: History, e: Event): (h': History)
    requires |h.ring.data| == PIPESIZE
    ensures |h'.ring.data| == PIPESIZE
  {
    match e
    case WriteByte(c) =>
      if Full(h.ring) then h else History(Put(h.ring, c), h.accepted + [c], h.delivered)
    case ReadByte =>
      if Empty(h.ring) then h else History(Get(h.ring), h.accepted, h.delivered + [Front(h.ring)])
  }

  function After(data: seq<int>, es: seq<Event>): (h: History)
    requires |data| == PIPESIZE
    ensures |h.ring.data| == PIPESIZE
  {
    if es == [] then History(Ring(data, 0, 0), [], [])
    else Step(After(data, es[..|es| - 1]), es[|es| - 1])
  }

  /** In every interleaving of byte writes and reads, the bytes delivered are a prefix of the
      bytes accepted, at most PIPESIZE behind, also after the counters have wrapped. */
  lemma {:induction false} DeliversInOrder(data: seq<int>, es: seq<Event>)
    requires |data| == PIPESIZE
    ensures var h := After(data, es);
            && Carries(h.ring, h.accepted, h.delivered)
            && h.delivered <= h.accepted && |h.accepted| - |h.delivered| <= 512
  {
    if es != [] {
      var h := After(data, es[..|es| - 1]);
      DeliversInOrder(data, es[..|es| - 1]);
      match es[|es| - 1]
      case WriteByte(c) =>
        if !Full(h.ring) {
          PutCarries(h.ring, h.accepted, h.delivered, c);
        }
      case ReadByte =>
        if !Empty(h.ring) {
          GetCarries(h.ring, h.accepted, h.delivered);
        }
    }
  }

  /** No byte is refused but by a full pipe, and no read comes back empty but from an empty one. */
  lemma StepMeans(data: seq<int>, es: seq<Event>, e: Event)
    requires |data| == PIPESIZE
    ensures var h, h' := After(data, es), After(data, es + [e]);
            && (e.WriteByte? ==>
                  && h'.delivered == h.delivered
                  && h'.accepted == if |h.accepted| - |h.delivered| == 512 then h.accepted else h.accepted + [e.c])
            && (e.ReadByte? ==>
                  && h'.accepted == h.accepted && |h.delivered| <= |h.accepted|
                  && h'.delivered == if |h.delivered| == |h.accepted| then h.delivered else h.accepted[..|h.delivered| + 1])
  {
    var h := After(data, es);
    DeliversInOrder(data, es);
    assert (es + [e])[..|es|] == es;
    TestsExact(h.ring, h.accepted, h.delivered);
    if e.ReadByte? && !Empty(h.ring) {
      GetCarries(h.ring, h.accepted, h.delivered);
    }
  }

  // ----- pipewrite and piperead -----

  /** A stretch ends by going to sleep or by returning a value to the caller. */
  datatype Outcome = Sleeping | Returned(value: int)

  class PipeBuffer {
    const data: array<int>
    var nread: nat
    var nwrite: nat
    var readopen: bool
    var writeopen: bool
    ghost var accepted: seq<int>
    ghost var delivered: seq<int>

    constructor ()
      ensures Valid() && accepted == [] && delivered == [] && readopen && writeopen && fresh(data)
    {
      data := new int[PIPESIZE];
      nread, nwrite, readopen, writeopen := 0, 0, true, true;
      accepted, delivered := [], [];
    }

    ghost function Abs(): (r: Ring)
      reads this, data
    {
      Ring(data[..], nread, nwrite)
    }

    ghost predicate Valid()
      reads this, data
    {
      Carries(Abs(), accepted, delivered)
    }

    /** pipewrite from byte `from` on: bytes are accepted in order until the buffer is empty of
        room, the request is done, or copyin fails at byte `fault`. */
    method Write(bytes: seq<int>, from: nat, killed: bool, fault: nat) returns (i: nat, r: Outcome)
      requires Valid() && from <= |bytes|
      modifies this`nwrite, this`accepted, data
      ensures Valid() && from <= i <= |bytes| && delivered <= accepted && |accepted| - |delivered| <= 512
      ensures accepted == old(accepted) + bytes[from..i]
      ensures r == Returned(-1) <==> from < |bytes| && (!readopen || killed)
      ensures r == Returned(-1) ==> i == from
      ensures r == Sleeping <==> r != Returned(-1) && i < |bytes| && |accepted| - |delivered| == PIPESIZE
      ensures r.Returned? && r.value != -1 ==> r.value == i && (i == |bytes| || i == fault)
      ensures from <= fault ==> i <= fault
    {
      i := from;
      while i < |bytes|
        invariant from <= i <= |bytes|
        invariant Valid() && accepted == old(accepted) + bytes[from..i]
        invariant i > from ==> readopen && !killed
        invariant from <= fault ==> i <= fault
      {
        if !readopen || killed {
          return i, Returned(-1);
        }
        TestsExact(Abs(), accepted, delivered);
        if nwrite == (nread + PIPESIZE) % WRAP {
          return i, Sleeping;
        }
        if i == fault {
          break;
        }
        PutCarries(Abs(), accepted, delivered, bytes[i]);
        ghost var before := Abs();
        data[nwrite % PIPESIZE] := bytes[i];
        nwrite := (nwrite + 1) % WRAP;
        accepted := accepted + [bytes[i]];
        assert Abs() == Put(before, bytes[i]);
        i := i + 1;
      }
      r := Returned(i);
    }

    /** piperead of up to `n` bytes: it sleeps only on an empty pipe that can still be written,
        and delivers the oldest bytes until it has enough, the pipe is empty or copyout fails. */
    method Read(n: nat, killed: bool, fault: nat) returns (out: seq<int>, r: Outcome)
      requires Valid()
      modifies this`nread, this`delivered
      ensures Valid() && delivered == old(delivered) + out && |out| <= n && delivered <= accepted
      ensures r == Sleeping <==> old(delivered) == accepted && writeopen && !killed
      ensures r == Returned(-1) <==>
                if old(delivered) == accepted then writeopen && killed else n > 0 && fault == 0
      ensures r.Returned? && r.value != -1 ==>
                r.value == |out| <= fault && (|out| == n || delivered == accepted || |out| == fault)
      ensures !(r.Returned? && r.value != -1) ==> out == []
    {
      out := [];
      TestsExact(Abs(), accepted, delivered);
      if nread == nwrite && writeopen {
        if killed {
          return [], Returned(-1);
        }
        return [], Sleeping;
      }
      while |out| < n
        invariant |out| <= n && |out| <= fault
        invariant Valid() && delivered == old(delivered) + out
      {
        TestsExact(Abs(), accepted, delivered);
        if nread == nwrite {
          break;
        }
        var ch := data[nread % PIPESIZE];
        if |out| == fault {
          if |out| == 0 {
            return out, Returned(-1);
          }
          break;
        }
        GetCarries(Abs(), accepted, delivered);
        ghost var before := Abs();
        nread := (nread + 1) % WRAP;
        delivered := delivered + [ch];
        assert Abs() == Get(before);
        out := out + [ch];
      }
      r := Returned(|out|);
    }
  }
}
