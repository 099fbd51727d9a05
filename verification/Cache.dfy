/** The buffer cache of kernel/bio.c.

    Buffers live in a doubly linked list through a head, held here by index: buffers are
    0 .. n-1 and the head is n.  The cache must look like a plain block map, `view`: a block's
    contents change when a holder of its buffer changes the data, and bread returns them,
    whatever has been cached, recycled or written to disk in between. */
module BufferCache {
  import opened Common

  type Block = seq<int>

  datatype Key = Key(dev: nat, no: nat)

  function Lookup(m: map<Key, Block>, k: Key): (b: Block) { if k in m then m[k] else [] }

  datatype Buf = Buf(dev: nat, blockno: nat, valid: bool, refcnt: nat, data: Block, locked: bool)

  function KeyOf(b: Buf): (k: Key) { Key(b.dev, b.blockno) }

  predicate Holds(b: Buf, k: Key) { b.valid && KeyOf(b) == k }

  /** A block that bwrite sent to the disk. */
  datatype Sent = Sent(k: Key, data: Block)

  // ----- Contents -----

  /** `pins[b]` counts bpin less bunpin, `dirty[b]` says that a holder has changed the data since
      they were last equal to the disk. */
  datatype Cache = Cache(bufs: seq<Buf>, disk: map<Key, Block>, view: map<Key, Block>, pins: seq<nat>, dirty: seq<bool>)

  /** At most one buffer for each block of a real device. */
  ghost predicate Unique(c: Cache) {
    forall a, b :: 0 <= a < |c.bufs| && 0 <= b < |c.bufs| && a != b && c.bufs[a].dev >= 1 ==>
      KeyOf(c.bufs[a]) != KeyOf(c.bufs[b])
  }

  /** Valid buffers hold the view; clean ones also hold what is on disk. */
  ghost predicate BuffersAgree(c: Cache)
    requires |c.dirty| == |c.bufs|
  {
    forall b :: 0 <= b < |c.bufs| && c.bufs[b].valid && c.bufs[b].dev >= 1 ==>
      && c.bufs[b].data == Lookup(c.view, KeyOf(c.bufs[b]))
      && (!c.dirty[b] ==> c.bufs[b].data == Lookup(c.disk, KeyOf(c.bufs[b])))
  }

  /** A block in no valid buffer is on disk as the view has it. */
  ghost predicate DiskAgrees(c: Cache) {
    forall k: Key :: k.dev >= 1 && Lookup(c.view, k) != Lookup(c.disk, k) ==>
      exists b :: 0 <= b < |c.bufs| && Holds(c.bufs[b], k)
  }

  /** Pins and the holder of the lock count as references, and a dirty buffer has one. */
  ghost predicate Counted(c: Cache)
    requires |c.dirty| == |c.bufs| == |c.pins|
  {
    forall b :: 0 <= b < |c.bufs| ==>
      && c.bufs[b].refcnt >= c.pins[b] + (if c.bufs[b].locked then 1 else 0)
      && (c.dirty[b] ==> c.bufs[b].valid && (c.pins[b] > 0 || c.bufs[b].locked))
  }

  ghost predicate Inv(c: Cache) {
    && |c.dirty| == |c.bufs| == |c.pins|
    && Unique(c) && BuffersAgree(c) && DiskAgrees(c) && Counted(c)
  }

  /** bget of a block that is not cached: buffer `b` is free, so it is clean and loses nothing. */
  function Recycle(c: Cache, b: nat, k: Key): (c': Cache)
    requires b < |c.bufs|
  {
    c.(bufs := c.bufs[b := Buf(k.dev, k.no, false, 1, c.bufs[b].data, false)])
  }

  lemma RecycleKeeps(c: Cache, b: nat, k: Key)
    requires Inv(c) && b < |c.bufs| && c.bufs[b].refcnt == 0 && k.dev >= 1
    requires forall a :: 0 <= a < |c.bufs| ==> KeyOf(c.bufs[a]) != k
    ensures Inv(Recycle(c, b, k)) && c.pins[b] == 0
  {
  }

  /** A change of the counts and the lock of one buffer. */
  lemma CountsKeep(c: Cache, b: nat, refcnt: nat, locked: bool, pins: nat)
    requires Inv(c) && b < |c.bufs|
    requires refcnt >= pins + (if locked then 1 else 0)
    requires c.dirty[b] ==> pins > 0 || locked
    ensures Inv(c.(bufs := c.bufs[b := c.bufs[b].(refcnt := refcnt, locked := locked)], pins := c.pins[b := pins]))
  {
  }

  lemma CountedAt(c: Cache, b: nat)
    requires Inv(c) && b < |c.bufs|
    ensures c.bufs[b].refcnt >= c.pins[b] + (if c.bufs[b].locked then 1 else 0)
    ensures c.dirty[b] ==> c.bufs[b].valid && (c.pins[b] > 0 || c.bufs[b].locked)
  {
  }

  /** bread's disk read of a buffer that is not valid. */
  function Fill(c: Cache, b: nat): (c': Cache)
    requires b < |c.bufs|
  {
    c.(bufs := c.bufs[b := c.bufs[b].(valid := true, data := Lookup(c.disk, KeyOf(c.bufs[b])))])
  }

  lemma FillKeeps(c: Cache, b: nat)
    requires Inv(c) && b < |c.bufs| && !c.bufs[b].valid && c.bufs[b].dev >= 1
    ensures Inv(Fill(c, b)) && Fill(c, b).bufs[b].data == Lookup(c.view, KeyOf(c.bufs[b]))
  {
  }

  /** The holder changes the data.  In a buffer that is not valid (bget without a read) this is
      no change of the block until bwrite. */
  function Change(c: Cache, b: nat, data: Block): (c': Cache)
    requires b < |c.bufs| == |c.dirty|
  {
    var c1 := c.(bufs := c.bufs[b := c.bufs[b].(data := data)]);
    if c.bufs[b].valid then c1.(view := c.view[KeyOf(c.bufs[b]) := data], dirty := c.dirty[b := true]) else c1
  }

  lemma ChangeKeeps(c: Cache, b: nat, data: Block)
    requires Inv(c) && b < |c.bufs| && c.bufs[b].locked && c.bufs[b].dev >= 1
    ensures Inv(Change(c, b, data))
  {
    var c', k := Change(c, b, data), KeyOf(c.bufs[b]);
    forall l: Key | l.dev >= 1 && Lookup(c'.view, l) != Lookup(c'.disk, l)
      ensures exists a :: 0 <= a < |c'.bufs| && Holds(c'.bufs[a], l)
    {
      if l == k && c.bufs[b].valid {
        assert Holds(c'.bufs[b], l);
      } else {
        var a :| 0 <= a < |c.bufs| && Holds(c.bufs[a], l);
        assert Holds(c'.bufs[a], l);
      }
    }
  }

  /** bwrite: the block is now, for good, what the buffer holds. */
  function WriteBack(c: Cache, b: nat): (c': Cache)
    requires b < |c.bufs| == |c.dirty|
  {
    var k, data := KeyOf(c.bufs[b]), c.bufs[b].data;
    c.(disk := c.disk[k := data], view := c.view[k := data], dirty := c.dirty[b := false])
  }

  lemma WriteBackKeeps(c: Cache, b: nat)
    requires Inv(c) && b < |c.bufs| && c.bufs[b].dev >= 1
    ensures Inv(WriteBack(c, b))
  {
    var c', k := WriteBack(c, b), KeyOf(c.bufs[b]);
    forall l: Key | l.dev >= 1 && Lookup(c'.view, l) != Lookup(c'.disk, l)
      ensures exists a :: 0 <= a < |c'.bufs| && Holds(c'.bufs[a], l)
    {
      assert l != k && Lookup(c.view, l) != Lookup(c.disk, l);
      var a :| 0 <= a < |c.bufs| && Holds(c.bufs[a], l);
      assert Holds(c'.bufs[a], l);
    }
    forall a | 0 <= a < |c'.bufs| && c'.bufs[a].valid && c'.bufs[a].dev >= 1
      ensures c'.bufs[a].data == Lookup(c'.view, KeyOf(c'.bufs[a]))
      ensures !c'.dirty[a] ==> c'.bufs[a].data == Lookup(c'.disk, KeyOf(c'.bufs[a]))
    {
      if a != b {
        assert KeyOf(c.bufs[a]) != k;
      }
    }
  }

  // ----- The list -----

  /** `ring` is a cycle of nodes: next goes forward along it and prev back. */
  ghost predicate Linked(next: seq<nat>, prev: seq<nat>, ring: seq<nat>) {
    && |next| == |prev| && |ring| > 0
    && (forall i :: 0 <= i < |ring| ==> ring[i] < |next|)
    && (forall i, j :: 0 <= i < j < |ring| ==> ring[i] != ring[j])
    && (forall i :: 0 <= i < |ring| ==> LinkAt(next, prev, ring, i))
  }

  ghost predicate LinkAt(next: seq<nat>, prev: seq<nat>, ring: seq<nat>, i: nat)
    requires i < |ring| && |next| == |prev|
    requires forall k :: 0 <= k < |ring| ==> ring[k] < |next|
  {
    next[ring[i]] == ring[Succ(i, |ring|)] && prev[ring[Succ(i, |ring|)]] == ring[i]
  }

  /** Making the neighbours of a buffer point at each other takes it out of the list. */
  lemma UnlinkKeeps(next: seq<nat>, prev: seq<nat>, ring: seq<nat>, i: nat)
    requires Linked(next, prev, ring) && 0 < i < |ring|
    ensures next[ring[i]] < |next| && prev[ring[i]] < |next|
    ensures var b := ring[i];
            Linked(next[prev[b] := next[b]], prev[next[b] := prev[b]], Without(ring, i))
  {
    var b, r := ring[i], Without(ring, i);
    assert LinkAt(next, prev, ring, i - 1);
    assert LinkAt(next, prev, ring, i);
    var next', prev' := next[prev[b] := next[b]], prev[next[b] := prev[b]];
    forall k | 0 <= k < |r| ensures LinkAt(next', prev', r, k) {
      var l := if k < i then k else k + 1;
      assert LinkAt(next, prev, ring, l);
      if k == i - 1 {
        assert r[Succ(k, |r|)] == ring[Succ(i, |ring|)];
      } else {
        assert r[Succ(k, |r|)] == ring[Succ(l, |ring|)];
      }
    }
  }

  function Pushed(ring: seq<nat>, b: nat): (r: seq<nat>)
    requires |ring| > 0
  {
    [ring[0], b] + ring[1..]
  }

  /** A buffer linked in between the head and its successor is the first of the list. */
  lemma PushKeeps(next: seq<nat>, prev: seq<nat>, ring: seq<nat>, b: nat)
    requires Linked(next, prev, ring) && b < |next| && b !in ring
    ensures next[ring[0]] < |next|
    ensures var h := ring[0];
            Linked(next[b := next[h]][h := b], prev[b := h][next[h] := b], Pushed(ring, b))
  {
    var h, r := ring[0], Pushed(ring, b);
    assert LinkAt(next, prev, ring, 0);
    var next', prev' := next[b := next[h]][h := b], prev[b := h][next[h] := b];
    forall k | 0 <= k < |r| ensures LinkAt(next', prev', r, k) {
      if k > 1 {
        assert LinkAt(next, prev, ring, k - 1);
        assert r[k] == ring[k - 1] && r[Succ(k, |r|)] == ring[Succ(k - 1, |ring|)];
      }
    }
  }

  /** Least recently released last: `stamp[b]` is the time buffer `b` was last released. */
  ghost predicate ByRecency(ring: seq<nat>, stamp: seq<nat>, now: nat) {
    && (forall i :: 0 <= i < |stamp| ==> stamp[i] < now)
    && (forall i :: 0 < i < |ring| ==> ring[i] < |stamp|)
    && (forall i, j :: 0 < i < j < |ring| ==> stamp[ring[i]] > stamp[ring[j]])
  }

  lemma MoveToFrontRecency(ring: seq<nat>, stamp: seq<nat>, now: nat, i: nat)
    requires ByRecency(ring, stamp, now) && 0 < i < |ring|
    requires forall j, k :: 0 <= j < k < |ring| ==> ring[j] != ring[k]
    ensures ByRecency(Pushed(Without(ring, i), ring[i]), stamp[ring[i] := now], now + 1)
  {
  }

  // ----- The operations of kernel/bio.c -----

  class BufCache {
    const n: nat                 // NBUF; the list head is node n
    var bufs: seq<Buf>
    var next: seq<nat>
    var prev: seq<nat>
    var disk: map<Key, Block>
    ghost var view: map<Key, Block>
    ghost var pins: seq<nat>
    ghost var dirty: seq<bool>
    ghost var ring: seq<nat>     // the head, then the buffers, most recently released first
    ghost var stamp: seq<nat>
    ghost var now: nat
    ghost var issued: seq<Sent>  // what bwrite has sent to the disk, in order

    ghost function C(): (c: Cache)
      reads this
    {
      Cache(bufs, disk, view, pins, dirty)
    }

    ghost predicate ListOk()
      reads this`next, this`prev, this`ring, this`stamp, this`now
    {
      && |next| == n + 1 && |ring| == n + 1 && |stamp| == n
      && ring[0] == n
      && (forall a :: 0 <= a <= n ==> a in ring)
      && Linked(next, prev, ring)
      && ByRecency(ring, stamp, now)
    }

    ghost predicate Valid()
      reads this
    {
      |bufs| == n && ListOk() && Inv(C())
    }

    /** binit: every buffer is empty and on the list, the last one at the front. */
    constructor (nbuf: nat, disk: map<Key, Block>)
      ensures Valid() && n == nbuf && this.disk == disk && view == disk && issued == []
      ensures forall b :: 0 <= b < n ==>
                bufs[b].dev == 0 && bufs[b].refcnt == 0 && !bufs[b].locked && pins[b] == 0 && !dirty[b]
    {
      n := nbuf;
      bufs := seq(nbuf, _ => Buf(0, 0, false, 0, [], false));
      next, prev := seq(nbuf + 1, _ => nbuf), seq(nbuf + 1, _ => nbuf);
      this.disk := disk;
      view, pins, dirty := disk, seq(nbuf, _ => 0), seq(nbuf, _ => false);
      ring, stamp, now := [nbuf], seq(nbuf, i => i), nbuf;
      issued := [];
      new;
      PushAll();
    }

    // binit's loop puts every buffer at the front of the list in turn.
    method PushAll()
      requires |next| == n + 1 && |prev| == n + 1 && ring == [n] && next[n] == n && prev[n] == n
      modifies this`next, this`prev, this`ring
      ensures |next| == n + 1 && |ring| == n + 1 && ring[0] == n && Linked(next, prev, ring)
      ensures forall i :: 0 < i <= n ==> ring[i] == n - i
      ensures forall a :: 0 <= a <= n ==> a in ring
    {
      assert LinkAt(next, prev, ring, 0);
      var b := 0;
      while b < n
        invariant 0 <= b <= n && |next| == n + 1 && |ring| == b + 1 && ring[0] == n
        invariant Linked(next, prev, ring)
        invariant forall i :: 0 < i <= b ==> ring[i] == b - i
      {
        PushFront(b);
        b := b + 1;
      }
      forall a | 0 <= a <= n ensures a in ring {
        assert ring[if a == n then 0 else n - a] == a;
      }
    }

    // bget's first loop: the buffer of a cached block.
    method FindCached(k: Key) returns (found: bool, b: nat)
      requires ListOk() && |bufs| == n
      ensures found ==> b < |bufs| && KeyOf(bufs[b]) == k
      ensures !found ==> forall a :: 0 <= a < |bufs| ==> KeyOf(bufs[a]) != k
    {
      assert LinkAt(next, prev, ring, 0);
      b := next[n];
      ghost var i := Succ(0, |ring|);
      while b != n
        invariant 0 <= i <= n && b == ring[i] && (i == 0 ==> b == n)
        invariant forall j :: 0 < j < (if i == 0 then n + 1 else i) ==> KeyOf(bufs[ring[j]]) != k
        decreases if i == 0 then 0 else n + 1 - i
      {
        assert ring[0] != ring[i] || i == 0;
        if bufs[b].dev == k.dev && bufs[b].blockno == k.no {
          return true, b;
        }
        assert LinkAt(next, prev, ring, i);
        b := next[b];
        i := Succ(i, |ring|);
      }
      assert i == 0;
      forall a | 0 <= a < |bufs| ensures KeyOf(bufs[a]) != k {
        assert a in ring;
        var j :| 0 <= j < |ring| && ring[j] == a;
      }
      return false, 0;
    }

    // bget's second loop: from the tail, the least recently released buffer not in use.
    method FindFree() returns (found: bool, b: nat)
      requires ListOk() && |bufs| == n
      ensures found ==> b < |bufs| && bufs[b].refcnt == 0
      ensures found ==> forall a :: 0 <= a < |bufs| && a != b && bufs[a].refcnt == 0 ==> stamp[a] > stamp[b]
      ensures !found ==> forall a :: 0 <= a < |bufs| ==> bufs[a].refcnt != 0
    {
      assert LinkAt(next, prev, ring, n);
      b := prev[n];
      ghost var i := n;
      while b != n
        invariant 0 <= i <= n && b == ring[i]
        invariant forall j :: i < j <= n ==> bufs[ring[j]].refcnt != 0
        decreases i
      {
        if bufs[b].refcnt == 0 {
          forall a | 0 <= a < |bufs| && a != b && bufs[a].refcnt == 0 ensures stamp[a] > stamp[b] {
            assert a in ring;
            var j :| 0 <= j < |ring| && ring[j] == a;
          }
          return true, b;
        }
        assert i > 0;
        assert LinkAt(next, prev, ring, i - 1);
        b := prev[b];
        i := i - 1;
      }
      assert i == 0;
      forall a | 0 <= a < |bufs| ensures bufs[a].refcnt != 0 {
        assert a in ring;
        var j :| 0 <= j < |ring| && ring[j] == a;
      }
      return false, 0;
    }

    /** bget up to the lock: a reference to the one buffer for the block.  A buffer that is pinned
        or in use is never recycled; the one recycled is the least recently released. */
    method Bget(k: Key) returns (panicked: bool, b: nat)
      requires Valid() && k.dev >= 1
      modifies this`bufs, this`pins
      ensures Valid() && pins == old(pins)
      ensures panicked <==> (forall a :: 0 <= a < n ==> KeyOf(old(bufs)[a]) != k && old(bufs)[a].refcnt != 0)
      ensures panicked ==> bufs == old(bufs)
      ensures !panicked ==>
                && b < n && KeyOf(bufs[b]) == k && bufs[b].refcnt == old(bufs)[b].refcnt + 1
                && (forall a :: 0 <= a < n && a != b ==> bufs[a] == old(bufs)[a])
                && (KeyOf(old(bufs)[b]) == k ==> bufs[b] == old(bufs)[b].(refcnt := bufs[b].refcnt))
                && (KeyOf(old(bufs)[b]) != k ==>
                      && !bufs[b].valid && !bufs[b].locked && pins[b] == 0 && old(bufs)[b].refcnt == 0
                      && forall a :: 0 <= a < n && a != b && old(bufs)[a].refcnt == 0 ==> stamp[a] > stamp[b])
    {
      var found;
      found, b := FindCached(k);
      if found {
        AddReference(b);
        return false, b;
      }
      found, b := FindFree();
      if !found {
        return true, 0;
      }
      Reassign(b, k);
      return false, b;
    }

    // Sets the counts and the lock of one buffer.
    method SetCounts(b: nat, refcnt: nat, locked: bool, ghost pinned: nat)
      requires |bufs| == n && Inv(C()) && b < n
      requires refcnt >= pinned + (if locked then 1 else 0) && (dirty[b] ==> pinned > 0 || locked)
      modifies this`bufs, this`pins
      ensures Inv(C()) && bufs == old(bufs)[b := old(bufs)[b].(refcnt := refcnt, locked := locked)]
      ensures pins == old(pins)[b := pinned]
    {
      CountsKeep(C(), b, refcnt, locked, pinned);
      bufs := bufs[b := bufs[b].(refcnt := refcnt, locked := locked)];
      pins := pins[b := pinned];
    }

    method AddReference(b: nat)
      requires Valid() && b < n
      modifies this`bufs, this`pins
      ensures Valid() && pins == old(pins) && bufs == old(bufs)[b := old(bufs)[b].(refcnt := old(bufs)[b].refcnt + 1)]
    {
      CountedAt(C(), b);
      SetCounts(b, bufs[b].refcnt + 1, bufs[b].locked, pins[b]);
    }

    method Reassign(b: nat, k: Key)
      requires Valid() && b < n && bufs[b].refcnt == 0 && k.dev >= 1
      requires forall a :: 0 <= a < n ==> KeyOf(bufs[a]) != k
      modifies this`bufs
      ensures Valid() && bufs == old(bufs)[b := Buf(k.dev, k.no, false, 1, old(bufs)[b].data, false)]
      ensures pins[b] == 0
    {
      ghost var c := C();
      RecycleKeeps(c, b, k);
      bufs := bufs[b := Buf(k.dev, k.no, false, 1, bufs[b].data, false)];
      assert C() == Recycle(c, b, k);
    }

    /** acquiresleep on a buffer that the caller has a reference to and nobody has locked. */
    method Lock(b: nat)
      requires Valid() && b < n && !bufs[b].locked && bufs[b].refcnt > pins[b]
      modifies this`bufs, this`pins
      ensures Valid() && pins == old(pins) && bufs == old(bufs)[b := old(bufs)[b].(locked := true)]
    {
      CountedAt(C(), b);
      SetCounts(b, bufs[b].refcnt, true, pins[b]);
    }

    // virtio_disk_rw, if the buffer is not valid.
    method ReadIn(b: nat)
      requires Valid() && b < n && bufs[b].dev >= 1
      modifies this`bufs
      ensures Valid() && bufs[b].valid && bufs[b].data == Lookup(view, KeyOf(bufs[b]))
      ensures bufs == old(bufs)[b := old(bufs)[b].(valid := true, data := bufs[b].data)]
    {
      if !bufs[b].valid {
        ghost var c := C();
        FillKeeps(c, b);
        bufs := bufs[b := bufs[b].(valid := true, data := Lookup(disk, KeyOf(bufs[b])))];
        assert C() == Fill(c, b);
      } else {
        assert bufs == bufs[b := bufs[b]];
      }
    }

    /** bread: the caller ends up holding the block's buffer, and it holds what the plain block
        map says, which bread does not change. */
    method Bread(k: Key) returns (panicked: bool, b: nat)
      requires Valid() && k.dev >= 1
      requires forall a :: 0 <= a < n && KeyOf(bufs[a]) == k ==> !bufs[a].locked
      modifies this`bufs, this`pins
      ensures Valid() && pins == old(pins)
      ensures panicked <==> (forall a :: 0 <= a < n ==> KeyOf(old(bufs)[a]) != k && old(bufs)[a].refcnt != 0)
      ensures panicked ==> bufs == old(bufs)
      ensures !panicked ==>
                && b < n && Holds(bufs[b], k) && bufs[b].locked && bufs[b].data == Lookup(view, k)
                && bufs[b].refcnt == old(bufs)[b].refcnt + 1
                && (KeyOf(old(bufs)[b]) == k || old(bufs)[b].refcnt == 0)
                && forall a :: 0 <= a < n && a != b ==> bufs[a] == old(bufs)[a]
    {
      panicked, b := Bget(k);
      if panicked {
        return;
      }
      Lock(b);
      ReadIn(b);
    }

    /** A holder changes the data of its buffer. */
    method SetData(b: nat, data: Block)
      requires Valid() && b < n && bufs[b].locked && bufs[b].dev >= 1
      modifies this`bufs, this`view, this`dirty
      ensures Valid() && bufs == old(bufs)[b := old(bufs)[b].(data := data)]
      ensures view == if bufs[b].valid then old(view)[KeyOf(bufs[b]) := data] else old(view)
      ensures dirty == if bufs[b].valid then old(dirty)[b := true] else old(dirty)
    {
      ghost var c := C();
      ChangeKeeps(c, b, data);
      if bufs[b].valid {
        view := view[KeyOf(bufs[b]) := data];
        dirty := dirty[b := true];
      }
      bufs := bufs[b := bufs[b].(data := data)];
      assert C() == Change(c, b, data);
    }

    /** bwrite: the data go to disk; what bread returns changes only for a buffer that bget gave
        out without reading it. */
    method Bwrite(b: nat)
      requires Valid() && b < n && bufs[b].locked && bufs[b].dev >= 1
      modifies this`disk, this`view, this`dirty, this`issued
      ensures Valid() && disk == old(disk)[KeyOf(bufs[b]) := bufs[b].data] && dirty == old(dirty)[b := false]
      ensures issued == old(issued) + [Sent(KeyOf(bufs[b]), bufs[b].data)]
      ensures forall k :: Lookup(view, k) ==
                if k == KeyOf(bufs[b]) then bufs[b].data else Lookup(old(view), k)
      ensures bufs[b].valid ==> forall k :: Lookup(view, k) == Lookup(old(view), k)
    {
      ghost var c := C();
      WriteBackKeeps(c, b);
      var k := KeyOf(bufs[b]);
      disk := disk[k := bufs[b].data];
      view := view[k := bufs[b].data];
      dirty := dirty[b := false];
      issued := issued + [Sent(k, bufs[b].data)];
      assert C() == WriteBack(c, b);
    }

    /** log_write's bpin: the buffer stays until bunpin. */
    method Bpin(b: nat)
      requires Valid() && b < n
      modifies this`bufs, this`pins
      ensures Valid() && bufs == old(bufs)[b := old(bufs)[b].(refcnt := old(bufs)[b].refcnt + 1)]
      ensures pins == old(pins)[b := old(pins)[b] + 1]
    {
      CountedAt(C(), b);
      SetCounts(b, bufs[b].refcnt + 1, bufs[b].locked, pins[b] + 1);
    }

    /** install_trans's bunpin, after the block has been written home. */
    method Bunpin(b: nat)
      requires Valid() && b < n && pins[b] > 0 && !dirty[b]
      modifies this`bufs, this`pins
      ensures Valid() && bufs == old(bufs)[b := old(bufs)[b].(refcnt := old(bufs)[b].refcnt - 1)]
      ensures pins == old(pins)[b := old(pins)[b] - 1]
    {
      CountedAt(C(), b);
      SetCounts(b, bufs[b].refcnt - 1, bufs[b].locked, pins[b] - 1);
    }

    // The list surgery of brelse.
    method Unlink(b: nat, ghost i: nat)
      requires Linked(next, prev, ring) && 0 < i < |ring| && ring[i] == b
      modifies this`next, this`prev, this`ring
      ensures ring == Without(old(ring), i) && Linked(next, prev, ring) && |next| == |old(next)|
      ensures b !in ring && ring[0] == old(ring)[0]
    {
      UnlinkKeeps(next, prev, ring, i);
      var nb, pb := next[b], prev[b];
      prev := prev[nb := pb];
      next := next[pb := nb];
      ring := Without(ring, i);
    }

    method PushFront(b: nat)
      requires Linked(next, prev, ring) && ring[0] == n && b < |next| && b !in ring
      modifies this`next, this`prev, this`ring
      ensures ring == Pushed(old(ring), b) && Linked(next, prev, ring) && |next| == |old(next)|
    {
      PushKeeps(next, prev, ring, b);
      var first := next[n];
      next := next[b := first];
      prev := prev[b := n];
      prev := prev[first := b];
      next := next[n := b];
      ring := Pushed(ring, b);
    }

    method MoveToFront(b: nat)
      requires ListOk() && b < n
      modifies this`next, this`prev, this`ring, this`stamp, this`now
      ensures ListOk() && ring[1] == b && stamp == old(stamp)[b := old(now)] && now == old(now) + 1
    {
      assert b in ring;
      ghost var i :| 0 <= i < |ring| && ring[i] == b;
      ghost var ring0 := ring;
      MoveToFrontRecency(ring0, stamp, now, i);
      MoveToFrontMembers(ring0, i, n);
      Unlink(b, i);
      PushFront(b);
      assert ring == Pushed(Without(ring0, i), ring0[i]);
      stamp := stamp[b := now];
      now := now + 1;
    }

    /** brelse by the holder, who has logged or written what it changed: one reference less, and
        the last one puts the buffer at the front of the list. */
    method Brelse(b: nat)
      requires Valid() && b < n && bufs[b].locked && (!dirty[b] || pins[b] > 0)
      modifies this`bufs, this`pins, this`next, this`prev, this`ring, this`stamp, this`now
      ensures Valid() && pins == old(pins)
      ensures bufs == old(bufs)[b := old(bufs)[b].(refcnt := old(bufs)[b].refcnt - 1, locked := false)]
      ensures bufs[b].refcnt == 0 ==> ring[1] == b && stamp == old(stamp)[b := old(now)]
      ensures bufs[b].refcnt != 0 ==> ring == old(ring) && stamp == old(stamp)
    {
      CountedAt(C(), b);
      SetCounts(b, bufs[b].refcnt - 1, false, pins[b]);
      if bufs[b].refcnt == 0 {
        MoveToFront(b);
      }
    }
  }

  lemma MoveToFrontMembers(ring: seq<nat>, i: nat, n: nat)
    requires 0 < i < |ring| && forall a :: 0 <= a <= n ==> a in ring
    ensures forall a :: 0 <= a <= n ==> a in Pushed(Without(ring, i), ring[i])
  {
    var r, w := Pushed(Without(ring, i), ring[i]), Without(ring, i);
    forall a | 0 <= a <= n ensures a in r {
      assert a in ring;
      var j :| 0 <= j < |ring| && ring[j] == a;
      if j == 0 {
        assert r[0] == a;
      } else if j == i {
        assert r[1] == a;
      } else if j < i {
        assert r[j + 1] == w[j] == a;
      } else {
        assert r[j] == w[j - 1] == a;
      }
    }
  }
}
