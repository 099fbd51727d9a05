/** The Kernighan and Ritchie allocator of user/umalloc.c (section 8.7 of The C Programming
    Language, second edition).

    Addresses are in bytes, block sizes in headers of UNIT bytes, as in the source.  The free
    list is a cycle in memory; its order is given by a sequence of blocks that starts with the
    static `base` block of size 0, which lies below the heap. */
module Malloc {
  import opened Common

  const UNIT := 16
  const MORECORE_MIN := 4096

  datatype Block = Block(addr: nat, size: nat)

  function End(b: Block): (e: nat) { b.addr + UNIT * b.size }

  predicate Covers(b: Block, a: int) { b.addr <= a < End(b) }

  ghost predicate InBlocks(bs: seq<Block>, a: int) {
    exists i :: 0 <= i < |bs| && Covers(bs[i], a)
  }

  predicate Apart(b: Block, c: Block) { End(b) <= c.addr || End(c) <= b.addr }

  ghost predicate ApartFromAll(bs: seq<Block>, b: Block) {
    forall i :: 0 <= i < |bs| ==> Apart(bs[i], b)
  }

  ghost predicate PairwiseApart(bs: seq<Block>) {
    forall i, j :: 0 <= i < j < |bs| ==> Apart(bs[i], bs[j])
  }

  // ----- The free list as a sequence -----

  /** Address order, no two blocks touching, and `base` first. */
  ghost predicate Ordered(fl: seq<Block>, base: nat) {
    && |fl| > 0
    && fl[0] == Block(base, 0)
    && (forall i :: 0 < i < |fl| ==> fl[i].size > 0 && base + UNIT <= fl[i].addr)
    && (forall i, j :: 0 < i < j < |fl| ==> End(fl[i]) < fl[j].addr)
  }

  lemma OrderedAddresses(fl: seq<Block>, base: nat)
    requires Ordered(fl, base)
    ensures forall i, j :: 0 <= i < j < |fl| ==> fl[i].addr < fl[j].addr && End(fl[i]) < fl[j].addr
  {
  }

  /** Blocks `d` up to `e` replaced by `m`. */
  function Splice(fl: seq<Block>, d: nat, e: nat, m: Block): (r: seq<Block>)
    requires d <= e <= |fl|
    ensures |r| == |fl| - (e - d) + 1
    ensures forall i :: 0 <= i < d ==> r[i] == fl[i]
    ensures r[d] == m
    ensures forall i :: d < i < |r| ==> r[i] == fl[i - d - 1 + e]
  {
    fl[..d] + [m] + fl[e..]
  }

  lemma SpliceOrdered(fl: seq<Block>, base: nat, d: nat, e: nat, m: Block)
    requires Ordered(fl, base) && 0 < d <= e <= |fl|
    requires m.size > 0 && base + UNIT <= m.addr
    requires End(fl[d - 1]) < m.addr && (e < |fl| ==> End(m) < fl[e].addr)
    ensures Ordered(Splice(fl, d, e, m), base)
  {
    OrderedAddresses(fl, base);
    var r := Splice(fl, d, e, m);
    forall i, j | 0 < i < j < |r| ensures End(r[i]) < r[j].addr {
      if i < d && j == d && i < d - 1 {
        assert End(fl[i]) < fl[d - 1].addr;
      } else if i == d && j > d + 1 {
        assert fl[e].addr < fl[j - d - 1 + e].addr;
      }
    }
  }

  lemma SpliceCovers(fl: seq<Block>, d: nat, e: nat, m: Block, a: int)
    requires d <= e <= |fl|
    ensures InBlocks(Splice(fl, d, e, m), a) <==>
            Covers(m, a) || exists i :: 0 <= i < |fl| && !(d <= i < e) && Covers(fl[i], a)
  {
    var r := Splice(fl, d, e, m);
    if Covers(m, a) {
      assert Covers(r[d], a);
    }
    if i :| 0 <= i < |fl| && !(d <= i < e) && Covers(fl[i], a) {
      assert Covers(r[if i < d then i else i - e + d + 1], a);
    }
    if i :| 0 <= i < |r| && Covers(r[i], a) {
      if i != d {
        var k := if i < d then i else i - d - 1 + e;
        assert 0 <= k < |fl| && !(d <= k < e) && Covers(fl[k], a);
      }
    }
  }

  // ----- free -----

  predicate JoinsNext(fl: seq<Block>, t: nat, b: Block) { t + 1 < |fl| && End(b) == fl[t + 1].addr }

  predicate JoinsPrev(fl: seq<Block>, t: nat, b: Block)
    requires t < |fl|
  {
    End(fl[t]) == b.addr
  }

  // The first and last places that `b` replaces, and the block that replaces them.
  function First(fl: seq<Block>, t: nat, b: Block): (d: nat)
    requires t < |fl|
    ensures t <= d <= t + 1
  {
    if JoinsPrev(fl, t, b) then t else t + 1
  }

  function Last(fl: seq<Block>, t: nat, b: Block): (e: nat)
    requires t < |fl|
    ensures t + 1 <= e <= |fl|
  {
    if JoinsNext(fl, t, b) then t + 2 else t + 1
  }

  function Joined(fl: seq<Block>, t: nat, b: Block): (m: Block)
    requires t < |fl|
  {
    var size := if JoinsNext(fl, t, b) then b.size + fl[t + 1].size else b.size;
    if JoinsPrev(fl, t, b) then Block(fl[t].addr, fl[t].size + size) else Block(b.addr, size)
  }

  /** Block `b` put after place `t`, joined with the neighbours it touches. */
  function Insert(fl: seq<Block>, t: nat, b: Block): (r: seq<Block>)
    requires t < |fl|
  {
    Splice(fl, First(fl, t, b), Last(fl, t, b), Joined(fl, t, b))
  }

  /** The place after which `b` belongs. */
  predicate Place(fl: seq<Block>, t: nat, b: Block) {
    t < |fl| && fl[t].addr < b.addr && (t + 1 < |fl| ==> b.addr < fl[t + 1].addr)
  }

  ghost predicate CanInsert(fl: seq<Block>, base: nat, b: Block) {
    Ordered(fl, base) && b.size > 0 && base + UNIT <= b.addr && ApartFromAll(fl, b)
  }

  // The new block lies strictly between its neighbours, and `base` joins nothing.
  lemma PlaceFits(fl: seq<Block>, base: nat, t: nat, b: Block)
    requires CanInsert(fl, base, b) && Place(fl, t, b)
    ensures End(fl[t]) <= b.addr && (t + 1 < |fl| ==> End(b) <= fl[t + 1].addr)
    ensures JoinsPrev(fl, t, b) ==> t > 0
    ensures t + 2 < |fl| ==> End(fl[t + 1]) < fl[t + 2].addr
    ensures t > 0 ==> End(fl[t - 1]) < fl[t].addr
  {
  }

  lemma JoinedSpans(fl: seq<Block>, t: nat, b: Block)
    requires t < |fl|
    ensures var m := Joined(fl, t, b);
            && m.addr == (if JoinsPrev(fl, t, b) then fl[t].addr else b.addr)
            && End(m) == (if JoinsNext(fl, t, b) then End(fl[t + 1]) else End(b))
            && m.size >= b.size
  {
  }

  lemma InsertOrdered(fl: seq<Block>, base: nat, t: nat, b: Block)
    requires CanInsert(fl, base, b) && Place(fl, t, b)
    ensures Ordered(Insert(fl, t, b), base)
  {
    PlaceFits(fl, base, t, b);
    JoinedSpans(fl, t, b);
    var d, e, m := First(fl, t, b), Last(fl, t, b), Joined(fl, t, b);
    assert End(fl[d - 1]) < m.addr;
    assert e < |fl| ==> End(m) < fl[e].addr;
    assert base + UNIT <= m.addr;
    SpliceOrdered(fl, base, d, e, m);
  }

  lemma JoinedCovers(fl: seq<Block>, base: nat, t: nat, b: Block, a: int)
    requires CanInsert(fl, base, b) && Place(fl, t, b)
    ensures Covers(Joined(fl, t, b), a) <==>
            || Covers(b, a)
            || (JoinsPrev(fl, t, b) && Covers(fl[t], a))
            || (JoinsNext(fl, t, b) && Covers(fl[t + 1], a))
  {
  }

  /** free adds exactly the bytes of the block to the free bytes. */
  lemma InsertCovers(fl: seq<Block>, base: nat, t: nat, b: Block, a: int)
    requires CanInsert(fl, base, b) && Place(fl, t, b)
    ensures InBlocks(Insert(fl, t, b), a) <==> InBlocks(fl, a) || Covers(b, a)
  {
    var d, e, m := First(fl, t, b), Last(fl, t, b), Joined(fl, t, b);
    JoinedCovers(fl, base, t, b, a);
    SpliceCovers(fl, d, e, m, a);
    if i :| 0 <= i < |fl| && Covers(fl[i], a) {
      assert d <= i < e ==> (i == t && JoinsPrev(fl, t, b)) || (i == t + 1 && JoinsNext(fl, t, b));
    }
  }

  // ----- malloc -----

  /** The list after malloc takes `n` units from block `i`: all of it, or its tail end. */
  function Take(fl: seq<Block>, i: nat, n: nat): (r: seq<Block>)
    requires i < |fl| && fl[i].size >= n
  {
    if fl[i].size == n then fl[..i] + fl[i + 1..]
    else Splice(fl, i, i + 1, Block(fl[i].addr, fl[i].size - n))
  }

  function Taken(b: Block, n: nat): (r: Block)
    requires b.size >= n
  {
    Block(b.addr + UNIT * (b.size - n), n)
  }

  lemma RemoveOrdered(fl: seq<Block>, base: nat, i: nat)
    requires Ordered(fl, base) && 0 < i < |fl|
    ensures Ordered(fl[..i] + fl[i + 1..], base)
  {
    var r := fl[..i] + fl[i + 1..];
    forall k, l | 0 < k < l < |r| ensures End(r[k]) < r[l].addr {
      assert r[k] == fl[if k < i then k else k + 1] && r[l] == fl[if l < i then l else l + 1];
    }
  }

  lemma TakeOrdered(fl: seq<Block>, base: nat, i: nat, n: nat)
    requires Ordered(fl, base) && 0 < i < |fl| && fl[i].size >= n > 0
    ensures Ordered(Take(fl, i, n), base)
  {
    OrderedAddresses(fl, base);
    if fl[i].size == n {
      RemoveOrdered(fl, base, i);
    } else {
      SpliceOrdered(fl, base, i, i + 1, Block(fl[i].addr, fl[i].size - n));
    }
  }

  lemma TakenApart(fl: seq<Block>, base: nat, i: nat, n: nat)
    requires Ordered(fl, base) && 0 < i < |fl| && fl[i].size >= n > 0
    ensures ApartFromAll(Take(fl, i, n), Taken(fl[i], n))
    ensures base + UNIT <= Taken(fl[i], n).addr && End(Taken(fl[i], n)) == End(fl[i])
  {
    OrderedAddresses(fl, base);
    var r, t := Take(fl, i, n), Taken(fl[i], n);
    forall k | 0 <= k < |r| ensures Apart(r[k], t) {
      if fl[i].size == n {
        assert r[k] == fl[if k < i then k else k + 1];
      }
    }
  }

  /** malloc removes exactly the bytes of the block it returns from the free bytes. */
  lemma TakeCovers(fl: seq<Block>, base: nat, i: nat, n: nat, a: int)
    requires Ordered(fl, base) && 0 < i < |fl| && fl[i].size >= n > 0
    ensures InBlocks(Take(fl, i, n), a) <==> InBlocks(fl, a) && !Covers(Taken(fl[i], n), a)
  {
    OrderedAddresses(fl, base);
    var r := Take(fl, i, n);
    if fl[i].size == n {
      RemoveCovers(fl, i, a);
    } else {
      SpliceCovers(fl, i, i + 1, Block(fl[i].addr, fl[i].size - n), a);
    }
  }

  lemma RemoveCovers(fl: seq<Block>, i: nat, a: int)
    requires i < |fl|
    ensures InBlocks(fl[..i] + fl[i + 1..], a) <==> exists k :: 0 <= k < |fl| && k != i && Covers(fl[k], a)
  {
    var r := fl[..i] + fl[i + 1..];
    if k :| 0 <= k < |fl| && k != i && Covers(fl[k], a) {
      assert Covers(r[if k < i then k else k - 1], a);
    }
    if k :| 0 <= k < |r| && Covers(r[k], a) {
      var l := if k < i then k else k + 1;
      assert 0 <= l < |fl| && l != i && Covers(fl[l], a);
    }
  }

  // ----- The cycle in memory -----

  /** Memory holds the list: each header has its block's size and points to the next one. */
  ghost predicate Linked(fl: seq<Block>, ptr: map<nat, nat>, size: map<nat, nat>) {
    forall i :: 0 <= i < |fl| ==> LinkAt(fl, ptr, size, i)
  }

  ghost predicate LinkAt(fl: seq<Block>, ptr: map<nat, nat>, size: map<nat, nat>, i: nat)
    requires i < |fl|
  {
    && fl[i].addr in size && size[fl[i].addr] == fl[i].size
    && fl[i].addr in ptr && ptr[fl[i].addr] == fl[Succ(i, |fl|)].addr
  }

  /** A place for `b` exists, because `base` is below it. */
  lemma {:induction false} PlaceExists(fl: seq<Block>, base: nat, b: Block, n: nat) returns (t: nat)
    requires Ordered(fl, base) && base < b.addr && 0 < n <= |fl|
    requires forall i :: 0 <= i < |fl| ==> fl[i].addr != b.addr
    requires n < |fl| ==> b.addr < fl[n].addr
    ensures Place(fl, t, b)
  {
    OrderedAddresses(fl, base);
    if fl[n - 1].addr < b.addr {
      t := n - 1;
    } else {
      t := PlaceExists(fl, base, b, n - 1);
    }
  }

  lemma PlaceOf(fl: seq<Block>, base: nat, b: Block) returns (t: nat)
    requires CanInsert(fl, base, b)
    ensures Place(fl, t, b)
  {
    forall i | 0 <= i < |fl| ensures fl[i].addr != b.addr {
      assert Apart(fl[i], b);
    }
    t := PlaceExists(fl, base, b, |fl|);
  }

  /** The exit test of free's search, between a header at `p` and the next one. */
  predicate Stops(p: nat, next: nat, bp: nat) {
    (bp > p && bp < next) || (p >= next && (bp > p || bp < next))
  }

  /** The exit test holds at the right place and nowhere else. */
  lemma SearchStops(fl: seq<Block>, base: nat, b: Block, t: nat, i: nat)
    requires CanInsert(fl, base, b) && Place(fl, t, b) && i < |fl|
    ensures Stops(fl[i].addr, fl[Succ(i, |fl|)].addr, b.addr) <==> i == t
  {
    OrderedAddresses(fl, base);
  }

  lemma StandsAt(fl: seq<Block>, base: nat, ptr: map<nat, nat>, size: map<nat, nat>, b: Block, t: nat, i: nat)
    requires CanInsert(fl, base, b) && Place(fl, t, b) && Linked(fl, ptr, size) && i < |fl|
    ensures fl[i].addr in ptr && ptr[fl[i].addr] == fl[Succ(i, |fl|)].addr
    ensures Stops(fl[i].addr, ptr[fl[i].addr], b.addr) <==> i == t
  {
    assert LinkAt(fl, ptr, size, i);
    SearchStops(fl, base, b, t, i);
  }

  // The header writes that splice a block into the cycle.
  lemma LinkedSplice(fl: seq<Block>, d: nat, e: nat, m: Block,
                     ptr: map<nat, nat>, size: map<nat, nat>, ptr': map<nat, nat>, size': map<nat, nat>)
    requires 0 < d <= e <= |fl| && Linked(fl, ptr, size)
    requires forall i :: 0 <= i < |fl| ==> fl[i].addr in size && fl[i].addr in ptr
    requires m.addr in size' && size'[m.addr] == m.size
    requires m.addr in ptr' && ptr'[m.addr] == (if e < |fl| then fl[e].addr else fl[0].addr)
    requires fl[d - 1].addr in ptr' && ptr'[fl[d - 1].addr] == m.addr
    requires forall i :: 0 <= i < |fl| && !(d <= i < e) ==> fl[i].addr in size' && size'[fl[i].addr] == size[fl[i].addr]
    requires forall i :: 0 <= i < |fl| && !(d - 1 <= i < e) ==>
               fl[i].addr in ptr' && ptr'[fl[i].addr] == ptr[fl[i].addr]
    ensures Linked(Splice(fl, d, e, m), ptr', size')
  {
    var r := Splice(fl, d, e, m);
    forall i | 0 <= i < |r| ensures LinkAt(r, ptr', size', i) {
      if i > d {
        var k := i - d - 1 + e;
        assert LinkAt(fl, ptr, size, k);
        assert r[i] == fl[k] && r[Succ(i, |r|)] == fl[Succ(k, |fl|)];
      } else if i < d {
        assert LinkAt(fl, ptr, size, i);
        assert r[i] == fl[i] && (i < d - 1 ==> r[i + 1] == fl[Succ(i, |fl|)]);
      }
    }
  }

  // The first test of free sees the next block of the list, or `base`, which is below `b`.
  lemma JoinNextFacts(fl: seq<Block>, base: nat, t: nat, b: Block, ptr: map<nat, nat>, size: map<nat, nat>)
    requires CanInsert(fl, base, b) && Place(fl, t, b) && Linked(fl, ptr, size)
    requires b.addr in size && size[b.addr] == b.size
    ensures fl[t].addr in ptr && ptr[fl[t].addr] in ptr && ptr[fl[t].addr] in size
    ensures var (ptr', size') := JoinNext(ptr, size, fl[t].addr, b.addr);
            var e := Last(fl, t, b);
            && ptr' == ptr[b.addr := if e < |fl| then fl[e].addr else fl[0].addr]
            && size' == size[b.addr := if JoinsNext(fl, t, b) then b.size + fl[t + 1].size else b.size]
  {
    assert LinkAt(fl, ptr, size, t);
    assert LinkAt(fl, ptr, size, Succ(t, |fl|));
  }

  lemma FreshAddress(fl: seq<Block>, base: nat, t: nat, b: Block)
    requires CanInsert(fl, base, b) && Place(fl, t, b)
    ensures forall i :: 0 <= i < |fl| ==> fl[i].addr != b.addr
    ensures forall i, j :: 0 <= i < j < |fl| ==> fl[i].addr != fl[j].addr
  {
  }

  lemma LinkedKeys(fl: seq<Block>, ptr: map<nat, nat>, size: map<nat, nat>)
    requires Linked(fl, ptr, size)
    ensures forall i :: 0 <= i < |fl| ==> fl[i].addr in size && fl[i].addr in ptr
  {
    forall i | 0 <= i < |fl| ensures fl[i].addr in size && fl[i].addr in ptr {
      assert LinkAt(fl, ptr, size, i);
    }
  }

  // `x` is the address after the new block, `n` its size together with a joined next block.
  lemma LinkedApart(fl: seq<Block>, base: nat, t: nat, b: Block, x: nat, ptr: map<nat, nat>, size: map<nat, nat>)
    requires CanInsert(fl, base, b) && Place(fl, t, b) && Linked(fl, ptr, size) && !JoinsPrev(fl, t, b)
    requires x == if Last(fl, t, b) < |fl| then fl[Last(fl, t, b)].addr else fl[0].addr
    ensures Linked(Insert(fl, t, b), ptr[b.addr := x][fl[t].addr := b.addr], size[b.addr := Joined(fl, t, b).size])
  {
    FreshAddress(fl, base, t, b);
    LinkedKeys(fl, ptr, size);
    LinkedSplice(fl, t + 1, Last(fl, t, b), Joined(fl, t, b), ptr, size,
                 ptr[b.addr := x][fl[t].addr := b.addr], size[b.addr := Joined(fl, t, b).size]);
  }

  lemma LinkedJoined(fl: seq<Block>, base: nat, t: nat, b: Block, x: nat, n: nat, ptr: map<nat, nat>, size: map<nat, nat>)
    requires CanInsert(fl, base, b) && Place(fl, t, b) && Linked(fl, ptr, size) && JoinsPrev(fl, t, b)
    requires x == if Last(fl, t, b) < |fl| then fl[Last(fl, t, b)].addr else fl[0].addr
    ensures Linked(Insert(fl, t, b), ptr[b.addr := x][fl[t].addr := x], size[b.addr := n][fl[t].addr := Joined(fl, t, b).size])
  {
    PlaceFits(fl, base, t, b);
    FreshAddress(fl, base, t, b);
    LinkedKeys(fl, ptr, size);
    assert LinkAt(fl, ptr, size, t - 1);
    LinkedSplice(fl, t, Last(fl, t, b), Joined(fl, t, b), ptr, size,
                 ptr[b.addr := x][fl[t].addr := x], size[b.addr := n][fl[t].addr := Joined(fl, t, b).size]);
  }

  // Memory after the header writes of free holds the new list.
  lemma LinkedInsert(fl: seq<Block>, base: nat, t: nat, b: Block, ptr: map<nat, nat>, size: map<nat, nat>)
    requires CanInsert(fl, base, b) && Place(fl, t, b) && Linked(fl, ptr, size)
    requires b.addr in size && size[b.addr] == b.size
    ensures fl[t].addr in ptr && ptr[fl[t].addr] in ptr && ptr[fl[t].addr] in size && fl[t].addr in size
    ensures var (ptr', size') := JoinNext(ptr, size, fl[t].addr, b.addr);
            var (ptr'', size'') := JoinPrev(ptr', size', fl[t].addr, b.addr);
            Linked(Insert(fl, t, b), ptr'', size'')
  {
    JoinNextFacts(fl, base, t, b, ptr, size);
    assert LinkAt(fl, ptr, size, t);
    assert fl[t].addr != b.addr;
    var e := Last(fl, t, b);
    var x := if e < |fl| then fl[e].addr else fl[0].addr;
    var n := if JoinsNext(fl, t, b) then b.size + fl[t + 1].size else b.size;
    if JoinsPrev(fl, t, b) {
      LinkedJoined(fl, base, t, b, x, n, ptr, size);
    } else {
      LinkedApart(fl, base, t, b, x, ptr, size);
    }
  }

  /** The first merge of free: the freed block swallows its successor if it touches it, and in any case
      gets its link. */
  function JoinNext(ptr: map<nat, nat>, size: map<nat, nat>, p: nat, bp: nat): (r: (map<nat, nat>, map<nat, nat>))
    requires p in ptr && ptr[p] in ptr && ptr[p] in size && bp in size
  {
    if bp + UNIT * size[bp] == ptr[p]
    then (ptr[bp := ptr[ptr[p]]], size[bp := size[bp] + size[ptr[p]]])
    else (ptr[bp := ptr[p]], size)
  }

  /** The second merge of free: the predecessor swallows the freed block if it touches it, and else links
      to it. */
  function JoinPrev(ptr: map<nat, nat>, size: map<nat, nat>, p: nat, bp: nat): (r: (map<nat, nat>, map<nat, nat>))
    requires p in ptr && bp in ptr && p in size && bp in size
  {
    if p + UNIT * size[p] == bp
    then (ptr[p := ptr[bp]], size[p := size[p] + size[bp]])
    else (ptr[p := bp], size)
  }

  lemma LinkedRemove(fl: seq<Block>, base: nat, i: nat, ptr: map<nat, nat>, size: map<nat, nat>)
    requires Ordered(fl, base) && Linked(fl, ptr, size) && 0 < i < |fl|
    ensures fl[i].addr in ptr
    ensures Linked(fl[..i] + fl[i + 1..], ptr[fl[i - 1].addr := ptr[fl[i].addr]], size)
  {
    OrderedAddresses(fl, base);
    LinkedKeys(fl, ptr, size);
    var r := fl[..i] + fl[i + 1..];
    var ptr' := ptr[fl[i - 1].addr := ptr[fl[i].addr]];
    forall k | 0 <= k < |r| ensures LinkAt(r, ptr', size, k) {
      var l := if k < i then k else k + 1;
      assert LinkAt(fl, ptr, size, l);
      assert r[k] == fl[l];
      if k == i - 1 {
        assert LinkAt(fl, ptr, size, i);
        assert r[Succ(k, |r|)] == fl[Succ(i, |fl|)];
      } else {
        assert r[Succ(k, |r|)] == fl[Succ(l, |fl|)];
      }
    }
  }

  lemma LinkedShrink(fl: seq<Block>, base: nat, i: nat, n: nat, ptr: map<nat, nat>, size: map<nat, nat>)
    requires Ordered(fl, base) && Linked(fl, ptr, size) && 0 < i < |fl| && 0 < n < fl[i].size
    ensures Linked(Take(fl, i, n), ptr, size[fl[i].addr := fl[i].size - n][Taken(fl[i], n).addr := n])
  {
    OrderedAddresses(fl, base);
    LinkedKeys(fl, ptr, size);
    var r, t := Take(fl, i, n), Taken(fl[i], n);
    var size' := size[fl[i].addr := fl[i].size - n][t.addr := n];
    forall k | 0 <= k < |r| ensures LinkAt(r, ptr, size', k) {
      assert LinkAt(fl, ptr, size, k);
      assert r[k].addr == fl[k].addr && r[Succ(k, |r|)].addr == fl[Succ(k, |fl|)].addr;
      assert k != i ==> fl[k].addr != fl[i].addr && fl[k].addr != t.addr;
    }
  }

  /** malloc's writes: a block of `n` units is unlinked, of a larger one the tail is cut off; the
      result is the address of the `n` units. */
  function Cut(ptr: map<nat, nat>, size: map<nat, nat>, p: nat, prevp: nat, n: nat): (r: (map<nat, nat>, map<nat, nat>, nat))
    requires p in ptr && p in size && n <= size[p]
  {
    if size[p] == n then (ptr[prevp := ptr[p]], size, p)
    else
      var tail := p + UNIT * (size[p] - n);
      (ptr, size[p := size[p] - n][tail := n], tail)
  }

  lemma LinkedTake(fl: seq<Block>, base: nat, i: nat, n: nat, ptr: map<nat, nat>, size: map<nat, nat>)
    requires Ordered(fl, base) && Linked(fl, ptr, size) && 0 < i < |fl| && 0 < n <= fl[i].size
    ensures fl[i].addr in ptr && fl[i].addr in size && n <= size[fl[i].addr]
    ensures var (ptr', size', r) := Cut(ptr, size, fl[i].addr, fl[i - 1].addr, n);
            && Linked(Take(fl, i, n), ptr', size') && r == Taken(fl[i], n).addr && r in size' && size'[r] == n
            && forall a :: a in size && a != fl[i].addr && a != r ==> a in size' && size'[a] == size[a]
  {
    assert LinkAt(fl, ptr, size, i);
    if fl[i].size == n {
      LinkedRemove(fl, base, i, ptr, size);
    } else {
      LinkedShrink(fl, base, i, n, ptr, size);
    }
  }

  /** The live blocks: apart from each other and from every free block. */
  ghost predicate LiveOk(live: seq<Block>, fl: seq<Block>, size: map<nat, nat>, base: nat) {
    && PairwiseApart(live)
    && forall j :: 0 <= j < |live| ==>
         && live[j].size > 0 && base + UNIT <= live[j].addr
         && live[j].addr in size && size[live[j].addr] == live[j].size
         && ApartFromAll(fl, live[j])
  }

  /** Every byte ever obtained from sbrk is in a free block or a live block, and conversely. */
  ghost predicate Tiled(fl: seq<Block>, live: seq<Block>, owned: set<int>) {
    forall a :: a in owned <==> InBlocks(fl, a) || InBlocks(live, a)
  }

  ghost predicate Below(bs: seq<Block>, brk: nat) {
    forall i :: 0 <= i < |bs| ==> End(bs[i]) <= brk
  }

  // A block apart from a new block's bytes and from the list stays apart from the joined list.
  lemma InsertApart(fl: seq<Block>, base: nat, t: nat, b: Block, c: Block)
    requires CanInsert(fl, base, b) && Place(fl, t, b)
    requires ApartFromAll(fl, c) && Apart(b, c) && c.size > 0
    ensures ApartFromAll(Insert(fl, t, b), c)
  {
    PlaceFits(fl, base, t, b);
    JoinedSpans(fl, t, b);
    assert Apart(fl[t], c);
    assert t + 1 < |fl| ==> Apart(fl[t + 1], c);
  }

  lemma InsertBelow(fl: seq<Block>, base: nat, t: nat, b: Block, brk: nat)
    requires CanInsert(fl, base, b) && Place(fl, t, b) && Below(fl, brk) && End(b) <= brk
    ensures Below(Insert(fl, t, b), brk)
  {
  }

  /** Adding a block to the free list disturbs no live block. */
  lemma InsertKeepsLive(fl: seq<Block>, base: nat, t: nat, b: Block, live: seq<Block>, size: map<nat, nat>, size': map<nat, nat>)
    requires CanInsert(fl, base, b) && Place(fl, t, b) && LiveOk(live, fl, size, base) && ApartFromAll(live, b)
    requires forall a :: a in size && a != b.addr && a != fl[t].addr ==> a in size' && size'[a] == size[a]
    ensures LiveOk(live, Insert(fl, t, b), size', base)
  {
    forall j | 0 <= j < |live|
      ensures live[j].addr in size' && size'[live[j].addr] == live[j].size
      ensures ApartFromAll(Insert(fl, t, b), live[j])
    {
      assert Apart(live[j], b) && Apart(fl[t], live[j]);
      InsertApart(fl, base, t, b, live[j]);
    }
  }

  lemma RemoveKeepsLive(live: seq<Block>, j: nat, fl: seq<Block>, size: map<nat, nat>, base: nat)
    requires LiveOk(live, fl, size, base) && j < |live|
    ensures LiveOk(live[..j] + live[j + 1..], fl, size, base)
    ensures ApartFromAll(live[..j] + live[j + 1..], live[j])
  {
  }

  /** free conserves the bytes: what was in the live block is now free. */
  lemma FreeTiles(fl: seq<Block>, base: nat, t: nat, b: Block, live: seq<Block>, j: nat, owned: set<int>)
    requires CanInsert(fl, base, b) && Place(fl, t, b) && j < |live| && live[j] == b && Tiled(fl, live, owned)
    ensures Tiled(Insert(fl, t, b), live[..j] + live[j + 1..], owned)
  {
    forall a ensures a in owned <==> InBlocks(Insert(fl, t, b), a) || InBlocks(live[..j] + live[j + 1..], a) {
      InsertCovers(fl, base, t, b, a);
      RemoveCovers(live, j, a);
      assert Covers(live[j], a) ==> InBlocks(live, a);
    }
  }

  function Bytes(b: Block): (r: set<int>) { set a | b.addr <= a < End(b) && Covers(b, a) }

  lemma GrowTiles(fl: seq<Block>, base: nat, t: nat, b: Block, live: seq<Block>, owned: set<int>)
    requires CanInsert(fl, base, b) && Place(fl, t, b) && Tiled(fl, live, owned)
    ensures Tiled(Insert(fl, t, b), live, owned + Bytes(b))
  {
    forall a ensures a in owned + Bytes(b) <==> InBlocks(Insert(fl, t, b), a) || InBlocks(live, a) {
      InsertCovers(fl, base, t, b, a);
    }
  }

  /** malloc conserves the bytes: what it takes from the free list is the new live block. */
  lemma TakeTiles(fl: seq<Block>, base: nat, i: nat, n: nat, live: seq<Block>, owned: set<int>)
    requires Ordered(fl, base) && 0 < i < |fl| && fl[i].size >= n > 0 && Tiled(fl, live, owned)
    ensures Tiled(Take(fl, i, n), live + [Taken(fl[i], n)], owned)
  {
    var b, l := Taken(fl[i], n), live + [Taken(fl[i], n)];
    forall a ensures a in owned <==> InBlocks(Take(fl, i, n), a) || InBlocks(l, a) {
      TakeCovers(fl, base, i, n, a);
      assert l[|live|] == b;
      if InBlocks(live, a) {
        var k :| 0 <= k < |live| && Covers(live[k], a);
        assert Covers(l[k], a);
      }
      if Covers(b, a) {
        assert Covers(fl[i], a) && Covers(l[|live|], a);
      }
      if InBlocks(l, a) {
        var k :| 0 <= k < |l| && Covers(l[k], a);
        assert k < |live| ==> Covers(live[k], a);
      }
    }
  }

  /** The block that malloc takes is apart from every live block. */
  lemma TakeKeepsLive(fl: seq<Block>, base: nat, i: nat, n: nat, live: seq<Block>, size: map<nat, nat>, size': map<nat, nat>)
    requires Ordered(fl, base) && 0 < i < |fl| && fl[i].size >= n > 0 && LiveOk(live, fl, size, base)
    requires forall a :: a in size && a != fl[i].addr && a != Taken(fl[i], n).addr ==> a in size' && size'[a] == size[a]
    requires Taken(fl[i], n).addr in size' && size'[Taken(fl[i], n).addr] == n
    ensures LiveOk(live + [Taken(fl[i], n)], Take(fl, i, n), size', base)
  {
    var b, r := Taken(fl[i], n), Take(fl, i, n);
    TakenApart(fl, base, i, n);
    forall j | 0 <= j < |live|
      ensures Apart(live[j], b) && ApartFromAll(r, live[j])
      ensures live[j].addr in size' && size'[live[j].addr] == live[j].size
    {
      assert Apart(fl[i], live[j]);
      forall k | 0 <= k < |r| ensures Apart(r[k], live[j]) {
        assert Apart(fl[if fl[i].size == n && k >= i then k + 1 else k], live[j]);
      }
    }
  }

  /** Live and free blocks keep apart and together are the bytes from sbrk, all below the break. */
  ghost predicate HeapOk(fl: seq<Block>, live: seq<Block>, size: map<nat, nat>, base: nat, owned: set<int>, brk: nat) {
    LiveOk(live, fl, size, base) && Tiled(fl, live, owned) && Below(fl, brk) && Below(live, brk)
  }

  lemma FreeHeap(fl: seq<Block>, live: seq<Block>, size: map<nat, nat>, base: nat, owned: set<int>, brk: nat,
                 j: nat, t: nat, size': map<nat, nat>)
    requires HeapOk(fl, live, size, base, owned, brk) && Ordered(fl, base) && j < |live| && Place(fl, t, live[j])
    requires forall a :: a in size && a != live[j].addr && a != fl[t].addr ==> a in size' && size'[a] == size[a]
    ensures HeapOk(Insert(fl, t, live[j]), live[..j] + live[j + 1..], size', base, owned, brk)
  {
    RemoveKeepsLive(live, j, fl, size, base);
    InsertKeepsLive(fl, base, t, live[j], live[..j] + live[j + 1..], size, size');
    FreeTiles(fl, base, t, live[j], live, j, owned);
    InsertBelow(fl, base, t, live[j], brk);
  }

  lemma GrowHeap(fl: seq<Block>, live: seq<Block>, size: map<nat, nat>, base: nat, owned: set<int>, brk: nat,
                 b: Block, t: nat, size': map<nat, nat>)
    requires HeapOk(fl, live, size, base, owned, brk) && CanInsert(fl, base, b) && Place(fl, t, b) && b.addr >= brk
    requires ApartFromAll(live, b)
    requires forall a :: a in size && a != b.addr && a != fl[t].addr ==> a in size' && size'[a] == size[a]
    ensures HeapOk(Insert(fl, t, b), live, size', base, owned + Bytes(b), End(b))
  {
    InsertKeepsLive(fl, base, t, b, live, size, size');
    GrowTiles(fl, base, t, b, live, owned);
    InsertBelow(fl, base, t, b, End(b));
  }

  lemma TakeHeap(fl: seq<Block>, live: seq<Block>, size: map<nat, nat>, base: nat, owned: set<int>, brk: nat,
                 i: nat, n: nat, size': map<nat, nat>)
    requires HeapOk(fl, live, size, base, owned, brk) && Ordered(fl, base) && 0 < i < |fl| && fl[i].size >= n > 0
    requires forall a :: a in size && a != fl[i].addr && a != Taken(fl[i], n).addr ==> a in size' && size'[a] == size[a]
    requires Taken(fl[i], n).addr in size' && size'[Taken(fl[i], n).addr] == n
    ensures HeapOk(Take(fl, i, n), live + [Taken(fl[i], n)], size', base, owned, brk)
  {
    TakeTiles(fl, base, i, n, live, owned);
    TakeKeepsLive(fl, base, i, n, live, size, size');
    TakeBelow(fl, i, n, brk);
  }

  // ----- The allocator -----

  class Allocator {
    const base: nat              // the address of the static header
    var ptr: map<nat, nat>       // s.ptr of each header
    var size: map<nat, nat>      // s.size of each header
    var freep: nat               // 0 before the first call
    ghost var fl: seq<Block>     // the free list in address order
    ghost var live: seq<Block>   // blocks handed out and not freed
    ghost var owned: set<int>    // bytes obtained from sbrk
    var brk: nat                 // the break: sbrk has returned nothing at or above this address

    ghost predicate ListOk()
      reads this`ptr, this`size, this`freep, this`fl
    {
      && 0 < base && freep != 0
      && Ordered(fl, base)
      && Linked(fl, ptr, size)
      && (exists f :: 0 <= f < |fl| && fl[f].addr == freep)
    }

    ghost predicate Valid()
      reads this
    {
      && 0 < base && base + UNIT <= brk
      && (if freep == 0 then fl == [] && live == [] && owned == {} else ListOk())
      && HeapOk(fl, live, size, base, owned, brk)
    }

    /** Before the first call there is no list; the break is above the static header. */
    constructor (base: nat, brk: nat)
      requires 0 < base && base + UNIT <= brk
      ensures Valid() && freep == 0 && live == [] && owned == {} && this.base == base && this.brk == brk
    {
      this.base, this.brk, freep, ptr, size := base, brk, 0, map[], map[];
      fl, live, owned := [], [], {};
    }

    // free's search loop.
    method FindPlace(ghost b: Block, bp: nat) returns (p: nat, ghost t: nat)
      requires ListOk() && CanInsert(fl, base, b) && bp == b.addr
      ensures Place(fl, t, b) && p == fl[t].addr
    {
      t := PlaceOf(fl, base, b);
      p := freep;
      ghost var i :| 0 <= i < |fl| && fl[i].addr == freep;
      StandsAt(fl, base, ptr, size, b, t, i);
      while !(bp > p && bp < ptr[p])
        invariant 0 <= i < |fl| && p == fl[i].addr && p in ptr && ptr[p] == fl[Succ(i, |fl|)].addr
        invariant Stops(p, ptr[p], bp) <==> i == t
        decreases Distance(i, t, |fl|)
      {
        if p >= ptr[p] && (bp > p || bp < ptr[p]) {
          break;
        }
        StepCloser(i, t, |fl|);
        p := ptr[p];
        i := Succ(i, |fl|);
        StandsAt(fl, base, ptr, size, b, t, i);
      }
    }

    method JoinWithNext(p: nat, bp: nat)
      requires p in ptr && ptr[p] in ptr && ptr[p] in size && bp in size
      modifies this`ptr, this`size
      ensures (ptr, size) == JoinNext(old(ptr), old(size), p, bp)
    {
      if bp + UNIT * size[bp] == ptr[p] {
        ptr, size := ptr[bp := ptr[ptr[p]]], size[bp := size[bp] + size[ptr[p]]];
      } else {
        ptr := ptr[bp := ptr[p]];
      }
    }

    method JoinWithPrev(p: nat, bp: nat)
      requires p in ptr && bp in ptr && p in size && bp in size
      modifies this`ptr, this`size
      ensures (ptr, size) == JoinPrev(old(ptr), old(size), p, bp)
    {
      if p + UNIT * size[p] == bp {
        ptr, size := ptr[p := ptr[bp]], size[p := size[p] + size[bp]];
      } else {
        ptr := ptr[p := bp];
      }
    }

    /** The body of free: block `b`, whose header is at `bp`, joins the free list at its place,
        merged with the free blocks it touches. */
    method InsertBlock(ghost b: Block, bp: nat) returns (ghost t: nat)
      requires ListOk() && CanInsert(fl, base, b) && bp == b.addr && bp in size && size[bp] == b.size
      modifies this`ptr, this`size, this`freep, this`fl
      ensures ListOk() && Place(old(fl), t, b) && fl == Insert(old(fl), t, b)
      ensures freep == old(fl)[t].addr && t < |fl| && fl[t].addr == freep
      ensures forall a :: a in old(size) && a != bp && a != freep ==> a in size && size[a] == old(size)[a]
    {
      var p: nat;
      p, t := FindPlace(b, bp);
      LinkedInsert(fl, base, t, b, ptr, size);
      InsertOrdered(fl, base, t, b);
      InsertKeepsPlace(fl, base, t, b);
      JoinWithNext(p, bp);
      JoinWithPrev(p, bp);
      freep := p;
      fl := Insert(fl, t, b);
    }

    /** free of the pointer to live block `j`. */
    method Free(ap: nat, ghost j: nat)
      requires Valid() && j < |live| && ap == live[j].addr + UNIT
      modifies this
      ensures Valid() && live == old(live)[..j] + old(live)[j + 1..] && owned == old(owned) && brk == old(brk)
      ensures exists t: nat :: Place(old(fl), t, old(live)[j]) && fl == Insert(old(fl), t, old(live)[j]) && freep == old(fl)[t].addr
    {
      ghost var b, fl0, size0 := live[j], fl, size;
      ghost var t := InsertBlock(b, ap - UNIT);
      FreeHeap(fl0, live, size0, base, owned, brk, j, t, size);
      live := live[..j] + live[j + 1..];
    }

    // The header of a fresh area.
    method WriteHeader(hp: nat, n: nat)
      requires Valid() && freep != 0 && hp >= brk && n > 0
      modifies this`size
      ensures size == old(size)[hp := n] && ListOk() && HeapOk(fl, live, size, base, owned, brk)
      ensures CanInsert(fl, base, Block(hp, n)) && ApartFromAll(live, Block(hp, n))
    {
      FreshHeader(fl, live, ptr, size, Block(hp, n), brk, base);
      size := size[hp := n];
    }

    /** morecore: `more` is what sbrk answers, a fresh area or an error.  The heap is broken from then on,
        and nothing is promised, exactly if the new block claims more than sbrk was asked for. */
    method Morecore(nu: nat, more: Option<nat>) returns (broken: bool, p: nat)
      requires Valid() && freep != 0 && 0 < nu && (more.Some? ==> more.value >= brk)
      modifies this
      ensures broken <==> more.Some? && !AreaFits(nu)
      ensures !broken ==> Valid() && freep != 0 && live == old(live)
      ensures more.None? ==> p == 0 && fl == old(fl) && owned == old(owned) && freep == old(freep) && brk == old(brk)
      ensures !broken && more.Some? ==>
                && p == freep && HasBlock(fl, nu) && brk >= old(brk) && old(owned) <= owned
                && forall a :: a in owned <==> a in old(owned) || more.value <= a < more.value + 16 * (if nu < 4096 then 4096 else nu)
    {
      if more.None? {
        return false, 0;
      }
      if SbrkArg(AreaUnits(nu)) != UNIT * AreaUnits(nu) {
        return true, 0;
      }
      AddArea(more.value, AreaUnits(nu));
      broken, p := false, freep;
    }

    // A fresh area becomes a free block.
    method AddArea(hp: nat, n: nat)
      requires Valid() && freep != 0 && hp >= brk && n > 0
      modifies this
      ensures Valid() && freep != 0 && live == old(live) && HasBlock(fl, n)
      ensures owned == old(owned) + Bytes(Block(hp, n)) && brk == End(Block(hp, n))
    {
      ghost var b := Block(hp, n);
      WriteHeader(hp, n);
      ghost var fl0, size0 := fl, size;
      ghost var t := InsertBlock(b, hp);
      GrowHeap(fl0, live, size0, base, owned, brk, b, t, size);
      InsertHasBlock(fl0, t, b);
      owned, brk := owned + Bytes(b), End(Block(hp, n));
    }

    // malloc's exit: `n` units from block `i`, whose header is at `p`, found after `prevp`.
    method Unlink(p: nat, prevp: nat, ghost i: nat, n: nat) returns (r: nat)
      requires ListOk() && 0 < i < |fl| && p == fl[i].addr && prevp == fl[i - 1].addr
      requires 0 < n <= fl[i].size
      modifies this`ptr, this`size, this`freep, this`fl
      ensures ListOk() && fl == Take(old(fl), i, n) && r == Taken(old(fl)[i], n).addr && freep == prevp
      ensures r in size && size[r] == n
      ensures forall a :: a in old(size) && a != p && a != r ==> a in size && size[a] == old(size)[a]
    {
      TakeOrdered(fl, base, i, n);
      LinkedTake(fl, base, i, n, ptr, size);
      r := CutHeaders(p, prevp, n);
      freep := prevp;
      fl := Take(fl, i, n);
      assert fl[i - 1].addr == prevp >= base;
    }

    method CutHeaders(p: nat, prevp: nat, n: nat) returns (r: nat)
      requires p in ptr && p in size && n <= size[p]
      modifies this`ptr, this`size
      ensures (ptr, size, r) == Cut(old(ptr), old(size), p, prevp, n)
    {
      r := p;
      if size[p] == n {
        ptr := ptr[prevp := ptr[p]];
      } else {
        size := size[p := size[p] - n];
        r := p + UNIT * size[p];
        size := size[r := n];
      }
    }

    method TakeUnits(p: nat, prevp: nat, ghost i: nat, n: nat) returns (r: nat)
      requires Valid() && freep != 0 && 0 < i < |fl| && p == fl[i].addr && prevp == fl[i - 1].addr
      requires 0 < n <= fl[i].size
      modifies this
      ensures Valid() && r == Taken(old(fl)[i], n).addr && freep == prevp && fl == Take(old(fl), i, n)
      ensures live == old(live) + [Block(r, n)] && owned == old(owned) && brk == old(brk)
    {
      ghost var fl0, size0 := fl, size;
      r := Unlink(p, prevp, i, n);
      TakeHeap(fl0, live, size0, base, owned, brk, i, n, size);
      live := live + [Block(r, n)];
    }

    // The first call of malloc makes the list of `base` alone.
    method Start()
      requires Valid()
      modifies this
      ensures Valid() && freep != 0 && live == old(live) && owned == old(owned) && brk == old(brk)
      ensures forall n: nat :: n > 0 ==> (HasBlock(fl, n) <==> HasBlock(old(fl), n))
      ensures old(freep) != 0 ==> fl == old(fl) && freep == old(freep)
    {
      if freep == 0 {
        ptr, size, freep := ptr[base := base], size[base := 0], base;
        fl := [Block(base, 0)];
        assert LinkAt(fl, ptr, size, 0);
      }
    }

    /** malloc's search stands at block `i`, which follows `prevp`; every block since `freep`,
        which is block `f`, is too small. */
    ghost predicate Search(f: int, i: int, p: nat, prevp: nat, n: nat)
      reads this
    {
      && 0 <= f < |fl| && fl[f].addr == freep
      && 0 <= i < |fl| && fl[i].addr == p
      && prevp == fl[if i == 0 then |fl| - 1 else i - 1].addr
      && TooSmall(fl, f, i, n)
    }

    // The loop's step: to the next block.
    method Advance(p: nat, ghost f: nat, ghost i: nat, n: nat) returns (q: nat)
      requires ListOk() && f < |fl| && fl[f].addr == freep && i < |fl| && fl[i].addr == p
      requires i == f || (TooSmall(fl, f, i, n) && fl[i].size < n)
      ensures Search(f, Succ(i, |fl|), q, p, n)
    {
      assert LinkAt(fl, ptr, size, i);
      q := ptr[p];
      if i != f {
        TooSmallAdvances(fl, f, i, n);
      }
    }

    // malloc's loop for one trip around the cycle: from the block after `freep` back to `freep`.
    method Scan(n: nat) returns (found: bool, p: nat, prevp: nat, ghost i: nat)
      requires ListOk() && 0 < n
      ensures found ==> 0 < i < |fl| && p == fl[i].addr && prevp == fl[i - 1].addr && FirstFit(fl, freep, i, n)
      ensures found <==> HasBlock(fl, n)
    {
      ghost var f :| 0 <= f < |fl| && fl[f].addr == freep;
      prevp := freep;
      p := Advance(freep, f, f, n);
      i := Succ(f, |fl|);
      HeaderSize(fl, ptr, size, i);
      while size[p] < n
        invariant Search(f, i, p, prevp, n) && p in size && size[p] == fl[i].size
        decreases Distance(i, f, |fl|)
      {
        if p == freep {
          SameBlock(fl, base, i, f);
          AllTooSmall(fl, f, n);
          return false, p, prevp, i;
        }
        StepCloser(i, f, |fl|);
        prevp := p;
        p := Advance(p, f, i, n);
        i := Succ(i, |fl|);
        HeaderSize(fl, ptr, size, i);
      }
      found := true;
    }

    /** malloc: a block of enough units, disjoint from every live block, which joins the live
        blocks; 0 only if no free block is big enough and sbrk fails.  The heap grows only if no
        free block is big enough, and then once; that breaks it exactly if the growth does not fit
        the argument of sbrk. */
    method Malloc(nbytes: nat, more: Option<nat>) returns (broken: bool, r: nat, ghost i: nat)
      requires Valid() && (more.Some? ==> more.value >= brk)
      modifies this
      ensures broken <==> more.Some? && !HasBlock(old(fl), Units(nbytes)) && !AreaFits(Units(nbytes))
      ensures !broken ==> Valid() && (r == 0 <==> !HasBlock(old(fl), Units(nbytes)) && more.None?)
      ensures !broken && r == 0 ==> live == old(live) && owned == old(owned)
      ensures !broken && r != 0 ==> r >= UNIT && live == old(live) + [Block(r - UNIT, Units(nbytes))]
      ensures HasBlock(old(fl), Units(nbytes)) ==> owned == old(owned)
      ensures HasBlock(old(fl), Units(nbytes)) && old(freep) != 0 ==>
                && FirstFit(old(fl), old(freep), i, Units(nbytes)) && freep == old(fl)[i - 1].addr
                && r == Taken(old(fl)[i], Units(nbytes)).addr + UNIT && fl == Take(old(fl), i, Units(nbytes))
      ensures !broken ==> old(owned) <= owned && brk >= old(brk)
    {
      var n := Units(nbytes);
      Start();
      var found, p, prevp;
      broken, found, p, prevp, i := FindBlock(n, more);
      r := 0;
      if !broken && found {
        r := TakeUnits(p, prevp, i, n);
        r := r + UNIT;
      }
    }

    // malloc's loop: a block of `n` units, if need be from a heap that grew.
    method FindBlock(n: nat, more: Option<nat>) returns (broken: bool, found: bool, p: nat, prevp: nat, ghost i: nat)
      requires Valid() && freep != 0 && 0 < n && (more.Some? ==> more.value >= brk)
      modifies this
      ensures broken <==> more.Some? && !HasBlock(old(fl), n) && !AreaFits(n)
      ensures !broken ==> Valid() && freep != 0 && live == old(live) && old(owned) <= owned && brk >= old(brk)
      ensures !broken && found ==> 0 < i < |fl| && p == fl[i].addr && prevp == fl[i - 1].addr && fl[i].size >= n
      ensures !broken ==> (!found <==> !HasBlock(old(fl), n) && more.None?)
      ensures !broken && (!found || HasBlock(old(fl), n)) ==> owned == old(owned) && brk == old(brk)
      ensures HasBlock(old(fl), n) ==> fl == old(fl) && freep == old(freep) && FirstFit(fl, freep, i, n)
    {
      broken := false;
      found, p, prevp, i := Scan(n);
      ghost var grown := false;
      while !found
        invariant Valid() && freep != 0 && live == old(live) && old(owned) <= owned && brk >= old(brk)
        invariant found ==> 0 < i < |fl| && p == fl[i].addr && prevp == fl[i - 1].addr && fl[i].size >= n
        invariant if grown then found && !HasBlock(old(fl), n) && more.Some?
                  else owned == old(owned) && brk == old(brk) && (found <==> HasBlock(old(fl), n)) && fl == old(fl) && freep == old(freep)
        invariant found && !grown ==> FirstFit(fl, freep, i, n)
        invariant !broken && (grown ==> AreaFits(n))
        decreases !grown
      {
        broken, p := Morecore(n, more);
        if broken || p == 0 {
          return;
        }
        grown := true;
        found, p, prevp, i := Scan(n);
      }
    }
  }

  ghost predicate HasBlock(fl: seq<Block>, n: nat) {
    exists k :: 0 <= k < |fl| && fl[k].size >= n
  }

  /** Block `i` is the first that is big enough after the block at `freep`, round the cycle. */
  ghost predicate FirstFit(fl: seq<Block>, freep: nat, i: nat, n: nat) {
    0 < i < |fl| && fl[i].size >= n && exists f :: 0 <= f < |fl| && fl[f].addr == freep && TooSmall(fl, f, i, n)
  }

  /** In numbers: every block that the search comes to before block `i` is too small, and what malloc takes is
      the whole of block `i` or its last units. */
  lemma FirstFitMeans(fl: seq<Block>, base: nat, f: nat, i: nat, n: nat, k: nat)
    requires Ordered(fl, base) && f < |fl| && FirstFit(fl, fl[f].addr, i, n) && k < |fl|
    ensures (k - f - 1) % |fl| < (i - f - 1) % |fl| ==> fl[k].size < n
    ensures Taken(fl[i], n).addr + 16 * n == fl[i].addr + 16 * fl[i].size
  {
    var g :| 0 <= g < |fl| && fl[g].addr == fl[f].addr && TooSmall(fl, g, i, n);
    SameBlock(fl, base, g, f);
    Reduce(k - f - 1, |fl|);
    Reduce(i - f - 1, |fl|);
  }

  /** The list has a block of the inserted one's size. */
  lemma InsertHasBlock(fl: seq<Block>, t: nat, b: Block)
    requires t < |fl|
    ensures HasBlock(Insert(fl, t, b), b.size)
  {
    JoinedSpans(fl, t, b);
    assert Insert(fl, t, b)[First(fl, t, b)].size >= b.size;
  }

  lemma AllTooSmall(fl: seq<Block>, f: nat, n: nat)
    requires f < |fl| && TooSmall(fl, f, f, n) && fl[f].size < n
    ensures !HasBlock(fl, n)
  {
  }

  lemma HeaderSize(fl: seq<Block>, ptr: map<nat, nat>, size: map<nat, nat>, i: nat)
    requires Linked(fl, ptr, size) && i < |fl|
    ensures fl[i].addr in size && size[fl[i].addr] == fl[i].size
  {
    assert LinkAt(fl, ptr, size, i);
  }

  /** One unit for the header and as many as the bytes need, none of them to spare. */
  function Units(nbytes: nat): (n: nat)
    ensures n > 0 && UNIT * (n - 1) - UNIT < nbytes <= UNIT * (n - 1)
  {
    (nbytes + UNIT - 1) / UNIT + 1
  }

  // ----- How much memory morecore asks for -----

  function AreaUnits(nu: nat): (n: nat) { if nu < MORECORE_MIN then MORECORE_MIN else nu }

  /** The bytes that sbrk is asked for: its argument is a 32-bit int. */
  function SbrkArg(n: nat): (b: int) {
    var low := UNIT * n % 0x1_0000_0000;
    if low < 0x8000_0000 then low else low - 0x1_0000_0000
  }

  /** sbrk is asked for as many bytes as the new block claims. */
  predicate AreaFits(nu: nat) { SbrkArg(AreaUnits(nu)) == UNIT * AreaUnits(nu) }

  /** That is so for areas below two gigabytes and for no others; of a larger one sbrk hands out too
      little, or takes memory away. */
  lemma AreaFitsIff(nu: nat)
    ensures AreaFits(nu) <==> UNIT * nu < 0x8000_0000
    ensures !AreaFits(nu) ==> SbrkArg(AreaUnits(nu)) < UNIT * AreaUnits(nu)
  {
  }

  /** The largest request claims four gigabytes and one unit, and gets one unit. */
  lemma LargestRequest()
    ensures SbrkArg(AreaUnits(Units(0xFFFF_FFFF))) == UNIT && UNIT * Units(0xFFFF_FFFF) == 0x1_0000_0000 + UNIT
  {
    assert Units(0xFFFF_FFFF) == 0x1000_0001;
  }

  lemma SameBlock(fl: seq<Block>, base: nat, i: nat, j: nat)
    requires Ordered(fl, base) && i < |fl| && j < |fl| && fl[i].addr == fl[j].addr
    ensures i == j
  {
  }

  lemma TakeBelow(fl: seq<Block>, i: nat, n: nat, brk: nat)
    requires i < |fl| && fl[i].size >= n && Below(fl, brk)
    ensures Below(Take(fl, i, n), brk) && End(Taken(fl[i], n)) <= brk
  {
  }

  // A header above every block disturbs nothing.
  lemma FreshHeader(fl: seq<Block>, live: seq<Block>, ptr: map<nat, nat>, size: map<nat, nat>, b: Block, brk: nat, base: nat)
    requires Ordered(fl, base) && Linked(fl, ptr, size) && LiveOk(live, fl, size, base)
    requires Below(fl, brk) && Below(live, brk) && b.addr >= brk >= base + UNIT && b.size > 0
    ensures Linked(fl, ptr, size[b.addr := b.size]) && LiveOk(live, fl, size[b.addr := b.size], base)
    ensures CanInsert(fl, base, b) && ApartFromAll(live, b)
  {
    var size' := size[b.addr := b.size];
    forall i | 0 <= i < |fl| ensures LinkAt(fl, ptr, size', i) {
      assert LinkAt(fl, ptr, size, i);
      assert End(fl[i]) <= brk;
    }
    forall j | 0 <= j < |live| ensures live[j].addr != b.addr {
      assert End(live[j]) <= brk;
    }
  }

  // The blocks strictly between `f` and `i` on the cycle.
  predicate Between(f: int, i: int, k: int) {
    if f < i then f < k < i else k > f || k < i
  }

  ghost predicate TooSmall(fl: seq<Block>, f: int, i: int, n: nat) {
    forall k :: 0 <= k < |fl| && Between(f, i, k) ==> fl[k].size < n
  }

  lemma TooSmallAdvances(fl: seq<Block>, f: nat, i: nat, n: nat)
    requires f < |fl| && i < |fl| && i != f && TooSmall(fl, f, i, n) && fl[i].size < n
    ensures TooSmall(fl, f, Succ(i, |fl|), n)
  {
  }

  lemma InsertKeepsPlace(fl: seq<Block>, base: nat, t: nat, b: Block)
    requires CanInsert(fl, base, b) && Place(fl, t, b)
    ensures t < |Insert(fl, t, b)| && Insert(fl, t, b)[t].addr == fl[t].addr >= base
  {
  }

  // ----- Histories of calls -----

  /** Malloc's `gap` says how far above the break sbrk puts the new area, if it succeeds; Free's `k` is
      which of the outstanding pointers is freed, in the order of their allocation. */
  datatype Call = Malloc(nbytes: nat, gap: Option<nat>) | Free(k: nat)

  /** What a caller has: the pointer and how many bytes it asked for. */
  datatype Grant = Grant(p: nat, nbytes: nat)

  /** The outstanding grants after a call that returned `r`. */
  function Granted(gs: seq<Grant>, c: Call, r: nat): (gs': seq<Grant>) {
    match c
    case Malloc(nbytes, _) => if r == 0 then gs else gs + [Grant(r, nbytes)]
    case Free(k) => if k < |gs| then gs[..k] + gs[k + 1..] else gs
  }

  function Outstanding(calls: seq<Call>, rs: seq<nat>): (gs: seq<Grant>)
    requires |calls| == |rs|
  {
    if calls == [] then []
    else Granted(Outstanding(calls[..|calls| - 1], rs[..|calls| - 1]), calls[|calls| - 1], rs[|calls| - 1])
  }

  /** The live blocks are those of the grants. */
  ghost predicate Backed(live: seq<Block>, gs: seq<Grant>) {
    && |live| == |gs|
    && forall i :: 0 <= i < |gs| ==> gs[i].p == live[i].addr + UNIT && live[i].size == Units(gs[i].nbytes)
  }

  /** Byte `a` of grant `i` came from sbrk, is not free and is in no other grant. */
  ghost predicate OwnByte(gs: seq<Grant>, owned: set<int>, fl: seq<Block>, i: nat, a: int)
    requires i < |gs|
  {
    && a in owned && !InBlocks(fl, a)
    && forall j :: 0 <= j < |gs| && j != i ==> !(gs[j].p <= a < gs[j].p + gs[j].nbytes)
  }

  ghost predicate AllApart(gs: seq<Grant>, owned: set<int>, fl: seq<Block>) {
    forall i, a :: 0 <= i < |gs| && gs[i].p <= a < gs[i].p + gs[i].nbytes ==> OwnByte(gs, owned, fl, i, a)
  }

  /** The caller may use its bytes: they came from sbrk, and no other grant has them. */
  lemma GrantsApart(live: seq<Block>, fl: seq<Block>, size: map<nat, nat>, base: nat, owned: set<int>, brk: nat, gs: seq<Grant>, i: nat, a: int)
    requires HeapOk(fl, live, size, base, owned, brk) && Backed(live, gs) && i < |gs| && gs[i].p <= a < gs[i].p + gs[i].nbytes
    ensures OwnByte(gs, owned, fl, i, a)
  {
    assert Covers(live[i], a);
    assert InBlocks(live, a);
    forall k | 0 <= k < |fl| ensures !Covers(fl[k], a) {
      assert Apart(fl[k], live[i]);
    }
    forall j | 0 <= j < |gs| && j != i ensures !Covers(live[j], a) {
      assert if i < j then Apart(live[i], live[j]) else Apart(live[j], live[i]);
    }
  }

  lemma BackedLess(live: seq<Block>, gs: seq<Grant>, k: nat)
    requires Backed(live, gs) && k < |gs|
    ensures Backed(live[..k] + live[k + 1..], gs[..k] + gs[k + 1..])
  {
  }

  /** Every outstanding grant was handed out by a call of malloc, for the bytes that call asked for. */
  lemma {:induction false} GrantedByCall(calls: seq<Call>, rs: seq<nat>, g: Grant) returns (i: nat)
    requires |calls| == |rs| && g in Outstanding(calls, rs)
    ensures i < |calls| && calls[i].Malloc? && calls[i].nbytes == g.nbytes && rs[i] == g.p != 0
  {
    var n := |calls| - 1;
    if g in Outstanding(calls[..n], rs[..n]) {
      i := GrantedByCall(calls[..n], rs[..n], g);
    } else {
      i := n;
    }
  }

  /** A grant stays until it is freed: the `k`th of the outstanding ones, if the next call does not free it or one
      before it, is still the `k`th. */
  lemma GrantStays(calls: seq<Call>, rs: seq<nat>, c: Call, r: nat, k: nat)
    requires |calls| == |rs| && k < |Outstanding(calls, rs)| && (c.Free? ==> c.k > k)
    ensures k < |Outstanding(calls + [c], rs + [r])| && Outstanding(calls + [c], rs + [r])[k] == Outstanding(calls, rs)[k]
  {
    assert (calls + [c])[..|calls|] == calls && (rs + [r])[..|rs|] == rs;
  }

  lemma LinkedMeans(fl: seq<Block>, ptr: map<nat, nat>, size: map<nat, nat>)
    requires Linked(fl, ptr, size)
    ensures forall i: nat :: i < |fl| ==>
              && fl[i].addr in ptr && ptr[fl[i].addr] == fl[(i + 1) % |fl|].addr
              && fl[i].addr in size && size[fl[i].addr] == fl[i].size
  {
    forall i: nat | i < |fl|
      ensures fl[i].addr in ptr && ptr[fl[i].addr] == fl[(i + 1) % |fl|].addr && fl[i].addr in size && size[fl[i].addr] == fl[i].size
    {
      assert LinkAt(fl, ptr, size, i);
      Circle(i, i, 0, |fl|);
    }
  }

  /** A growth that does not fit the argument of sbrk. */
  predicate TooLarge(c: Call) { c.Malloc? && c.gap.Some? && !AreaFits(Units(c.nbytes)) }

  method Perform(h: Allocator, c: Call, gs: seq<Grant>) returns (broken: bool, r: nat)
    requires h.Valid() && Backed(h.live, gs)
    modifies h
    ensures broken ==> TooLarge(c)
    ensures !broken ==> h.Valid() && Backed(h.live, Granted(gs, c, r)) && old(h.owned) <= h.owned
  {
    broken, r := false, 0;
    match c
    case Malloc(nbytes, gap) =>
      ghost var i;
      broken, r, i := h.Malloc(nbytes, if gap.Some? then Some(h.brk + gap.value) else None);
    case Free(k) =>
      if k < |gs| {
        BackedLess(h.live, gs, k);
        h.Free(gs[k].p, k);
      }
  }

  /** Over every sequence of calls on a new heap: the free list stays a cycle in address order of blocks
      that neither overlap nor touch, the outstanding pointers are exactly those returned and not freed,
      and what each caller asked for is its own.  Only a growth that does not fit ends the run early. */
  method Run(h: Allocator, calls: seq<Call>) returns (broken: bool, rs: seq<nat>)
    requires h.Valid() && h.live == []
    modifies h
    ensures if broken then |rs| < |calls| && TooLarge(calls[|rs|]) else |rs| == |calls|
    ensures !broken ==>
              && h.Valid() && Backed(h.live, Outstanding(calls, rs)) && old(h.owned) <= h.owned
              && AllApart(Outstanding(calls, rs), h.owned, h.fl)
    ensures !broken ==>
              var gs := Outstanding(calls, rs);
              && (forall i, j :: 0 <= i < j < |gs| ==> gs[i].p + gs[i].nbytes <= gs[j].p || gs[j].p + gs[j].nbytes <= gs[i].p)
              && (forall i, a :: 0 <= i < |gs| && gs[i].p <= a < gs[i].p + gs[i].nbytes ==> a in h.owned)
    ensures !broken && h.freep != 0 ==>
              && (forall i, j :: 0 < i < j < |h.fl| ==> h.fl[i].addr + 16 * h.fl[i].size < h.fl[j].addr)
              && (forall i: nat :: i < |h.fl| ==>
                    && h.fl[i].addr in h.ptr && h.ptr[h.fl[i].addr] == h.fl[(i + 1) % |h.fl|].addr
                    && h.fl[i].addr in h.size && h.size[h.fl[i].addr] == h.fl[i].size)
  {
    broken, rs := false, [];
    var gs: seq<Grant> := [];
    while |rs| < |calls|
      invariant |rs| <= |calls| && h.Valid() && gs == Outstanding(calls[..|rs|], rs) && Backed(h.live, gs)
      invariant old(h.owned) <= h.owned && !broken
      decreases |calls| - |rs|
    {
      var n, r := |rs|, 0;
      broken, r := Perform(h, calls[n], gs);
      if broken {
        return;
      }
      TakeMore(calls, n);
      assert (rs + [r])[..n] == rs;
      gs := Granted(gs, calls[n], r);
      rs := rs + [r];
    }
    TakeAll(calls, |calls|);
    if h.freep != 0 {
      LinkedMeans(h.fl, h.ptr, h.size);
    }
    forall i, a | 0 <= i < |gs| && gs[i].p <= a < gs[i].p + gs[i].nbytes ensures OwnByte(gs, h.owned, h.fl, i, a) {
      GrantsApart(h.live, h.fl, h.size, h.base, h.owned, h.brk, gs, i, a);
    }
  }
}
