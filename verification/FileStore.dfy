/** Block ownership in the file system (balloc, bfree, bmap, itrunc in kernel/fs.c).

    A block is its BSIZE bytes; an indirect block holds NINDIRECT block numbers of four bytes,
    lowest first.  `used` is the free bitmap, one entry for each bit.  The pointers of an inode
    are its twelve direct addresses (0-11), the address of its indirect block (12) and the
    entries of that block (13 and up); 0 is no pointer.  Blocks below `meta` hold the boot block,
    the superblock, the log, the inodes and the bitmap. */
module FileStore {
  import opened Common

  const BSIZE := 1024
  const NDIRECT := 12
  const NINDIRECT := 256
  const MAXFILE := 268
  const POINTERS := 269

  type Block = b: seq<int> | |b| == BSIZE witness seq(BSIZE, _ => 0)

  function Zeros(): (b: Block) { seq(BSIZE, _ => 0) }

  // ----- Block numbers inside an indirect block -----

  function Word(b: Block, j: nat): (w: int)
    requires j < NINDIRECT
  {
    b[4 * j] + 0x100 * b[4 * j + 1] + 0x1_0000 * b[4 * j + 2] + 0x100_0000 * b[4 * j + 3]
  }

  function SetWord(b: Block, j: nat, w: nat): (r: Block)
    requires j < NINDIRECT
  {
    b[4 * j := w % 0x100][4 * j + 1 := w / 0x100 % 0x100][4 * j + 2 := w / 0x1_0000 % 0x100][4 * j + 3 := w / 0x100_0000]
  }

  /** A stored block number reads back, and the others are untouched. */
  lemma WordRoundTrip(b: Block, j: nat, w: nat, l: nat)
    requires j < NINDIRECT && l < NINDIRECT
    ensures Word(SetWord(b, j, w), l) == if l == j then w else Word(b, l)
  {
    if l == j {
      assert w / 0x1_0000 == w / 0x100 / 0x100;
      assert w / 0x100_0000 == w / 0x1_0000 / 0x100;
    }
  }

  /** A block number is stored lowest byte first. */
  lemma WordBytes(b: Block, j: nat, w: nat)
    requires j < NINDIRECT && w < 0x1_0000_0000
    ensures var r := SetWord(b, j, w);
            && r[4 * j] + 256 * (r[4 * j + 1] + 256 * (r[4 * j + 2] + 256 * r[4 * j + 3])) == w
            && 0 <= r[4 * j] < 256 && 0 <= r[4 * j + 1] < 256 && 0 <= r[4 * j + 2] < 256 && 0 <= r[4 * j + 3] < 256
  {
    assert w / 0x1_0000 == w / 0x100 / 0x100;
    assert w / 0x100_0000 == w / 0x1_0000 / 0x100;
  }

  lemma ZeroWord(j: nat)
    requires j < NINDIRECT
    ensures Word(Zeros(), j) == 0
  {
  }

  // ----- Pointers -----

  datatype Inode = Inode(addrs: seq<nat>, size: nat)

  /** Where the inodes and the bitmap start, and the first block after the bitmap. */
  datatype Layout = Layout(inodestart: nat, bmapstart: nat, meta: nat)

  datatype Fs = Fs(used: seq<bool>, blocks: seq<Block>, inodes: seq<Inode>, layout: Layout)

  datatype Ref = Ref(i: nat, k: nat)

  ghost predicate Shape(s: Fs) {
    && 0 < s.layout.meta <= |s.used| == |s.blocks|
    && (forall i :: 0 <= i < |s.inodes| ==> |s.inodes[i].addrs| == NDIRECT + 1)
  }

  predicate IsRef(s: Fs, r: Ref) { r.i < |s.inodes| && r.k < POINTERS }

  function Ptr(s: Fs, r: Ref): (p: int)
    requires Shape(s) && IsRef(s, r)
  {
    var addrs := s.inodes[r.i].addrs;
    if r.k <= NDIRECT then addrs[r.k]
    else if addrs[NDIRECT] == 0 || addrs[NDIRECT] >= |s.blocks| then 0
    else Word(s.blocks[addrs[NDIRECT]], r.k - NDIRECT - 1)
  }

  /** The first `j` entries of file `i`'s indirect block, which a truncation has already freed. */
  predicate Freed(r: Ref, i: nat, j: nat) { r.i == i && NDIRECT < r.k <= NDIRECT + j }

  /** Every pointer that is not freed names a block past the metadata that is marked in the bitmap,
      and no two name the same block; the metadata is marked. */
  ghost predicate InvBut(s: Fs, i: nat, j: nat) {
    && Shape(s)
    && (forall b :: 0 <= b < s.layout.meta ==> s.used[b])
    && (forall r :: IsRef(s, r) && !Freed(r, i, j) && Ptr(s, r) != 0 ==> s.layout.meta <= Ptr(s, r) < |s.used| && s.used[Ptr(s, r)])
    && (forall r, q :: IsRef(s, r) && IsRef(s, q) && !Freed(r, i, j) && !Freed(q, i, j) && Ptr(s, r) == Ptr(s, q) != 0 ==> r == q)
  }

  ghost predicate Inv(s: Fs) { InvBut(s, 0, 0) }

  /** No block belongs to two files, or twice to one, or is free or metadata while a file has it. */
  lemma NoSharedBlock(s: Fs, i: nat, k: nat, j: nat, l: nat)
    requires Inv(s) && i < |s.inodes| && j < |s.inodes| && k < 269 && l < 269
    ensures var b := Ptr(s, Ref(i, k));
            b != 0 ==> s.layout.meta <= b < |s.used| && s.used[b] && (Ptr(s, Ref(j, l)) == b ==> i == j && k == l)
  {
    assert IsRef(s, Ref(i, k)) && IsRef(s, Ref(j, l)) && !Freed(Ref(i, k), 0, 0) && !Freed(Ref(j, l), 0, 0);
  }

  function FileRef(i: nat, m: nat): (r: Ref) { Ref(i, if m < NDIRECT then m else m + 1) }

  /** Block `m` of file `i`, if there is one. */
  ghost function Data(s: Fs, i: nat, m: nat): (d: Option<Block>)
    requires Shape(s) && i < |s.inodes| && m < MAXFILE
  {
    var p := Ptr(s, FileRef(i, m));
    if 0 < p < |s.blocks| then Some(s.blocks[p]) else None
  }

  ghost predicate SameData(s: Fs, t: Fs) {
    && Shape(s) && Shape(t) && |s.inodes| == |t.inodes|
    && forall i, m :: 0 <= i < |s.inodes| && 0 <= m < MAXFILE ==> Data(t, i, m) == Data(s, i, m)
  }

  /** Only block `m0` of file `i0` differs. */
  ghost predicate SameDataBut(s: Fs, t: Fs, i0: nat, m0: nat) {
    && Shape(s) && Shape(t) && |s.inodes| == |t.inodes|
    && forall i, m :: 0 <= i < |s.inodes| && 0 <= m < MAXFILE && (i != i0 || m != m0) ==> Data(t, i, m) == Data(s, i, m)
  }

  ghost predicate Unowned(s: Fs, b: nat)
    requires Shape(s)
  {
    forall r :: IsRef(s, r) ==> Ptr(s, r) != b
  }

  // ----- Allocation -----

  /** balloc's effect: block `b` is marked and zeroed. */
  function Take(s: Fs, b: nat): (t: Fs)
    requires b < |s.used| == |s.blocks|
  {
    s.(used := s.used[b := true], blocks := s.blocks[b := Zeros()])
  }

  lemma TakePtr(s: Fs, b: nat, r: Ref)
    requires Inv(s) && b < |s.used| && !s.used[b] && IsRef(s, r)
    ensures Ptr(Take(s, b), r) == Ptr(s, r) != b
  {
    assert Ptr(s, Ref(r.i, NDIRECT)) != b;
    assert Ptr(s, r) != b;
  }

  /** A block that was free is owned by nobody, so taking it changes no file. */
  lemma TakeKeeps(s: Fs, b: nat)
    requires Inv(s) && b < |s.used| && !s.used[b]
    ensures Inv(Take(s, b)) && SameData(s, Take(s, b)) && Unowned(Take(s, b), b)
  {
    var t := Take(s, b);
    forall r | IsRef(t, r) ensures Ptr(t, r) == Ptr(s, r) != b {
      TakePtr(s, b, r);
    }
    forall i, m | 0 <= i < |s.inodes| && 0 <= m < MAXFILE ensures Data(t, i, m) == Data(s, i, m) {
      assert IsRef(s, FileRef(i, m));
    }
  }

  /** From `s` to `t` the pointer `r0` becomes `b`; no other pointer changes. */
  ghost predicate Sets(s: Fs, t: Fs, r0: Ref, b: int) {
    && Shape(s) && Shape(t) && |s.inodes| == |t.inodes| && s.layout == t.layout && |s.used| == |t.used|
    && (forall i :: 0 <= i < |s.inodes| ==> t.inodes[i].size == s.inodes[i].size)
    && (forall r :: IsRef(s, r) ==> Ptr(t, r) == if r == r0 then b else Ptr(s, r))
  }

  function SetAddr(s: Fs, i: nat, k: nat, b: nat): (t: Fs)
    requires i < |s.inodes| && k < |s.inodes[i].addrs|
  {
    s.(inodes := s.inodes[i := s.inodes[i].(addrs := s.inodes[i].addrs[k := b])])
  }

  /** bmap: a fresh block becomes direct block `k`. */
  lemma SetDirectKeeps(s: Fs, i: nat, k: nat, b: nat)
    requires Inv(s) && i < |s.inodes| && k < NDIRECT && Ptr(s, Ref(i, k)) == 0
    requires s.layout.meta <= b < |s.used| && s.used[b] && Unowned(s, b)
    ensures var t := SetAddr(s, i, k, b);
            Inv(t) && Sets(s, t, Ref(i, k), b) && SameDataBut(s, t, i, k) && Data(t, i, k) == Some(s.blocks[b])
  {
    var t := SetAddr(s, i, k, b);
    forall r | IsRef(t, r) ensures Ptr(t, r) == if r == Ref(i, k) then b else Ptr(s, r) {
    }
    assert Shape(t);
    forall j, m | 0 <= j < |s.inodes| && 0 <= m < MAXFILE && (j != i || m != k) ensures Data(t, j, m) == Data(s, j, m) {
      assert IsRef(s, FileRef(j, m)) && FileRef(j, m) != Ref(i, k);
    }
    assert FileRef(i, k) == Ref(i, k);
  }

  /** bmap: a fresh block of zeros becomes the indirect block; it has no entries. */
  lemma SetIndirectKeeps(s: Fs, i: nat, b: nat)
    requires Inv(s) && i < |s.inodes| && Ptr(s, Ref(i, NDIRECT)) == 0
    requires s.layout.meta <= b < |s.used| && s.used[b] && Unowned(s, b) && s.blocks[b] == Zeros()
    ensures var t := SetAddr(s, i, NDIRECT, b);
            Inv(t) && Sets(s, t, Ref(i, NDIRECT), b) && SameData(s, t)
  {
    var t := SetAddr(s, i, NDIRECT, b);
    assert Shape(t);
    forall r | IsRef(t, r) ensures Ptr(t, r) == if r == Ref(i, NDIRECT) then b else Ptr(s, r) {
      if r.i == i && r.k > NDIRECT {
        ZeroWord(r.k - NDIRECT - 1);
      }
    }
    forall j, m | 0 <= j < |s.inodes| && 0 <= m < MAXFILE ensures Data(t, j, m) == Data(s, j, m) {
      assert IsRef(s, FileRef(j, m)) && FileRef(j, m) != Ref(i, NDIRECT);
    }
  }

  function SetEntry(s: Fs, ind: nat, j: nat, b: nat): (t: Fs)
    requires ind < |s.blocks| && j < NINDIRECT
  {
    s.(blocks := s.blocks[ind := SetWord(s.blocks[ind], j, b)])
  }

  lemma SetEntryPtr(s: Fs, i: nat, j: nat, b: nat, r: Ref)
    requires Inv(s) && i < |s.inodes| && j < NINDIRECT && IsRef(s, r)
    requires var ind := Ptr(s, Ref(i, NDIRECT)); 0 < ind < |s.blocks|
    ensures var ind := Ptr(s, Ref(i, NDIRECT));
            Ptr(SetEntry(s, ind, j, b), r) == if r == Ref(i, NDIRECT + 1 + j) then b else Ptr(s, r)
  {
    var ind := Ptr(s, Ref(i, NDIRECT));
    if r.k > NDIRECT {
      if r.i == i {
        WordRoundTrip(s.blocks[ind], j, b, r.k - NDIRECT - 1);
      } else {
        assert IsRef(s, Ref(r.i, NDIRECT)) && IsRef(s, Ref(i, NDIRECT)) && Ref(r.i, NDIRECT) != Ref(i, NDIRECT);
      }
    }
  }

  /** bmap: a fresh block becomes entry `j` of the indirect block, which is file block 12 + j. */
  lemma SetEntryKeeps(s: Fs, i: nat, j: nat, b: nat)
    requires Inv(s) && i < |s.inodes| && j < NINDIRECT && Ptr(s, Ref(i, NDIRECT + 1 + j)) == 0
    requires var ind := Ptr(s, Ref(i, NDIRECT)); 0 < ind < |s.blocks|
    requires s.layout.meta <= b < |s.used| && s.used[b] && Unowned(s, b)
    ensures var t := SetEntry(s, Ptr(s, Ref(i, NDIRECT)), j, b);
            && Inv(t) && Sets(s, t, Ref(i, NDIRECT + 1 + j), b)
            && SameDataBut(s, t, i, NDIRECT + j) && Data(t, i, NDIRECT + j) == Some(s.blocks[b])
  {
    var ind := Ptr(s, Ref(i, NDIRECT));
    var t := SetEntry(s, ind, j, b);
    assert Shape(t);
    forall r | IsRef(t, r) ensures Ptr(t, r) == if r == Ref(i, NDIRECT + 1 + j) then b else Ptr(s, r) {
      SetEntryPtr(s, i, j, b, r);
    }
    forall l, m | 0 <= l < |s.inodes| && 0 <= m < MAXFILE && (l != i || m != NDIRECT + j) ensures Data(t, l, m) == Data(s, l, m) {
      assert IsRef(s, FileRef(l, m)) && FileRef(l, m) != Ref(i, NDIRECT + 1 + j) && FileRef(l, m) != Ref(i, NDIRECT);
      assert Ptr(s, FileRef(l, m)) != ind;
    }
    assert FileRef(i, NDIRECT + j) == Ref(i, NDIRECT + 1 + j);
    assert Ptr(s, Ref(i, NDIRECT)) != b;
  }

  /** A write to a data block changes no pointer and no other file block. */
  lemma PutDataKeeps(s: Fs, i: nat, m: nat, data: Block)
    requires Inv(s) && i < |s.inodes| && m < MAXFILE && Data(s, i, m).Some?
    ensures var p := Ptr(s, FileRef(i, m));
            var t := s.(blocks := s.blocks[p := data]);
            && Inv(t) && SameDataBut(s, t, i, m) && Data(t, i, m) == Some(data)
            && forall r :: IsRef(s, r) ==> Ptr(t, r) == Ptr(s, r)
  {
    var p := Ptr(s, FileRef(i, m));
    var t := s.(blocks := s.blocks[p := data]);
    assert Shape(t);
    forall r | IsRef(t, r) ensures Ptr(t, r) == Ptr(s, r) {
      assert IsRef(s, FileRef(i, m)) && IsRef(s, Ref(r.i, NDIRECT)) && FileRef(i, m) != Ref(r.i, NDIRECT);
      assert Ptr(s, Ref(r.i, NDIRECT)) != p;
    }
    forall l, n | 0 <= l < |s.inodes| && 0 <= n < MAXFILE && (l != i || n != m) ensures Data(t, l, n) == Data(s, l, n) {
      assert IsRef(s, FileRef(l, n)) && FileRef(l, n) != FileRef(i, m);
      assert Ptr(s, FileRef(l, n)) == 0 || Ptr(s, FileRef(l, n)) != p;
    }
  }

  // ----- Freeing -----

  /** itrunc: a direct block is freed (it is in use) and its address cleared. */
  lemma FreeDirectKeeps(s: Fs, i: nat, k: nat)
    requires Inv(s) && i < |s.inodes| && k < NDIRECT && Ptr(s, Ref(i, k)) != 0
    ensures var b := Ptr(s, Ref(i, k));
            && s.layout.meta <= b < |s.used| && s.used[b]
            && var t := SetAddr(s.(used := s.used[b := false]), i, k, 0);
               Inv(t) && Sets(s, t, Ref(i, k), 0)
  {
    var b := Ptr(s, Ref(i, k));
    var t := SetAddr(s.(used := s.used[b := false]), i, k, 0);
    assert Shape(t);
    forall r | IsRef(t, r) ensures Ptr(t, r) == if r == Ref(i, k) then 0 else Ptr(s, r) {
    }
    forall r | IsRef(t, r) && Ptr(t, r) != 0 ensures s.layout.meta <= Ptr(t, r) < |t.used| && t.used[Ptr(t, r)] {
      assert Ptr(s, r) != Ptr(s, Ref(i, k));
    }
  }

  /** itrunc: the block of entry `j` is in use when it is freed. */
  lemma FreeEntryKeeps(s: Fs, i: nat, j: nat)
    requires InvBut(s, i, j) && i < |s.inodes| && j < NINDIRECT && Ptr(s, Ref(i, NDIRECT + 1 + j)) != 0
    ensures var b := Ptr(s, Ref(i, NDIRECT + 1 + j));
            && s.layout.meta <= b < |s.used| && s.used[b]
            && InvBut(s.(used := s.used[b := false]), i, j + 1)
  {
    var r0 := Ref(i, NDIRECT + 1 + j);
    var b := Ptr(s, r0);
    var t := s.(used := s.used[b := false]);
    assert Shape(t);
    forall r | IsRef(t, r) ensures Ptr(t, r) == Ptr(s, r) {
    }
    forall r | IsRef(t, r) && !Freed(r, i, j + 1) && Ptr(t, r) != 0
      ensures s.layout.meta <= Ptr(t, r) < |t.used| && t.used[Ptr(t, r)]
    {
      assert r != r0 && !Freed(r, i, j);
    }
  }

  /** itrunc: the indirect block is freed last; with it go all its entries. */
  lemma FreeIndirectKeeps(s: Fs, i: nat)
    requires InvBut(s, i, NINDIRECT) && i < |s.inodes| && Ptr(s, Ref(i, NDIRECT)) != 0
    ensures var b := Ptr(s, Ref(i, NDIRECT));
            && s.layout.meta <= b < |s.used| && s.used[b]
            && var t := SetAddr(s.(used := s.used[b := false]), i, NDIRECT, 0);
               && Inv(t)
               && forall r :: IsRef(s, r) ==> Ptr(t, r) == if r.i == i && r.k >= NDIRECT then 0 else Ptr(s, r)
  {
    var b := Ptr(s, Ref(i, NDIRECT));
    var t := SetAddr(s.(used := s.used[b := false]), i, NDIRECT, 0);
    assert Shape(t);
    forall r | IsRef(t, r) ensures Ptr(t, r) == if r.i == i && r.k >= NDIRECT then 0 else Ptr(s, r) {
    }
    forall r | IsRef(t, r) && Ptr(t, r) != 0 ensures s.layout.meta <= Ptr(t, r) < |t.used| && t.used[Ptr(t, r)] {
      assert !Freed(r, i, NINDIRECT) && r != Ref(i, NDIRECT);
    }
  }

  /** Some pointer of file `i` with an index in `done` names block `b`. */
  ghost predicate Names(s: Fs, i: nat, done: set<nat>, b: int)
    requires Shape(s) && i < |s.inodes|
  {
    exists k :: k in done && k < POINTERS && Ptr(s, Ref(i, k)) == b
  }

  /** Of the blocks in use in `s`, exactly those named by the `done` pointers of file `i` are free in `used`. */
  ghost predicate FreedExactly(s: Fs, used: seq<bool>, i: nat, done: set<nat>) {
    && Shape(s) && i < |s.inodes| && |used| == |s.used| && used[0] == s.used[0]
    && forall b :: 0 < b < |used| ==> (used[b] <==> s.used[b] && !Names(s, i, done, b))
  }

  lemma FreeMore(s: Fs, used: seq<bool>, i: nat, done: set<nat>, k: nat)
    requires FreedExactly(s, used, i, done) && k < POINTERS && 0 <= Ptr(s, Ref(i, k)) < |used|
    ensures var p := Ptr(s, Ref(i, k));
            FreedExactly(s, if p == 0 then used else used[p := false], i, done + {k})
  {
  }
}
