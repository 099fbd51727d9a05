/** What a file holds, and what a write adds to the log (bmap, writei in kernel/fs.c). */
module FileContents {
  import opened Common
  import opened FileStore

  const BPB := 8192
  const IPB := 16
  const MAXBYTES := 274432

  /** The bitmap block with the bit of block `b`. */
  function Bblock(s: Fs, b: int): (r: int) { s.layout.bmapstart + b / BPB }

  /** The block with the on-disk copy of inode `i`. */
  function Iblock(s: Fs, i: nat): (r: int) { s.layout.inodestart + i / IPB }

  /** A bitmap block covers 8192 blocks and an inode block holds 16 inodes, each in order from the first. */
  lemma BlocksOf(s: Fs, b: nat, i: nat, q: nat)
    ensures Bblock(s, b) == s.layout.bmapstart + q <==> 8192 * q <= b < 8192 * (q + 1)
    ensures Iblock(s, i) == s.layout.inodestart + q <==> 16 * q <= i < 16 * (q + 1)
  {
  }

  // ----- Growing a file -----

  /** From `s` to `t` the free block `b` was taken and the empty pointer `r0` set to it. */
  ghost predicate Adds(s: Fs, t: Fs, r0: Ref, b: nat) {
    && Inv(s) && Inv(t) && IsRef(s, r0) && Ptr(s, r0) == 0
    && s.layout.meta <= b < |s.used| && !s.used[b] && t.used == s.used[b := true]
    && Sets(s, t, r0, b)
  }

  lemma TakeSets(s: Fs, b: nat, r0: Ref)
    requires Inv(s) && b < |s.used| && !s.used[b] && IsRef(s, r0)
    ensures Sets(s, Take(s, b), r0, Ptr(s, r0))
  {
    forall r | IsRef(s, r) ensures Ptr(Take(s, b), r) == Ptr(s, r) {
      TakePtr(s, b, r);
    }
  }

  lemma AddDirect(s: Fs, i: nat, k: nat, b: nat)
    requires Inv(s) && i < |s.inodes| && k < NDIRECT && Ptr(s, Ref(i, k)) == 0
    requires s.layout.meta <= b < |s.used| && !s.used[b]
    ensures var t := SetAddr(Take(s, b), i, k, b);
            Adds(s, t, Ref(i, k), b) && SameDataBut(s, t, i, k) && Data(t, i, k) == Some(Zeros())
  {
    TakeKeeps(s, b);
    TakeSets(s, b, Ref(i, k));
    SetDirectKeeps(Take(s, b), i, k, b);
  }

  lemma AddIndirect(s: Fs, i: nat, b: nat)
    requires Inv(s) && i < |s.inodes| && Ptr(s, Ref(i, NDIRECT)) == 0
    requires s.layout.meta <= b < |s.used| && !s.used[b]
    ensures var t := SetAddr(Take(s, b), i, NDIRECT, b);
            Adds(s, t, Ref(i, NDIRECT), b) && SameData(s, t)
  {
    TakeKeeps(s, b);
    TakeSets(s, b, Ref(i, NDIRECT));
    SetIndirectKeeps(Take(s, b), i, b);
  }

  lemma AddEntry(s: Fs, i: nat, j: nat, b: nat)
    requires Inv(s) && i < |s.inodes| && j < NINDIRECT && Ptr(s, Ref(i, NDIRECT + 1 + j)) == 0
    requires Ptr(s, Ref(i, NDIRECT)) != 0
    requires s.layout.meta <= b < |s.used| && !s.used[b]
    ensures var t := SetEntry(Take(s, b), Ptr(s, Ref(i, NDIRECT)), j, b);
            && Adds(s, t, Ref(i, NDIRECT + 1 + j), b)
            && SameDataBut(s, t, i, NDIRECT + j) && Data(t, i, NDIRECT + j) == Some(Zeros())
  {
    TakeKeeps(s, b);
    TakeSets(s, b, Ref(i, NDIRECT));
    SetEntryKeeps(Take(s, b), i, j, b);
  }

  ghost predicate NewPtr(s: Fs, t: Fs, i: nat, b: nat)
    requires Shape(s) && Shape(t) && i < |s.inodes| == |t.inodes|
  {
    exists k :: 0 <= k < POINTERS && Ptr(s, Ref(i, k)) == 0 && Ptr(t, Ref(i, k)) == b
  }

  /** File `i` gained pointers to blocks that were free and lost none; the newly marked blocks are
      exactly those of the new pointers, and the other files kept theirs. */
  ghost predicate Grown(s: Fs, t: Fs, i: nat) {
    && Inv(s) && Inv(t) && s.layout == t.layout && |s.used| == |t.used| && i < |s.inodes| == |t.inodes|
    && (forall r :: IsRef(s, r) && (Ptr(s, r) != 0 || r.i != i) ==> Ptr(t, r) == Ptr(s, r))
    && (forall b :: 0 <= b < |s.used| ==> (t.used[b] <==> s.used[b] || NewPtr(s, t, i, b)))
    && (forall k :: 0 <= k < POINTERS && Ptr(s, Ref(i, k)) == 0 && Ptr(t, Ref(i, k)) != 0 ==> !s.used[Ptr(t, Ref(i, k))])
  }

  lemma AddsGrown(s: Fs, t: Fs, i: nat, k: nat, b: nat)
    requires Adds(s, t, Ref(i, k), b)
    ensures Grown(s, t, i)
  {
    assert Ptr(s, Ref(i, k)) == 0 && Ptr(t, Ref(i, k)) == b;
  }

  lemma SamePtrsGrown(s: Fs, t: Fs, i: nat)
    requires Inv(s) && Inv(t) && i < |s.inodes| == |t.inodes| && t.used == s.used && t.layout == s.layout
    requires forall r :: IsRef(s, r) ==> Ptr(t, r) == Ptr(s, r)
    ensures Grown(s, t, i)
  {
  }

  lemma NewPtrOnce(s: Fs, t: Fs, u: Fs, i: nat, b: nat)
    requires Grown(s, t, i) && Grown(t, u, i) && 0 < b < |s.used|
    ensures NewPtr(s, u, i, b) <==> NewPtr(s, t, i, b) || NewPtr(t, u, i, b)
  {
    if k :| 0 <= k < POINTERS && Ptr(s, Ref(i, k)) == 0 && Ptr(t, Ref(i, k)) == b {
      assert IsRef(t, Ref(i, k)) && Ptr(u, Ref(i, k)) == b;
    } else if k :| 0 <= k < POINTERS && Ptr(t, Ref(i, k)) == 0 && Ptr(u, Ref(i, k)) == b {
      assert IsRef(s, Ref(i, k)) && Ptr(s, Ref(i, k)) == 0;
    }
  }

  lemma GrownTrans(s: Fs, t: Fs, u: Fs, i: nat)
    requires Grown(s, t, i) && Grown(t, u, i)
    ensures Grown(s, u, i)
  {
    forall b: nat | b < |s.used| ensures u.used[b] <==> s.used[b] || NewPtr(s, u, i, b) {
      if b > 0 {
        NewPtrOnce(s, t, u, i, b);
      }
    }
    forall k | 0 <= k < POINTERS && Ptr(s, Ref(i, k)) == 0 && Ptr(u, Ref(i, k)) != 0 ensures !s.used[Ptr(u, Ref(i, k))] {
      assert Ptr(t, Ref(i, k)) == 0 || Ptr(t, Ref(i, k)) == Ptr(u, Ref(i, k));
    }
  }

  ghost predicate Owned(s: Fs, b: nat)
    requires Shape(s)
  {
    exists r :: IsRef(s, r) && Ptr(s, r) == b
  }

  /** No block is lost: one that is marked holds metadata or is named by a pointer. */
  ghost predicate NoLeak(s: Fs) {
    Shape(s) && forall b :: s.layout.meta <= b < |s.used| && s.used[b] ==> Owned(s, b)
  }

  lemma GrownNoLeak(s: Fs, t: Fs, i: nat)
    requires Grown(s, t, i) && NoLeak(s)
    ensures NoLeak(t)
  {
  }

  // ----- Contents -----

  function Splice(c: seq<int>, off: nat, d: seq<int>): (r: seq<int>)
    requires off <= |c|
    ensures |r| == if off + |d| > |c| then off + |d| else |c|
  {
    c[..off] + d + if off + |d| < |c| then c[off + |d|..] else []
  }

  lemma SpliceAgain(c: seq<int>, off: nat, d: seq<int>, e: seq<int>)
    requires off <= |c|
    ensures Splice(Splice(c, off, d), off + |d|, e) == Splice(c, off, d + e)
  {
  }

  /** The blocks of file `i` hold the bytes `c`; there may be blocks beyond them. */
  ghost predicate Holds(s: Fs, i: nat, c: seq<int>) {
    && Shape(s) && i < |s.inodes| && |c| <= MAXBYTES
    && (forall m :: 0 <= m < MAXFILE && m * BSIZE < |c| ==> Data(s, i, m).Some?)
    && (forall m, o :: 0 <= m < MAXFILE && 0 <= o < BSIZE && m * BSIZE + o < |c| ==> Data(s, i, m).value[o] == c[m * BSIZE + o])
  }

  function Overwrite(b: Block, o: nat, d: seq<int>): (r: Block)
    requires o + |d| <= BSIZE
  {
    b[..o] + d + b[o + |d|..]
  }

  /** What bmap hands out for a file block: the block that is there, or zeros. */
  ghost function Base(s: Fs, i: nat, m: nat): (b: Block)
    requires Shape(s) && i < |s.inodes| && m < MAXFILE
  {
    match Data(s, i, m) case Some(v) => v case None => Zeros()
  }

  /** The bytes from `off` on that `d` replaces or adds, and those it leaves. */
  lemma SpliceAt(c: seq<int>, off: nat, d: seq<int>, x: nat)
    requires off <= |c| && x < |Splice(c, off, d)|
    ensures off <= x < off + |d| ==> Splice(c, off, d)[x] == d[x - off]
    ensures !(off <= x < off + |d|) ==> x < |c| && Splice(c, off, d)[x] == c[x]
  {
  }

  lemma OverwriteAt(b: Block, o: nat, d: seq<int>, x: nat)
    requires o + |d| <= BSIZE && x < BSIZE
    ensures Overwrite(b, o, d)[x] == if o <= x < o + |d| then d[x - o] else b[x]
  {
  }

  lemma ChunkPlace(off: nat, n: nat, m: nat, o: nat)
    requires o < BSIZE && off % BSIZE + n <= BSIZE
    ensures off <= m * BSIZE + o < off + n <==> m == off / BSIZE && off % BSIZE <= o < off % BSIZE + n
    ensures m == off / BSIZE ==> m * BSIZE + o - off == o - off % BSIZE
  {
    assert off == off / BSIZE * BSIZE + off % BSIZE;
  }

  // Byte `o` of file block `m`, which was `v` and is `w`.
  lemma ChunkByte(v: Option<Block>, w: Option<Block>, c: seq<int>, off: nat, d: seq<int>, m: nat, o: nat)
    requires off <= |c| && off % BSIZE + |d| <= BSIZE && o < BSIZE
    requires m * BSIZE < |c| ==> v.Some? && (m * BSIZE + o < |c| ==> v.value[o] == c[m * BSIZE + o])
    requires if m == off / BSIZE then w == Some(Overwrite(if v.Some? then v.value else Zeros(), off % BSIZE, d)) else w == v
    requires m * BSIZE + o < |Splice(c, off, d)|
    ensures w.Some? && w.value[o] == Splice(c, off, d)[m * BSIZE + o]
  {
    SpliceAt(c, off, d, m * BSIZE + o);
    ChunkPlace(off, |d|, m, o);
    if m == off / BSIZE {
      OverwriteAt(if v.Some? then v.value else Zeros(), off % BSIZE, d, o);
    }
  }

  /** Writing inside one block, taken at the end of the file if need be, splices the bytes in. */
  lemma ChunkHolds(s: Fs, t: Fs, i: nat, c: seq<int>, off: nat, d: seq<int>)
    requires Holds(s, i, c) && off <= |c| && off % BSIZE + |d| <= BSIZE && off / BSIZE < MAXFILE
    requires SameDataBut(s, t, i, off / BSIZE)
    requires Data(t, i, off / BSIZE) == Some(Overwrite(Base(s, i, off / BSIZE), off % BSIZE, d))
    ensures Holds(t, i, Splice(c, off, d))
  {
    var c' := Splice(c, off, d);
    forall m | 0 <= m < MAXFILE && m * BSIZE < |c'| ensures Data(t, i, m).Some? {
      assert m * BSIZE < |c| ==> Data(s, i, m).Some?;
    }
    forall m, o | 0 <= m < MAXFILE && 0 <= o < BSIZE && m * BSIZE + o < |c'|
      ensures Data(t, i, m).value[o] == c'[m * BSIZE + o]
    {
      ChunkByte(Data(s, i, m), Data(t, i, m), c, off, d, m, o);
    }
  }

  /** What a copy from user memory that fails leaves: the part that was copied shows up to the end of the
      file, which stays where it is. */
  function Tear(c: seq<int>, off: nat, part: seq<int>): (r: seq<int>)
    requires off <= |c|
    ensures |r| == |c|
  {
    Splice(c, off, part)[..|c|]
  }

  lemma TearNothing(c: seq<int>, off: nat)
    requires off <= |c|
    ensures Tear(c, off, []) == c
  {
  }

  lemma HoldsPrefix(s: Fs, i: nat, c: seq<int>, n: nat)
    requires Holds(s, i, c) && n <= |c|
    ensures Holds(s, i, c[..n])
  {
  }

  /** Every byte below the size of the file has a block. */
  ghost predicate HoleFree(s: Fs, i: nat) {
    && Shape(s) && i < |s.inodes| && s.inodes[i].size <= MAXBYTES
    && (forall m :: 0 <= m < MAXFILE && m * BSIZE < s.inodes[i].size ==> Data(s, i, m).Some?)
  }

  /** The bytes of a file. */
  ghost function Contents(s: Fs, i: nat): (c: seq<int>)
    requires HoleFree(s, i)
    ensures |c| == s.inodes[i].size && Holds(s, i, c)
  {
    var c := seq(s.inodes[i].size, k requires 0 <= k < s.inodes[i].size => Data(s, i, k / BSIZE).value[k % BSIZE]);
    assert forall m, o :: 0 <= m < MAXFILE && 0 <= o < BSIZE && m * BSIZE + o < |c| ==> c[m * BSIZE + o] == Data(s, i, m).value[o];
    c
  }

  /** How a file block is named: by a direct address, or by four bytes of the indirect block, lowest first. */
  lemma PointerAt(s: Fs, i: nat, m: nat)
    requires Shape(s) && i < |s.inodes| && m < 268 && Ptr(s, FileRef(i, m)) != 0
    ensures m < 12 ==> Ptr(s, FileRef(i, m)) == s.inodes[i].addrs[m]
    ensures m >= 12 ==>
              && 0 < s.inodes[i].addrs[12] < |s.blocks|
              && var d, j := s.blocks[s.inodes[i].addrs[12]], 4 * (m - 12);
                 Ptr(s, FileRef(i, m)) == d[j] + 256 * (d[j + 1] + 256 * (d[j + 2] + 256 * d[j + 3]))
  {
    assert FileRef(i, m) == Ref(i, if m < 12 then m else m + 1);
  }

  /** Byte `x` of a file is in block `x / 1024` of the file. */
  lemma ByteAt(s: Fs, i: nat, x: nat)
    requires HoleFree(s, i) && x < s.inodes[i].size
    ensures x / 1024 < 268
    ensures var b := Ptr(s, FileRef(i, x / 1024)); 0 < b < |s.blocks| && Contents(s, i)[x] == s.blocks[b][x % 1024]
  {
    var m := x / BSIZE;
    assert m < MAXFILE && m * BSIZE + x % BSIZE == x;
    assert Data(s, i, m).Some? && Contents(s, i)[x] == Data(s, i, m).value[x % BSIZE];
  }

  lemma HeldSlice(s: Fs, i: nat, c: seq<int>, off: nat, k: nat)
    requires Holds(s, i, c) && 0 < k && off + k <= |c| && off % BSIZE + k <= BSIZE
    ensures var d := Data(s, i, off / BSIZE); d.Some? && d.value[off % BSIZE..off % BSIZE + k] == c[off..off + k]
  {
  }

  /** A file holds one byte sequence. */
  lemma ContentsUnique(s: Fs, i: nat, c: seq<int>)
    requires Holds(s, i, c) && s.inodes[i].size == |c|
    ensures HoleFree(s, i) && Contents(s, i) == c
  {
  }

  /** The blocks of every file but `i` are as they were. */
  ghost predicate OthersSame(s: Fs, t: Fs, i: nat) {
    && Shape(s) && Shape(t) && |s.inodes| == |t.inodes|
    && forall j, m :: 0 <= j < |s.inodes| && 0 <= m < MAXFILE && j != i ==> Data(t, j, m) == Data(s, j, m)
  }

  ghost predicate SameSizes(s: Fs, t: Fs) {
    |s.inodes| == |t.inodes| && forall j :: 0 <= j < |s.inodes| ==> t.inodes[j].size == s.inodes[j].size
  }

  ghost predicate Full(s: Fs) { forall b :: 0 <= b < |s.used| ==> s.used[b] }

  // ----- What a write logs -----

  /** Everything that changed from `s` to `t` is in `logged`: a block, or the bitmap block of a bit;
      a block that was taken is logged too, since it was zeroed. */
  ghost predicate ChangesLogged(s: Fs, t: Fs, logged: set<int>) {
    && |s.blocks| == |t.blocks| == |s.used| == |t.used|
    && (forall b :: 0 <= b < |s.blocks| && t.blocks[b] != s.blocks[b] ==> b in logged)
    && (forall b :: 0 <= b < |s.used| && t.used[b] != s.used[b] ==> Bblock(s, b) in logged && (t.used[b] ==> b in logged))
  }

  lemma ChangesLoggedTrans(s: Fs, t: Fs, u: Fs, logged: set<int>, logged': set<int>)
    requires ChangesLogged(s, t, logged) && ChangesLogged(t, u, logged') && logged <= logged' && s.layout == t.layout
    ensures ChangesLogged(s, u, logged')
  {
  }

  /** The indirect block and its bitmap block. */
  ghost function IndLog(s: Fs, i: nat): (r: set<int>)
    requires Shape(s) && i < |s.inodes|
    ensures |r| <= 2
  {
    var ind := Ptr(s, Ref(i, NDIRECT));
    if ind == 0 then {} else {ind, Bblock(s, ind)}
  }

  /** Beyond `before`, the log holds only `extra`, the indirect block and its bitmap block. */
  ghost predicate LogWithin(s: Fs, i: nat, extra: set<int>, before: set<int>, logged: set<int>) {
    && Shape(s) && i < |s.inodes|
    && logged <= before + extra + IndLog(s, i)
  }

  lemma LogStep(s: Fs, t: Fs, i: nat, extra: set<int>, before: set<int>, logged: set<int>, more: set<int>, logged': set<int>)
    requires Grown(s, t, i) && LogWithin(s, i, extra, before, logged)
    requires logged' <= logged + more + IndLog(t, i)
    ensures LogWithin(t, i, extra + more, before, logged')
  {
  }

  function Ceil(n: nat): (m: nat)
    ensures (m - 1) * BSIZE < n <= m * BSIZE
  {
    (n + 1023) / 1024
  }

  /** Blocks that writing `n` bytes at `off` touches, and those it adds to a file of `size` bytes. */
  function Touched(off: nat, n: nat): (r: nat) { if n == 0 then 0 else Ceil(off + n) - off / BSIZE }
  function Added(size: nat, off: nat, n: nat): (r: nat) { if off + n <= size then 0 else Ceil(off + n) - Ceil(size) }

  lemma LogCount(s: Fs, i: nat, extra: set<int>, before: set<int>, logged: set<int>, inodeBlock: int)
    requires LogWithin(s, i, extra, before, logged)
    ensures |logged + {inodeBlock} - before| <= |extra| + 3
  {
    Subset(logged + {inodeBlock} - before, extra + IndLog(s, i) + {inodeBlock});
  }

  /** Three blocks' worth of bytes touch at most four blocks, and if four, one is not new. */
  lemma ThreeBlocks(size: nat, off: nat, n: nat)
    requires off <= size && n <= 3 * BSIZE
    ensures Touched(off, n) + Added(size, off, n) <= 7
  {
  }

  lemma Subset(a: set<int>, b: set<int>)
    requires a <= b
    ensures |a| <= |b|
  {
    assert b == a + (b - a);
  }
}
