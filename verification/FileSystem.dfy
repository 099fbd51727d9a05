/** The file layer: block allocation, block maps, reads, writes and truncation (kernel/fs.c).
    `inodes` are the copies in memory and `dinodes` those on disk; `logged` are the block numbers
    handed to log_write since the operation began. */
module FileSystem {
  import opened Common
  import opened FileStore
  import opened FileContents

  const UINTS := 0x1_0000_0000

  /** What bmap does to the file system when it returns `addr` for block `bn` of file `i`. */
  ghost predicate Mapped(s: Fs, t: Fs, i: nat, bn: nat, addr: int)
    requires bn < MAXFILE
  {
    && Grown(s, t, i) && SameSizes(s, t)
    && (addr == 0 ==> SameData(s, t) && Data(s, i, bn).None? && Full(t))
    && (addr != 0 ==> addr == Ptr(t, FileRef(i, bn)) && SameDataBut(s, t, i, bn) && Data(t, i, bn) == Some(Base(s, i, bn)))
    && (Data(s, i, bn).Some? ==> t == s && addr != 0)
  }

  /** What bmap adds to the log. */
  ghost predicate MapLogged(s: Fs, t: Fs, i: nat, bn: nat, addr: int, logged: set<int>, logged': set<int>)
    requires Shape(s) && Shape(t) && i < |s.inodes| == |t.inodes| && bn < MAXFILE
  {
    && logged <= logged' && ChangesLogged(s, t, logged')
    && (Data(s, i, bn).Some? ==> logged' == logged)
    && logged' <= logged + (if Data(s, i, bn).None? && addr != 0 then {addr, Bblock(t, addr)} else {}) + IndLog(t, i)
  }

  lemma DirectMapped(s: Fs, i: nat, k: nat, b: nat, logged: set<int>)
    requires Inv(s) && i < |s.inodes| && k < NDIRECT && Ptr(s, Ref(i, k)) == 0
    requires s.layout.meta <= b < |s.used| && !s.used[b]
    ensures var t := SetAddr(Take(s, b), i, k, b);
            Mapped(s, t, i, k, b) && MapLogged(s, t, i, k, b, logged, logged + {Bblock(s, b), b})
  {
    assert FileRef(i, k) == Ref(i, k);
    AddDirect(s, i, k, b);
    AddsGrown(s, SetAddr(Take(s, b), i, k, b), i, k, b);
  }

  lemma EntryMapped(s: Fs, i: nat, j: nat, b: nat, logged: set<int>)
    requires Inv(s) && i < |s.inodes| && j < NINDIRECT && Ptr(s, Ref(i, NDIRECT + 1 + j)) == 0
    requires s.layout.meta <= b < |s.used| && !s.used[b] && Ptr(s, Ref(i, NDIRECT)) != 0
    ensures var ind := Ptr(s, Ref(i, NDIRECT));
            var t := SetEntry(Take(s, b), ind, j, b);
            && Mapped(s, t, i, NDIRECT + j, b)
            && MapLogged(s, t, i, NDIRECT + j, b, logged, logged + {Bblock(s, b), b} + {ind})
  {
    var ind := Ptr(s, Ref(i, NDIRECT));
    var t := SetEntry(Take(s, b), ind, j, b);
    assert FileRef(i, NDIRECT + j) == Ref(i, NDIRECT + 1 + j);
    AddEntry(s, i, j, b);
    AddsGrown(s, t, i, NDIRECT + 1 + j, b);
    assert Ptr(t, Ref(i, NDIRECT)) == ind;
  }

  lemma NotMapped(s: Fs, i: nat, bn: nat)
    requires Inv(s) && i < |s.inodes| && bn < MAXFILE
    ensures Data(s, i, bn).None? && Full(s) ==> Mapped(s, s, i, bn, 0)
    ensures Data(s, i, bn).Some? ==> Mapped(s, s, i, bn, Ptr(s, FileRef(i, bn)))
  {
  }

  /** Taking the indirect block and then mapping an entry is one mapping. */
  lemma MappedThrough(s: Fs, t: Fs, u: Fs, i: nat, bn: nat, addr: int, a: set<int>, b: set<int>, c: set<int>)
    requires bn < MAXFILE && Grown(s, t, i) && Data(s, i, bn).None?
    requires SameSizes(s, t) && SameData(s, t) && Mapped(t, u, i, bn, addr)
    requires a <= b <= a + IndLog(t, i) && ChangesLogged(s, t, b) && MapLogged(t, u, i, bn, addr, b, c)
    ensures Mapped(s, u, i, bn, addr) && MapLogged(s, u, i, bn, addr, a, c)
  {
    GrownTrans(s, t, u, i);
    ChangesLoggedTrans(s, t, u, b, c);
    assert IsRef(t, Ref(i, NDIRECT)) && IndLog(t, i) <= IndLog(u, i);
  }

  /** Every file block that the bytes from `off` to `off + n` lie in is logged. */
  ghost predicate WriteLogged(s: Fs, i: nat, off: nat, n: nat, logged: set<int>)
    requires Shape(s) && i < |s.inodes|
  {
    n > 0 ==> forall m :: off / BSIZE <= m < MAXFILE && m * BSIZE < off + n ==> Ptr(s, FileRef(i, m)) in logged
  }

  lemma WriteLoggedStep(s: Fs, t: Fs, i: nat, c: seq<int>, off: nat, n: nat, k: nat, logged: set<int>, logged': set<int>)
    requires Grown(s, t, i) && Holds(s, i, c) && off + n <= |c| && logged <= logged' && WriteLogged(s, i, off, n, logged)
    requires n == 0 || (off + n) % BSIZE == 0
    requires 0 < k && (off + n) % BSIZE + k <= BSIZE && (off + n) / BSIZE < MAXFILE
    requires Ptr(t, FileRef(i, (off + n) / BSIZE)) in logged'
    ensures WriteLogged(t, i, off, n + k, logged')
  {
    forall m | off / BSIZE <= m < MAXFILE && m * BSIZE < off + n + k ensures Ptr(t, FileRef(i, m)) in logged' {
      if m != (off + n) / BSIZE {
        assert m * BSIZE < off + n;
        assert Data(s, i, m).Some? && IsRef(s, FileRef(i, m));
      }
    }
  }

  lemma CeilInside(x: nat, k: nat)
    requires 0 < k && x % BSIZE + k <= BSIZE
    ensures Ceil(x + k) == x / BSIZE + 1
  {
  }

  lemma CeilAt(x: nat)
    ensures Ceil(x) == x / BSIZE + if x % BSIZE == 0 then 0 else 1
  {
  }

  /** One more block is touched, and it is added exactly when it starts at the end of the file. */
  lemma ChunkCounts(size: nat, off: nat, n: nat, k: nat)
    requires off <= size && (n == 0 || (off + n) % BSIZE == 0)
    requires 0 < k && (off + n) % BSIZE + k <= BSIZE
    ensures Touched(off, n + k) == Touched(off, n) + 1
    ensures Added(size, off, n + k) == Added(size, off, n) + if size <= off + n && (off + n) % BSIZE == 0 then 1 else 0
  {
    CeilInside(off + n, k);
    CeilAt(off + n);
    if off + n < size < off + n + k {
      CeilInside(off + n, size - off - n);
    }
  }

  /** A write to a file of `size` bytes that ends early at `end`: every block is in use and the next
      byte needs a new one. */
  ghost predicate OutOfSpace(t: Fs, size: nat, end: nat) { Full(t) && size <= end && end % BSIZE == 0 }

  /** Blocks of file `i` beyond the first `size` bytes are old ones. */
  ghost predicate TightEnd(s: Fs, t: Fs, i: nat, size: nat)
    requires Shape(s) && Shape(t) && i < |s.inodes| == |t.inodes|
  {
    forall m :: 0 <= m < MAXFILE && Data(t, i, m).Some? && m * BSIZE >= size ==> Data(s, i, m).Some?
  }

  lemma TightTrans(s: Fs, t: Fs, u: Fs, i: nat, a: nat, b: nat)
    requires Shape(s) && Shape(t) && Shape(u) && i < |s.inodes| == |t.inodes| == |u.inodes| && a <= b
    requires TightEnd(s, t, i, a) && TightEnd(t, u, i, b)
    ensures TightEnd(s, u, i, b)
  {
  }

  /** From `s` to `t` file `i` has grown, it now holds `c`, and the other files are as they were. */
  ghost predicate Moved(s: Fs, t: Fs, i: nat, c: seq<int>) {
    Grown(s, t, i) && SameSizes(s, t) && OthersSame(s, t, i) && Holds(t, i, c)
  }

  lemma MovedTrans(s: Fs, t: Fs, u: Fs, i: nat, c: seq<int>, c': seq<int>)
    requires Moved(s, t, i, c) && Moved(t, u, i, c')
    ensures Moved(s, u, i, c')
  {
    GrownTrans(s, t, u, i);
  }

  /** What writing inside one block, at `off` of a file with blocks for `size` bytes, logs. */
  ghost predicate WroteLogged(s: Fs, t: Fs, i: nat, size: nat, off: nat, ok: bool, logged: set<int>, logged': set<int>)
    requires Shape(t) && i < |t.inodes| && off / BSIZE < MAXFILE
  {
    && ChangesLogged(s, t, logged') && logged <= logged'
    && if ok then
         var addr := Ptr(t, FileRef(i, off / BSIZE));
         && addr in logged'
         && logged' <= logged + {addr} + (if off == size && off % BSIZE == 0 then {Bblock(t, addr)} else {}) + IndLog(t, i)
       else
         logged' <= logged + IndLog(t, i)
  }

  /** What writing inside one block, at `off` of a file of `size` bytes that then holds `c`, does. */
  ghost predicate Wrote(s: Fs, t: Fs, i: nat, size: nat, off: nat, c: seq<int>, ok: bool, logged: set<int>, logged': set<int>)
    requires off / BSIZE < MAXFILE
  {
    && Moved(s, t, i, c)
    && WroteLogged(s, t, i, size, off, ok, logged, logged')
    && TightEnd(s, t, i, |c|)
    && (!ok ==> OutOfSpace(t, size, off))
  }

  lemma BlockMoved(s: Fs, t: Fs, i: nat, c: seq<int>, off: nat, d: seq<int>, addr: int)
    requires Inv(s) && Holds(s, i, c) && off <= |c| && off / BSIZE < MAXFILE && addr != 0
    requires off % BSIZE + |d| <= BSIZE && Mapped(s, t, i, off / BSIZE, addr)
    ensures 0 < addr < |t.blocks|
    ensures var u := t.(blocks := t.blocks[addr := Overwrite(t.blocks[addr], off % BSIZE, d)]);
            && Moved(s, u, i, Splice(c, off, d)) && SameDataBut(s, u, i, off / BSIZE)
            && forall r :: IsRef(t, r) ==> Ptr(u, r) == Ptr(t, r)
  {
    var m := off / BSIZE;
    var u := t.(blocks := t.blocks[addr := Overwrite(t.blocks[addr], off % BSIZE, d)]);
    PutDataKeeps(t, i, m, Overwrite(t.blocks[addr], off % BSIZE, d));
    assert Grown(s, u, i) by {
      SamePtrsGrown(t, u, i);
      GrownTrans(s, t, u, i);
    }
    ChunkHolds(s, u, i, c, off, d);
  }

  lemma BlockLogged(s: Fs, t: Fs, u: Fs, i: nat, c: seq<int>, off: nat, addr: int, a: set<int>, b: set<int>)
    requires Holds(s, i, c) && off <= |c| && off / BSIZE < MAXFILE && addr != 0
    requires Mapped(s, t, i, off / BSIZE, addr) && MapLogged(s, t, i, off / BSIZE, addr, a, b)
    requires Shape(u) && u == t.(blocks := u.blocks) && ChangesLogged(t, u, {addr})
    requires forall r :: IsRef(t, r) ==> Ptr(u, r) == Ptr(t, r)
    ensures WroteLogged(s, u, i, |c|, off, true, a, b + {addr})
  {
    assert Data(s, i, off / BSIZE).None? ==> off == |c| && off % BSIZE == 0;
    ChangesLoggedTrans(s, t, u, b, b + {addr});
    assert IsRef(t, FileRef(i, off / BSIZE)) && IsRef(t, Ref(i, NDIRECT));
  }

  lemma BlockWritten(s: Fs, t: Fs, i: nat, c: seq<int>, off: nat, d: seq<int>, addr: int, a: set<int>, b: set<int>)
    requires Inv(s) && Holds(s, i, c) && off <= |c| && off / BSIZE < MAXFILE && addr != 0
    requires 0 < |d| && off % BSIZE + |d| <= BSIZE
    requires Mapped(s, t, i, off / BSIZE, addr) && MapLogged(s, t, i, off / BSIZE, addr, a, b)
    ensures 0 < addr < |t.blocks|
    ensures Wrote(s, t.(blocks := t.blocks[addr := Overwrite(t.blocks[addr], off % BSIZE, d)]), i, |c|, off, Splice(c, off, d), true, a, b + {addr})
  {
    BlockMoved(s, t, i, c, off, d, addr);
    BlockLogged(s, t, t.(blocks := t.blocks[addr := Overwrite(t.blocks[addr], off % BSIZE, d)]), i, c, off, addr, a, b);
  }

  /** What a copy that fails after `part`, at `off` of a file that holds `c`, does: the block at `addr` is
      changed and need not be logged. */
  ghost predicate Torn(s: Fs, t: Fs, i: nat, c: seq<int>, off: nat, part: seq<int>, addr: int, logged: set<int>, logged': set<int>)
    requires off <= |c|
  {
    && Moved(s, t, i, Tear(c, off, part))
    && ChangesLogged(s, t, logged' + {addr}) && logged <= logged'
    && logged' <= logged + (if off == |c| && off % BSIZE == 0 then {addr, Bblock(t, addr)} else {}) + IndLog(t, i)
  }

  lemma BlockTorn(s: Fs, t: Fs, i: nat, c: seq<int>, off: nat, part: seq<int>, addr: int, a: set<int>, b: set<int>)
    requires Inv(s) && Holds(s, i, c) && off <= |c| && off / BSIZE < MAXFILE && addr != 0
    requires off % BSIZE + |part| <= BSIZE
    requires Mapped(s, t, i, off / BSIZE, addr) && MapLogged(s, t, i, off / BSIZE, addr, a, b)
    ensures 0 < addr < |t.blocks|
    ensures Torn(s, t.(blocks := t.blocks[addr := Overwrite(t.blocks[addr], off % BSIZE, part)]), i, c, off, part, addr, a, b)
  {
    BlockMoved(s, t, i, c, off, part, addr);
    var u := t.(blocks := t.blocks[addr := Overwrite(t.blocks[addr], off % BSIZE, part)]);
    HoldsPrefix(u, i, Splice(c, off, part), |c|);
    assert Data(s, i, off / BSIZE).None? ==> off == |c| && off % BSIZE == 0;
    ChangesLoggedTrans(s, t, u, b, b + {addr});
    assert IsRef(t, Ref(i, NDIRECT));
  }

  /** What a write of `n` bytes to a file of `size` bytes has logged: besides `before` only `extra`,
      the indirect block and its bitmap block. */
  ghost predicate ProgressLogged(s: Fs, t: Fs, i: nat, size: nat, off: nat, n: nat, extra: set<int>,
                                 before: set<int>, logged: set<int>)
    requires Shape(t) && i < |t.inodes|
  {
    && ChangesLogged(s, t, logged) && before <= logged
    && WriteLogged(t, i, off, n, logged)
    && LogWithin(t, i, extra, before, logged)
    && |extra| <= Touched(off, n) + Added(size, off, n)
  }

  /** What a write at `off` has done when `n` bytes have gone out and the file holds `c`. */
  ghost predicate Progress(s: Fs, t: Fs, i: nat, size: nat, off: nat, n: nat, c: seq<int>, extra: set<int>,
                           before: set<int>, logged: set<int>) {
    && off <= size && |c| == (if off + n > size then off + n else size)
    && Moved(s, t, i, c) && TightEnd(s, t, i, |c|)
    && ProgressLogged(s, t, i, size, off, n, extra, before, logged)
  }

  /** What a write of `want` bytes has done in the end; `changed` are the blocks it changed. */
  ghost predicate Ended(s: Fs, t: Fs, i: nat, size: nat, off: nat, n: nat, want: nat, c: seq<int>, extra: set<int>,
                        before: set<int>, logged: set<int>, changed: set<int>) {
    && off <= size && n <= want && |c| == (if off + n > size then off + n else size)
    && Moved(s, t, i, c)
    && ChangesLogged(s, t, changed) && before <= logged
    && WriteLogged(t, i, off, n, logged)
    && LogWithin(t, i, extra, before, logged)
    && |extra| <= Touched(off, want) + Added(size, off, want)
  }

  lemma CountsGrow(size: nat, off: nat, n: nat, want: nat)
    requires n <= want && off <= size
    ensures Touched(off, n) + Added(size, off, n) <= Touched(off, want) + Added(size, off, want)
  {
    CeilGrows(off + n, off + want);
    if size <= off + want {
      CeilGrows(size, off + want);
    }
    CeilAt(off);
    CeilGrows(off, off + want);
  }

  lemma CeilGrows(a: nat, b: nat)
    requires a <= b
    ensures Ceil(a) <= Ceil(b)
  {
  }

  lemma ProgressEnds(s: Fs, t: Fs, i: nat, size: nat, off: nat, n: nat, end: nat, want: nat, c: seq<int>, extra: set<int>,
                     before: set<int>, logged: set<int>)
    requires Progress(s, t, i, size, off, n, c, extra, before, logged) && n <= want && end == off + n <= |c|
    ensures Ended(s, t, i, size, off, n, want, Tear(c, end, []), extra, before, logged, logged + {})
  {
    CountsGrow(size, off, n, want);
    TearNothing(c, end);
    assert logged + {} == logged;
  }

  /** A disk found full ends a write. */
  lemma FullEnds(s: Fs, t: Fs, u: Fs, i: nat, size: nat, off: nat, n: nat, end: nat, want: nat, c: seq<int>, extra: set<int>,
                 before: set<int>, logged: set<int>, logged': set<int>)
    requires Progress(s, t, i, size, off, n, c, extra, before, logged) && n <= want
    requires end == off + n <= |c| && end / BSIZE < MAXFILE && Wrote(t, u, i, |c|, end, c, false, logged, logged')
    ensures Ended(s, u, i, size, off, n, want, Tear(c, end, []), extra, before, logged', logged' + {}) && TightEnd(s, u, i, |c|)
  {
    ProgressStop(s, t, u, i, size, off, n, end, c, extra, before, logged, logged');
    ProgressEnds(s, u, i, size, off, n, end, want, c, extra, before, logged');
  }

  /** The copy of the next `k` bytes, of which `part` came in, ends a write. */
  lemma TornEnds(s: Fs, t: Fs, u: Fs, i: nat, size: nat, off: nat, n: nat, end: nat, k: nat, want: nat, c: seq<int>,
                 part: seq<int>, addr: int, extra: set<int>, before: set<int>, logged: set<int>, logged': set<int>)
    returns (extra': set<int>)
    requires Progress(s, t, i, size, off, n, c, extra, before, logged)
    requires end == off + n && (n == 0 || end % BSIZE == 0) && n + k <= want
    requires 0 < k && end % BSIZE + k <= BSIZE && Torn(t, u, i, c, end, part, addr, logged, logged')
    ensures Ended(s, u, i, size, off, n, want, Tear(c, end, part), extra', before, logged', logged' + {addr})
  {
    MovedTrans(s, t, u, i, c, Tear(c, end, part));
    extra' := TornLogged(s, t, u, i, size, off, n, k, c, addr, extra, before, logged, logged');
    CountsGrow(size, off, n + k, want);
  }

  lemma TornCounts(size: nat, off: nat, n: nat, k: nat, extra: set<int>, a: int, b: int)
    requires off <= size && (n == 0 || (off + n) % BSIZE == 0)
    requires 0 < k && (off + n) % BSIZE + k <= BSIZE
    requires |extra| <= Touched(off, n) + Added(size, off, n)
    ensures |extra| <= Touched(off, n + k) + Added(size, off, n + k)
    ensures size <= off + n && (off + n) % BSIZE == 0 ==> |extra + {a, b}| <= Touched(off, n + k) + Added(size, off, n + k)
  {
    ChunkCounts(size, off, n, k);
  }

  lemma TornLogged(s: Fs, t: Fs, u: Fs, i: nat, size: nat, off: nat, n: nat, k: nat, c: seq<int>, addr: int,
                   extra: set<int>, before: set<int>, logged: set<int>, logged': set<int>) returns (extra': set<int>)
    requires Grown(t, u, i) && Holds(t, i, c) && s.layout == t.layout
    requires off <= size && |c| == if off + n > size then off + n else size
    requires n == 0 || (off + n) % BSIZE == 0
    requires 0 < k && (off + n) % BSIZE + k <= BSIZE
    requires ProgressLogged(s, t, i, size, off, n, extra, before, logged)
    requires ChangesLogged(t, u, logged' + {addr}) && logged <= logged'
    requires logged' <= logged + (if off + n == |c| && (off + n) % BSIZE == 0 then {addr, Bblock(u, addr)} else {}) + IndLog(u, i)
    ensures ChangesLogged(s, u, logged' + {addr}) && before <= logged'
    ensures WriteLogged(u, i, off, n, logged') && LogWithin(u, i, extra', before, logged')
    ensures |extra'| <= Touched(off, n + k) + Added(size, off, n + k)
  {
    var more := if off + n == |c| && (off + n) % BSIZE == 0 then {addr, Bblock(u, addr)} else {};
    extra' := extra + more;
    ChangesLoggedTrans(s, t, u, logged, logged' + {addr});
    LogStep(t, u, i, extra, before, logged, more, logged');
    TornCounts(size, off, n, k, extra, addr, Bblock(u, addr));
    forall m | off / BSIZE <= m < MAXFILE && m * BSIZE < off + n ensures Ptr(u, FileRef(i, m)) == Ptr(t, FileRef(i, m)) {
      assert Data(t, i, m).Some? && IsRef(t, FileRef(i, m));
    }
  }

  lemma ProgressStart(s: Fs, i: nat, c: seq<int>, off: nat, before: set<int>)
    requires Inv(s) && Holds(s, i, c) && off <= |c|
    ensures Progress(s, s, i, |c|, off, 0, c, {}, before, before)
  {
    SamePtrsGrown(s, s, i);
  }

  lemma StopLogged(s: Fs, t: Fs, u: Fs, i: nat, size: nat, off: nat, n: nat, c: seq<int>, extra: set<int>,
                   before: set<int>, logged: set<int>, logged': set<int>)
    requires Grown(t, u, i) && Holds(t, i, c) && off + n <= |c| && (off + n) / BSIZE < MAXFILE && s.layout == t.layout
    requires ProgressLogged(s, t, i, size, off, n, extra, before, logged)
    requires WroteLogged(t, u, i, |c|, off + n, false, logged, logged')
    ensures ProgressLogged(s, u, i, size, off, n, extra, before, logged')
  {
    ChangesLoggedTrans(s, t, u, logged, logged');
    LogStep(t, u, i, extra, before, logged, {}, logged');
    assert extra + {} == extra;
    forall m | off / BSIZE <= m < MAXFILE && m * BSIZE < off + n ensures Ptr(u, FileRef(i, m)) == Ptr(t, FileRef(i, m)) {
      assert Data(t, i, m).Some? && IsRef(t, FileRef(i, m));
    }
  }

  lemma ProgressStop(s: Fs, t: Fs, u: Fs, i: nat, size: nat, off: nat, n: nat, end: nat, c: seq<int>, extra: set<int>,
                     before: set<int>, logged: set<int>, logged': set<int>)
    requires Progress(s, t, i, size, off, n, c, extra, before, logged)
    requires end == off + n && end / BSIZE < MAXFILE && Wrote(t, u, i, |c|, end, c, false, logged, logged')
    ensures Progress(s, u, i, size, off, n, c, extra, before, logged')
  {
    MovedTrans(s, t, u, i, c, c);
    TightTrans(s, t, u, i, |c|, |c|);
    StopLogged(s, t, u, i, size, off, n, c, extra, before, logged, logged');
  }

  lemma StepLogged(s: Fs, t: Fs, u: Fs, i: nat, size: nat, off: nat, n: nat, k: nat, c: seq<int>, extra: set<int>,
                   before: set<int>, logged: set<int>, logged': set<int>) returns (extra': set<int>)
    requires Grown(t, u, i) && Holds(t, i, c) && s.layout == t.layout
    requires off <= size && |c| == if off + n > size then off + n else size
    requires n == 0 || (off + n) % BSIZE == 0
    requires 0 < k && (off + n) % BSIZE + k <= BSIZE && (off + n) / BSIZE < MAXFILE
    requires ProgressLogged(s, t, i, size, off, n, extra, before, logged)
    requires WroteLogged(t, u, i, |c|, off + n, true, logged, logged')
    ensures ProgressLogged(s, u, i, size, off, n + k, extra', before, logged')
  {
    var addr := Ptr(u, FileRef(i, (off + n) / BSIZE));
    var more := {addr} + if size <= off + n && (off + n) % BSIZE == 0 then {Bblock(u, addr)} else {};
    extra' := extra + more;
    ChangesLoggedTrans(s, t, u, logged, logged');
    WriteLoggedStep(t, u, i, c, off, n, k, logged, logged');
    LogStep(t, u, i, extra, before, logged, more, logged');
    ChunkCounts(size, off, n, k);
  }

  lemma ProgressStep(s: Fs, t: Fs, u: Fs, i: nat, size: nat, off: nat, n: nat, end: nat, k: nat, c: seq<int>, c': seq<int>,
                     extra: set<int>, before: set<int>, logged: set<int>, logged': set<int>) returns (extra': set<int>)
    requires Progress(s, t, i, size, off, n, c, extra, before, logged)
    requires end == off + n && (n == 0 || end % BSIZE == 0)
    requires 0 < k && end % BSIZE + k <= BSIZE && end / BSIZE < MAXFILE
    requires |c'| == if end + k > |c| then end + k else |c|
    requires Wrote(t, u, i, |c|, end, c', true, logged, logged')
    ensures Progress(s, u, i, size, off, n + k, c', extra', before, logged')
  {
    MovedTrans(s, t, u, i, c, c');
    TightTrans(s, t, u, i, |c|, |c'|);
    extra' := StepLogged(s, t, u, i, size, off, n, k, c, extra, before, logged, logged');
  }

  /** After `tot` of `n` bytes a write is at the start of a block, unless it has just begun or is done. */
  predicate Aligned(off: nat, tot: nat, n: nat) { tot == 0 || tot == n || (off + tot) % BSIZE == 0 }

  /** Of `n` bytes for `off` the chunk that starts at `tot` is not all among the first `readable`. */
  predicate CopyFails(off: nat, n: nat, tot: nat, readable: nat) {
    Aligned(off, tot, n) && tot < n && tot <= readable < tot + ChunkSize(off + tot, n - tot)
  }

  /** The bytes of the next block that a write of `n` bytes at `off` fills. */
  function ChunkSize(off: nat, n: nat): (k: nat)
    requires n > 0
    ensures 0 < k <= n && off % BSIZE + k <= BSIZE && (k == n || (off + k) % BSIZE == 0)
  {
    if n < BSIZE - off % BSIZE then n else BSIZE - off % BSIZE
  }

  lemma SpliceNext(c: seq<int>, off: nat, src: seq<int>, n: nat, k: nat)
    requires off <= |c| && n + k <= |src|
    ensures Splice(Splice(c, off, src[..n]), off + n, src[n..n + k]) == Splice(c, off, src[..n + k])
  {
    SpliceAgain(c, off, src[..n], src[n..n + k]);
    Join(src, 0, n, n + k);
  }

  lemma SameContents(s: Fs, t: Fs, j: nat)
    requires HoleFree(s, j) && Shape(t) && j < |t.inodes| && t.inodes[j].size == s.inodes[j].size
    requires forall m :: 0 <= m < MAXFILE ==> Data(t, j, m) == Data(s, j, m)
    ensures HoleFree(t, j) && Contents(t, j) == Contents(s, j)
  {
  }

  function Resize(s: Fs, i: nat, size: nat): (t: Fs)
    requires i < |s.inodes|
  {
    s.(inodes := s.inodes[i := s.inodes[i].(size := size)])
  }

  /** The size of a file is no pointer. */
  lemma ResizeKeeps(s: Fs, i: nat, size: nat)
    requires Inv(s) && i < |s.inodes|
    ensures var t := Resize(s, i, size); Inv(t) && SameData(s, t) && forall r :: IsRef(s, r) ==> Ptr(t, r) == Ptr(s, r)
  {
    var t := Resize(s, i, size);
    assert Shape(t);
    forall r | IsRef(s, r) ensures Ptr(t, r) == Ptr(s, r) {
    }
    forall j, m | 0 <= j < |s.inodes| && 0 <= m < MAXFILE ensures Data(t, j, m) == Data(s, j, m) {
      assert IsRef(s, FileRef(j, m));
    }
  }

  lemma OtherInodes(s: Fs, t: Fs, i: nat)
    requires Grown(s, t, i) && SameSizes(s, t)
    ensures t.inodes == s.inodes[i := t.inodes[i]]
  {
    forall j: nat | j < |s.inodes| && j != i ensures t.inodes[j] == s.inodes[j] {
      forall k | 0 <= k <= NDIRECT ensures t.inodes[j].addrs[k] == s.inodes[j].addrs[k] {
        assert IsRef(s, Ref(j, k)) && Ptr(t, Ref(j, k)) == Ptr(s, Ref(j, k));
      }
      assert t.inodes[j].addrs == s.inodes[j].addrs;
    }
  }

  ghost predicate AllHoleFree(s: Fs) { forall j :: 0 <= j < |s.inodes| ==> HoleFree(s, j) }

  /** Only file `i` changed; it now holds `c`. */
  ghost predicate FileBecomes(s: Fs, t: Fs, i: nat, c: seq<int>) {
    && AllHoleFree(s) && AllHoleFree(t) && i < |s.inodes| == |t.inodes|
    && Contents(t, i) == c
    && forall j :: 0 <= j < |s.inodes| && j != i ==> Contents(t, j) == Contents(s, j)
  }

  /** What a write of `want` bytes at `off` does in all: `d` went out, after which a copy may have failed
      that had brought in `part`.  Everything that changed is logged, except the block `torn` in which the
      copy failed; and if none failed, no block was added beyond the end of the file. */
  ghost predicate Written(s: Fs, t: Fs, i: nat, off: nat, want: nat, d: seq<int>, part: seq<int>, torn: set<int>,
                          before: set<int>, logged: set<int>)
  {
    && Grown(s, t, i) && HoleFree(s, i) && off <= s.inodes[i].size
    && t.inodes == s.inodes[i := t.inodes[i]]
    && FileBecomes(s, t, i, Tear(Splice(Contents(s, i), off, d), off + |d|, part))
    && ChangesLogged(s, t, logged + torn) && |torn| <= 1 && before + {Iblock(t, i)} <= logged
    && (torn == {} ==> part == [] && TightEnd(s, t, i, t.inodes[i].size))
    && WriteLogged(t, i, off, |d|, logged)
    && |logged - before| <= Touched(off, want) + Added(s.inodes[i].size, off, want) + 3
  }

  /** In particular: a block whose bytes changed is logged, or is the one in which a copy failed; the bitmap block of
      every block that was taken is logged; and so is the block of the inode. */
  lemma WrittenLogs(s: Fs, t: Fs, i: nat, off: nat, want: nat, d: seq<int>, part: seq<int>, torn: set<int>, before: set<int>, logged: set<int>, b: nat)
    requires Written(s, t, i, off, want, d, part, torn, before, logged) && b < |s.blocks|
    ensures |t.blocks| == |s.blocks| == |t.used| == |s.used| && s.layout == t.layout
    ensures t.blocks[b] != s.blocks[b] ==> b in logged || torn == {b as int}
    ensures t.used[b] != s.used[b] ==> t.used[b] && (s.layout.bmapstart + b / 8192 in logged || torn == {(s.layout.bmapstart + b / 8192) as int})
    ensures s.layout.inodestart + i / 16 in logged
  {
    if torn != {} && b in torn {
      Single(torn, b);
    }
    if torn != {} && Bblock(s, b) in torn {
      Single(torn, Bblock(s, b));
    }
  }

  lemma Single(x: set<int>, b: int)
    requires b in x && |x| <= 1
    ensures x == {b}
  {
    assert x == {b} + (x - {b});
  }

  lemma ResizedBecomes(s: Fs, t: Fs, i: nat, c: seq<int>)
    requires AllHoleFree(s) && OthersSame(s, t, i) && SameSizes(s, t) && Inv(t) && Holds(t, i, c)
    ensures FileBecomes(s, Resize(t, i, |c|), i, c)
  {
    var u := Resize(t, i, |c|);
    ResizeKeeps(t, i, |c|);
    forall j: nat | j < |s.inodes| ensures HoleFree(u, j) && Contents(u, j) == if j == i then c else Contents(s, j) {
      if j == i {
        ContentsUnique(u, i, c);
      } else {
        SameContents(s, u, j);
      }
    }
  }

  lemma ResizedGrown(s: Fs, t: Fs, i: nat, size: nat)
    requires Grown(s, t, i) && SameSizes(s, t)
    ensures var u := Resize(t, i, size); Grown(s, u, i) && u.inodes == s.inodes[i := u.inodes[i]]
  {
    var u := Resize(t, i, size);
    OtherInodes(s, t, i);
    ResizeKeeps(t, i, size);
    SamePtrsGrown(t, u, i);
    GrownTrans(s, t, u, i);
  }

  /** The last step of a write sets the size. */
  lemma WriteDone(s: Fs, t: Fs, i: nat, off: nat, n: nat, want: nat, c1: seq<int>, d: seq<int>, part: seq<int>, torn: set<int>, extra: set<int>,
                  before: set<int>, logged: set<int>)
    requires AllHoleFree(s) && i < |s.inodes| && off <= s.inodes[i].size && |torn| <= 1
    requires n == |d| && c1 == Splice(Contents(s, i), off, d) && off + n <= |c1|
    requires Ended(s, t, i, s.inodes[i].size, off, n, want, Tear(c1, off + n, part), extra, before, logged, logged + torn)
    requires torn == {} ==> part == [] && TightEnd(s, t, i, |c1|)
    ensures Written(s, Resize(t, i, |c1|), i, off, want, d, part, torn, before, logged + {Iblock(s, i)})
  {
    ResizedGrown(s, t, i, |c1|);
    ResizedBecomes(s, t, i, Tear(c1, off + n, part));
    ResizedLogged(s, t, i, off, n, want, Tear(c1, off + n, part), torn, extra, before, logged);
    if torn == {} {
      ResizedTight(s, t, i, |c1|);
    }
  }

  lemma ResizedTight(s: Fs, t: Fs, i: nat, size: nat)
    requires Inv(t) && Shape(s) && i < |s.inodes| == |t.inodes| && TightEnd(s, t, i, size)
    ensures var u := Resize(t, i, size); Shape(u) && TightEnd(s, u, i, size)
  {
    ResizeKeeps(t, i, size);
  }

  lemma ResizedLogged(s: Fs, t: Fs, i: nat, off: nat, n: nat, want: nat, c: seq<int>, torn: set<int>, extra: set<int>,
                      before: set<int>, logged: set<int>)
    requires i < |s.inodes| && Ended(s, t, i, s.inodes[i].size, off, n, want, c, extra, before, logged, logged + torn)
    ensures var u, logged' := Resize(t, i, |c|), logged + {Iblock(s, i)};
            && Shape(u) && ChangesLogged(s, u, logged' + torn) && before + {Iblock(u, i)} <= logged'
            && WriteLogged(u, i, off, n, logged')
            && |logged' - before| <= Touched(off, want) + Added(s.inodes[i].size, off, want) + 3
  {
    ResizeKeeps(t, i, |c|);
    LogCount(t, i, extra, before, logged, Iblock(s, i));
    forall m | off / BSIZE <= m < MAXFILE && m * BSIZE < off + n
      ensures Ptr(Resize(t, i, |c|), FileRef(i, m)) == Ptr(t, FileRef(i, m))
    {
      assert IsRef(t, FileRef(i, m));
    }
  }

  // ----- Truncation -----

  predicate Between(lo: nat, k: nat, hi: nat) { lo <= k < hi }

  function Range(lo: nat, hi: nat): (r: set<nat>) { set k: nat | k < hi && Between(lo, k, hi) }

  /** Truncation of file `i` has freed the blocks of the pointers `done` and set the pointers
      `cleared` to none; nothing else has changed. */
  ghost predicate Truncating(s: Fs, t: Fs, i: nat, done: set<nat>, cleared: set<nat>) {
    && Shape(s) && Shape(t) && i < |s.inodes| == |t.inodes| && t.layout == s.layout && t.blocks == s.blocks && SameSizes(s, t)
    && FreedExactly(s, t.used, i, done)
    && forall r :: IsRef(s, r) ==> Ptr(t, r) == if r.i == i && r.k in cleared then 0 else Ptr(s, r)
  }

  lemma FreedMeans(s: Fs, used: seq<bool>, i: nat)
    requires Shape(s) && i < |s.inodes| && FreedExactly(s, used, i, Range(0, POINTERS))
    ensures |used| == |s.used| && forall b: nat :: b < |used| ==>
              (used[b] <==> s.used[b] && (b == 0 || forall k: nat :: k < 269 ==> Ptr(s, Ref(i, k)) != b))
  {
    forall b: nat | b < |s.used| ensures used[b] <==> s.used[b] && (b == 0 || forall k: nat :: k < 269 ==> Ptr(s, Ref(i, k)) != b) {
      if b != 0 && exists k: nat :: k < 269 && Ptr(s, Ref(i, k)) == b {
        var k: nat :| k < 269 && Ptr(s, Ref(i, k)) == b;
        assert k in Range(0, POINTERS);
        assert Names(s, i, Range(0, POINTERS), b);
      }
    }
  }

  lemma TruncateDirect(s: Fs, t: Fs, i: nat, k: nat)
    requires Inv(t) && k < NDIRECT && Truncating(s, t, i, Range(0, k), Range(0, k))
    ensures var b := Ptr(t, Ref(i, k));
            if b == 0 then
              Truncating(s, t, i, Range(0, k + 1), Range(0, k + 1))
            else
              && 0 < b < |t.used| && t.used[b]
              && var u := SetAddr(t.(used := t.used[b := false]), i, k, 0);
                 Inv(u) && Truncating(s, u, i, Range(0, k + 1), Range(0, k + 1))
  {
    assert Ptr(t, Ref(i, k)) == Ptr(s, Ref(i, k));
    assert Range(0, k + 1) == Range(0, k) + {k};
    if Ptr(t, Ref(i, k)) != 0 {
      FreeDirectKeeps(t, i, k);
    }
    FreeMore(s, t.used, i, Range(0, k), k);
  }

  ghost function Done(j: nat): (r: set<nat>) { Range(0, NDIRECT) + Range(NDIRECT + 1, NDIRECT + 1 + j) }

  lemma TruncateEntry(s: Fs, t: Fs, i: nat, j: nat)
    requires InvBut(t, i, j) && j < NINDIRECT && Truncating(s, t, i, Done(j), Range(0, NDIRECT))
    ensures var b := Ptr(t, Ref(i, NDIRECT + 1 + j));
            if b == 0 then
              InvBut(t, i, j + 1) && Truncating(s, t, i, Done(j + 1), Range(0, NDIRECT))
            else
              && 0 < b < |t.used| && t.used[b]
              && var u := t.(used := t.used[b := false]);
                 InvBut(u, i, j + 1) && Truncating(s, u, i, Done(j + 1), Range(0, NDIRECT))
  {
    var k := NDIRECT + 1 + j;
    assert Ptr(t, Ref(i, k)) == Ptr(s, Ref(i, k));
    assert Done(j + 1) == Done(j) + {k};
    if Ptr(t, Ref(i, k)) != 0 {
      FreeEntryKeeps(t, i, j);
    }
    FreeMore(s, t.used, i, Done(j), k);
  }

  lemma TruncateIndirect(s: Fs, t: Fs, i: nat)
    requires InvBut(t, i, NINDIRECT) && Truncating(s, t, i, Done(NINDIRECT), Range(0, NDIRECT)) && Ptr(t, Ref(i, NDIRECT)) != 0
    ensures var b := Ptr(t, Ref(i, NDIRECT));
            && 0 < b < |t.used| && t.used[b]
            && var u := SetAddr(t.(used := t.used[b := false]), i, NDIRECT, 0);
               Inv(u) && Truncating(s, u, i, Range(0, POINTERS), Range(0, POINTERS))
  {
    assert Ptr(t, Ref(i, NDIRECT)) == Ptr(s, Ref(i, NDIRECT));
    assert Range(0, POINTERS) == Done(NINDIRECT) + {NDIRECT};
    FreeIndirectKeeps(t, i);
    FreeMore(s, t.used, i, Done(NINDIRECT), NDIRECT);
  }

  lemma TruncateNoIndirect(s: Fs, t: Fs, i: nat)
    requires Truncating(s, t, i, Range(0, NDIRECT), Range(0, NDIRECT)) && Ptr(t, Ref(i, NDIRECT)) == 0
    ensures Truncating(s, t, i, Range(0, POINTERS), Range(0, POINTERS))
  {
  }

  lemma TruncatedBecomes(s: Fs, t: Fs, i: nat)
    requires AllHoleFree(s) && Inv(t) && Truncating(s, t, i, Range(0, POINTERS), Range(0, POINTERS))
    ensures var u := Resize(t, i, 0);
            Inv(u) && FileBecomes(s, u, i, []) && u.inodes == s.inodes[i := u.inodes[i]]
  {
    forall j, m | 0 <= j < |s.inodes| && 0 <= m < MAXFILE ensures Data(t, j, m) == if j == i then None else Data(s, j, m) {
      assert IsRef(s, FileRef(j, m)) && FileRef(j, m).k in Range(0, POINTERS);
    }
    ResizedBecomes(s, t, i, []);
    ResizeKeeps(t, i, 0);
    forall j: nat | j < |s.inodes| && j != i ensures t.inodes[j] == s.inodes[j] {
      forall k | 0 <= k <= NDIRECT ensures t.inodes[j].addrs[k] == s.inodes[j].addrs[k] {
        assert IsRef(s, Ref(j, k)) && Ptr(t, Ref(j, k)) == Ptr(s, Ref(j, k));
      }
      assert t.inodes[j].addrs == s.inodes[j].addrs;
    }
  }

  /** Truncation loses no block. */
  lemma TruncatedNoLeak(s: Fs, t: Fs, i: nat)
    requires Inv(s) && NoLeak(s) && Inv(t) && Truncating(s, t, i, Range(0, POINTERS), Range(0, POINTERS))
    ensures NoLeak(Resize(t, i, 0))
  {
    var u := Resize(t, i, 0);
    ResizeKeeps(t, i, 0);
    forall r | IsRef(s, r) && r.i == i ensures Names(s, i, Range(0, POINTERS), Ptr(s, r)) {
      assert r.k in Range(0, POINTERS) && Ptr(s, Ref(i, r.k)) == Ptr(s, r);
    }
    forall b: nat | s.layout.meta <= b < |t.used| && t.used[b] ensures Owned(u, b) {
      var r :| IsRef(s, r) && Ptr(s, r) == b;
      assert IsRef(u, r) && Ptr(u, r) == b;
    }
  }

  /** What reading `n` bytes at `off` of a file that holds `c` gives: as many of its bytes as there are, up
      to `n`, or an error if there is no room for all of them; nothing past the end, or if the end of the
      range does not fit an unsigned int. */
  ghost predicate ReadGives(c: seq<int>, off: nat, n: nat, room: nat, r: Option<seq<int>>) {
    if off > |c| || off + n >= UINTS then r == Some([])
    else if room < n && off + room < |c| then r == None
    else r.Some? && |r.value| <= n && r.value <= c[off..] && (|r.value| == n || off + |r.value| == |c|)
  }

  class Files {
    var used: seq<bool>
    var blocks: seq<Block>
    var inodes: seq<Inode>
    var dinodes: seq<Inode>
    var logged: set<int>
    const layout: Layout

    constructor (s: Fs)
      requires Inv(s) && AllHoleFree(s)
      ensures Valid() && S() == s && logged == {}
    {
      used, blocks, inodes, dinodes, layout, logged := s.used, s.blocks, s.inodes, s.inodes, s.layout, {};
    }

    function S(): (s: Fs) reads this { Fs(used, blocks, inodes, layout) }

    ghost predicate Valid() reads this {
      Inv(S()) && AllHoleFree(S()) && dinodes == inodes
    }

    /** Takes the lowest free block, zeroed; 0 if there is none. */
    method Balloc() returns (r: nat)
      requires |used| == |blocks| > 0 && used[0]
      modifies this`used, this`blocks, this`logged
      ensures r == 0 ==> Full(S()) && S() == old(S()) && logged == old(logged)
      ensures r != 0 ==> && r < |old(used)| && !old(used)[r] && (forall b :: 0 <= b < r ==> old(used)[b])
                         && S() == Take(old(S()), r) && logged == old(logged) + {Bblock(S(), r), r}
    {
      var b := 0;
      while b < |used|
        invariant b >= 0 && used == old(used) && blocks == old(blocks) && logged == old(logged)
        invariant forall c :: 0 <= c < b && c < |used| ==> used[c]
      {
        var bi := 0;
        while bi < BPB && b + bi < |used|
          invariant 0 <= bi <= BPB && used == old(used) && blocks == old(blocks) && logged == old(logged)
          invariant forall c :: 0 <= c < b + bi && c < |used| ==> used[c]
        {
          if !used[b + bi] {
            used := used[b + bi := true];
            logged := logged + {Bblock(S(), b + bi)};
            blocks := blocks[b + bi := Zeros()];
            logged := logged + {b + bi};
            return b + bi;
          }
          bi := bi + 1;
        }
        b := b + BPB;
      }
      return 0;
    }

    /** Clears a block's bit; a bit that is clear already is a panic, so callers show it is set. */
    method Bfree(b: nat)
      requires b < |used| && used[b]
      modifies this`used, this`logged
      ensures used == old(used)[b := false] && logged == old(logged) + {Bblock(S(), b)}
    {
      used := used[b := false];
      logged := logged + {Bblock(S(), b)};
    }

    /** A fresh block for direct pointer `k`. */
    method MapDirect(i: nat, k: nat) returns (addr: nat)
      requires Inv(S()) && i < |inodes| && k < NDIRECT && inodes[i].addrs[k] == 0
      modifies this`used, this`blocks, this`inodes, this`logged
      ensures Mapped(old(S()), S(), i, k, addr) && MapLogged(old(S()), S(), i, k, addr, old(logged), logged)
    {
      ghost var s := S();
      assert FileRef(i, k) == Ref(i, k) && Ptr(s, Ref(i, k)) == 0;
      addr := Balloc();
      if addr == 0 {
        NotMapped(s, i, k);
        return;
      }
      inodes := inodes[i := inodes[i].(addrs := inodes[i].addrs[k := addr])];
      DirectMapped(s, i, k, addr, old(logged));
    }

    /** The indirect block, fresh if there is none. */
    method MapIndirect(i: nat) returns (ind: nat)
      requires Inv(S()) && i < |inodes|
      modifies this`used, this`blocks, this`inodes, this`logged
      ensures Grown(old(S()), S(), i) && SameSizes(old(S()), S()) && SameData(old(S()), S())
      ensures ind == Ptr(S(), Ref(i, NDIRECT))
      ensures ind == 0 ==> Full(S())
      ensures old(Ptr(S(), Ref(i, NDIRECT))) != 0 ==> S() == old(S()) && logged == old(logged)
      ensures old(logged) <= logged <= old(logged) + IndLog(S(), i) && ChangesLogged(old(S()), S(), logged)
    {
      ghost var s := S();
      SamePtrsGrown(s, s, i);
      ind := inodes[i].addrs[NDIRECT];
      if ind == 0 {
        ind := Balloc();
        if ind == 0 {
          return;
        }
        inodes := inodes[i := inodes[i].(addrs := inodes[i].addrs[NDIRECT := ind])];
        AddIndirect(s, i, ind);
        AddsGrown(s, S(), i, NDIRECT, ind);
      }
    }

    /** A fresh block for entry `j` of the indirect block. */
    method MapEntry(i: nat, j: nat) returns (addr: nat)
      requires Inv(S()) && i < |inodes| && j < NINDIRECT
      requires Ptr(S(), Ref(i, NDIRECT)) != 0 && Ptr(S(), Ref(i, NDIRECT + 1 + j)) == 0
      modifies this`used, this`blocks, this`logged
      ensures Mapped(old(S()), S(), i, NDIRECT + j, addr)
      ensures MapLogged(old(S()), S(), i, NDIRECT + j, addr, old(logged), logged)
    {
      ghost var s := S();
      assert FileRef(i, NDIRECT + j) == Ref(i, NDIRECT + 1 + j);
      var ind := inodes[i].addrs[NDIRECT];
      assert ind == Ptr(s, Ref(i, NDIRECT)) && IsRef(s, Ref(i, NDIRECT));
      addr := Balloc();
      if addr == 0 {
        NotMapped(s, i, NDIRECT + j);
        return;
      }
      StoreEntry(ind, j, addr);
      EntryMapped(s, i, j, addr, old(logged));
    }

    method StoreEntry(ind: nat, j: nat, addr: nat)
      requires ind < |blocks| && j < NINDIRECT
      modifies this`blocks, this`logged
      ensures S() == SetEntry(old(S()), ind, j, addr) && logged == old(logged) + {ind}
    {
      blocks := blocks[ind := SetWord(blocks[ind], j, addr)];
      logged := logged + {ind};
    }

    // Block `bn` of file `i`, reached through the indirect block.
    method MapThroughIndirect(i: nat, bn: nat) returns (addr: nat)
      requires Inv(S()) && i < |inodes| && NDIRECT <= bn < MAXFILE
      modifies this`used, this`blocks, this`inodes, this`logged
      ensures Mapped(old(S()), S(), i, bn, addr) && MapLogged(old(S()), S(), i, bn, addr, old(logged), logged)
    {
      ghost var s := S();
      NotMapped(s, i, bn);
      assert IsRef(s, FileRef(i, bn));
      var j := bn - NDIRECT;
      var ind := MapIndirect(i);
      ghost var t, b := S(), logged;
      if ind == 0 {
        NotMapped(t, i, bn);
        MappedThrough(s, t, t, i, bn, 0, old(logged), b, b);
        return 0;
      }
      assert IsRef(t, Ref(i, NDIRECT)) && IsRef(t, Ref(i, NDIRECT + 1 + j));
      var w := Word(blocks[ind], j);
      if w == 0 {
        addr := MapEntry(i, j);
        MappedThrough(s, t, S(), i, bn, addr, old(logged), b, logged);
        return;
      }
      return w;
    }

    /** The address of block `bn` of file `i`, allocated if there is none; 0 if the disk is full. */
    method Bmap(i: nat, bn: nat) returns (addr: nat)
      requires Inv(S()) && i < |inodes| && bn < MAXFILE
      modifies this`used, this`blocks, this`inodes, this`logged
      ensures Mapped(old(S()), S(), i, bn, addr) && MapLogged(old(S()), S(), i, bn, addr, old(logged), logged)
    {
      if bn < NDIRECT {
        ghost var s := S();
        NotMapped(s, i, bn);
        assert IsRef(s, FileRef(i, bn));
        addr := inodes[i].addrs[bn];
        if addr == 0 {
          addr := MapDirect(i, bn);
        }
      } else {
        addr := MapThroughIndirect(i, bn);
      }
    }

    /** Writes bytes inside one block of the file; fails only if the disk is full. */
    method WriteBlock(i: nat, off: nat, d: seq<int>, ghost c: seq<int>) returns (ok: bool)
      requires Inv(S()) && Holds(S(), i, c) && off <= |c| && off / BSIZE < MAXFILE
      requires 0 < |d| && off % BSIZE + |d| <= BSIZE
      modifies this`used, this`blocks, this`inodes, this`logged
      ensures ok ==> Wrote(old(S()), S(), i, |c|, off, Splice(c, off, d), true, old(logged), logged)
      ensures !ok ==> Wrote(old(S()), S(), i, |c|, off, c, false, old(logged), logged)
    {
      ghost var s := S();
      assert Data(s, i, off / BSIZE).None? ==> off == |c| && off % BSIZE == 0;
      var addr := Bmap(i, off / BSIZE);
      if addr == 0 {
        return false;
      }
      BlockWritten(s, S(), i, c, off, d, addr, old(logged), logged);
      blocks := blocks[addr := Overwrite(blocks[addr], off % BSIZE, d)];
      logged := logged + {addr};
      return true;
    }

    /** One round of a write: `e` goes out after `n` bytes. */
    method WriteNext(i: nat, off: nat, e: seq<int>, ghost s: Fs, ghost size: nat, ghost start: nat, ghost n: nat,
                     ghost c: seq<int>, ghost extra: set<int>, ghost before: set<int>)
      returns (ok: bool, ghost extra': set<int>)
      requires Progress(s, S(), i, size, start, n, c, extra, before, logged)
      requires off == start + n && off / BSIZE < MAXFILE
      requires 0 < |e| && off % BSIZE + |e| <= BSIZE && (n == 0 || off % BSIZE == 0)
      modifies this`used, this`blocks, this`inodes, this`logged
      ensures ok ==> Progress(s, S(), i, size, start, n + |e|, Splice(c, off, e), extra', before, logged)
      ensures !ok ==> OutOfSpace(S(), size, off) && Progress(s, S(), i, size, start, n, c, extra', before, logged)
    {
      ghost var t, b := S(), logged;
      ok := WriteBlock(i, off, e, c);
      if ok {
        extra' := ProgressStep(s, t, S(), i, size, start, n, off, |e|, c, Splice(c, off, e), extra, before, b, logged);
      } else {
        extra' := extra;
        ProgressStop(s, t, S(), i, size, start, n, off, c, extra, before, b, logged);
      }
    }

    /** Fills the next block, unless the disk is full; the file held `c` and holds `c1`. */
    method WriteRound(i: nat, off: nat, src: seq<int>, tot: nat, ghost s: Fs, ghost c: seq<int>, ghost c1: seq<int>, ghost extra: set<int>,
                      ghost before: set<int>)
      returns (ok: bool, tot': nat, ghost c2: seq<int>, ghost extra': set<int>)
      requires tot < |src| && off + |src| <= MAXBYTES && Aligned(off, tot, |src|) && off <= |c| && c1 == Splice(c, off, src[..tot])
      requires Progress(s, S(), i, |c|, off, tot, c1, extra, before, logged)
      modifies this`used, this`blocks, this`inodes, this`logged
      ensures tot' <= |src| && Aligned(off, tot', |src|) && c2 == Splice(c, off, src[..tot'])
      ensures if ok then tot' == tot + ChunkSize(off + tot, |src| - tot) else tot' == tot && OutOfSpace(S(), |c|, off + tot)
      ensures Progress(s, S(), i, |c|, off, tot', c2, extra', before, logged)
    {
      var k := ChunkSize(off + tot, |src| - tot);
      SpliceNext(c, off, src, tot, k);
      ok, extra' := WriteNext(i, off + tot, src[tot..tot + k], s, |c|, off, tot, c1, extra, before);
      tot', c2 := if ok then tot + k else tot, if ok then Splice(c, off, src[..tot + k]) else c1;
    }

    /** The blocks of a write whose bytes can be copied in, of which there are `readable`; stops early only
        when the disk is full. */
    method WriteBlocks(i: nat, off: nat, src: seq<int>, readable: nat, ghost c: seq<int>)
      returns (ok: bool, tot: nat, ghost c1: seq<int>, ghost extra: set<int>)
      requires Inv(S()) && Holds(S(), i, c) && off <= |c| && off + |src| <= MAXBYTES
      modifies this`used, this`blocks, this`inodes, this`logged
      ensures tot <= |src| && tot <= readable && Aligned(off, tot, |src|) && c1 == Splice(c, off, src[..tot])
      ensures tot < |src| && ok ==> CopyFails(off, |src|, tot, readable)
      ensures !ok ==> OutOfSpace(S(), |c|, off + tot)
      ensures Progress(old(S()), S(), i, |c|, off, tot, c1, extra, old(logged), logged)
    {
      ghost var s, before := S(), logged;
      tot, c1, extra := 0, c, {};
      ProgressStart(s, i, c, off, logged);
      assert Splice(c, off, src[..0]) == c;
      ok := true;
      while tot < |src| && ok && tot + ChunkSize(off + tot, |src| - tot) <= readable
        invariant tot <= |src| && tot <= readable && Aligned(off, tot, |src|) && c1 == Splice(c, off, src[..tot])
        invariant ok || OutOfSpace(S(), |c|, off + tot)
        invariant Progress(s, S(), i, |c|, off, tot, c1, extra, before, logged)
        decreases |src| - tot, ok
      {
        ok, tot, c1, extra := WriteRound(i, off, src, tot, s, c, c1, extra, before);
      }
    }

    /** The block in which the copy from user memory fails: what was copied before stays in the buffer, and
        log_write is not reached. */
    method TearBlock(i: nat, off: nat, part: seq<int>, ghost c: seq<int>) returns (addr: nat)
      requires Inv(S()) && Holds(S(), i, c) && off <= |c| && off / BSIZE < MAXFILE && off % BSIZE + |part| <= BSIZE
      modifies this`used, this`blocks, this`inodes, this`logged
      ensures addr == 0 ==> Wrote(old(S()), S(), i, |c|, off, c, false, old(logged), logged)
      ensures addr != 0 ==> Torn(old(S()), S(), i, c, off, part, addr, old(logged), logged)
    {
      ghost var s := S();
      assert Data(s, i, off / BSIZE).None? ==> off == |c| && off % BSIZE == 0;
      addr := Bmap(i, off / BSIZE);
      if addr != 0 {
        BlockTorn(s, S(), i, c, off, part, addr, old(logged), logged);
        blocks := blocks[addr := Overwrite(blocks[addr], off % BSIZE, part)];
      }
    }

    /** The round in which the copy fails ends the write; it may find the disk full first. */
    method LastRound(i: nat, off: nat, src: seq<int>, tot: nat, readable: nat, ghost s: Fs, ghost size: nat, ghost c: seq<int>,
                     ghost extra: set<int>, ghost before: set<int>)
      returns (full: bool, ghost part: seq<int>, ghost torn: set<int>, ghost extra': set<int>)
      requires off + |src| <= MAXBYTES && Aligned(off, tot, |src|) && CopyFails(off, |src|, tot, readable) && off + tot <= |c|
      requires Progress(s, S(), i, size, off, tot, c, extra, before, logged)
      modifies this`used, this`blocks, this`inodes, this`logged
      ensures Ended(s, S(), i, size, off, tot, |src|, Tear(c, off + tot, part), extra', before, logged, logged + torn)
      ensures full ==> OutOfSpace(S(), size, off + tot) && torn == {} && part == [] && TightEnd(s, S(), i, |c|)
      ensures !full ==> part == src[tot..readable] && |torn| == 1
    {
      var k := ChunkSize(off + tot, |src| - tot);
      ghost var t, b := S(), logged;
      var addr := TearBlock(i, off + tot, src[tot..readable], c);
      if addr == 0 {
        full, part, torn, extra' := true, [], {}, extra;
        FullEnds(s, t, S(), i, size, off, tot, off + tot, |src|, c, extra, before, b, logged);
      } else {
        full, part, torn := false, src[tot..readable], {addr as int};
        extra' := TornEnds(s, t, S(), i, size, off, tot, off + tot, k, |src|, c, part, addr, extra, before, b, logged);
      }
    }

    /** Raises the size to `end` and copies the inode to its block. */
    method UpdateSize(i: nat, end: nat)
      requires i < |inodes| == |dinodes|
      modifies this`inodes, this`dinodes, this`logged
      ensures S() == Resize(old(S()), i, if end > old(inodes)[i].size then end else old(inodes)[i].size)
      ensures dinodes == old(dinodes)[i := inodes[i]] && logged == old(logged) + {Iblock(S(), i)}
    {
      if end > inodes[i].size {
        inodes := inodes[i := inodes[i].(size := end)];
      }
      dinodes := dinodes[i := inodes[i]];
      logged := logged + {Iblock(S(), i)};
      assert inodes == old(inodes)[i := inodes[i]];
    }

    // The end of a write: the size, and the inode to its block.
    method FinishWrite(i: nat, off: nat, n: nat, ghost s: Fs)
      requires Grown(s, S(), i) && SameSizes(s, S()) && off <= s.inodes[i].size && dinodes == s.inodes
      modifies this`inodes, this`dinodes, this`logged
      ensures S() == Resize(old(S()), i, if off + n > s.inodes[i].size then off + n else s.inodes[i].size)
      ensures logged == old(logged) + {Iblock(s, i)} && dinodes == inodes
    {
      OtherInodes(s, S(), i);
      UpdateSize(i, off + n);
    }

    // The rounds of a write, up to the one in which a copy fails.
    method WriteRounds(i: nat, off: nat, src: seq<int>, readable: nat, ghost c: seq<int>)
      returns (tot: nat, ghost c1: seq<int>, ghost part: seq<int>, ghost torn: set<int>, ghost extra: set<int>)
      requires Inv(S()) && Holds(S(), i, c) && off <= |c| && off + |src| <= MAXBYTES
      modifies this`used, this`blocks, this`inodes, this`logged
      ensures tot <= |src| && tot <= readable && c1 == Splice(c, off, src[..tot]) && off + tot <= |c1| && |torn| <= 1
      ensures torn != {} ==> CopyFails(off, |src|, tot, readable) && part == src[tot..readable]
      ensures Ended(old(S()), S(), i, |c|, off, tot, |src|, Tear(c1, off + tot, part), extra, old(logged), logged, logged + torn)
      ensures torn == {} ==> part == [] && TightEnd(old(S()), S(), i, |c1|) && (tot < |src| ==> OutOfSpace(S(), |c|, off + tot))
    {
      ghost var s := S();
      var ok;
      ok, tot, c1, extra := WriteBlocks(i, off, src, readable, c);
      part, torn := [], {};
      if tot < |src| && ok {
        var full;
        full, part, torn, extra := LastRound(i, off, src, tot, readable, s, |c|, c1, extra, old(logged));
      } else {
        ProgressEnds(s, S(), i, |c|, off, tot, off + tot, |src|, c1, extra, old(logged), logged);
      }
    }

    method WriteInside(i: nat, off: nat, src: seq<int>, readable: nat) returns (tot: nat, ghost part: seq<int>, ghost torn: set<int>)
      requires Valid() && i < |inodes| && off <= inodes[i].size && off + |src| <= MAXBYTES
      modifies this`used, this`blocks, this`inodes, this`dinodes, this`logged
      ensures Valid() && tot <= |src| && tot <= readable
      ensures torn == {} && tot < |src| ==> OutOfSpace(S(), old(inodes)[i].size, off + tot)
      ensures torn != {} ==> CopyFails(off, |src|, tot, readable) && part == src[tot..readable]
      ensures Written(old(S()), S(), i, off, |src|, src[..tot], part, torn, old(logged), logged)
    {
      ghost var s := S();
      ghost var c1, extra;
      tot, c1, part, torn, extra := WriteRounds(i, off, src, readable, Contents(s, i));
      ghost var t, b := S(), logged;
      FinishWrite(i, off, tot, s);
      WriteDone(s, t, i, off, tot, |src|, c1, src[..tot], part, torn, extra, old(logged), b);
    }

    /** Writes `src`, of which the first `readable` bytes can be copied in, at `off`; stops early only when
        the disk is full or a copy fails. */
    method Writei(i: nat, off: nat, src: seq<int>, readable: nat) returns (r: int, ghost part: seq<int>, ghost torn: set<int>)
      requires Valid() && i < |inodes| && off < UINTS && |src| < UINTS
      modifies this`used, this`blocks, this`inodes, this`dinodes, this`logged
      ensures Valid()
      ensures r == -1 <==> off > old(inodes)[i].size || off + |src| > MAXBYTES
      ensures r == -1 ==> S() == old(S()) && logged == old(logged)
      ensures r != -1 ==> 0 <= r <= |src| && r <= readable
      ensures r != -1 && torn == {} && r < |src| ==> OutOfSpace(S(), old(inodes)[i].size, off + r)
      ensures r != -1 && torn != {} ==> CopyFails(off, |src|, r, readable) && part == src[r..readable]
      ensures r != -1 ==> Written(old(S()), S(), i, off, |src|, src[..r], part, torn, old(logged), logged)
    {
      part, torn := [], {};
      if off > inodes[i].size || (off + |src|) % UINTS < off {
        return -1, [], {};
      }
      if (off + |src|) % UINTS > MAXFILE * BSIZE {
        return -1, [], {};
      }
      r, part, torn := WriteInside(i, off, src, readable);
    }

    /** Block `bn` of a file that has one is found without allocating. */
    method ReadBlock(i: nat, off: nat, k: nat) returns (d: seq<int>)
      requires Inv(S()) && HoleFree(S(), i)
      requires 0 < k && off + k <= inodes[i].size && off % BSIZE + k <= BSIZE
      modifies this`used, this`blocks, this`inodes, this`logged
      ensures S() == old(S()) && logged == old(logged)
      ensures d == Contents(S(), i)[off..off + k]
    {
      HeldSlice(S(), i, Contents(S(), i), off, k);
      var addr := Bmap(i, off / BSIZE);
      d := blocks[addr][off % BSIZE..off % BSIZE + k];
    }

    // One round of a read: what is in the next block, after the bytes up to `end`.
    method ReadRound(i: nat, off: nat, end: nat, len: nat, r: seq<int>) returns (r': seq<int>)
      requires Inv(S()) && HoleFree(S(), i) && off <= end && 0 < len && end + len <= inodes[i].size
      requires r == Contents(S(), i)[off..end]
      modifies this`used, this`blocks, this`inodes, this`logged
      ensures S() == old(S()) && logged == old(logged)
      ensures |r| < |r'| <= |r| + len && r' == Contents(S(), i)[off..off + |r'|]
    {
      var k := ChunkSize(end, len);
      Join(Contents(S(), i), off, end, end + k);
      var d := ReadBlock(i, end, k);
      r' := r + d;
    }

    method ReadBlocks(i: nat, off: nat, len: nat, room: nat) returns (r: Option<seq<int>>)
      requires Inv(S()) && HoleFree(S(), i) && off + len <= inodes[i].size
      modifies this`used, this`blocks, this`inodes, this`logged
      ensures S() == old(S()) && logged == old(logged)
      ensures r == if len <= room then Some(Contents(S(), i)[off..off + len]) else None
    {
      var got := [];
      while |got| < len
        invariant S() == old(S()) && logged == old(logged)
        invariant |got| <= len && |got| <= room && got == Contents(S(), i)[off..off + |got|]
        decreases len - |got|
      {
        got := ReadRound(i, off, off + |got|, len - |got|, got);
        if |got| > room {
          return None;
        }
      }
      r := Some(got);
    }

    /** Reads up to `n` bytes at `off`, of which `room` can be copied out; None is the error of a copy. */
    method Readi(i: nat, off: nat, n: nat, room: nat) returns (r: Option<seq<int>>)
      requires Valid() && i < |inodes| && off < UINTS && n < UINTS
      modifies this`used, this`blocks, this`inodes, this`logged
      ensures S() == old(S()) && logged == old(logged)
      ensures ReadGives(Contents(S(), i), off, n, room, r)
      ensures off <= inodes[i].size && off + n < UINTS && n <= room ==>
                && r.Some? && |r.value| == (if off + n <= inodes[i].size then n else inodes[i].size - off)
                && forall x :: 0 <= x < |r.value| ==> r.value[x] == Contents(S(), i)[off + x]
    {
      if off > inodes[i].size || (off + n) % UINTS < off {
        return Some([]);
      }
      var len := if off + n > inodes[i].size then inodes[i].size - off else n;
      r := ReadBlocks(i, off, len, room);
    }

    method FreeDirect(i: nat, k: nat, ghost s: Fs)
      requires Inv(S()) && k < NDIRECT && Truncating(s, S(), i, Range(0, k), Range(0, k)) && ChangesLogged(s, S(), logged)
      modifies this`used, this`inodes, this`logged
      ensures Inv(S()) && Truncating(s, S(), i, Range(0, k + 1), Range(0, k + 1))
      ensures old(logged) <= logged && ChangesLogged(s, S(), logged)
    {
      TruncateDirect(s, S(), i, k);
      if inodes[i].addrs[k] != 0 {
        Bfree(inodes[i].addrs[k]);
        inodes := inodes[i := inodes[i].(addrs := inodes[i].addrs[k := 0])];
      }
    }

    method FreeDirects(i: nat)
      requires Inv(S()) && i < |inodes|
      modifies this`used, this`inodes, this`logged
      ensures Inv(S()) && Truncating(old(S()), S(), i, Range(0, NDIRECT), Range(0, NDIRECT))
      ensures old(logged) <= logged && ChangesLogged(old(S()), S(), logged)
    {
      ghost var s := S();
      assert Range(0, 0) == {};
      for k := 0 to NDIRECT
        invariant Inv(S()) && Truncating(s, S(), i, Range(0, k), Range(0, k))
        invariant old(logged) <= logged && ChangesLogged(s, S(), logged)
      {
        FreeDirect(i, k, s);
      }
    }

    method FreeEntry(i: nat, j: nat, ghost s: Fs)
      requires InvBut(S(), i, j) && j < NINDIRECT && Truncating(s, S(), i, Done(j), Range(0, NDIRECT)) && ChangesLogged(s, S(), logged)
      requires 0 < inodes[i].addrs[NDIRECT] < |blocks|
      modifies this`used, this`logged
      ensures InvBut(S(), i, j + 1) && Truncating(s, S(), i, Done(j + 1), Range(0, NDIRECT))
      ensures old(logged) <= logged && ChangesLogged(s, S(), logged)
    {
      TruncateEntry(s, S(), i, j);
      var b := Word(blocks[inodes[i].addrs[NDIRECT]], j);
      if b != 0 {
        Bfree(b);
      }
    }

    method FreeEntries(i: nat, ghost s: Fs)
      requires Inv(S()) && Truncating(s, S(), i, Range(0, NDIRECT), Range(0, NDIRECT)) && ChangesLogged(s, S(), logged)
      requires 0 < inodes[i].addrs[NDIRECT] < |blocks|
      modifies this`used, this`logged
      ensures InvBut(S(), i, NINDIRECT) && Truncating(s, S(), i, Done(NINDIRECT), Range(0, NDIRECT))
      ensures old(logged) <= logged && ChangesLogged(s, S(), logged)
    {
      assert Done(0) == Range(0, NDIRECT);
      for j := 0 to NINDIRECT
        invariant InvBut(S(), i, j) && Truncating(s, S(), i, Done(j), Range(0, NDIRECT))
        invariant old(logged) <= logged && ChangesLogged(s, S(), logged)
      {
        FreeEntry(i, j, s);
      }
    }

    method FreeIndirect(i: nat, ghost s: Fs)
      requires Inv(S()) && Truncating(s, S(), i, Range(0, NDIRECT), Range(0, NDIRECT)) && ChangesLogged(s, S(), logged)
      modifies this`used, this`inodes, this`logged
      ensures Inv(S()) && Truncating(s, S(), i, Range(0, POINTERS), Range(0, POINTERS))
      ensures old(logged) <= logged && ChangesLogged(s, S(), logged)
    {
      assert IsRef(S(), Ref(i, NDIRECT)) && Ptr(S(), Ref(i, NDIRECT)) == inodes[i].addrs[NDIRECT];
      if inodes[i].addrs[NDIRECT] != 0 {
        FreeEntries(i, s);
        TruncateIndirect(s, S(), i);
        Bfree(inodes[i].addrs[NDIRECT]);
        inodes := inodes[i := inodes[i].(addrs := inodes[i].addrs[NDIRECT := 0])];
      } else {
        TruncateNoIndirect(s, S(), i);
      }
    }

    /** Discards the contents of file `i`. */
    method Itrunc(i: nat)
      requires Valid() && i < |inodes|
      modifies this`used, this`blocks, this`inodes, this`dinodes, this`logged
      ensures Valid() && FileBecomes(old(S()), S(), i, [])
      ensures FreedExactly(old(S()), used, i, Range(0, POINTERS)) && blocks == old(blocks)
      ensures |used| == |old(used)| && forall b: nat :: b < |used| ==>
                (used[b] <==> old(used)[b] && (b == 0 || forall k: nat :: k < 269 ==> Ptr(old(S()), Ref(i, k)) != b))
      ensures NoLeak(old(S())) ==> NoLeak(S())
      ensures ChangesLogged(old(S()), S(), logged) && old(logged) + {Iblock(S(), i)} <= logged
    {
      ghost var s := S();
      FreeDirects(i);
      FreeIndirect(i, s);
      ghost var t := S();
      TruncatedBecomes(s, t, i);
      FreedMeans(s, t.used, i);
      if NoLeak(s) {
        TruncatedNoLeak(s, t, i);
      }
      inodes := inodes[i := inodes[i].(size := 0)];
      assert S() == Resize(t, i, 0);
      dinodes := dinodes[i := inodes[i]];
      logged := logged + {Iblock(S(), i)};
    }
  }
}
