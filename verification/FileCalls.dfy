/** The write system call on an inode, cut into log transactions (filewrite in kernel/file.c). */
module FileCalls {
  import opened Common
  import opened FileStore
  import opened FileContents
  import opened FileSystem

  const MAXCHUNK := 3072

  /** The file system as its users see it: the bytes of each file. */
  ghost function Model(s: Fs): (m: seq<seq<int>>)
    requires AllHoleFree(s)
    ensures |m| == |s.inodes| && forall j :: 0 <= j < |m| ==> m[j] == Contents(s, j)
  {
    seq(|s.inodes|, j requires 0 <= j < |s.inodes| => Contents(s, j))
  }

  lemma BecomesModel(s: Fs, t: Fs, i: nat, c: seq<int>)
    requires FileBecomes(s, t, i, c)
    ensures Model(t) == Model(s)[i := c]
  {
  }

  function Pos(r: int): (n: nat) { if r > 0 then r else 0 }

  /** The files `m` become `m'` when the bytes `d` go out from offset `off` of file `i`, after which a copy
      may have failed that had brought in `part`. */
  ghost predicate Sent(m: seq<seq<int>>, m': seq<seq<int>>, i: nat, off: nat, d: seq<int>, part: seq<int>) {
    && i < |m|
    && if off <= |m[i]| then m' == m[i := Tear(Splice(m[i], off, d), off + |d|, part)] else d == part == [] && m' == m
  }

  /** Byte by byte: the bytes `d` are where they were sent, after them those of `part`, as far as the file
      reaches, and every other byte, and every other file, is as it was. */
  lemma SentMeans(m: seq<seq<int>>, m': seq<seq<int>>, i: nat, off: nat, d: seq<int>, part: seq<int>)
    requires Sent(m, m', i, off, d, part) && off <= |m[i]|
    ensures |m'| == |m| && |m'[i]| == (if off + |d| > |m[i]| then off + |d| else |m[i]|)
    ensures forall j :: 0 <= j < |m| && j != i ==> m'[j] == m[j]
    ensures forall x :: 0 <= x < |m'[i]| ==>
              m'[i][x] == if off <= x < off + |d| then d[x - off]
                          else if off + |d| <= x < off + |d| + |part| then part[x - off - |d|]
                          else m[i][x]
  {
  }

  lemma SentNothing(m: seq<seq<int>>, i: nat, off: nat)
    requires i < |m|
    ensures Sent(m, m, i, off, [], [])
  {
    if off <= |m[i]| {
      assert Splice(m[i], off, []) == m[i];
      TearNothing(m[i], off);
    }
  }

  lemma SentMore(m: seq<seq<int>>, m': seq<seq<int>>, m'': seq<seq<int>>, i: nat, off: nat, d: seq<int>, e: seq<int>, part: seq<int>)
    requires Sent(m, m', i, off, d, []) && Sent(m', m'', i, off + |d|, e, part)
    ensures Sent(m, m'', i, off, d + e, part)
  {
    if off <= |m[i]| {
      SpliceAgain(m[i], off, d, e);
      TearNothing(Splice(m[i], off, d), off + |d|);
    } else {
      assert d + e == [];
    }
  }

  /** Why a write of `n` bytes at `off` of file `c`, of which `readable` can be copied in, may end early. */
  predicate Stopped(c: seq<int>, off: nat, n: nat, readable: nat, full: bool) {
    off > |c| || off + n > MAXBYTES || readable < n || full
  }

  /** Only transactions of at most MAXOPBLOCKS blocks were appended. */
  ghost predicate OpsFit(before: seq<set<int>>, ops: seq<set<int>>) {
    before <= ops && forall k :: |before| <= k < |ops| ==> |ops[k]| <= MAXOPBLOCKS
  }

  lemma OpsFitMore(before: seq<set<int>>, ops: seq<set<int>>, logged: set<int>)
    requires OpsFit(before, ops) && |logged| <= MAXOPBLOCKS
    ensures OpsFit(before, ops + [logged])
  {
  }

  /** A write of at most MAXCHUNK bytes, alone in its transaction, fits it, wherever it starts and wherever
      a copy fails. */
  lemma ChunkFits(s: Fs, t: Fs, i: nat, off: nat, want: nat, d: seq<int>, part: seq<int>, torn: set<int>, logged: set<int>)
    requires Written(s, t, i, off, want, d, part, torn, {}, logged) && want <= MAXCHUNK
    ensures |logged| <= MAXOPBLOCKS
  {
    ThreeBlocks(s.inodes[i].size, off, want);
    assert logged - {} == logged;
  }

  /** What writei did, on the bytes of the files. */
  lemma WrittenSent(s: Fs, t: Fs, i: nat, off: nat, want: nat, d: seq<int>, part: seq<int>, torn: set<int>, before: set<int>, logged: set<int>)
    requires Written(s, t, i, off, want, d, part, torn, before, logged)
    ensures Sent(Model(s), Model(t), i, off, d, part) && (NoLeak(s) ==> NoLeak(t))
  {
    BecomesModel(s, t, i, Tear(Splice(Contents(s, i), off, d), off + |d|, part));
    if NoLeak(s) {
      GrownNoLeak(s, t, i);
    }
  }

  /** begin_op and writei: one transaction, with at most MAXCHUNK bytes. */
  method Transact(fs: Files, ip: nat, off: nat, src: seq<int>, readable: nat) returns (r: int, ghost part: seq<int>)
    requires fs.Valid() && ip < |fs.inodes| && off < UINTS && |src| <= MAXCHUNK
    modifies fs
    ensures fs.Valid() && -1 <= r <= |src| && off + Pos(r) < UINTS && Pos(r) <= readable
    ensures part != [] ==> Pos(r) <= readable < |src| && part == src[Pos(r)..readable]
    ensures Sent(old(Model(fs.S())), Model(fs.S()), ip, off, src[..Pos(r)], part)
    ensures r < |src| ==> Stopped(old(Model(fs.S()))[ip], off, |src|, readable, Full(fs.S()))
    ensures old(NoLeak(fs.S())) ==> NoLeak(fs.S())
    ensures |fs.logged| <= MAXOPBLOCKS
  {
    ghost var s := fs.S();
    fs.logged := {};
    ghost var torn;
    r, part, torn := fs.Writei(ip, off, src, readable);
    if r == -1 {
      part := [];
      SentNothing(Model(s), ip, off);
    } else {
      WrittenSent(s, fs.S(), ip, off, |src|, src[..r], part, torn, {}, fs.logged);
      ChunkFits(s, fs.S(), ip, off, |src|, src[..r], part, torn, fs.logged);
    }
  }

  // What stops a later chunk would stop the whole write.
  lemma StopsEarlier(m: seq<seq<int>>, m': seq<seq<int>>, ip: nat, start: nat, d: seq<int>, total: nat, readable: nat, n: nat, full: bool)
    requires Sent(m, m', ip, start, d, []) && |d| + n <= total && |d| <= readable
    requires Stopped(m'[ip], start + |d|, n, readable - |d|, full)
    ensures Stopped(m[ip], start, total, readable, full)
  {
  }

  /** The next transaction, after the bytes `d` of a write of `total` bytes at `start` went out. */
  method WriteChunk(fs: Files, ip: nat, off: nat, src: seq<int>, room: nat,
                    ghost m: seq<seq<int>>, ghost start: nat, ghost d: seq<int>, ghost total: nat)
    returns (r: int, ghost part: seq<int>)
    requires fs.Valid() && ip < |fs.inodes| && off == start + |d| < UINTS && |src| <= MAXCHUNK && |d| + |src| <= total
    requires Sent(m, Model(fs.S()), ip, start, d, [])
    modifies fs
    ensures fs.Valid() && -1 <= r <= |src| && off + Pos(r) < UINTS && Pos(r) <= room
    ensures part != [] ==> Pos(r) <= room < |src| && part == src[Pos(r)..room]
    ensures Sent(m, Model(fs.S()), ip, start, d + src[..Pos(r)], part)
    ensures r < |src| ==> Stopped(m[ip], start, total, |d| + room, Full(fs.S()))
    ensures old(NoLeak(fs.S())) ==> NoLeak(fs.S())
    ensures |fs.logged| <= MAXOPBLOCKS
  {
    ghost var m' := Model(fs.S());
    r, part := Transact(fs, ip, off, src, room);
    SentMore(m, m', Model(fs.S()), ip, start, d, src[..Pos(r)], part);
    if r < |src| {
      StopsEarlier(m, m', ip, start, d, total, |d| + room, |src|, Full(fs.S()));
    }
  }

  lemma ChunkOf(src: seq<int>, i: nat, n: nat, r: nat, readable: nat)
    requires r <= n && i + n <= |src| && i + r <= readable
    ensures src[..i] + src[i..i + n][..r] == src[..i + r]
    ensures readable < i + n ==> src[i..i + n][r..readable - i] == src[i + r..readable]
  {
    SliceOfSlice(src, i, i + n, 0, r);
    assert src[..i] + src[i..i + r] == src[..i + r];
    if readable < i + n {
      SliceOfSlice(src, i, i + n, r, readable - i);
    }
  }

  /** After the first `i` bytes of `src`, which went out from `start` on, at most `n` more go out. */
  method WriteMore(fs: Files, ip: nat, off: nat, src: seq<int>, readable: nat, i: nat, n: nat,
                   ghost m: seq<seq<int>>, ghost start: nat)
    returns (r: int, ghost part: seq<int>)
    requires fs.Valid() && ip < |fs.inodes| && off == start + i < UINTS && i + n <= |src| && n <= MAXCHUNK && i <= readable
    requires Sent(m, Model(fs.S()), ip, start, src[..i], [])
    modifies fs
    ensures fs.Valid() && -1 <= r <= n && off + Pos(r) < UINTS && i + Pos(r) <= readable
    ensures Sent(m, Model(fs.S()), ip, start, src[..i + Pos(r)], part)
    ensures part != [] ==> r < n && readable < |src| && part == src[i + Pos(r)..readable]
    ensures r < n ==> Stopped(m[ip], start, |src|, readable, Full(fs.S()))
    ensures old(NoLeak(fs.S())) ==> NoLeak(fs.S())
    ensures |fs.logged| <= MAXOPBLOCKS
  {
    r, part := WriteChunk(fs, ip, off, src[i..i + n], readable - i, m, start, src[..i], |src|);
    ChunkOf(src, i, n, Pos(r), readable);
  }

  /** An open file; `ops` lists the blocks each finished transaction logged. */
  class OpenFile {
    var ip: nat
    var off: nat
    var writable: bool
    var ops: seq<set<int>>

    // The loop over the chunks; `i` bytes went out in whole chunks.
    method WriteChunks(fs: Files, src: seq<int>, readable: nat) returns (i: nat, ghost sent: seq<int>, ghost part: seq<int>)
      requires fs.Valid() && ip < |fs.inodes| && off < UINTS && |src| < 0x8000_0000
      modifies this`off, this`ops, fs
      ensures fs.Valid() && off == old(off) + |sent| && sent <= src && |sent| <= readable
      ensures Sent(old(Model(fs.S())), Model(fs.S()), ip, old(off), sent, part)
      ensures part != [] ==> |sent| <= readable < |src| && part == src[|sent|..readable]
      ensures i == |src| <==> sent == src
      ensures i != |src| ==> Stopped(old(Model(fs.S()))[ip], old(off), |src|, readable, Full(fs.S()))
      ensures old(NoLeak(fs.S())) ==> NoLeak(fs.S())
      ensures OpsFit(old(ops), ops)
    {
      ghost var m := Model(fs.S());
      SentNothing(m, ip, off);
      i, sent, part := 0, [], [];
      assert src[..0] == [];
      while i < |src|
        invariant 0 <= i <= |src| && off == old(off) + i < UINTS && fs.Valid() && |fs.inodes| == |m|
        invariant i <= readable && part == [] && sent == src[..i] && Sent(m, Model(fs.S()), ip, old(off), sent, [])
        invariant old(NoLeak(fs.S())) ==> NoLeak(fs.S())
        invariant OpsFit(old(ops), ops)
      {
        var n1 := if |src| - i > MAXCHUNK then MAXCHUNK else |src| - i;
        var r;
        r, part := WriteMore(fs, ip, off, src, readable, i, n1, m, old(off));
        sent := src[..i + Pos(r)];
        if r > 0 {
          off := off + r;
        }
        OpsFitMore(old(ops), ops, fs.logged);
        ops := ops + [fs.logged];
        if r != n1 {
          return;
        }
        i := i + r;
      }
    }

    /** Writes `n` bytes at the current offset, in chunks that each fit a transaction; `src` are the bytes, if
        `n` is not negative, and the first `readable` of them can be copied in. */
    method Filewrite(fs: Files, n: int, src: seq<int>, readable: nat) returns (ret: int, ghost sent: seq<int>, ghost part: seq<int>)
      requires fs.Valid() && ip < |fs.inodes| && off < UINTS && n < 0x8000_0000 && |src| == Pos(n)
      modifies this`off, this`ops, fs
      ensures fs.Valid() && off == old(off) + |sent| && sent <= src && |sent| <= readable
      ensures Sent(old(Model(fs.S())), Model(fs.S()), ip, old(off), sent, part)
      ensures part != [] ==> |sent| <= readable < n && part == src[|sent|..readable]
      ensures ret == if writable && n >= 0 && sent == src then n else -1
      ensures writable && n >= 0 && ret == -1 ==>
                || old(off) > |old(Model(fs.S()))[ip]| || old(off) + n > 274432 || readable < n
                || forall b :: 0 <= b < |fs.used| ==> fs.used[b]
      ensures old(NoLeak(fs.S())) ==> NoLeak(fs.S())
      ensures OpsFit(old(ops), ops)
      ensures old(ops) <= ops && forall k :: |old(ops)| <= k < |ops| ==> |ops[k]| <= 10
    {
      if !writable {
        SentNothing(Model(fs.S()), ip, off);
        return -1, [], [];
      }
      var i;
      i, sent, part := WriteChunks(fs, src, readable);
      ret := if i == n then n else -1;
    }
  }
}
