/** The write that fills a transaction, so that MAXOPBLOCKS cannot be smaller (kernel/file.c).

    The disk has four bitmap blocks and one free block under each.  Every other block is in use: it holds
    metadata or belongs to a file.  File 0 has twelve blocks and ends one byte before the last of them does;
    each of the other files has a run of consecutive blocks. */
module CrowdedDisk {
  import opened Common
  import opened FileStore
  import opened FileContents
  import opened FileSystem
  import opened FileCalls

  const META := 8179
  const BLOCKS := 24577
  const FILES := 63

  predicate IsFree(b: int) { b == 8191 || b == 8192 || b == 16384 || b == 24576 }

  /** How many pointers file `f` has: all of them, except the last file before a free block. */
  function Count(f: nat): (n: nat) { if f == 0 then NDIRECT else if (f - 1) % 31 == 30 then 121 else POINTERS }

  function First(f: nat): (b: nat) { if f == 0 then META else 8193 + (f - 1) / 31 * 8192 + (f - 1) % 31 * POINTERS }

  function Pointer(f: nat, k: nat): (b: nat) { if k < Count(f) then First(f) + k else 0 }

  /** The pointer that names a block in use beyond the metadata. */
  function NamedBy(b: nat): (r: Ref)
    requires META <= b < BLOCKS
  {
    if b < 8191 then Ref(0, b - META)
    else if b < 8193 then Ref(0, 0)
    else
      var o := (b - 8193) % 8192;
      Ref(1 + 31 * ((b - 8193) / 8192) + o / POINTERS, o % POINTERS)
  }

  lemma NamedByPointer(f: nat, k: nat)
    requires f < FILES && k < Count(f)
    ensures var b := Pointer(f, k); META <= b < BLOCKS && !IsFree(b) && NamedBy(b) == Ref(f, k)
  {
    if f > 0 {
      var r, q := (f - 1) / 31, (f - 1) % 31;
      var o := q * POINTERS + k;
      assert f == 1 + 31 * r + q && r <= 1 && o < 8191;
      assert Pointer(f, k) - 8193 == r * 8192 + o;
      assert (r * 8192 + o) / 8192 == r && (r * 8192 + o) % 8192 == o;
      assert o / POINTERS == q && o % POINTERS == k;
    }
  }

  lemma PointerNamed(b: nat)
    requires META <= b < BLOCKS && !IsFree(b)
    ensures var r := NamedBy(b); r.i < FILES && r.k < Count(r.i) && Pointer(r.i, r.k) == b
  {
    if b >= 8193 {
      var r, o := (b - 8193) / 8192, (b - 8193) % 8192;
      var q, k := o / POINTERS, o % POINTERS;
      assert b == 8193 + r * 8192 + q * POINTERS + k && r <= 1 && o < 8191 && q <= 30;
      assert (31 * r + q) / 31 == r && (31 * r + q) % 31 == q;
    }
  }

  function Byte(v: nat, x: nat): (c: nat)
    requires x < 4
  {
    if x == 0 then v % 0x100 else if x == 1 then v / 0x100 % 0x100 else if x == 2 then v / 0x1_0000 % 0x100 else v / 0x100_0000
  }

  /** The indirect block of file `f`. */
  function Entries(f: nat): (b: Block) {
    seq(BSIZE, x requires 0 <= x < BSIZE => Byte(Pointer(f, NDIRECT + 1 + x / 4), x % 4))
  }

  lemma EntryWord(f: nat, j: nat)
    requires j < NINDIRECT
    ensures Word(Entries(f), j) == Pointer(f, NDIRECT + 1 + j)
  {
    var b, v := Entries(f), Pointer(f, NDIRECT + 1 + j);
    EntryByte(f, j, 0);
    EntryByte(f, j, 1);
    EntryByte(f, j, 2);
    EntryByte(f, j, 3);
    FourBytes(v);
  }

  lemma EntryByte(f: nat, j: nat, x: nat)
    requires j < NINDIRECT && x < 4
    ensures Entries(f)[4 * j + x] == Byte(Pointer(f, NDIRECT + 1 + j), x)
  {
    assert (4 * j + x) / 4 == j && (4 * j + x) % 4 == x;
  }

  lemma FourBytes(v: nat)
    ensures Byte(v, 0) + 0x100 * Byte(v, 1) + 0x1_0000 * Byte(v, 2) + 0x100_0000 * Byte(v, 3) == v
  {
    assert v / 0x1_0000 == v / 0x100 / 0x100;
    assert v / 0x100_0000 == v / 0x1_0000 / 0x100;
  }

  function Contained(b: nat): (d: Block) {
    if META <= b < BLOCKS && !IsFree(b) && NamedBy(b).k == NDIRECT then Entries(NamedBy(b).i) else Zeros()
  }

  function FileSize(f: nat): (n: nat) { if f == 0 then 12287 else (Count(f) - 1) * BSIZE }

  function File(f: nat): (ip: Inode) {
    Inode(seq(NDIRECT + 1, k requires 0 <= k <= NDIRECT => Pointer(f, k)), FileSize(f))
  }

  function Crowded(): (s: Fs) {
    Fs(seq(BLOCKS, b => !IsFree(b)),
       seq(BLOCKS, b requires 0 <= b < BLOCKS => Contained(b)),
       seq(FILES, f requires 0 <= f < FILES => File(f)),
       Layout(32, 8175, META))
  }

  lemma CrowdedPtr(f: nat, k: nat)
    requires f < FILES && k < POINTERS
    ensures Shape(Crowded()) && Ptr(Crowded(), Ref(f, k)) == Pointer(f, k)
  {
    var s := Crowded();
    assert Shape(s);
    if k > NDIRECT && f > 0 {
      NamedByPointer(f, NDIRECT);
      EntryWord(f, k - NDIRECT - 1);
    }
  }

  lemma CrowdedData(f: nat, m: nat)
    requires f < FILES && m < MAXFILE
    ensures Shape(Crowded()) && (Data(Crowded(), f, m).Some? <==> m * BSIZE < FileSize(f))
  {
    var r := FileRef(f, m);
    CrowdedPtr(f, r.k);
    if r.k < Count(f) {
      NamedByPointer(f, r.k);
    }
  }

  lemma CrowdedInv()
    ensures Inv(Crowded())
  {
    var s := Crowded();
    forall r | IsRef(s, r) && Ptr(s, r) != 0
      ensures META <= Ptr(s, r) < BLOCKS && s.used[Ptr(s, r)] && NamedBy(Ptr(s, r)) == r
    {
      CrowdedPtr(r.i, r.k);
      NamedByPointer(r.i, r.k);
    }
  }

  /** The crowded disk is well formed and no block of it is lost. */
  lemma CrowdedValid()
    ensures Inv(Crowded()) && AllHoleFree(Crowded()) && NoLeak(Crowded())
  {
    var s := Crowded();
    CrowdedInv();
    forall f | 0 <= f < |s.inodes| ensures HoleFree(s, f) {
      forall m | 0 <= m < MAXFILE ensures Data(s, f, m).Some? <==> m * BSIZE < s.inodes[f].size {
        CrowdedData(f, m);
      }
    }
    forall b | META <= b < BLOCKS && s.used[b] ensures Owned(s, b) {
      PointerNamed(b);
      var r := NamedBy(b);
      CrowdedPtr(r.i, r.k);
      assert IsRef(s, r) && Ptr(s, r) == b;
    }
  }

  /** A state that a write to the crowded disk leads to. */
  ghost predicate After(t: Fs, r: nat) {
    && Grown(Crowded(), t, 0) && HoleFree(t, 0) && t.inodes[0].size == 12287 + r && TightEnd(Crowded(), t, 0, 12287 + r)
  }

  lemma NewEntry(t: Fs, r: nat, k: nat)
    requires After(t, r) && NDIRECT < k < POINTERS
    ensures Ptr(t, Ref(0, k)) != 0 <==> (k - 1) * BSIZE < 12287 + r
    ensures Ptr(t, Ref(0, k)) != 0 ==> Ptr(t, Ref(0, NDIRECT)) != 0
  {
    assert FileRef(0, k - 1) == Ref(0, k) && IsRef(t, Ref(0, k));
    CrowdedPtr(0, k);
    assert Data(Crowded(), 0, k - 1).None?;
    assert Data(t, 0, k - 1).Some? <==> (k - 1) * BSIZE < 12287 + r;
  }

  /** New pointers name free blocks. */
  lemma NewIsFree(t: Fs, r: nat, k: nat)
    requires After(t, r) && NDIRECT <= k < POINTERS && Ptr(t, Ref(0, k)) != 0
    ensures IsFree(Ptr(t, Ref(0, k)))
  {
  }

  lemma Owner(t: Fs, r: nat, b: nat) returns (k: nat)
    requires After(t, r) && IsFree(b) && t.used[b]
    ensures NDIRECT <= k < POINTERS && Ptr(t, Ref(0, k)) == b && (k > NDIRECT ==> (k - 1) * BSIZE < 12287 + r)
  {
    var s := Crowded();
    assert !s.used[b];
    k :| 0 <= k < POINTERS && Ptr(s, Ref(0, k)) == 0 && Ptr(t, Ref(0, k)) == b;
    CrowdedPtr(0, k);
    if k > NDIRECT {
      NewEntry(t, r, k);
    }
  }

  /** Four free blocks suffice: the write does not stop early. */
  lemma NotShort(t: Fs, r: nat)
    requires After(t, r) && r <= 3072 && (r < 3072 ==> OutOfSpace(t, 12287, 12287 + r))
    ensures r == 3072
  {
    if r < 3072 {
      var a := Owner(t, r, 8191);
      var b := Owner(t, r, 8192);
      var c := Owner(t, r, 16384);
      var d := Owner(t, r, 24576);
    }
  }

  lemma AllTaken(t: Fs)
    requires After(t, 3072)
    ensures t.used[8191] && t.used[8192] && t.used[16384] && t.used[24576]
  {
    NewEntry(t, 3072, 13);
    NewEntry(t, 3072, 14);
    NewEntry(t, 3072, 15);
    NewIsFree(t, 3072, 12);
    NewIsFree(t, 3072, 13);
    NewIsFree(t, 3072, 14);
    NewIsFree(t, 3072, 15);
    var p, q, u, v := Ref(0, 12), Ref(0, 13), Ref(0, 14), Ref(0, 15);
    assert IsRef(t, p) && IsRef(t, q) && IsRef(t, u) && IsRef(t, v);
    assert Ptr(t, p) != Ptr(t, q) && Ptr(t, p) != Ptr(t, u) && Ptr(t, p) != Ptr(t, v);
    assert Ptr(t, q) != Ptr(t, u) && Ptr(t, q) != Ptr(t, v) && Ptr(t, u) != Ptr(t, v);
  }

  lemma TenOfTen(logged: set<int>)
    requires {8175, 8176, 8177, 8178, 8191, 8192, 16384, 24576, 8190, 32} <= logged && |logged| <= MAXOPBLOCKS
    ensures |logged| == MAXOPBLOCKS
  {
    Subset({8175, 8176, 8177, 8178, 8191, 8192, 16384, 24576, 8190, 32}, logged);
  }

  lemma LogsTaken(t: Fs, logged: set<int>)
    requires ChangesLogged(Crowded(), t, logged) && |t.used| == BLOCKS
    requires t.used[8191] && t.used[8192] && t.used[16384] && t.used[24576]
    ensures {8175, 8176, 8177, 8178, 8191, 8192, 16384, 24576} <= logged
  {
    var s := Crowded();
    assert Bblock(s, 8191) == 8175 && Bblock(s, 8192) == 8176 && Bblock(s, 16384) == 8177 && Bblock(s, 24576) == 8178;
    assert !s.used[8191] && !s.used[8192] && !s.used[16384] && !s.used[24576];
  }

  lemma LogsLast(t: Fs, logged: set<int>)
    requires Grown(Crowded(), t, 0) && WriteLogged(t, 0, 12287, 3072, logged)
    ensures 8190 in logged
  {
    CrowdedPtr(0, 11);
    assert FileRef(0, 11) == Ref(0, 11) && IsRef(Crowded(), Ref(0, 11));
    assert Ptr(t, FileRef(0, 11)) == 8190;
  }

  /** The write logs four data blocks, four bitmap blocks, the indirect block and the inode block. */
  lemma LogsTen(t: Fs, d: seq<int>, logged: set<int>)
    requires After(t, 3072) && |d| == 3072 && Written(Crowded(), t, 0, 12287, 3072, d, [], {}, {}, logged)
    ensures |logged| == MAXOPBLOCKS
  {
    AllTaken(t);
    ChunkFits(Crowded(), t, 0, 12287, 3072, d, [], {}, logged);
    assert logged + {} == logged;
    LogsTaken(t, logged);
    LogsLast(t, logged);
    assert Iblock(t, 0) == 32;
    TenOfTen(logged);
  }

  /** One write of MAXCHUNK bytes, on a disk where no block is lost, that logs exactly MAXOPBLOCKS blocks. */
  method WorstCase() returns (fs: Files, r: int)
    ensures fresh(fs) && fs.Valid() && r == MAXCHUNK && |fs.logged| == MAXOPBLOCKS && NoLeak(fs.S())
  {
    CrowdedValid();
    ghost var s := Crowded();
    fs := new Files(Crowded());
    var src := seq(MAXCHUNK, _ => 1);
    ghost var part, torn;
    r, part, torn := fs.Writei(0, 12287, src, MAXCHUNK);
    assert |Splice(Contents(s, 0), 12287, src[..r])| == 12287 + r;
    NotShort(fs.S(), r);
    LogsTen(fs.S(), src[..r], fs.logged);
    GrownNoLeak(s, fs.S(), 0);
  }
}
