/** Runs of file operations against the byte-sequence model (kernel/fs.c). */
module FileRuns {
  import opened Common
  import opened FileStore
  import opened FileContents
  import opened FileSystem
  import opened FileCalls

  /** Of the bytes to write `readable` can be copied in, and of those to read `room` can be copied out. */
  datatype Op = Write(off: nat, src: seq<int>, readable: nat) | Read(off: nat, n: nat, room: nat) | Truncate
  datatype Result = Wrote(r: int) | Got(bytes: Option<seq<int>>) | Emptied

  predicate Args(op: Op) {
    match op
    case Write(off, src, _) => off < UINTS && |src| < UINTS
    case Read(off, n, _) => off < UINTS && n < UINTS
    case Truncate => true
  }

  /** Operation `op` on file `i` may answer `res` and turn the files `m` into `m'`; only when a copy fails
      has a write changed bytes that it did not report. */
  ghost predicate Follows(m: seq<seq<int>>, i: nat, op: Op, res: Result, m': seq<seq<int>>) {
    && i < |m|
    && match op
       case Write(off, src, readable) =>
         && res.Wrote? && -1 <= res.r <= |src| && (res.r == -1 <==> off > |m[i]| || off + |src| > MAXBYTES)
         && (|| Sent(m, m', i, off, src[..Pos(res.r)], [])
             || (0 <= res.r && CopyFails(off, |src|, res.r, readable) && Sent(m, m', i, off, src[..res.r], src[res.r..readable])))
       case Read(off, n, room) => m' == m && res.Got? && ReadGives(m[i], off, n, room, res.bytes)
       case Truncate => res == Emptied && m' == m[i := []]
  }

  /** The same between file systems; a write stops early only when the disk is full or a copy fails. */
  ghost predicate Answers(s: Fs, i: nat, op: Op, res: Result, t: Fs)
    requires AllHoleFree(s) && AllHoleFree(t)
  {
    && Follows(Model(s), i, op, res, Model(t))
    && (op.Write? && 0 <= res.r < |op.src| ==>
          OutOfSpace(t, |Model(s)[i]|, op.off + res.r) || CopyFails(op.off, |op.src|, res.r, op.readable))
  }

  lemma WriteFollows(m: seq<seq<int>>, m': seq<seq<int>>, i: nat, off: nat, src: seq<int>, readable: nat, r: int, part: seq<int>)
    requires i < |m| && -1 <= r <= |src| && (r == -1 <==> off > |m[i]| || off + |src| > MAXBYTES)
    requires r == -1 ==> m' == m
    requires r >= 0 ==> Sent(m, m', i, off, src[..r], part)
    requires part != [] ==> 0 <= r && CopyFails(off, |src|, r, readable) && part == src[r..readable]
    ensures Follows(m, i, Write(off, src, readable), Wrote(r), m')
  {
    if r == -1 {
      SentNothing(m, i, off);
      assert src[..0] == [];
    }
  }

  method PerformWrite(fs: Files, i: nat, off: nat, src: seq<int>, readable: nat) returns (res: Result)
    requires fs.Valid() && i < |fs.inodes| && off < UINTS && |src| < UINTS
    modifies fs
    ensures fs.Valid() && |fs.inodes| == old(|fs.inodes|)
    ensures Answers(old(fs.S()), i, Write(off, src, readable), res, fs.S())
    ensures old(NoLeak(fs.S())) ==> NoLeak(fs.S())
  {
    ghost var s := fs.S();
    ghost var part, torn;
    var r;
    r, part, torn := fs.Writei(i, off, src, readable);
    res := Wrote(r);
    if r == -1 {
      part := [];
    } else {
      WrittenSent(s, fs.S(), i, off, |src|, src[..r], part, torn, old(fs.logged), fs.logged);
    }
    WriteFollows(Model(s), Model(fs.S()), i, off, src, readable, r, part);
  }

  method Perform(fs: Files, i: nat, op: Op) returns (res: Result)
    requires fs.Valid() && i < |fs.inodes| && Args(op)
    modifies fs
    ensures fs.Valid() && |fs.inodes| == old(|fs.inodes|)
    ensures Answers(old(fs.S()), i, op, res, fs.S())
    ensures old(NoLeak(fs.S())) ==> NoLeak(fs.S())
  {
    ghost var s := fs.S();
    match op
    case Write(off, src, readable) =>
      res := PerformWrite(fs, i, off, src, readable);
    case Read(off, n, room) =>
      var bytes := fs.Readi(i, off, n, room);
      res := Got(bytes);
    case Truncate =>
      fs.Itrunc(i);
      BecomesModel(s, fs.S(), i, []);
      res := Emptied;
  }

  /** Operations on the files `files`, their answers, and the bytes of all files before, between and after. */
  ghost predicate History(ms: seq<seq<seq<int>>>, files: seq<nat>, ops: seq<Op>, rs: seq<Result>) {
    && |files| == |ops| == |rs| && |ms| == |ops| + 1
    && (forall k :: 0 <= k < |ms| ==> Sized(ms[k]))
    && forall k :: 0 <= k < |ops| ==> Follows(ms[k], files[k], ops[k], rs[k], ms[k + 1])
  }

  ghost predicate Sized(m: seq<seq<int>>) { forall i :: 0 <= i < |m| ==> |m[i]| <= MAXBYTES }

  lemma ModelSized(s: Fs)
    requires AllHoleFree(s)
    ensures Sized(Model(s))
  {
  }

  /** Over every run the files behave as plain byte sequences, and no block is lost. */
  method Run(fs: Files, files: seq<nat>, ops: seq<Op>) returns (rs: seq<Result>, ghost ms: seq<seq<seq<int>>>, ghost ss: seq<Fs>)
    requires fs.Valid() && |files| == |ops|
    requires forall k :: 0 <= k < |ops| ==> files[k] < |fs.inodes| && Args(ops[k])
    modifies fs
    ensures fs.Valid() && History(ms, files, ops, rs) && ms[0] == old(Model(fs.S())) && ms[|ops|] == Model(fs.S())
    ensures |ss| == |ms| && forall k :: 0 <= k <= |ops| ==> AllHoleFree(ss[k]) && ms[k] == Model(ss[k])
    ensures forall k :: 0 <= k < |ops| ==> Answers(ss[k], files[k], ops[k], rs[k], ss[k + 1])
    ensures old(NoLeak(fs.S())) ==> forall k :: 0 <= k <= |ops| ==> NoLeak(ss[k])
  {
    rs, ms, ss := [], [Model(fs.S())], [fs.S()];
    ModelSized(fs.S());
    for n := 0 to |ops|
      invariant fs.Valid() && |fs.inodes| == old(|fs.inodes|)
      invariant |rs| == n && |ss| == |ms| == n + 1 && ss[0] == old(fs.S()) && ss[n] == fs.S()
      invariant forall k :: 0 <= k <= n ==> AllHoleFree(ss[k]) && ms[k] == Model(ss[k]) && Sized(ms[k])
      invariant forall k :: 0 <= k < n ==> Answers(ss[k], files[k], ops[k], rs[k], ss[k + 1])
      invariant old(NoLeak(fs.S())) ==> forall k :: 0 <= k <= n ==> NoLeak(ss[k])
    {
      var res := Perform(fs, files[n], ops[n]);
      ModelSized(fs.S());
      rs, ms, ss := rs + [res], ms + [Model(fs.S())], ss + [fs.S()];
    }
  }

  /** What the answer to a write means: -1 for an offset past the end of the file or an end past 268 blocks; fewer
      bytes than asked for only if every block of the disk is in use and the next byte needs one, or if the
      bytes that can be copied in end before the block or the request does. */
  lemma WriteMeans(s: Fs, i: nat, op: Op, res: Result, t: Fs)
    requires AllHoleFree(s) && AllHoleFree(t) && Answers(s, i, op, res, t) && op.Write?
    ensures res.Wrote? && i < |s.inodes| && -1 <= res.r <= |op.src|
    ensures res.r == -1 <==> op.off > s.inodes[i].size || op.off + |op.src| > 268 * 1024
    ensures res.r == -1 ==> Model(t) == Model(s)
    ensures 0 <= res.r < |op.src| ==>
              || ((forall b :: 0 <= b < |t.used| ==> t.used[b]) && (op.off + res.r) % 1024 == 0 && op.off + res.r >= s.inodes[i].size)
              || (res.r <= op.readable < |op.src| && op.readable - res.r < 1024 - (op.off + res.r) % 1024)
  {
    if res.r == -1 {
      NothingSent(Model(s), Model(t), i, op.off);
    }
  }

  lemma NothingSent(m: seq<seq<int>>, m': seq<seq<int>>, i: nat, off: nat)
    requires Sent(m, m', i, off, [], [])
    ensures m' == m
  {
    if off <= |m[i]| {
      SentMeans(m, m', i, off, [], []);
      assert m'[i] == m[i];
    }
  }

  // ----- Reading a file in pieces -----

  /** Operations `a` up to `b` read file `i` on from where the answer before ended, `k` bytes at a time. */
  predicate ReadsOn(files: seq<nat>, ops: seq<Op>, rs: seq<Result>, i: nat, a: nat, b: nat, k: nat) {
    && a <= b <= |files| == |ops| == |rs|
    && forall j :: a <= j < b ==>
         && files[j] == i && rs[j].Got? && rs[j].bytes.Some?
         && ops[j].Read? && ops[j].n == k <= ops[j].room && ops[j].off == |Gathered(rs, a, j)|
  }

  /** What the answers from `a` up to `b` have brought. */
  function Gathered(rs: seq<Result>, a: nat, b: nat): (d: seq<int>)
    requires b <= |rs|
    decreases b
  {
    if b <= a then []
    else Gathered(rs, a, b - 1) + if rs[b - 1].Got? && rs[b - 1].bytes.Some? then rs[b - 1].bytes.value else []
  }

  // One more piece continues what was read; it is a whole piece or reaches the end.
  lemma MoreOf(c: seq<int>, g: seq<int>, d: seq<int>, k: nat, room: nat)
    requires g <= c && k <= room && 0 < k < UINTS && |c| <= MAXBYTES && ReadGives(c, |g|, k, room, Some(d))
    requires g != [] ==> |g| == |c| || k <= |g|
    ensures g + d <= c && (|g + d| == |c| || k <= |g + d|) && (d == [] ==> g == c)
  {
    if |g| + k < UINTS {
      assert g + d == c[..|g| + |d|];
    } else {
      assert g != [];
    }
  }

  // Reads leave the files as they are.
  lemma {:induction false} ReadsKeep(ms: seq<seq<seq<int>>>, files: seq<nat>, ops: seq<Op>, rs: seq<Result>, a: nat, b: nat)
    requires History(ms, files, ops, rs) && a <= b <= |ops| && forall j :: a <= j < b ==> ops[j].Read?
    ensures ms[b] == ms[a]
    decreases b
  {
    if a < b {
      ReadsKeep(ms, files, ops, rs, a, b - 1);
      assert Follows(ms[b - 1], files[b - 1], ops[b - 1], rs[b - 1], ms[b]);
    }
  }

  // Each answer is from what the file held at first.
  lemma ReadAnswer(ms: seq<seq<seq<int>>>, files: seq<nat>, ops: seq<Op>, rs: seq<Result>, i: nat, a: nat, j: nat, b: nat, k: nat)
    requires History(ms, files, ops, rs) && ReadsOn(files, ops, rs, i, a, b, k) && a <= j < b
    ensures i < |ms[a]| && PieceAt(ms[a][i], ops, rs, a, j, k)
  {
    ReadsKeep(ms, files, ops, rs, a, j);
    assert Follows(ms[j], files[j], ops[j], rs[j], ms[j + 1]);
  }

  /** Answer `j` is the piece of `c` after those of the answers from `a` on. */
  ghost predicate PieceAt(c: seq<int>, ops: seq<Op>, rs: seq<Result>, a: nat, j: nat, k: nat) {
    && j < |rs| == |ops| && rs[j].Got? && rs[j].bytes.Some? && ops[j].Read? && k <= ops[j].room
    && ReadGives(c, |Gathered(rs, a, j)|, k, ops[j].room, rs[j].bytes)
  }

  lemma {:induction false} GatheredSoFar(c: seq<int>, ops: seq<Op>, rs: seq<Result>, a: nat, b: nat, k: nat)
    requires a <= b <= |rs| == |ops| && 0 < k < UINTS && |c| <= MAXBYTES
    requires forall j {:trigger PieceAt(c, ops, rs, a, j, k)} :: a <= j < b ==> PieceAt(c, ops, rs, a, j, k)
    ensures Gathered(rs, a, b) <= c && (b > a ==> |Gathered(rs, a, b)| == |c| || k <= |Gathered(rs, a, b)|)
    ensures b > a ==> rs[b - 1].Got? && (rs[b - 1].bytes == Some([]) ==> Gathered(rs, a, b - 1) == c)
    decreases b
  {
    if a < b {
      GatheredSoFar(c, ops, rs, a, b - 1, k);
      assert PieceAt(c, ops, rs, a, b - 1, k);
      MoreOf(c, Gathered(rs, a, b - 1), rs[b - 1].bytes.value, k, ops[b - 1].room);
    }
  }

  /** Reading a file `k` bytes at a time, for any `k`, until an answer is empty, gives the whole file. */
  lemma ReadInPieces(ms: seq<seq<seq<int>>>, files: seq<nat>, ops: seq<Op>, rs: seq<Result>, i: nat, a: nat, b: nat, k: nat)
    requires History(ms, files, ops, rs) && 0 < k < UINTS && a <= b < |ops| && ReadsOn(files, ops, rs, i, a, b + 1, k)
    requires rs[b] == Got(Some([]))
    ensures i < |ms[a]| && Gathered(rs, a, b) == ms[a][i] == ms[b + 1][i]
  {
    ReadAnswer(ms, files, ops, rs, i, a, a, b + 1, k);
    ReadsKeep(ms, files, ops, rs, a, b + 1);
    assert Sized(ms[a]);
    forall j: nat | a <= j < b + 1 ensures PieceAt(ms[a][i], ops, rs, a, j, k) {
      ReadAnswer(ms, files, ops, rs, i, a, j, b + 1, k);
    }
    GatheredSoFar(ms[a][i], ops, rs, a, b + 1, k);
  }

  // ----- Reading back what was written -----

  /** An operation on the file that may change its bytes from `off` up to `end`. */
  predicate Touches(op: Op, off: nat, end: nat) {
    op.Truncate? || (op.Write? && op.off < end && off < op.off + |op.src|)
  }

  /** The files have the bytes `e` at `x` of file `j`. */
  predicate Has(m: seq<seq<int>>, j: nat, x: nat, e: seq<int>) {
    j < |m| && x + |e| <= |m[j]| && m[j][x..x + |e|] == e
  }

  lemma SentKeeps(m: seq<seq<int>>, m': seq<seq<int>>, i: nat, off: nat, d: seq<int>, part: seq<int>, j: nat, x: nat, e: seq<int>)
    requires Sent(m, m', i, off, d, part) && Has(m, j, x, e)
    requires j == i ==> x + |e| <= off || off + |d| + |part| <= x
    ensures Has(m', j, x, e)
  {
    if off <= |m[i]| {
      SentMeans(m, m', i, off, d, part);
      forall y | 0 <= y < |e| ensures m'[j][x..x + |e|][y] == e[y] {
        assert m[j][x..x + |e|][y] == m[j][x + y];
      }
    }
  }

  lemma KeepsBytes(m: seq<seq<int>>, i: nat, op: Op, res: Result, m': seq<seq<int>>, j: nat, x: nat, e: seq<int>)
    requires Follows(m, i, op, res, m') && Has(m, j, x, e)
    requires i == j ==> !Touches(op, x, x + |e|)
    ensures Has(m', j, x, e)
  {
    if op.Write? {
      var d := op.src[..Pos(res.r)];
      if Sent(m, m', i, op.off, d, []) {
        SentKeeps(m, m', i, op.off, d, [], j, x, e);
      } else {
        SentKeeps(m, m', i, op.off, d, op.src[res.r..op.readable], j, x, e);
      }
    }
  }

  /** The bytes of a file stay until an operation on that file touches them. */
  lemma {:induction false} BytesStay(ms: seq<seq<seq<int>>>, files: seq<nat>, ops: seq<Op>, rs: seq<Result>, a: nat, b: nat, j: nat, x: nat, e: seq<int>)
    requires History(ms, files, ops, rs) && a <= b <= |ops| && Has(ms[a], j, x, e)
    requires forall l :: a <= l < b && files[l] == j ==> !Touches(ops[l], x, x + |e|)
    ensures Has(ms[b], j, x, e)
    decreases b - a
  {
    if a < b {
      KeepsBytes(ms[a], files[a], ops[a], rs[a], ms[a + 1], j, x, e);
      BytesStay(ms, files, ops, rs, a + 1, b, j, x, e);
    }
  }

  /** A read gives back the bytes that a write reported, whatever else happened to the file and to others in
      between without touching them, and also when it asks for more than the file has. */
  lemma ReadBack(ms: seq<seq<seq<int>>>, files: seq<nat>, ops: seq<Op>, rs: seq<Result>, a: nat, b: nat)
    requires History(ms, files, ops, rs) && a < b < |ops| && files[a] == files[b]
    requires ops[a].Write? && rs[a].Wrote? && 0 <= rs[a].r <= |ops[a].src|
    requires ops[b].Read? && ops[b].off == ops[a].off && ops[b].n >= rs[a].r && ops[b].room >= ops[b].n && ops[b].off + ops[b].n < UINTS
    requires forall l :: a < l < b && files[l] == files[a] ==> !Touches(ops[l], ops[a].off, ops[a].off + rs[a].r)
    ensures rs[b].Got? && rs[b].bytes.Some? && ops[a].src[..rs[a].r] <= rs[b].bytes.value
  {
    var i, off, e := files[a], ops[a].off, ops[a].src[..rs[a].r];
    WroteThere(ms[a], i, ops[a], rs[a], ms[a + 1]);
    BytesStay(ms, files, ops, rs, a + 1, b, i, off, e);
    assert Follows(ms[b], files[b], ops[b], rs[b], ms[b + 1]);
    ReadHas(ms[b], i, off, e, ops[b].n, ops[b].room, rs[b].bytes);
  }

  lemma ReadHas(m: seq<seq<int>>, i: nat, off: nat, e: seq<int>, n: nat, room: nat, r: Option<seq<int>>)
    requires Has(m, i, off, e) && |e| <= n <= room && off + n < UINTS && ReadGives(m[i], off, n, room, r)
    ensures r.Some? && e <= r.value
  {
    assert r.value[..|e|] == m[i][off..][..|e|] == m[i][off..off + |e|];
  }

  lemma WroteThere(m: seq<seq<int>>, i: nat, op: Op, res: Result, m': seq<seq<int>>)
    requires Follows(m, i, op, res, m') && op.Write? && 0 <= res.r <= |op.src|
    ensures Has(m', i, op.off, op.src[..res.r])
  {
    var d := op.src[..res.r];
    if Sent(m, m', i, op.off, d, []) {
      SentThere(m, m', i, op.off, d, []);
    } else {
      SentThere(m, m', i, op.off, d, op.src[res.r..op.readable]);
    }
  }

  lemma SentThere(m: seq<seq<int>>, m': seq<seq<int>>, i: nat, off: nat, d: seq<int>, part: seq<int>)
    requires Sent(m, m', i, off, d, part) && off <= |m[i]|
    ensures Has(m', i, off, d)
  {
    SentMeans(m, m', i, off, d, part);
  }

  // ----- A torn write -----

  /** On every file of two bytes or more: a write of two bytes at its start, the second of which cannot be copied
      in, reports nothing written and has changed the first byte. */
  method TornWrite(fs: Files, i: nat, x: int, y: int) returns (r: int)
    requires fs.Valid() && i < |fs.inodes| && fs.inodes[i].size >= 2
    modifies fs
    ensures fs.Valid() && r == 0
    ensures Model(fs.S()) == old(Model(fs.S()))[i := [x] + old(Model(fs.S()))[i][1..]]
  {
    ghost var s := fs.S();
    ghost var part, torn;
    r, part, torn := fs.Writei(i, 0, [x, y], 1);
    assert part == [x] && [x, y][..r] == [];
    TornStart(Contents(s, i), x);
    BecomesModel(s, fs.S(), i, Tear(Splice(Contents(s, i), 0, []), 0 + |[x, y][..r]|, part));
  }

  lemma TornStart(c: seq<int>, x: int)
    requires c != []
    ensures Tear(Splice(c, 0, []), 0, [x]) == [x] + c[1..]
  {
    assert Splice(c, 0, []) == c;
  }
}
