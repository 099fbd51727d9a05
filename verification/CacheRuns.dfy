/** Histories of the steps of kernel/bio.c and of commits, and what a crash during a commit that goes
    through the cache leaves (kernel/log.c). */
module CacheRuns {
  import opened Common
  import opened BufferCache
  import opened CacheSteps
  import opened CacheCommit
  import Wal = WriteAheadLog

  /** With nothing logged, the disk holds every block. */
  lemma NothingLogged(c: Cache, p: Plain, at: map<Key, nat>, k: Key)
    requires Rep(c, p, at) && p.logged == [] && k.dev >= 1
    ensures Lookup(c.disk, k) == Lookup(p.m, k)
  {
    RepAt(c, p, at, k);
  }

  /** Distinct blocks that are all in `ks` are in no more buffers than `ks` has members. */
  lemma {:induction false} Pigeonhole(bufs: seq<Buf>, ks: set<Key>)
    requires forall a, b :: 0 <= a < b < |bufs| ==> KeyOf(bufs[a]) != KeyOf(bufs[b])
    requires forall a :: 0 <= a < |bufs| ==> KeyOf(bufs[a]) in ks
    ensures |bufs| <= |ks|
  {
    if bufs != [] {
      Pigeonhole(bufs[1..], ks - {KeyOf(bufs[0])});
    }
  }

  /** The blocks in use. */
  function Used(p: Plain): (ks: set<Key>)
    ensures forall k :: k in ks <==> InUse(p, k)
  {
    p.hold.Keys + (set k | k in p.logged) + (set k | k in p.waiting)
  }

  /** While fewer blocks are in use than there are buffers, one can be had for any block. */
  lemma BufferAvailable(c: Cache, p: Plain, at: map<Key, nat>)
    requires Unique(c) && Rep(c, p, at) && |Used(p)| < |c.bufs|
    ensures !Busy(c)
  {
    if Busy(c) {
      forall a | 0 <= a < |c.bufs| ensures KeyOf(c.bufs[a]) in Used(p) && c.bufs[a].dev >= 1 {
        assert BufOk(c.bufs[a], c.pins[a], c.dirty[a], p) && PlaceOk(c, p, at, KeyOf(c.bufs[a]));
      }
      Pigeonhole(c.bufs, Used(p));
    }
  }

  lemma {:induction false} DistinctFit(ks: seq<Key>, s: set<Key>)
    requires forall i, j :: 0 <= i < j < |ks| ==> ks[i] != ks[j]
    requires forall i :: 0 <= i < |ks| ==> ks[i] in s
    ensures |ks| <= |s|
  {
    if ks != [] {
      DistinctFit(ks[1..], s - {ks[0]});
    }
  }

  function KeysOf(bufs: seq<Buf>): (s: set<Key>)
    ensures |s| <= |bufs| && forall i :: 0 <= i < |bufs| ==> KeyOf(bufs[i]) in s
  {
    if bufs == [] then {} else {KeyOf(bufs[0])} + KeysOf(bufs[1..])
  }

  /** A log with as many blocks as there are buffers pins them all, so it can no longer be committed. */
  lemma FullLogIsBusy(c: Cache, p: Plain, at: map<Key, nat>, area: Area)
    requires Rep(c, p, at) && LogOk(p, area) && |c.bufs| <= |p.logged|
    ensures Busy(c)
  {
    if b: nat :| b < |c.bufs| && c.bufs[b].refcnt == 0 {
      var others := c.bufs[..b] + c.bufs[b + 1..];
      forall i | 0 <= i < |p.logged| ensures p.logged[i] in KeysOf(others) {
        var k := p.logged[i];
        assert k in p.logged;
        RepAt(c, p, at, k);
        assert others[if at[k] < b then at[k] else at[k] - 1] == c.bufs[at[k]];
      }
      DistinctFit(p.logged, KeysOf(others));
    }
  }

  // ----- The fullest log -----

  /** An operation that reads a block and logs it. */
  method ReadAndLog(h: Holders, area: Area, k: Key, lh: seq<Key>) returns (lh': seq<Key>)
    requires h.Valid() && LogOk(h.p, area) && lh == h.p.logged && h.p.hold == map[] && h.p.waiting == multiset{}
    requires k.dev == area.dev && !InArea(area, k) && k !in lh && |lh| < LOGBLOCKS && |lh| < h.c.n
    modifies h, h.c
    ensures h.Valid() && LogOk(h.p, area) && lh' == h.p.logged == lh + [k] && h.p.hold == map[] && h.p.waiting == multiset{}
  {
    SetOfLogged(h.p);
    BufferAvailable(h.c.C(), h.p, h.at);
    FreshNeedsBuffer(h.c.C(), h.p, h.at, k);
    ReadLogRelease(h.p, area, k);
    var panicked, data := h.Read(k);
    lh' := h.LogWrite(k, lh);
    h.Release(k);
  }

  lemma ReadLogRelease(p: Plain, area: Area, k: Key)
    requires LogOk(p, area) && p.hold == map[] && k.dev == area.dev && !InArea(area, k) && k !in p.logged && |p.logged| < LOGBLOCKS
    ensures var q := Next(Next(Entered(p, k, true), LogWrite(k)), Release(k));
            LogOk(q, area) && q.logged == p.logged + [k] && q.hold == map[] && q.waiting == p.waiting
  {
    assert Next(Next(Entered(p, k, true), LogWrite(k)), Release(k)).hold == map[];
  }

  lemma SetOfLogged(p: Plain)
    requires p.hold == map[] && p.waiting == multiset{}
    ensures |Used(p)| <= |p.logged|
  {
    assert Used(p) == ToSet(p.logged);
  }

  function ToSet(ks: seq<Key>): (s: set<Key>)
    ensures |s| <= |ks| && forall k :: k in s <==> k in ks
  {
    if ks == [] then {} else {ks[0]} + ToSet(ks[1..])
  }

  /** The log has room for as many blocks as there are buffers.  Once it holds them, nothing else need
      be held for commit to panic: it finds no buffer for the log's own blocks. */
  method FullLogPanics(area: Area, disk: map<Key, Block>, ks: seq<Key>) returns (h: Holders, lh: seq<Key>, panicked: bool)
    requires area.dev >= 1 && |ks| == LOGBLOCKS
    requires forall i :: 0 <= i < |ks| ==> ks[i].dev == area.dev && !InArea(area, ks[i])
    requires forall i, j :: 0 <= i < j < |ks| ==> ks[i] != ks[j]
    ensures fresh(h) && h.Valid() && h.c.n == LOGBLOCKS && LogOk(h.p, area)
    ensures lh == h.p.logged == ks && h.p.hold == map[] && h.p.waiting == multiset{}
    ensures panicked
  {
    h := new Holders(LOGBLOCKS, disk);
    lh := [];
    for i := 0 to |ks|
      invariant fresh(h) && fresh(h.c) && h.Valid() && h.c.n == LOGBLOCKS && LogOk(h.p, area)
      invariant lh == h.p.logged == ks[..i] && h.p.hold == map[] && h.p.waiting == multiset{}
    {
      lh := ReadAndLog(h, area, ks[i], lh);
      TakeMore(ks, i);
    }
    TakeAll(ks, |ks|);
    FullLogIsBusy(h.c.C(), h.p, h.at, area);
    panicked := CacheCommit.Commit(h, area, lh);
  }

  // ----- Histories -----

  datatype Op = Do(s: Step) | Commit

  /** What callers keep to: no step on the log's own blocks, bunpin only in commit, log_write on the
      log's device; commit waits until no logged block is held. */
  ghost predicate Allowed(p: Plain, area: Area, op: Op) {
    match op
    case Do(s) => Enabled(p, s) && !InArea(area, s.k) && !s.Unpin? && (s.LogWrite? ==> s.k.dev == area.dev)
    case Commit => forall k :: k in p.logged ==> k !in p.hold
  }

  /** The plain block map; a commit does not change it. */
  ghost function SpecNext(p: Plain, area: Area, op: Op): (q: Plain)
    requires Allowed(p, area, op)
  {
    if op.Do? then Next(p, op.s) else p.(logged := [])
  }

  ghost predicate Possible(p: Plain, area: Area, ops: seq<Op>)
    decreases |ops|
  {
    ops == [] || (Allowed(p, area, ops[0]) && Possible(SpecNext(p, area, ops[0]), area, ops[1..]))
  }

  /** What stops an operation: no buffer, or the log's size guard. */
  ghost predicate Stuck(c: Cache, p: Plain, op: Op) {
    match op
    case Do(s) => if s.LogWrite? then |p.logged| >= LOGBLOCKS else s.Find? && NoBuffer(c, s.k)
    case Commit => p.logged != [] && Busy(c)
  }

  /** `q` is `p` as callers see it, without the log's own blocks. */
  ghost predicate Agree(p: Plain, q: Plain, area: Area) {
    q == p.(m := q.m) && forall k :: !InArea(area, k) ==> Lookup(p.m, k) == Lookup(q.m, k)
  }

  lemma StepAgrees(p: Plain, q: Plain, area: Area, s: Step)
    requires Agree(p, q, area) && Enabled(q, s) && !InArea(area, s.k)
    ensures Enabled(p, s) && Agree(Next(p, s), Next(q, s), area)
  {
  }

  lemma StepLogOk(p: Plain, area: Area, s: Step)
    requires LogOk(p, area) && Allowed(p, area, Do(s)) && (s.LogWrite? ==> |p.logged| < LOGBLOCKS)
    ensures LogOk(Next(p, s), area)
  {
  }

  lemma CommitLogOk(p: Plain, q: Plain, area: Area)
    requires LogOk(p, area) && Committed(p, q, area)
    ensures LogOk(q, area) && Agree(q, p.(logged := []), area)
  {
  }

  lemma StuckAgrees(c: Cache, p: Plain, q: Plain, area: Area, op: Op)
    requires Agree(p, q, area)
    ensures Stuck(c, p, op) == Stuck(c, q, op)
  {
  }

  /** One step through the cache; `got` is what bread returns. */
  method Step(h: Holders, s: CacheSteps.Step, lh: seq<Key>) returns (stuck: bool, got: Block, lh': seq<Key>)
    requires h.Valid() && Enabled(h.p, s) && !s.Unpin? && lh == h.p.logged
    modifies h, h.c
    ensures h.Valid() && lh' == h.p.logged && (stuck <==> Stuck(old(h.c.C()), old(h.p), Do(s)))
    ensures if stuck then h.p == old(h.p) && h.c.C() == old(h.c.C()) else h.p == Next(old(h.p), s)
    ensures s.Enter? && s.read ==> got == Lookup(old(h.p).m, s.k)
  {
    stuck, got, lh' := false, [], lh;
    match s
    case Find(k) => stuck := h.Find(k);
    case Enter(k, read) => got := h.Enter(k, read);
    case Change(k, data) => h.Change(k, data);
    case LogWrite(k) =>
      if |lh| >= LOGBLOCKS {
        stuck := true;
      } else {
        lh' := h.LogWrite(k, lh);
      }
    case Write(k) => h.Write(k);
    case Unpin(_) => assert false;
    case Release(k) => h.Release(k);
  }

  predicate Reads(op: Op) { op.Do? && op.s.Enter? && op.s.read }

  /** One operation, against the plain block map `q`. */
  method Perform(h: Holders, area: Area, op: Op, lh: seq<Key>, ghost q: Plain) returns (stuck: bool, got: Block, lh': seq<Key>)
    requires h.Valid() && LogOk(h.p, area) && lh == h.p.logged && Agree(h.p, q, area) && Allowed(q, area, op)
    modifies h, h.c
    ensures h.Valid() && LogOk(h.p, area) && lh' == h.p.logged && (stuck <==> Stuck(old(h.c.C()), q, op))
    ensures Agree(h.p, if stuck then q else SpecNext(q, area, op), area) && (stuck ==> h.c.C() == old(h.c.C()))
    ensures Reads(op) ==> got == Lookup(q.m, op.s.k)
  {
    StuckAgrees(h.c.C(), h.p, q, area, op);
    match op
    case Do(s) =>
      StepAgrees(h.p, q, area, s);
      if !(s.LogWrite? && |h.p.logged| >= LOGBLOCKS) {
        StepLogOk(h.p, area, s);
      }
      stuck, got, lh' := Step(h, s, lh);
    case Commit =>
      got := [];
      stuck := CacheCommit.Commit(h, area, lh);
      lh' := if stuck then lh else [];
      if !stuck {
        CommitLogOk(old(h.p), h.p, area);
      }
  }

  /** The block maps `qs` follow the operations, and the reads among them returned what these held. */
  ghost predicate History(area: Area, ops: seq<Op>, got: seq<Block>, qs: seq<Plain>) {
    && |got| <= |ops| && |qs| == |got| + 1
    && (forall i :: 0 <= i < |got| ==> Allowed(qs[i], area, ops[i]) && qs[i + 1] == SpecNext(qs[i], area, ops[i]))
    && (forall i :: 0 <= i < |got| && Reads(ops[i]) ==> got[i] == Lookup(qs[i].m, ops[i].s.k))
  }

  lemma HistoryMore(area: Area, ops: seq<Op>, got: seq<Block>, qs: seq<Plain>, data: Block)
    requires History(area, ops, got, qs) && |got| < |ops| && Possible(qs[|got|], area, ops[|got|..])
    requires Reads(ops[|got|]) ==> data == Lookup(qs[|got|].m, ops[|got|].s.k)
    ensures Allowed(qs[|got|], area, ops[|got|])
    ensures var q := SpecNext(qs[|got|], area, ops[|got|]);
            History(area, ops, got + [data], qs + [q]) && Possible(q, area, ops[|got| + 1..])
  {
    assert ops[|got|..][1..] == ops[|got| + 1..];
  }

  /** Over every history, with any number of buffers held at once, bread returns what a plain block
      map holds, until an operation is stuck. */
  method Run(h: Holders, area: Area, ops: seq<Op>) returns (got: seq<Block>, lh: seq<Key>, ghost qs: seq<Plain>)
    requires h.Valid() && LogOk(h.p, area) && h.p.logged == [] && Possible(h.p, area, ops)
    modifies h, h.c
    ensures h.Valid() && History(area, ops, got, qs) && qs[0] == old(h.p)
    ensures Agree(h.p, qs[|got|], area) && lh == h.p.logged
    ensures |got| < |ops| ==> Stuck(h.c.C(), qs[|got|], ops[|got|])
  {
    got, lh, qs := [], [], [h.p];
    assert ops[0..] == ops;
    ghost var q := h.p;
    var stuck := false;
    while |got| < |ops| && !stuck
      invariant h.Valid() && LogOk(h.p, area) && lh == h.p.logged && Agree(h.p, q, area)
      invariant History(area, ops, got, qs) && qs[0] == old(h.p) && qs[|got|] == q && Possible(q, area, ops[|got|..])
      invariant stuck ==> |got| < |ops| && Stuck(h.c.C(), q, ops[|got|])
      decreases |ops| - |got|, !stuck
    {
      var data;
      stuck, data, lh := Perform(h, area, ops[|got|], lh, q);
      if !stuck {
        HistoryMore(area, ops, got, qs, data);
        q := SpecNext(q, area, ops[|got|]);
        got, qs := got + [data], qs + [q];
      }
    }
  }

  /** A holder has changed block `k` to `data`. */
  predicate Changed(p: Plain, k: Key, data: Block) { k in p.hold && p.hold[k].data == Some(data) }

  // The holder has what it put there until it changes it again or lets go.
  lemma {:induction false} ChangeStays(area: Area, ops: seq<Op>, got: seq<Block>, qs: seq<Plain>, i: nat, j: nat, k: Key, data: Block)
    requires History(area, ops, got, qs) && i <= j <= |got| && Changed(qs[i], k, data)
    requires forall n :: i <= n < j && ops[n].Do? && ops[n].s.k == k ==> !ops[n].s.Change? && !ops[n].s.Release?
    ensures Changed(qs[j], k, data)
    decreases j - i
  {
    if i < j {
      assert Allowed(qs[i], area, ops[i]) && qs[i + 1] == SpecNext(qs[i], area, ops[i]);
      ChangeStays(area, ops, got, qs, i + 1, j, k, data);
    }
  }

  // A block changes only by log_write or bwrite of its holder.
  lemma {:induction false} BlockStays(area: Area, ops: seq<Op>, got: seq<Block>, qs: seq<Plain>, i: nat, j: nat, k: Key)
    requires History(area, ops, got, qs) && i <= j <= |got|
    requires forall n :: i <= n < j && ops[n].Do? && ops[n].s.k == k ==> !ops[n].s.LogWrite? && !ops[n].s.Write?
    ensures Lookup(qs[j].m, k) == Lookup(qs[i].m, k)
    decreases j - i
  {
    if i < j {
      assert Allowed(qs[i], area, ops[i]) && qs[i + 1] == SpecNext(qs[i], area, ops[i]);
      BlockStays(area, ops, got, qs, i + 1, j, k);
    }
  }

  /** bread returns the last data that a holder put into the block and logged or wrote, whatever was held,
      recycled and committed in between. */
  lemma ReadsLastChange(area: Area, ops: seq<Op>, got: seq<Block>, qs: seq<Plain>, i: nat, j: nat, l: nat, k: Key, data: Block)
    requires History(area, ops, got, qs) && i < j < l < |got|
    requires ops[i] == Do(Change(k, data)) && (ops[j] == Do(LogWrite(k)) || ops[j] == Do(Write(k))) && ops[l] == Do(Enter(k, true))
    requires forall n :: i < n < j && ops[n].Do? && ops[n].s.k == k ==> !ops[n].s.Change? && !ops[n].s.Release?
    requires forall n :: j < n < l && ops[n].Do? && ops[n].s.k == k ==> !ops[n].s.LogWrite? && !ops[n].s.Write?
    ensures got[l] == data
  {
    assert qs[i + 1] == SpecNext(qs[i], area, ops[i]);
    ChangeStays(area, ops, got, qs, i + 1, j, k, data);
    assert Allowed(qs[j], area, ops[j]) && qs[j + 1] == SpecNext(qs[j], area, ops[j]);
    BlockStays(area, ops, got, qs, j + 1, l, k);
    assert Reads(ops[l]);
  }

  /** Before anything is logged or written there, bread returns what the block held at first. */
  lemma ReadsFirst(area: Area, ops: seq<Op>, got: seq<Block>, qs: seq<Plain>, l: nat, k: Key)
    requires History(area, ops, got, qs) && l < |got| && ops[l] == Do(Enter(k, true))
    requires forall n :: 0 <= n < l && ops[n].Do? && ops[n].s.k == k ==> !ops[n].s.LogWrite? && !ops[n].s.Write?
    ensures got[l] == Lookup(qs[0].m, k)
  {
    BlockStays(area, ops, got, qs, 0, l, k);
    assert Reads(ops[l]);
  }

  // ----- A crash during commit -----

  /** The blocks of the log's device, as `m` has them. */
  ghost predicate Device(m: map<Key, Block>, dev: nat, d: Wal.Disk) {
    forall no: nat :: no < |d| ==> Lookup(m, Key(dev, no)) == d[no]
  }

  /** Outside the logged blocks the disk is what the cache shows, so the crash theorems apply. */
  lemma CacheIsQuiet(c: Cache, p: Plain, at: map<Key, nat>, area: Area, d: Wal.Disk, v: Wal.Disk)
    requires Rep(c, p, at) && LogOk(p, area) && Device(c.disk, area.dev, d) && Device(p.m, area.dev, v) && |v| == |d|
    requires Wal.Layout(d, area.start) && d[area.start][0] == 0
    requires forall k :: k in p.logged ==> k.no < |d| && k !in p.hold
    ensures Wal.Quiet(d, v, area.start, Numbers(p.logged))
  {
    var nos := Numbers(p.logged);
    forall i | 0 <= i < |nos| ensures Wal.IsHome(d, area.start, nos[i]) {
      assert p.logged[i] in p.logged;
    }
    forall i, j | 0 <= i < j < |nos| ensures nos[i] != nos[j] {
      assert p.logged[i] in p.logged && p.logged[j] in p.logged;
    }
    forall no: nat | no < |d| && no !in nos ensures v[no] == d[no] {
      var k := Key(area.dev, no);
      assert forall i :: 0 <= i < |nos| ==> nos[i] in nos && nos[i] == p.logged[i].no;
      RepAt(c, p, at, k);
    }
  }

  /** The writes that commit sends through the cache are those of the crash theorems. */
  lemma TraceIsCommit(p: Plain, area: Area, v: Wal.Disk)
    requires LogOk(p, area) && Device(p.m, area.dev, v) && Wal.Layout(v, area.start)
    requires Wal.GoodList(v, area.start, Numbers(p.logged))
    ensures var ws, sent := Wal.CommitWrites(v, area.start, Numbers(p.logged)), Trace(p.m, area, p.logged);
            |ws| == |sent| && forall i :: 0 <= i < |ws| ==> sent[i] == Sent(Key(area.dev, ws[i].no), ws[i].data)
  {
  }

  /** The disk when the writes have reached it. */
  function Reached(disk: map<Key, Block>, ws: seq<Sent>): (r: map<Key, Block>) {
    if ws == [] then disk else Reached(disk, ws[..|ws| - 1])[ws[|ws| - 1].k := ws[|ws| - 1].data]
  }

  lemma {:induction false} ReachedDevice(disk: map<Key, Block>, dev: nat, d: Wal.Disk, sent: seq<Sent>, ws: seq<Wal.Write>)
    requires Device(disk, dev, d) && |sent| == |ws|
    requires forall i :: 0 <= i < |ws| ==> 0 <= ws[i].no < |d| && sent[i] == Sent(Key(dev, ws[i].no), ws[i].data)
    ensures Device(Reached(disk, sent), dev, Wal.Apply(d, ws))
  {
    if sent != [] {
      var n := |sent| - 1;
      ReachedDevice(disk, dev, d, sent[..n], ws[..n]);
      var before, after := Wal.Apply(d, ws[..n]), Wal.Apply(d, ws);
      forall no: nat | no < |d| ensures Lookup(Reached(disk, sent), Key(dev, no)) == after[no] {
        assert Lookup(Reached(disk, sent[..n]), Key(dev, no)) == before[no];
      }
    }
  }

  lemma CommitStaysOnDisk(v: Wal.Disk, start: nat, bs: seq<int>, i: nat)
    requires Wal.Layout(v, start) && Wal.GoodList(v, start, bs) && i < |Wal.CommitWrites(v, start, bs)|
    ensures 0 <= Wal.CommitWrites(v, start, bs)[i].no < |v|
  {
  }

  /** A crash after any number of the writes that a commit through the cache sends, then any number of
      crashed recoveries and a complete one: the home blocks are all what the disk had, or all what the
      cache showed, and that exactly when the header write is among them. */
  lemma CommitThroughCache(c: Cache, p: Plain, at: map<Key, nat>, area: Area, d: Wal.Disk, v: Wal.Disk, k: nat, crashes: seq<nat>)
    requires Rep(c, p, at) && LogOk(p, area) && Device(c.disk, area.dev, d) && Device(p.m, area.dev, v) && |v| == |d|
    requires Wal.Layout(d, area.start) && d[area.start][0] == 0
    requires forall l :: l in p.logged ==> l.no < |d| && l !in p.hold
    requires k <= |Trace(p.m, area, p.logged)|
    ensures var stopped := Wal.Apply(d, Wal.CommitWrites(v, area.start, Numbers(p.logged))[..k]);
            && Device(Reached(c.disk, Trace(p.m, area, p.logged)[..k]), area.dev, stopped)
            && Wal.HeadOk(stopped, area.start)
            && var r := Wal.RecoverThrough(stopped, area.start, crashes);
               && |r| == |d|
               && forall i :: 0 <= i < |d| && !(area.start <= i <= area.start + LOGBLOCKS) ==> r[i] == if k <= |p.logged| then d[i] else v[i]
  {
    var nos := Numbers(p.logged);
    CacheIsQuiet(c, p, at, area, d, v);
    TraceIsCommit(p, area, v);
    var ws := Wal.CommitWrites(v, area.start, nos);
    forall i | 0 <= i < |ws| ensures 0 <= ws[i].no < |v| {
      CommitStaysOnDisk(v, area.start, nos, i);
    }
    ReachedDevice(c.disk, area.dev, d, Trace(p.m, area, p.logged)[..k], ws[..k]);
    Wal.CommitCrashRecover(d, v, area.start, nos, k, crashes);
  }
}
