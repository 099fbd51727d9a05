/** Commit through the buffer cache (write_log, write_head and install_trans in kernel/log.c). */
module CacheCommit {
  import opened Common
  import opened BufferCache
  import opened CacheSteps

  /** The log on disk: its header block and LOGBLOCKS blocks after it. */
  datatype Area = Area(dev: nat, start: nat)

  function Slot(area: Area, i: nat): (k: Key) { Key(area.dev, area.start + i) }

  predicate InArea(area: Area, k: Key) { k.dev == area.dev && area.start <= k.no <= area.start + LOGBLOCKS }

  /** The logged blocks are distinct blocks of the log's device, and the log's own blocks are not in
      use. */
  ghost predicate LogOk(p: Plain, area: Area) {
    && area.dev >= 1 && |p.logged| <= LOGBLOCKS
    && (forall k :: k in p.logged || k in p.hold || k in p.waiting ==> !InArea(area, k))
    && (forall k :: k in p.logged ==> k.dev == area.dev)
    && (forall i, j :: 0 <= i < j < |p.logged| ==> p.logged[i] != p.logged[j])
  }

  lemma FreshNeedsBuffer(c: Cache, p: Plain, at: map<Key, nat>, k: Key)
    requires Rep(c, p, at) && !InUse(p, k)
    ensures NoBuffer(c, k) <==> Busy(c)
  {
    forall a | 0 <= a < |c.bufs| && KeyOf(c.bufs[a]) == k ensures c.bufs[a].refcnt == 0 {
      assert BufOk(c.bufs[a], c.pins[a], c.dirty[a], p);
    }
  }

  lemma LoggedIsCached(c: Cache, p: Plain, at: map<Key, nat>, k: Key)
    requires Rep(c, p, at) && k in p.logged
    ensures !NoBuffer(c, k)
  {
    assert PlaceOk(c, p, at, k);
  }

  // ----- Two buffers at once -----

  function Opened(p: Plain, a: Key, b: Key): (q: Plain) {
    Entered(Entered(p, a, true), b, true)
  }

  /** bread of a block that is not logged, then of one that is: only the first needs a new buffer. */
  method OpenBoth(h: Holders, a: Key, b: Key) returns (panicked: bool, da: Block, db: Block)
    requires h.Valid() && a.dev >= 1 && b.dev >= 1 && b !in h.p.hold
    requires !InUse(h.p, a) && b in h.p.logged
    modifies h, h.c`bufs, h.c`pins
    ensures h.Valid() && (panicked <==> Busy(old(h.c.C())))
    ensures panicked ==> h.p == old(h.p) && h.c.C() == old(h.c.C())
    ensures !panicked ==> h.p == Opened(old(h.p), a, b) && da == Lookup(h.p.m, a) && db == Lookup(h.p.m, b)
  {
    FreshNeedsBuffer(h.c.C(), h.p, h.at, a);
    db := [];
    panicked, da := h.Read(a);
    if !panicked {
      LoggedIsCached(h.c.C(), h.p, h.at, b);
      var p2;
      p2, db := h.Read(b);
    }
  }

  function Rewritten(p: Plain, k: Key, data: Block): (q: Plain)
    requires k in p.hold
  {
    p.(m := p.m[k := data], hold := p.hold[k := p.hold[k].(data := Some(data), changed := false, written := true)])
  }

  /** memmove and bwrite. */
  method Rewrite(h: Holders, k: Key, data: Block)
    requires h.Valid() && k.dev >= 1 && k in h.p.hold
    modifies h`p, h.c`bufs, h.c`view, h.c`dirty, h.c`disk, h.c`issued
    ensures h.Valid() && h.p == Rewritten(old(h.p), k, data)
    ensures h.c.issued == old(h.c.issued) + [Sent(k, data)]
  {
    h.Change(k, data);
    h.Write(k);
  }

  /** brelse of both; the one that is not in use otherwise can be recycled then. */
  method CloseBoth(h: Holders, a: Key, b: Key)
    requires h.Valid() && a.dev >= 1 && b.dev >= 1 && a in h.p.hold && b in h.p.hold && a != b
    requires !h.p.hold[a].changed && !h.p.hold[b].changed
    requires (a !in h.p.logged && a !in h.p.waiting) || (b !in h.p.logged && b !in h.p.waiting)
    modifies h`p, h.c
    ensures h.Valid() && h.p == old(h.p).(hold := old(h.p).hold - {a} - {b})
    ensures !Busy(h.c.C()) && h.c.issued == old(h.c.issued)
  {
    h.Release(a);
    h.Release(b);
  }

  /** Rewriting one of two blocks and closing both leaves nothing held. */
  lemma OpenAndClose(p: Plain, a: Key, b: Key, k: Key, data: Block, x: Key, y: Key)
    requires a !in p.hold && b !in p.hold && {a, b} == {x, y} && k in {a, b}
    ensures Rewritten(Opened(p, a, b), k, data).hold - {x} - {y} == p.hold
  {
    var q := Rewritten(Opened(p, a, b), k, data).hold - {x} - {y};
    forall l ensures l in q <==> l in p.hold {
      assert l in {a, b} <==> l in {x, y};
    }
  }

  /** One round of write_log: the cached block goes to the log. */
  method CopyBlock(h: Holders, from: Key, to: Key) returns (panicked: bool)
    requires h.Valid() && from.dev >= 1 && to.dev >= 1
    requires from in h.p.logged && from !in h.p.hold && !InUse(h.p, to)
    modifies h, h.c
    ensures h.Valid() && (panicked <==> Busy(old(h.c.C())))
    ensures panicked ==> h.p == old(h.p) && h.c.C() == old(h.c.C()) && h.c.issued == old(h.c.issued)
    ensures !panicked ==>
              && h.p == old(h.p).(m := old(h.p).m[to := Lookup(old(h.p).m, from)]) && !Busy(h.c.C())
              && h.c.issued == old(h.c.issued) + [Sent(to, Lookup(old(h.p).m, from))]
  {
    var dt, df;
    panicked, dt, df := OpenBoth(h, to, from);
    if !panicked {
      OpenAndClose(old(h.p), to, from, to, df, from, to);
      Rewrite(h, to, df);
      CloseBoth(h, from, to);
    }
  }

  /** memmove, bwrite and bunpin. */
  method SendHome(h: Holders, k: Key, data: Block)
    requires h.Valid() && k.dev >= 1 && k in h.p.hold && k in h.p.logged
    modifies h`p, h.c`bufs, h.c`pins, h.c`view, h.c`dirty, h.c`disk, h.c`issued
    ensures h.Valid() && h.p == Rewritten(old(h.p), k, data).(logged := Remove(old(h.p).logged, k))
    ensures h.c.issued == old(h.c.issued) + [Sent(k, data)]
  {
    Rewrite(h, k, data);
    h.Unpin(k);
  }

  /** One round of install_trans: the log's copy goes home, and the block's buffer is unpinned. */
  method Install(h: Holders, from: Key, to: Key) returns (panicked: bool)
    requires h.Valid() && from.dev >= 1 && to.dev >= 1
    requires to in h.p.logged && to !in h.p.hold && !InUse(h.p, from)
    modifies h, h.c
    ensures h.Valid() && (panicked <==> Busy(old(h.c.C())))
    ensures !panicked ==>
              && h.p == old(h.p).(m := old(h.p).m[to := Lookup(old(h.p).m, from)], logged := Remove(old(h.p).logged, to))
              && !Busy(h.c.C())
              && h.c.issued == old(h.c.issued) + [Sent(to, Lookup(old(h.p).m, from))]
  {
    var df, dt;
    panicked, df, dt := OpenBoth(h, from, to);
    if !panicked {
      OpenAndClose(old(h.p), from, to, to, df, from, to);
      SendHome(h, to, df);
      CloseBoth(h, from, to);
    }
  }

  // ----- The header -----

  function Numbers(ks: seq<Key>): (nos: seq<int>)
    ensures |nos| == |ks|
  {
    seq(|ks|, i requires 0 <= i < |ks| => ks[i].no)
  }

  /** The header block for a list: words beyond the list keep their old contents. */
  function Head(old_: Block, ks: seq<Key>): (b: Block) {
    [|ks|] + Numbers(ks) + if 1 + |ks| <= |old_| then old_[1 + |ks|..] else []
  }

  lemma ReadAndClose(p: Plain, k: Key, data: Block)
    requires k !in p.hold && k.dev >= 1
    ensures Rewritten(Entered(p, k, true), k, data).hold - {k} == p.hold
  {
  }

  /** write_head */
  method WriteHead(h: Holders, area: Area, lh: seq<Key>) returns (panicked: bool)
    requires h.Valid() && area.dev >= 1 && !InUse(h.p, Slot(area, 0))
    modifies h, h.c
    ensures h.Valid() && (panicked <==> Busy(old(h.c.C())))
    ensures !panicked ==>
              var k := Slot(area, 0);
              var head := Head(Lookup(old(h.p).m, k), lh);
              && h.p == old(h.p).(m := old(h.p).m[k := head]) && !Busy(h.c.C())
              && h.c.issued == old(h.c.issued) + [Sent(k, head)]
  {
    var k := Slot(area, 0);
    FreshNeedsBuffer(h.c.C(), h.p, h.at, k);
    var data;
    panicked, data := h.Read(k);
    if !panicked {
      ReadAndClose(old(h.p), k, Head(data, lh));
      Rewrite(h, k, Head(data, lh));
      h.Release(k);
    }
  }

  // ----- The two loops -----

  function Copies(m: map<Key, Block>, area: Area, lh: seq<Key>): (ws: seq<Sent>) {
    seq(|lh|, i requires 0 <= i < |lh| => Sent(Slot(area, 1 + i), Lookup(m, lh[i])))
  }

  function Homes(m: map<Key, Block>, lh: seq<Key>): (ws: seq<Sent>) {
    seq(|lh|, i requires 0 <= i < |lh| => Sent(lh[i], Lookup(m, lh[i])))
  }

  /** The first `n` logged blocks are in the log too; no block outside the log has changed. */
  ghost predicate InLog(p: Plain, q: Plain, area: Area, n: nat)
    requires n <= |p.logged|
  {
    && q == p.(m := q.m)
    && (forall k :: !InArea(area, k) ==> Lookup(q.m, k) == Lookup(p.m, k))
    && Lookup(q.m, Slot(area, 0)) == Lookup(p.m, Slot(area, 0))
    && (forall i :: 0 <= i < n ==> Lookup(q.m, Slot(area, 1 + i)) == Lookup(p.m, p.logged[i]))
  }

  lemma CopiesMore(m: map<Key, Block>, area: Area, lh: seq<Key>, n: nat)
    requires n < |lh|
    ensures Copies(m, area, lh[..n + 1]) == Copies(m, area, lh[..n]) + [Sent(Slot(area, 1 + n), Lookup(m, lh[n]))]
    ensures Homes(m, lh[..n + 1]) == Homes(m, lh[..n]) + [Sent(lh[n], Lookup(m, lh[n]))]
  {
  }

  lemma InLogMore(p: Plain, q: Plain, area: Area, n: nat)
    requires LogOk(p, area) && n < |p.logged| && InLog(p, q, area, n)
    ensures InLog(p, q.(m := q.m[Slot(area, 1 + n) := Lookup(q.m, p.logged[n])]), area, n + 1)
  {
    assert p.logged[n] in p.logged;
    var to, r := Slot(area, 1 + n), q.(m := q.m[Slot(area, 1 + n) := Lookup(q.m, p.logged[n])]);
    forall k | !InArea(area, k) ensures Lookup(r.m, k) == Lookup(p.m, k) {
      assert k != to;
    }
  }

  /** One round of write_log, in the whole. */
  method LogRound(h: Holders, area: Area, lh: seq<Key>, tail: nat, ghost p: Plain, ghost before: seq<Sent>) returns (panicked: bool)
    requires h.Valid() && LogOk(p, area) && lh == p.logged && tail < |lh| && forall k :: k in lh ==> k !in p.hold
    requires InLog(p, h.p, area, tail) && h.c.issued == before + Copies(p.m, area, lh[..tail])
    modifies h, h.c
    ensures h.Valid() && (panicked <==> Busy(old(h.c.C())))
    ensures panicked ==> h.p == old(h.p) && h.c.C() == old(h.c.C()) && h.c.issued == old(h.c.issued)
    ensures !panicked ==> InLog(p, h.p, area, tail + 1) && !Busy(h.c.C())
    ensures !panicked ==> h.c.issued == before + Copies(p.m, area, lh[..tail + 1])
  {
    assert lh[tail] in lh;
    CopiesMore(p.m, area, lh, tail);
    InLogMore(p, h.p, area, tail);
    panicked := CopyBlock(h, lh[tail], Slot(area, 1 + tail));
  }

  /** write_log */
  method WriteLog(h: Holders, area: Area, lh: seq<Key>) returns (panicked: bool)
    requires h.Valid() && LogOk(h.p, area) && lh == h.p.logged != [] && forall k :: k in lh ==> k !in h.p.hold
    modifies h, h.c
    ensures h.Valid() && (panicked <==> Busy(old(h.c.C())))
    ensures panicked ==> h.p == old(h.p) && h.c.C() == old(h.c.C()) && h.c.issued == old(h.c.issued)
    ensures !panicked ==> InLog(old(h.p), h.p, area, |lh|) && !Busy(h.c.C())
    ensures !panicked ==> h.c.issued == old(h.c.issued) + Copies(old(h.p).m, area, lh)
  {
    assert Copies(h.p.m, area, lh[..0]) == [];
    panicked := LogRound(h, area, lh, 0, h.p, h.c.issued);
    if !panicked {
      LogRest(h, area, lh, old(h.p), old(h.c.issued));
    }
  }

  // The rounds of write_log after the first, which find a buffer.
  method LogRest(h: Holders, area: Area, lh: seq<Key>, ghost p: Plain, ghost before: seq<Sent>)
    requires h.Valid() && LogOk(p, area) && lh == p.logged != [] && forall k :: k in lh ==> k !in p.hold
    requires InLog(p, h.p, area, 1) && !Busy(h.c.C()) && h.c.issued == before + Copies(p.m, area, lh[..1])
    modifies h, h.c
    ensures h.Valid() && InLog(p, h.p, area, |lh|) && !Busy(h.c.C())
    ensures h.c.issued == before + Copies(p.m, area, lh)
  {
    var tail := 1;
    while tail < |lh|
      invariant 1 <= tail <= |lh| && h.Valid() && !Busy(h.c.C())
      invariant InLog(p, h.p, area, tail)
      invariant h.c.issued == before + Copies(p.m, area, lh[..tail])
    {
      var panicked := LogRound(h, area, lh, tail, p, before);
      tail := tail + 1;
    }
    TakeAll(lh, |lh|);
  }

  /** The first `n` logged blocks are installed and unpinned; no block has changed. */
  ghost predicate Installed(p: Plain, q: Plain, n: nat)
    requires n <= |p.logged|
  {
    q == p.(m := q.m, logged := p.logged[n..]) && forall k :: Lookup(q.m, k) == Lookup(p.m, k)
  }

  lemma InstalledMore(p: Plain, q: Plain, area: Area, n: nat)
    requires LogOk(p, area) && n < |p.logged| && Installed(p, q, n)
    requires Lookup(p.m, Slot(area, 1 + n)) == Lookup(p.m, p.logged[n])
    ensures var k := p.logged[n];
            Installed(p, q.(m := q.m[k := Lookup(q.m, Slot(area, 1 + n))], logged := Remove(q.logged, k)), n + 1)
  {
    var k := p.logged[n];
    assert p.logged[n..] == [k] + p.logged[n + 1..];
    assert q.logged[1..] == p.logged[n + 1..];
    RemoveFirst(q.logged, k);
    var r := q.(m := q.m[k := Lookup(q.m, Slot(area, 1 + n))], logged := Remove(q.logged, k));
    forall l ensures Lookup(r.m, l) == Lookup(p.m, l) {
      assert Lookup(q.m, l) == Lookup(p.m, l) && Lookup(q.m, Slot(area, 1 + n)) == Lookup(p.m, Slot(area, 1 + n));
    }
  }

  /** The log holds the logged blocks. */
  ghost predicate Logged(p: Plain, area: Area) {
    forall i :: 0 <= i < |p.logged| ==> Lookup(p.m, Slot(area, 1 + i)) == Lookup(p.m, p.logged[i])
  }

  lemma InstallReady(p: Plain, q: Plain, area: Area, n: nat)
    requires LogOk(p, area) && n < |p.logged| && Installed(p, q, n) && forall k :: k in p.logged ==> k !in p.hold
    ensures var from, to := Slot(area, 1 + n), p.logged[n];
            && to in q.logged && to !in q.hold && to.dev >= 1
            && !InUse(q, from) && from.dev >= 1
            && Lookup(q.m, from) == Lookup(p.m, from)
  {
    assert p.logged[n..][0] == p.logged[n] && p.logged[n] in p.logged;
    assert InArea(area, Slot(area, 1 + n));
  }

  method InstallRound(h: Holders, area: Area, lh: seq<Key>, tail: nat, ghost p: Plain, ghost before: seq<Sent>)
    requires h.Valid() && LogOk(p, area) && lh == p.logged && tail < |lh| && forall k :: k in lh ==> k !in p.hold
    requires Logged(p, area) && Installed(p, h.p, tail) && !Busy(h.c.C()) && h.c.issued == before + Homes(p.m, lh[..tail])
    modifies h, h.c
    ensures h.Valid() && !Busy(h.c.C()) && Installed(p, h.p, tail + 1)
    ensures h.c.issued == before + Homes(p.m, lh[..tail + 1])
  {
    CopiesMore(p.m, area, lh, tail);
    InstalledMore(p, h.p, area, tail);
    InstallReady(p, h.p, area, tail);
    var panicked := Install(h, Slot(area, 1 + tail), lh[tail]);
  }

  /** install_trans */
  method InstallTrans(h: Holders, area: Area, lh: seq<Key>)
    requires h.Valid() && LogOk(h.p, area) && lh == h.p.logged && forall k :: k in lh ==> k !in h.p.hold
    requires Logged(h.p, area) && !Busy(h.c.C())
    modifies h, h.c
    ensures h.Valid() && !Busy(h.c.C()) && Installed(old(h.p), h.p, |lh|)
    ensures h.c.issued == old(h.c.issued) + Homes(old(h.p).m, lh)
  {
    ghost var p, before := h.p, h.c.issued;
    assert lh[0..] == lh && Homes(p.m, lh[..0]) == [];
    var tail := 0;
    while tail < |lh|
      invariant 0 <= tail <= |lh| && h.Valid() && !Busy(h.c.C()) && Installed(p, h.p, tail)
      invariant h.c.issued == before + Homes(p.m, lh[..tail])
    {
      InstallRound(h, area, lh, tail, p, before);
      tail := tail + 1;
    }
    TakeAll(lh, |lh|);
  }

  // ----- Commit -----

  /** The writes of a commit, in order. */
  function Trace(m: map<Key, Block>, area: Area, lh: seq<Key>): (ws: seq<Sent>) {
    if lh == [] then []
    else
      var k := Slot(area, 0);
      var head := Head(Lookup(m, k), lh);
      Copies(m, area, lh) + [Sent(k, head)] + Homes(m, lh) + [Sent(k, Head(head, []))]
  }

  /** Nothing is logged any more, and no block outside the log has changed. */
  ghost predicate Committed(p: Plain, q: Plain, area: Area) {
    q == p.(m := q.m, logged := []) && forall k :: !InArea(area, k) ==> Lookup(q.m, k) == Lookup(p.m, k)
  }

  /** With the header written the log is complete. */
  lemma HeadWritten(p: Plain, q: Plain, area: Area, head: Block)
    requires LogOk(p, area) && InLog(p, q, area, |p.logged|)
    ensures var r := q.(m := q.m[Slot(area, 0) := head]);
            && LogOk(r, area) && Logged(r, area) && Homes(r.m, p.logged) == Homes(p.m, p.logged)
            && (forall k :: !InArea(area, k) ==> Lookup(r.m, k) == Lookup(p.m, k))
  {
    var r := q.(m := q.m[Slot(area, 0) := head]);
    forall k | !InArea(area, k) ensures Lookup(r.m, k) == Lookup(p.m, k) {
      assert k != Slot(area, 0);
    }
    forall i | 0 <= i < |p.logged| ensures Lookup(r.m, p.logged[i]) == Lookup(p.m, p.logged[i]) {
      assert p.logged[i] in p.logged;
    }
    forall i | 0 <= i < |r.logged| ensures Lookup(r.m, Slot(area, 1 + i)) == Lookup(r.m, r.logged[i]) {
      assert Slot(area, 1 + i) != Slot(area, 0);
    }
  }

  /** The first half of commit: write_log and write_head. */
  method CommitPoint(h: Holders, area: Area, lh: seq<Key>) returns (panicked: bool)
    requires h.Valid() && LogOk(h.p, area) && lh == h.p.logged != [] && forall k :: k in lh ==> k !in h.p.hold
    modifies h, h.c
    ensures h.Valid() && (panicked <==> Busy(old(h.c.C())))
    ensures panicked ==> h.p == old(h.p) && h.c.C() == old(h.c.C()) && h.c.issued == old(h.c.issued)
    ensures !panicked ==>
              var head := Head(Lookup(old(h.p).m, Slot(area, 0)), lh);
              && !Busy(h.c.C()) && h.p == old(h.p).(m := h.p.m)
              && LogOk(h.p, area) && Logged(h.p, area) && Homes(h.p.m, lh) == Homes(old(h.p).m, lh)
              && Lookup(h.p.m, Slot(area, 0)) == head
              && (forall k :: !InArea(area, k) ==> Lookup(h.p.m, k) == Lookup(old(h.p).m, k))
              && h.c.issued == old(h.c.issued) + Copies(old(h.p).m, area, lh) + [Sent(Slot(area, 0), head)]
  {
    panicked := WriteLog(h, area, lh);
    if !panicked {
      HeadWritten(old(h.p), h.p, area, Head(Lookup(h.p.m, Slot(area, 0)), lh));
      assert InArea(area, Slot(area, 0));
      var p2 := WriteHead(h, area, lh);
    }
  }

  lemma InstallCommits(p: Plain, q: Plain, area: Area, head: Block)
    requires LogOk(p, area) && Installed(p, q, |p.logged|)
    ensures Committed(p, q.(m := q.m[Slot(area, 0) := head]), area)
  {
    var r := q.(m := q.m[Slot(area, 0) := head]);
    forall k | !InArea(area, k) ensures Lookup(r.m, k) == Lookup(p.m, k) {
      assert Lookup(q.m, k) == Lookup(p.m, k) && k != Slot(area, 0);
    }
  }

  /** The second half of commit: install_trans, and write_head of the empty list. */
  method FinishCommit(h: Holders, area: Area, lh: seq<Key>)
    requires h.Valid() && LogOk(h.p, area) && lh == h.p.logged && forall k :: k in lh ==> k !in h.p.hold
    requires Logged(h.p, area) && !Busy(h.c.C())
    modifies h, h.c
    ensures h.Valid() && Committed(old(h.p), h.p, area)
    ensures var k := Slot(area, 0);
            h.c.issued == old(h.c.issued) + Homes(old(h.p).m, lh) + [Sent(k, Head(Lookup(old(h.p).m, k), []))]
  {
    ghost var k := Slot(area, 0);
    InstallTrans(h, area, lh);
    InstallCommits(old(h.p), h.p, area, Head(Lookup(h.p.m, k), []));
    assert InArea(area, k) && Lookup(h.p.m, k) == Lookup(old(h.p).m, k);
    var panicked := WriteHead(h, area, []);
  }

  lemma TraceParts(before: seq<Sent>, m: map<Key, Block>, area: Area, lh: seq<Key>)
    requires lh != []
    ensures var k := Slot(area, 0);
            var head := Head(Lookup(m, k), lh);
            before + Copies(m, area, lh) + [Sent(k, head)] + Homes(m, lh) + [Sent(k, Head(head, []))] == before + Trace(m, area, lh)
  {
  }

  /** commit: panics exactly when something is logged and every buffer is referenced. */
  method Commit(h: Holders, area: Area, lh: seq<Key>) returns (panicked: bool)
    requires h.Valid() && LogOk(h.p, area) && lh == h.p.logged && forall k :: k in lh ==> k !in h.p.hold
    modifies h, h.c
    ensures h.Valid() && (panicked <==> lh != [] && Busy(old(h.c.C())))
    ensures panicked ==> h.p == old(h.p) && h.c.C() == old(h.c.C()) && h.c.issued == old(h.c.issued)
    ensures !panicked ==> Committed(old(h.p), h.p, area) && h.c.issued == old(h.c.issued) + Trace(old(h.p).m, area, lh)
  {
    panicked := false;
    if |lh| > 0 {
      panicked := CommitPoint(h, area, lh);
      if !panicked {
        TraceParts(old(h.c.issued), old(h.p).m, area, lh);
        FinishCommit(h, area, lh);
      }
    }
  }
}
