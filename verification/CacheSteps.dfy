/** The steps that the holders of buffers take (kernel/bio.c and log_write in kernel/log.c), against
    a plain block map.  Any number of buffers may be held at once. */
module CacheSteps {
  import opened Common
  import opened BufferCache

  // ----- The plain block map -----

  /** What a holder has: the data, unless bget gave them out unread; whether bread did; whether they
      have changed since the last log_write or bwrite; and whether the last of these was a bwrite. */
  datatype Copy = Copy(data: Option<Block>, read: bool, changed: bool, written: bool)

  /** `waiting` counts the processes that have a reference to a block's buffer and not yet its lock. */
  datatype Plain = Plain(m: map<Key, Block>, logged: seq<Key>, hold: map<Key, Copy>, waiting: multiset<Key>)

  /** bget is `Find`, which takes a reference, and then `Enter`, which takes the lock once nobody has
      it; in bread `Enter` reads the block. */
  datatype Step =
    | Find(k: Key)
    | Enter(k: Key, read: bool)
    | Change(k: Key, data: Block)
    | LogWrite(k: Key)
    | Write(k: Key)
    | Unpin(k: Key)
    | Release(k: Key)

  /** What the callers keep to: a change is followed by log_write or bwrite before brelse (except in a
      writei whose copy from user memory fails), log_write is for blocks that were read, and bunpin comes
      after the block's bwrite. */
  predicate Enabled(p: Plain, s: Step) {
    && s.k.dev >= 1
    && match s
       case Find(_) => true
       case Enter(k, _) => k in p.waiting && k !in p.hold
       case Change(k, _) => k in p.hold
       case LogWrite(k) => k in p.hold && p.hold[k].read && p.hold[k].data.Some?
       case Write(k) => k in p.hold && p.hold[k].data.Some?
       case Unpin(k) => k in p.hold && k in p.logged && p.hold[k].written && !p.hold[k].changed
       case Release(k) => k in p.hold && !p.hold[k].changed
  }

  /** Block `k` is held, read or not. */
  function Entered(p: Plain, k: Key, read: bool): (p': Plain) {
    p.(hold := p.hold[k := Copy(if read then Some(Lookup(p.m, k)) else None, read, false, false)])
  }

  /** A block changes when it is logged or written. */
  function Next(p: Plain, s: Step): (p': Plain)
    requires Enabled(p, s)
  {
    match s
    case Find(k) => p.(waiting := p.waiting + multiset{k})
    case Enter(k, read) => Entered(p.(waiting := p.waiting - multiset{k}), k, read)
    case Change(k, data) => p.(hold := p.hold[k := p.hold[k].(data := Some(data), changed := true)])
    case LogWrite(k) =>
      p.(m := p.m[k := p.hold[k].data.value],
         logged := if k in p.logged then p.logged else p.logged + [k],
         hold := p.hold[k := p.hold[k].(changed := false, written := false)])
    case Write(k) =>
      p.(m := p.m[k := p.hold[k].data.value], hold := p.hold[k := p.hold[k].(changed := false, written := true)])
    case Unpin(k) => p.(logged := Remove(p.logged, k))
    case Release(k) => p.(hold := p.hold - {k})
  }

  // ----- The cache represents it -----

  /** A buffer is locked exactly if its block is held, pinned exactly if it is logged, and referenced
      for these reasons and by those who wait for it. */
  predicate BufOk(b: Buf, pins: nat, dirty: bool, p: Plain) {
    var k := KeyOf(b);
    && (b.locked <==> k in p.hold)
    && pins == (if k in p.logged then 1 else 0)
    && b.refcnt == pins + (if b.locked then 1 else 0) + p.waiting[k]
    && (k in p.logged ==> b.valid)
    && (dirty ==> pins > 0 || (k in p.hold && p.hold[k].changed))
    && (k in p.hold ==>
          && (p.hold[k].read ==> b.valid)
          && (p.hold[k].data.Some? ==> b.data == p.hold[k].data.value)
          && (p.hold[k].written && !p.hold[k].changed ==> !dirty))
  }

  /** What bread would return is the block, unless a holder is changing it; and the block is on disk,
      unless it is logged. */
  predicate KeyOk(c: Cache, p: Plain, k: Key) {
    && ((k in p.hold && p.hold[k].changed) || Lookup(c.view, k) == Lookup(p.m, k))
    && ((k in p.logged && !(k in p.hold && p.hold[k].written)) || Lookup(c.disk, k) == Lookup(p.m, k))
  }

  /** A buffer of the block is referenced. */
  predicate InUse(p: Plain, k: Key) { k in p.hold || k in p.logged || k in p.waiting }

  /** `at` says which buffers the blocks in use are in. */
  predicate PlaceOk(c: Cache, p: Plain, at: map<Key, nat>, k: Key) {
    InUse(p, k) ==> k.dev >= 1 && k in at && at[k] < |c.bufs| && KeyOf(c.bufs[at[k]]) == k
  }

  ghost predicate Rep(c: Cache, p: Plain, at: map<Key, nat>) {
    && |c.bufs| == |c.pins| == |c.dirty|
    && (forall b :: 0 <= b < |c.bufs| ==> BufOk(c.bufs[b], c.pins[b], c.dirty[b], p))
    && (forall k: Key :: k.dev >= 1 ==> KeyOk(c, p, k))
    && (forall k :: PlaceOk(c, p, at, k))
    && (forall k :: k in p.hold && p.hold[k].read ==> p.hold[k].data.Some?)
  }

  /** Block `l` is as it was. */
  predicate SameAt(p: Plain, q: Plain, l: Key) {
    && (l in q.hold <==> l in p.hold) && (l in p.hold ==> q.hold[l] == p.hold[l])
    && (l in q.logged <==> l in p.logged) && q.waiting[l] == p.waiting[l] && Lookup(q.m, l) == Lookup(p.m, l)
  }

  lemma NextElsewhere(p: Plain, s: Step, l: Key)
    requires Enabled(p, s) && l != s.k
    ensures SameAt(p, Next(p, s), l)
  {
  }

  /** The caches differ in buffer `b` and block `k` at most. */
  ghost predicate OnlyAt(c: Cache, t: Cache, b: nat, k: Key) {
    && |t.bufs| == |t.pins| == |t.dirty| == |c.bufs| == |c.pins| == |c.dirty| && b < |c.bufs|
    && (forall a :: 0 <= a < |c.bufs| && a != b ==>
          t.bufs[a] == c.bufs[a] && t.pins[a] == c.pins[a] && t.dirty[a] == c.dirty[a])
    && (forall l :: l != k ==> Lookup(t.view, l) == Lookup(c.view, l) && Lookup(t.disk, l) == Lookup(c.disk, l))
  }

  lemma OthersOk(c: Cache, t: Cache, p: Plain, s: Step, b: nat, a: nat)
    requires Enabled(p, s) && Unique(t) && OnlyAt(c, t, b, s.k) && a < |c.bufs| && a != b && KeyOf(t.bufs[b]) == s.k
    requires BufOk(c.bufs[a], c.pins[a], c.dirty[a], p)
    ensures BufOk(t.bufs[a], t.pins[a], t.dirty[a], Next(p, s))
  {
    NextElsewhere(p, s, KeyOf(t.bufs[a]));
  }

  lemma OthersKeyOk(c: Cache, t: Cache, p: Plain, s: Step, b: nat, l: Key)
    requires Enabled(p, s) && OnlyAt(c, t, b, s.k) && l != s.k && KeyOk(c, p, l)
    ensures KeyOk(t, Next(p, s), l)
  {
    NextElsewhere(p, s, l);
  }

  lemma OthersPlaceOk(c: Cache, t: Cache, p: Plain, s: Step, at: map<Key, nat>, b: nat, l: Key)
    requires Rep(c, p, at) && Enabled(p, s) && OnlyAt(c, t, b, s.k) && l != s.k
    requires KeyOf(c.bufs[b]) == s.k || c.bufs[b].refcnt == 0
    ensures PlaceOk(t, Next(p, s), at[s.k := b], l)
  {
    NextElsewhere(p, s, l);
    assert PlaceOk(c, p, at, l) && BufOk(c.bufs[b], c.pins[b], c.dirty[b], p);
  }

  /** A step keeps the representation if it does so for its own buffer and block. */
  lemma StepRep(c: Cache, t: Cache, p: Plain, s: Step, at: map<Key, nat>, b: nat)
    requires Rep(c, p, at) && Enabled(p, s) && Unique(t) && OnlyAt(c, t, b, s.k) && KeyOf(t.bufs[b]) == s.k
    requires KeyOf(c.bufs[b]) == s.k || c.bufs[b].refcnt == 0
    requires BufOk(t.bufs[b], t.pins[b], t.dirty[b], Next(p, s)) && KeyOk(t, Next(p, s), s.k)
    ensures Rep(t, Next(p, s), at[s.k := b])
  {
    var q, at' := Next(p, s), at[s.k := b];
    forall a | 0 <= a < |t.bufs| ensures BufOk(t.bufs[a], t.pins[a], t.dirty[a], q) {
      if a != b {
        OthersOk(c, t, p, s, b, a);
      }
    }
    forall l: Key | l.dev >= 1 ensures KeyOk(t, q, l) {
      if l != s.k {
        OthersKeyOk(c, t, p, s, b, l);
      }
    }
    forall l ensures PlaceOk(t, q, at', l) {
      if l != s.k {
        OthersPlaceOk(c, t, p, s, at, b, l);
      }
    }
    forall l | l in q.hold && q.hold[l].read ensures q.hold[l].data.Some? {
      if l != s.k {
        NextElsewhere(p, s, l);
      }
    }
  }

  /** What the representation says of one block. */
  lemma RepAt(c: Cache, p: Plain, at: map<Key, nat>, k: Key)
    requires Rep(c, p, at) && k.dev >= 1
    ensures KeyOk(c, p, k) && PlaceOk(c, p, at, k)
    ensures InUse(p, k) ==> var b := at[k]; BufOk(c.bufs[b], c.pins[b], c.dirty[b], p)
    ensures k in p.hold && p.hold[k].read ==> p.hold[k].data.Some?
  {
    assert PlaceOk(c, p, at, k);
  }

  /** bget's reference, whether the block was cached or a buffer recycled. */
  lemma FindRep(c: Cache, t: Cache, p: Plain, at: map<Key, nat>, k: Key, b: nat)
    requires Rep(c, p, at) && k.dev >= 1 && Unique(t)
    requires t == c.(bufs := t.bufs) && OnlyAt(c, t, b, k)
    requires KeyOf(t.bufs[b]) == k && t.bufs[b].refcnt == c.bufs[b].refcnt + 1
    requires KeyOf(c.bufs[b]) == k ==> t.bufs[b] == c.bufs[b].(refcnt := t.bufs[b].refcnt)
    requires KeyOf(c.bufs[b]) != k ==> c.bufs[b].refcnt == 0 && !t.bufs[b].locked
    ensures Rep(t, Next(p, Find(k)), at[k := b])
  {
    RepAt(c, p, at, k);
    assert BufOk(c.bufs[b], c.pins[b], c.dirty[b], p);
    if InUse(p, k) {
      assert at[k] == b;
    }
    StepRep(c, t, p, Find(k), at, b);
  }

  /** acquiresleep, and for bread the read of a block that is not valid. */
  lemma EnterRep(c: Cache, t: Cache, p: Plain, at: map<Key, nat>, k: Key, read: bool)
    requires Rep(c, p, at) && Enabled(p, Enter(k, read)) && Unique(t) && PlaceOk(c, p, at, k)
    requires var b := at[k];
             && |t.bufs| == |c.bufs|
             && t == c.(bufs := c.bufs[b := c.bufs[b].(locked := true, valid := t.bufs[b].valid, data := t.bufs[b].data)])
             && (c.bufs[b].valid ==> t.bufs[b].valid)
             && (read ==> t.bufs[b].valid && t.bufs[b].data == Lookup(c.view, k))
    ensures Rep(t, Next(p, Enter(k, read)), at)
  {
    RepAt(c, p, at, k);
    assert OnlyAt(c, t, at[k], k);
    StepRep(c, t, p, Enter(k, read), at, at[k]);
    assert at[k := at[k]] == at;
  }

  /** A held block that was read is in the cache as its holder has it. */
  lemma HeldView(c: Cache, p: Plain, at: map<Key, nat>, k: Key)
    requires Inv(c) && Rep(c, p, at) && k in p.hold && p.hold[k].read && k.dev >= 1
    ensures p.hold[k].data == Some(Lookup(c.view, k))
  {
    RepAt(c, p, at, k);
  }

  lemma ChangeRep(c: Cache, t: Cache, p: Plain, at: map<Key, nat>, k: Key, data: Block)
    requires Rep(c, p, at) && Enabled(p, Change(k, data)) && Unique(t) && PlaceOk(c, p, at, k)
    requires var b := at[k];
             t == c.(bufs := c.bufs[b := c.bufs[b].(data := data)],
                     view := if c.bufs[b].valid then c.view[k := data] else c.view,
                     dirty := if c.bufs[b].valid then c.dirty[b := true] else c.dirty)
    ensures Rep(t, Next(p, Change(k, data)), at)
  {
    RepAt(c, p, at, k);
    assert OnlyAt(c, t, at[k], k);
    StepRep(c, t, p, Change(k, data), at, at[k]);
    assert at[k := at[k]] == at;
  }

  lemma LogRep(c: Cache, t: Cache, p: Plain, at: map<Key, nat>, k: Key)
    requires Inv(c) && Rep(c, p, at) && Enabled(p, LogWrite(k)) && Unique(t) && PlaceOk(c, p, at, k)
    requires var b := at[k];
             t == if k in p.logged then c
                  else c.(bufs := c.bufs[b := c.bufs[b].(refcnt := c.bufs[b].refcnt + 1)], pins := c.pins[b := c.pins[b] + 1])
    ensures Rep(t, Next(p, LogWrite(k)), at)
  {
    RepAt(c, p, at, k);
    HeldView(c, p, at, k);
    assert OnlyAt(c, t, at[k], k);
    StepRep(c, t, p, LogWrite(k), at, at[k]);
    assert at[k := at[k]] == at;
  }

  lemma WriteRep(c: Cache, t: Cache, p: Plain, at: map<Key, nat>, k: Key)
    requires Rep(c, p, at) && Enabled(p, Write(k)) && Unique(t) && PlaceOk(c, p, at, k)
    requires var b := at[k];
             && t == c.(disk := c.disk[k := c.bufs[b].data], view := t.view, dirty := c.dirty[b := false])
             && forall l :: Lookup(t.view, l) == if l == k then c.bufs[b].data else Lookup(c.view, l)
    ensures Rep(t, Next(p, Write(k)), at)
  {
    RepAt(c, p, at, k);
    assert OnlyAt(c, t, at[k], k);
    StepRep(c, t, p, Write(k), at, at[k]);
    assert at[k := at[k]] == at;
  }

  lemma UnpinRep(c: Cache, t: Cache, p: Plain, at: map<Key, nat>, k: Key)
    requires Rep(c, p, at) && Enabled(p, Unpin(k)) && Unique(t) && PlaceOk(c, p, at, k)
    requires var b := at[k];
             && c.bufs[b].refcnt > 0 && c.pins[b] > 0
             && t == c.(bufs := c.bufs[b := c.bufs[b].(refcnt := c.bufs[b].refcnt - 1)], pins := c.pins[b := c.pins[b] - 1])
    ensures Rep(t, Next(p, Unpin(k)), at)
  {
    RepAt(c, p, at, k);
    assert OnlyAt(c, t, at[k], k);
    StepRep(c, t, p, Unpin(k), at, at[k]);
    assert at[k := at[k]] == at;
  }

  lemma ReleaseRep(c: Cache, t: Cache, p: Plain, at: map<Key, nat>, k: Key)
    requires Rep(c, p, at) && Enabled(p, Release(k)) && Unique(t) && PlaceOk(c, p, at, k)
    requires var b := at[k];
             c.bufs[b].refcnt > 0 && t == c.(bufs := c.bufs[b := c.bufs[b].(refcnt := c.bufs[b].refcnt - 1, locked := false)])
    ensures Rep(t, Next(p, Release(k)), at) && (!InUse(Next(p, Release(k)), k) || !Busy(c) ==> !Busy(t))
  {
    RepAt(c, p, at, k);
    assert OnlyAt(c, t, at[k], k);
    StepRep(c, t, p, Release(k), at, at[k]);
    assert at[k := at[k]] == at;
    assert t.bufs[at[k]].refcnt == t.pins[at[k]] + p.waiting[k];
    if b: nat :| b < |c.bufs| && c.bufs[b].refcnt == 0 {
      assert t.bufs[b].refcnt == 0;
    }
  }

  // ----- The steps through the cache -----

  /** The block is not cached and every buffer is referenced. */
  ghost predicate NoBuffer(c: Cache, k: Key) {
    forall a :: 0 <= a < |c.bufs| ==> KeyOf(c.bufs[a]) != k && c.bufs[a].refcnt != 0
  }

  /** Every buffer is referenced, so none can be recycled. */
  ghost predicate Busy(c: Cache) { forall b :: 0 <= b < |c.bufs| ==> c.bufs[b].refcnt != 0 }

  /** The holders of buffers: `at` is which buffers they have pointers to. */
  class Holders {
    const c: BufCache
    var at: map<Key, nat>
    ghost var p: Plain

    ghost predicate Valid()
      reads this, c
    {
      c.Valid() && Rep(c.C(), p, at)
    }

    /** Before the first step nothing is held or logged, and the blocks are what is on disk. */
    constructor (nbuf: nat, disk: map<Key, Block>)
      ensures Valid() && fresh(c) && c.n == nbuf && c.issued == [] && p == Plain(disk, [], map[], multiset{})
    {
      c := new BufCache(nbuf, disk);
      at := map[];
      p := Plain(disk, [], map[], multiset{});
    }

    /** bget up to the lock. */
    method Find(k: Key) returns (panicked: bool)
      requires Valid() && k.dev >= 1
      modifies this, c`bufs, c`pins
      ensures Valid() && (panicked <==> NoBuffer(old(c.C()), k))
      ensures if panicked then p == old(p) && c.C() == old(c.C()) else p == Next(old(p), Step.Find(k))
    {
      ghost var s := c.C();
      var b;
      panicked, b := c.Bget(k);
      if !panicked {
        FindRep(s, c.C(), p, at, k, b);
        at, p := at[k := b], Next(p, Step.Find(k));
      }
    }

    /** The lock, and in bread the contents. */
    method Enter(k: Key, read: bool) returns (data: Block)
      requires Valid() && Enabled(p, Step.Enter(k, read))
      modifies this`p, c`bufs, c`pins
      ensures Valid() && p == Next(old(p), Step.Enter(k, read))
      ensures read ==> data == Lookup(old(p).m, k)
    {
      ghost var s := c.C();
      RepAt(s, p, at, k);
      c.Lock(at[k]);
      if read {
        c.ReadIn(at[k]);
      }
      data := c.bufs[at[k]].data;
      EnterRep(s, c.C(), p, at, k, read);
      p := Next(p, Step.Enter(k, read));
    }

    /** bread of a block that nobody holds. */
    method Read(k: Key) returns (panicked: bool, data: Block)
      requires Valid() && k.dev >= 1 && k !in p.hold
      modifies this, c`bufs, c`pins
      ensures Valid() && (panicked <==> NoBuffer(old(c.C()), k))
      ensures if panicked then p == old(p) && c.C() == old(c.C()) else p == Entered(old(p), k, true)
      ensures !panicked ==> data == Lookup(old(p).m, k)
    {
      data := [];
      panicked := Find(k);
      if !panicked {
        data := Enter(k, true);
        assert old(p).waiting + multiset{k} - multiset{k} == old(p).waiting;
      }
    }

    method Change(k: Key, data: Block)
      requires Valid() && Enabled(p, Step.Change(k, data))
      modifies this`p, c`bufs, c`view, c`dirty
      ensures Valid() && p == Next(old(p), Step.Change(k, data))
    {
      ghost var s := c.C();
      RepAt(s, p, at, k);
      c.SetData(at[k], data);
      ChangeRep(s, c.C(), p, at, k, data);
      p := Next(p, Step.Change(k, data));
    }

    /** log_write past its guard; `lh` is the header's list. */
    method LogWrite(k: Key, lh: seq<Key>) returns (lh': seq<Key>)
      requires Valid() && Enabled(p, Step.LogWrite(k)) && lh == p.logged
      modifies this`p, c`bufs, c`pins
      ensures Valid() && p == Next(old(p), Step.LogWrite(k)) && lh' == p.logged
    {
      ghost var s := c.C();
      RepAt(s, p, at, k);
      lh' := lh;
      if k !in lh {
        c.Bpin(at[k]);
        lh' := lh + [k];
      }
      LogRep(s, c.C(), p, at, k);
      p := Next(p, Step.LogWrite(k));
    }

    method Write(k: Key)
      requires Valid() && Enabled(p, Step.Write(k))
      modifies this`p, c`disk, c`view, c`dirty, c`issued
      ensures Valid() && p == Next(old(p), Step.Write(k))
      ensures c.issued == old(c.issued) + [Sent(k, old(p).hold[k].data.value)]
    {
      ghost var s := c.C();
      RepAt(s, p, at, k);
      c.Bwrite(at[k]);
      WriteRep(s, c.C(), p, at, k);
      p := Next(p, Step.Write(k));
    }

    method Unpin(k: Key)
      requires Valid() && Enabled(p, Step.Unpin(k))
      modifies this`p, c`bufs, c`pins
      ensures Valid() && p == Next(old(p), Step.Unpin(k))
    {
      ghost var s := c.C();
      RepAt(s, p, at, k);
      c.Bunpin(at[k]);
      UnpinRep(s, c.C(), p, at, k);
      p := Next(p, Step.Unpin(k));
    }

    method Release(k: Key)
      requires Valid() && Enabled(p, Step.Release(k))
      modifies this`p, c
      ensures Valid() && p == Next(old(p), Step.Release(k)) && c.issued == old(c.issued)
      ensures !InUse(p, k) || !Busy(old(c.C())) ==> !Busy(c.C())
    {
      ghost var s := c.C();
      RepAt(s, p, at, k);
      c.Brelse(at[k]);
      ReleaseRep(s, c.C(), p, at, k);
      p := Next(p, Step.Release(k));
    }
  }
}
