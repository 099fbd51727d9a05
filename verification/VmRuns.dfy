/** Runs of virtual memory: loads, stores, forks, unmappings, changes of the processes and a failing swap
    disk, against a plain map from pages to contents (kernel/vm.c, kernel/kalloc.c, kernel/raid.c). */
module MemoryRuns {
  import opened Common
  import opened Paging
  import opened Clock
  import opened VirtualMemory
  import Raid

  /** What each process has at each page, and what is known of the processes. */
  datatype Plain = Plain(m: map<Key, View>, procs: Procs)

  datatype Op =
    | Load(p: Proc, va: nat, need: nat)
    | Store(p: Proc, va: nat, page: Page, need: nat)
    | Fork(parent: Proc, child: Proc, sz: nat, needs: nat -> nat)
    | Unmap(p: Proc, from: nat, n: nat)
    | SetProc(p: Proc, info: ProcInfo)
    | DiskFails(disk: Raid.DiskNo, junk: seq<Raid.Block>)

  /** A load is answered with the page; a denied access kills its process, a denied fork returns an error. */
  datatype Answer = Halt | Denied | Ok(page: Page)

  function PageOf(p: Proc, va: nat): (k: Key) { Key(p, va / PGSIZE) }

  /** A page that is touched for the first time is zeros. */
  function Touched(m: map<Key, View>, k: Key): (r: map<Key, View>) {
    if k in m then m else m[k := View(Filled(0), true, true, false, true)]
  }

  predicate InRange(k: Key, p: Proc, from: nat, n: nat) { k.p == p && from <= k.vpn < from + n }

  /** The child has the parent's pages below `sz`. */
  ghost predicate Forked(m: map<Key, View>, parent: Proc, child: Proc, sz: nat, t: map<Key, View>) {
    && parent != child && (forall k :: k in m ==> k.p != child)
    && (forall k: Key :: k.p != child ==> (k in t <==> k in m) && (k in m ==> t[k] == m[k]))
    && (forall vpn: nat :: Key(child, vpn) in t <==> vpn * PGSIZE < sz && Key(parent, vpn) in m)
    && (forall vpn: nat :: Key(child, vpn) in t && Key(parent, vpn) in m ==> t[Key(child, vpn)] == m[Key(parent, vpn)])
  }

  /** A process may load from (or store to) a page of its own that is below its size. */
  ghost predicate Usable(q: Plain, p: Proc, va: nat, write: bool) {
    && p in q.procs && va < q.procs[p].sz
    && var k := PageOf(p, va); k in q.m && q.m[k].u && if write then q.m[k].w else q.m[k].r
  }

  /** An operation on the plain memory, with its answer. */
  ghost predicate Follows(q: Plain, op: Op, a: Answer, t: Plain) {
    match op
    case Load(p, va, _) =>
      var k := PageOf(p, va);
      if a.Ok? then k in t.m && t == q.(m := Touched(q.m, k)) && a.page == t.m[k].page && t.m[k].r && t.m[k].u
      else t == q && !Usable(q, p, va, false)
    case Store(p, va, page, _) =>
      var k := PageOf(p, va);
      var m := Touched(q.m, k);
      if a.Ok? then t == q.(m := m[k := m[k].(page := page)]) && m[k].w && m[k].u
      else t == q && !Usable(q, p, va, true)
    case Fork(parent, child, sz, _) =>
      if a.Ok? then t.procs == q.procs && Forked(q.m, parent, child, sz, t.m) else t == q
    case Unmap(p, from, n) => t == q.(m := map k | k in q.m && !InRange(k, p, from, n) :: q.m[k])
    case SetProc(p, info) => t == q.(procs := q.procs[p := info])
    case DiskFails(_, _) => t == q
  }

  // ----- Why an operation is not carried out -----

  /** The exact answer to an access: a page that is not resident needs a frame, and a page that was never
      touched needs page-table pages too. */
  ghost predicate AccessAnswer(s: State, procs: Procs, p: Proc, va: nat, need: nat, write: bool, a: Answer)
    requires |s.swap| == |s.slots|
  {
    var k := PageOf(p, va);
    && (a.Halt? <==> p in procs && va < procs[p].sz && !Resident(s, k) && OutOfFrames(s, procs))
    && (a.Denied? <==>
        && !a.Halt?
        && (|| p !in procs
            || (!Resident(s, k) && (va >= procs[p].sz || (!Swapped(s, k) && need > FreeAfter(s))))
            || (Logical(s, k).Some? && var v := Logical(s, k).value; !v.u || !(if write then v.w else v.r))))
  }

  /** A fork ends in the state `stop`, in which the pages before `at` are copied and `at` cannot be. */
  ghost predicate ForkEnds(s: State, procs: Procs, parent: Proc, child: Proc, sz: nat, need: nat, a: Answer, at: nat, stop: State) {
    && at * PGSIZE < sz && Inv(stop, {}) && CopiedUpTo(s, stop, parent, child, at)
    && (a.Denied? ==> CannotCopy(stop, procs, Key(parent, at), need)) && (a.Halt? ==> CopyPanics(stop, procs, Key(parent, at)))
  }

  ghost predicate Explained(s: State, procs: Procs, op: Op, a: Answer)
    requires |s.swap| == |s.slots|
  {
    match op
    case Load(p, va, need) => AccessAnswer(s, procs, p, va, need, false, a)
    case Store(p, va, _, need) => AccessAnswer(s, procs, p, va, need, true, a)
    case Fork(parent, child, sz, needs) =>
      if parent !in procs || child !in procs || parent == child || !NothingFrom(s, child, 0) then a.Denied?
      else a.Ok? || exists at: nat, stop :: ForkEnds(s, procs, parent, child, sz, needs(at), a, at, stop)
    case _ => a.Ok?
  }

  /** No frame can be had, in terms of the tables: no unused frame or no free page for it; and nothing to evict, or no
      slot to evict it to. */
  lemma OutOfFramesMeans(s: State, procs: Procs)
    ensures OutOfFrames(s, procs) <==>
            && (s.free == [] || forall i :: 0 <= i < |s.frames| ==> s.frames[i].inUse)
            && (|| (forall j :: 0 <= j < |s.swap| ==> s.swap[j].Some?)
                || (forall i: nat :: i < |s.frames| && s.frames[i].inUse && s.frames[i].p in procs ==>
                      var f := s.frames[i];
                      || procs[f.p].pid == 1 || procs[f.p].pid == 2
                      || Key(f.p, f.vpn) !in s.pt || !s.pt[Key(f.p, f.vpn)].flags.v || s.pt[Key(f.p, f.vpn)].ppn != f.ppn))
  {
    if exists i :: Evictable(s, procs, i) {
      var i :| Evictable(s, procs, i);
      EvictableMeans(s, procs, i);
    } else {
      NoneEvictable(s, procs);
    }
  }

  /** The answer to an access, in terms of the tables.  A page that is in memory or in swap is refused only for its
      permissions or, in swap, for an address past the process's size; a page never touched is refused
      past the size, or when the page table cannot grow. */
  lemma AccessMeans(s: State, procs: Procs, p: Proc, va: nat, need: nat, write: bool, a: Answer)
    requires Inv(s, {}) && AccessAnswer(s, procs, p, va, need, write, a)
    ensures var k := Key(p, va / 4096);
            var here := k in s.pt && s.pt[k].flags.v;
            var there := k in s.pt && s.pt[k].flags.s;
            && (a.Halt? <==> p in procs && va < procs[p].sz && !here && OutOfFrames(s, procs))
            && (a.Denied? && p in procs && (here || (there && va < procs[p].sz)) ==>
                  !s.pt[k].flags.u || !(if write then s.pt[k].flags.w else s.pt[k].flags.r))
            && (a.Ok? ==> p in procs && (here || va < procs[p].sz))
            && (a.Ok? && (here || there) ==> s.pt[k].flags.u && if write then s.pt[k].flags.w else s.pt[k].flags.r)
            && (!a.Halt? && p in procs && !here && !there ==>
                  (a.Denied? <==>
                   || va >= procs[p].sz
                   || need > |s.free| - if s.free != [] && exists i :: 0 <= i < |s.frames| && !s.frames[i].inUse then 1 else 0))
  {
    var k := PageOf(p, va);
    MappedIffSeen(s, k, {});
  }

  /** A page cannot be copied for a fork, in terms of the tables: in swap, for want of a slot, of a page for the bounce
      buffer or of pages for the page table; in memory, for want of these last. */
  lemma CannotCopyMeans(s: State, procs: Procs, k: Key, need: nat)
    ensures CannotCopy(s, procs, k, need) <==>
            k in s.pt &&
            if s.pt[k].flags.s then s.free == [] || need > |s.free| || forall j :: 0 <= j < |s.swap| ==> s.swap[j].Some?
            else && s.pt[k].flags.v && !OutOfFrames(s, procs)
                 && need > |s.free| - (if s.free != [] && exists i :: 0 <= i < |s.frames| && !s.frames[i].inUse then 1 else 0)
  {
  }

  // ----- The memory represents it -----

  ghost predicate Represents(s: State, m: map<Key, View>) {
    |s.swap| == |s.slots| && forall k :: Logical(s, k) == if k in m then Some(m[k]) else None
  }

  lemma RepresentsSame(s: State, t: State, m: map<Key, View>)
    requires Represents(s, m) && SameMemory(s, t)
    ensures Represents(t, m)
  {
  }

  lemma RepresentsChanged(s: State, t: State, m: map<Key, View>, k: Key, v: View)
    requires Represents(s, m) && SameMemoryBut(s, t, k) && Logical(t, k) == Some(v)
    ensures Represents(t, m[k := v])
  {
  }

  ghost function PlainOf(s: State, procs: Procs): (q: Plain)
    requires |s.swap| == |s.slots|
    ensures Represents(s, q.m) && q.procs == procs
  {
    Plain(map k | k in s.pt && Logical(s, k).Some? :: Logical(s, k).value, procs)
  }

  // ----- Operations -----

  /** The page is brought in if it is not there. */
  method Bring(mem: Memory, p: Proc, va: nat, need: nat, ghost m: map<Key, View>) returns (panicked: bool, ok: bool)
    requires mem.Valid({}) && Represents(mem.S(), m) && p in mem.procs
    modifies mem, mem.space, mem.space.disks
    ensures mem.procs == old(mem.procs)
    ensures panicked <==> va < mem.procs[p].sz && !Resident(old(mem.S()), PageOf(p, va)) && OutOfFrames(old(mem.S()), mem.procs)
    ensures !panicked ==> mem.Valid({}) && Represents(mem.S(), if ok then Touched(m, PageOf(p, va)) else m)
    ensures !panicked && ok ==> Resident(mem.S(), PageOf(p, va))
    ensures !panicked ==> SystemStays(old(mem.S()), mem.S(), mem.procs) && PagesKept(old(mem.S()), mem.S(), need == 0)
    ensures !panicked ==> (!ok <==> && !Resident(old(mem.S()), PageOf(p, va))
                                    && (va >= mem.procs[p].sz || (!Swapped(old(mem.S()), PageOf(p, va)) && need > FreeAfter(old(mem.S())))))
  {
    var key := PageOf(p, va);
    ghost var s := mem.S();
    MappedIffSeen(s, key, {});
    if key in mem.pt && mem.pt[key].flags.v {
      return false, true;
    }
    var r := mem.VmFault(p, va, need);
    if r.Panicked? {
      return true, false;
    }
    if r.Refused? {
      RepresentsSame(s, mem.S(), m);
      return false, false;
    }
    RepresentsChanged(s, mem.S(), m, key, Logical(mem.S(), key).value);
    assert key in m ==> m[key := m[key]] == m;
    return false, true;
  }

  /** The page is brought in and its permissions are looked at; what the page holds is not yet in the answer. */
  method Reach(mem: Memory, p: Proc, va: nat, need: nat, write: bool, ghost q: Plain) returns (a: Answer)
    requires mem.Valid({}) && Represents(mem.S(), q.m) && q.procs == mem.procs
    modifies mem, mem.space, mem.space.disks
    ensures mem.procs == old(mem.procs) && AccessAnswer(old(mem.S()), mem.procs, p, va, need, write, a)
    ensures !a.Halt? ==> SystemStays(old(mem.S()), mem.S(), mem.procs) && PagesKept(old(mem.S()), mem.S(), need == 0)
    ensures a.Denied? ==> mem.Valid({}) && Represents(mem.S(), q.m) && !Usable(q, p, va, write)
    ensures var k := PageOf(p, va);
            a.Ok? ==> && mem.Valid({}) && Represents(mem.S(), Touched(q.m, k)) && Resident(mem.S(), k)
                      && var v := Touched(q.m, k)[k]; v.u && if write then v.w else v.r
  {
    if p !in mem.procs {
      return Denied;
    }
    var key := PageOf(p, va);
    var panicked, ok := Bring(mem, p, va, need, q.m);
    if panicked {
      return Halt;
    }
    if !ok {
      return Denied;
    }
    assert Logical(mem.S(), key) == Some(Touched(q.m, key)[key]);
    MappedIffSeen(mem.S(), key, {});
    var e := mem.pt[key];
    if !e.flags.u || !(if write then e.flags.w else e.flags.r) {
      assert key in q.m;
      return Denied;
    }
    return Ok(Filled(0));
  }

  method DoLoad(mem: Memory, p: Proc, va: nat, need: nat, ghost q: Plain) returns (a: Answer, ghost t: Plain)
    requires mem.Valid({}) && Represents(mem.S(), q.m) && q.procs == mem.procs
    modifies mem, mem.space, mem.space.disks
    ensures mem.procs == old(mem.procs) && AccessAnswer(old(mem.S()), mem.procs, p, va, need, false, a)
    ensures !a.Halt? ==> mem.Valid({}) && Represents(mem.S(), t.m) && Follows(q, Load(p, va, need), a, t)
    ensures !a.Halt? ==> SystemStays(old(mem.S()), mem.S(), mem.procs) && PagesKept(old(mem.S()), mem.S(), need == 0)
  {
    t := q;
    a := Reach(mem, p, va, need, false, q);
    if a.Ok? {
      var key := PageOf(p, va);
      t := q.(m := Touched(q.m, key));
      ghost var s := mem.S();
      assert Logical(s, key) == Some(t.m[key]);
      var page := mem.ReadPage(key);
      RepresentsSame(s, mem.S(), t.m);
      a := Ok(page);
    }
  }

  method DoStore(mem: Memory, p: Proc, va: nat, page: Page, need: nat, ghost q: Plain) returns (a: Answer, ghost t: Plain)
    requires mem.Valid({}) && Represents(mem.S(), q.m) && q.procs == mem.procs
    modifies mem, mem.space, mem.space.disks
    ensures mem.procs == old(mem.procs) && AccessAnswer(old(mem.S()), mem.procs, p, va, need, true, a)
    ensures !a.Halt? ==> mem.Valid({}) && Represents(mem.S(), t.m) && Follows(q, Store(p, va, page, need), a, t)
    ensures !a.Halt? ==> SystemStays(old(mem.S()), mem.S(), mem.procs) && PagesKept(old(mem.S()), mem.S(), need == 0)
  {
    t := q;
    a := Reach(mem, p, va, need, true, q);
    if a.Ok? {
      var key := PageOf(p, va);
      ghost var m := Touched(q.m, key);
      ghost var s := mem.S();
      assert Logical(s, key) == Some(m[key]);
      mem.WritePage(key, page);
      RepresentsChanged(s, mem.S(), m, key, m[key].(page := page));
      a, t := Ok(page), q.(m := m[key := m[key].(page := page)]);
    }
  }

  // Whether a process has nothing mapped or swapped.
  predicate Empty(pt: map<Key, Pte>, p: Proc) {
    forall k | k in pt :: k.p == p ==> !pt[k].flags.v && !pt[k].flags.s
  }

  lemma EmptyHasNothing(s: State, m: map<Key, View>, p: Proc)
    requires Inv(s, {}) && Represents(s, m) && Empty(s.pt, p)
    ensures NothingFrom(s, p, 0) && forall k :: k in m ==> k.p != p
  {
    forall k | k in m ensures k.p != p {
      MappedIffSeen(s, k, {});
    }
  }

  /** What a successful fork leads to. */
  ghost function ForkOf(m: map<Key, View>, parent: Proc, child: Proc, sz: nat): (t: map<Key, View>)
    requires parent != child && forall k :: k in m ==> k.p != child
    ensures Forked(m, parent, child, sz, t)
  {
    m + map l | l in m && l.p == parent && l.vpn * PGSIZE < sz :: Key(child, l.vpn) := m[l]
  }

  lemma ForkRepresents(s: State, t: State, m: map<Key, View>, parent: Proc, child: Proc, sz: nat)
    requires Represents(s, m) && parent != child && (forall k :: k in m ==> k.p != child) && SameOutside(s, t, child)
    requires forall vpn: nat :: Logical(t, Key(child, vpn)) == if vpn * PGSIZE < sz then Logical(s, Key(parent, vpn)) else None
    ensures Represents(t, ForkOf(m, parent, child, sz))
  {
    var r := ForkOf(m, parent, child, sz);
    forall k ensures Logical(t, k) == if k in r then Some(r[k]) else None {
      if k.p == child {
        assert k == Key(child, k.vpn);
      }
    }
  }

  method DoFork(mem: Memory, parent: Proc, child: Proc, sz: nat, needs: nat -> nat, ghost q: Plain) returns (a: Answer, ghost t: Plain)
    requires mem.Valid({}) && Represents(mem.S(), q.m) && q.procs == mem.procs
    modifies mem, mem.space, mem.space.disks
    ensures mem.procs == old(mem.procs) && Explained(old(mem.S()), mem.procs, Fork(parent, child, sz, needs), a)
    ensures !a.Halt? ==> mem.Valid({}) && Represents(mem.S(), t.m) && Follows(q, Fork(parent, child, sz, needs), a, t)
    ensures !a.Halt? ==> SystemStays(old(mem.S()), mem.S(), mem.procs)
    ensures !a.Halt? ==> PagesKept(old(mem.S()), mem.S(), forall v: nat :: needs(v) == 0)
  {
    t := q;
    if parent !in mem.procs || child !in mem.procs || parent == child || !Empty(mem.pt, child) {
      return Denied, q;
    }
    ghost var s := mem.S();
    EmptyHasNothing(s, q.m, child);
    ghost var at, stop;
    var r;
    r, at, stop := mem.UvmCopy(parent, child, sz, needs);
    if r.Dead? {
      assert ForkEnds(s, mem.procs, parent, child, sz, needs(at), Halt, at, stop);
      return Halt, q;
    }
    if r.Failed? {
      assert ForkEnds(s, mem.procs, parent, child, sz, needs(at), Denied, at, stop);
      RepresentsSame(s, mem.S(), q.m);
      return Denied, q;
    }
    ForkRepresents(s, mem.S(), q.m, parent, child, sz);
    return Ok(Raid.ZERO_PAGE), q.(m := ForkOf(q.m, parent, child, sz));
  }

  method DoUnmap(mem: Memory, p: Proc, from: nat, n: nat, ghost q: Plain) returns (ghost t: Plain)
    requires mem.Valid({}) && Represents(mem.S(), q.m)
    modifies mem
    ensures mem.procs == old(mem.procs) && mem.Valid({}) && Represents(mem.S(), t.m)
    ensures t == q.(m := map k | k in q.m && !InRange(k, p, from, n) :: q.m[k])
    ensures forall k: Key :: Resident(old(mem.S()), k) && !InRange(k, p, from, n) ==> Resident(mem.S(), k)
    ensures Pages(mem.S()) == Pages(old(mem.S()))
  {
    mem.UvmUnmap(p, from, n);
    t := q.(m := map k | k in q.m && !InRange(k, p, from, n) :: q.m[k]);
  }

  /** Any one operation.  A disk failure is not for a striped array, which it robs of pages. */
  method Perform(mem: Memory, op: Op, ghost q: Plain) returns (a: Answer, ghost t: Plain)
    requires mem.Valid({}) && Represents(mem.S(), q.m) && q.procs == mem.procs && Proper(op, mem.space.mode)
    modifies mem, mem.space, mem.space.disks
    ensures !a.Halt? ==> mem.Valid({}) && Represents(mem.S(), t.m) && t.procs == mem.procs && Follows(q, op, a, t)
    ensures Explained(old(mem.S()), q.procs, op, a)
    ensures !a.Halt? ==> SystemStaysBut(old(mem.S()), mem.S(), q.procs, op)
    ensures !a.Halt? ==> PagesKept(old(mem.S()), mem.S(), NoTables(op))
  {
    a, t := Ok(Raid.ZERO_PAGE), q;
    match op
    case Load(p, va, need) => a, t := DoLoad(mem, p, va, need, q);
    case Store(p, va, page, need) => a, t := DoStore(mem, p, va, page, need, q);
    case Fork(parent, child, sz, needs) => a, t := DoFork(mem, parent, child, sz, needs, q);
    case Unmap(p, from, n) => t := DoUnmap(mem, p, from, n, q);
    case SetProc(p, info) =>
      mem.SetProc(p, info);
      t := q.(procs := q.procs[p := info]);
    case DiskFails(disk, junk) => mem.DiskFails(disk, junk);
  }

  /** Pages that are neither free nor in a frame any more went into page tables; none if these did not grow. */
  predicate PagesKept(s: State, t: State, noTables: bool) { Pages(t) <= Pages(s) && (noTables ==> Pages(t) == Pages(s)) }

  /** The operation needs no new page-table pages. */
  ghost predicate NoTables(op: Op) {
    match op
    case Load(_, _, need) => need == 0
    case Store(_, _, _, need) => need == 0
    case Fork(_, _, _, needs) => forall v: nat :: needs(v) == 0
    case _ => true
  }

  /** What was resident of processes 1 and 2 is resident, unless it was unmapped. */
  ghost predicate SystemStaysBut(s: State, t: State, procs: Procs, op: Op) {
    forall k: Key ::
      Resident(s, k) && k.p in procs && (procs[k.p].pid == 1 || procs[k.p].pid == 2) && !(op.Unmap? && InRange(k, op.p, op.from, op.n)) ==>
        Resident(t, k)
  }

  predicate Proper(op: Op, mode: Raid.Mode) {
    (op.SetProc? ==> op.info.level >= 0) && (op.DiskFails? ==> mode != Raid.Striping)
  }

  // ----- Whole runs -----

  /** The plain memories `qs` follow the operations and the answers `az`. */
  ghost predicate History(ops: seq<Op>, az: seq<Answer>, qs: seq<Plain>) {
    && |az| <= |ops| && |qs| == |az| + 1
    && forall i :: 0 <= i < |az| ==> Follows(qs[i], ops[i], az[i], qs[i + 1])
  }

  /** The states `ss` of the memory represent the plain memories and explain the answers. */
  ghost predicate Behind(ss: seq<State>, ops: seq<Op>, az: seq<Answer>, qs: seq<Plain>) {
    && |az| <= |ops| && |ss| == |qs| == |az| + 1
    && (forall i :: 0 <= i <= |az| ==> Represents(ss[i], qs[i].m))
    && (forall i :: 0 <= i < |az| ==> Explained(ss[i], qs[i].procs, ops[i], az[i]))
    && (forall i :: 0 <= i < |az| ==> SystemStaysBut(ss[i], ss[i + 1], qs[i].procs, ops[i]))
    && forall i :: 0 <= i < |az| ==> PagesKept(ss[i], ss[i + 1], NoTables(ops[i]))
  }

  lemma HistoryMore(ops: seq<Op>, az: seq<Answer>, qs: seq<Plain>, a: Answer, t: Plain)
    requires History(ops, az, qs) && |az| < |ops| && Follows(qs[|az|], ops[|az|], a, t)
    ensures History(ops, az + [a], qs + [t])
  {
  }

  lemma BehindMore(ss: seq<State>, ops: seq<Op>, az: seq<Answer>, qs: seq<Plain>, s: State, a: Answer, t: Plain)
    requires Behind(ss, ops, az, qs) && |az| < |ops| && Represents(s, t.m) && Explained(ss[|az|], qs[|az|].procs, ops[|az|], a)
    requires SystemStaysBut(ss[|az|], s, qs[|az|].procs, ops[|az|]) && PagesKept(ss[|az|], s, NoTables(ops[|az|]))
    ensures Behind(ss + [s], ops, az + [a], qs + [t])
  {
  }

  /** Over every run, up to a panic, the processes see a plain memory; what is denied, and the panic, has a
      cause in the state of the memory. */
  method Run(mem: Memory, ops: seq<Op>) returns (az: seq<Answer>, panicked: bool, ghost qs: seq<Plain>, ghost ss: seq<State>)
    requires mem.Valid({}) && forall i :: 0 <= i < |ops| ==> Proper(ops[i], mem.space.mode)
    modifies mem, mem.space, mem.space.disks
    ensures History(ops, az, qs) && Behind(ss, ops, az, qs) && ss[0] == old(mem.S()) && qs[0].procs == old(mem.procs)
    ensures !panicked ==> |az| == |ops| && mem.Valid({}) && ss[|ops|] == mem.S()
    ensures panicked ==> |az| < |ops| && Explained(ss[|az|], qs[|az|].procs, ops[|az|], Halt)
  {
    az, panicked, qs, ss := [], false, [PlainOf(mem.S(), mem.procs)], [mem.S()];
    while |az| < |ops|
      invariant |az| <= |ops| && mem.Valid({}) && History(ops, az, qs) && Behind(ss, ops, az, qs)
      invariant ss[0] == old(mem.S()) && qs[0].procs == old(mem.procs)
      invariant ss[|az|] == mem.S() && qs[|az|].procs == mem.procs
      decreases |ops| - |az|
    {
      var a;
      ghost var t;
      a, t := Perform(mem, ops[|az|], qs[|az|]);
      if a.Halt? {
        panicked := true;
        return;
      }
      HistoryMore(ops, az, qs, a, t);
      BehindMore(ss, ops, az, qs, mem.S(), a, t);
      az, qs, ss := az + [a], qs + [t], ss + [mem.S()];
    }
  }

  /** A resident page of process 1 or 2 stays in memory until it is unmapped: it is never evicted. */
  lemma {:induction false} NeverEvicted(ss: seq<State>, ops: seq<Op>, az: seq<Answer>, qs: seq<Plain>, i: nat, j: nat, k: Key)
    requires Behind(ss, ops, az, qs) && i <= j <= |az|
    requires k in ss[i].pt && ss[i].pt[k].flags.v
    requires forall l :: i <= l < j ==> k.p in qs[l].procs && (qs[l].procs[k.p].pid == 1 || qs[l].procs[k.p].pid == 2)
    requires forall l :: i <= l < j && ops[l].Unmap? && ops[l].p == k.p ==> k.vpn < ops[l].from || ops[l].from + ops[l].n <= k.vpn
    ensures k in ss[j].pt && ss[j].pt[k].flags.v
    decreases j - i
  {
    if i < j {
      assert SystemStaysBut(ss[i], ss[i + 1], qs[i].procs, ops[i]);
      assert Resident(ss[i], k);
      NeverEvicted(ss, ops, az, qs, i + 1, j, k);
    }
  }

  lemma {:induction false} NoPageLost(ss: seq<State>, ops: seq<Op>, az: seq<Answer>, qs: seq<Plain>, i: nat, j: nat)
    requires Behind(ss, ops, az, qs) && i <= j <= |az| && forall l :: i <= l < j ==> NoTables(ops[l])
    ensures Pages(ss[j]) == Pages(ss[i])
    decreases j - i
  {
    if i < j {
      assert PagesKept(ss[i], ss[i + 1], NoTables(ops[i]));
      NoPageLost(ss, ops, az, qs, i + 1, j);
    }
  }

  /** No page is lost: after any run in which page tables did not grow, if nobody has a page in memory, as many pages
      are free as were free or in use at the start. */
  lemma AllPagesBack(ss: seq<State>, ops: seq<Op>, az: seq<Answer>, qs: seq<Plain>, j: nat)
    requires Behind(ss, ops, az, qs) && j <= |az| && forall l :: 0 <= l < j ==> NoTables(ops[l])
    requires Inv(ss[j], {}) && forall k :: k in ss[j].pt ==> !ss[j].pt[k].flags.v
    ensures |ss[j].free| == |ss[0].free| + FramesUsed(ss[0].frames)
  {
    NoPageLost(ss, ops, az, qs, 0, j);
    forall i | 0 <= i < |ss[j].frames| ensures !ss[j].frames[i].inUse {
      assert i !in {};
    }
    NoFramesUsed(ss[j].frames);
  }

  /** An operation that can change what is at page `k`. */
  predicate Writes(op: Op, k: Key) {
    match op
    case Store(p, va, _, _) => PageOf(p, va) == k
    case Unmap(p, from, n) => InRange(k, p, from, n)
    case _ => false
  }

  /** A page keeps its contents while nobody stores to it or unmaps it. */
  lemma {:induction false} Unchanged(ops: seq<Op>, az: seq<Answer>, qs: seq<Plain>, i: nat, j: nat, k: Key)
    requires History(ops, az, qs) && i <= j <= |az| && k in qs[i].m
    requires forall l :: i <= l < j ==> !Writes(ops[l], k)
    ensures k in qs[j].m && qs[j].m[k] == qs[i].m[k]
    decreases j - i
  {
    if i < j {
      assert Follows(qs[i], ops[i], az[i], qs[i + 1]);
      Unchanged(ops, az, qs, i + 1, j, k);
    }
  }

  /** A process reads back what it last stored, whatever was evicted, swapped, copied or lost in between. */
  lemma ReadsLastStore(ops: seq<Op>, az: seq<Answer>, qs: seq<Plain>, i: nat, j: nat)
    requires History(ops, az, qs) && i < j < |az|
    requires ops[i].Store? && az[i].Ok? && ops[j].Load? && az[j].Ok?
    requires var k := PageOf(ops[i].p, ops[i].va);
             PageOf(ops[j].p, ops[j].va) == k && forall l :: i < l < j ==> !Writes(ops[l], k)
    ensures az[j].page == ops[i].page
  {
    assert Follows(qs[i], ops[i], az[i], qs[i + 1]) && Follows(qs[j], ops[j], az[j], qs[j + 1]);
    Unchanged(ops, az, qs, i + 1, j, PageOf(ops[i].p, ops[i].va));
  }

  /** A child reads what its parent had when it was forked, whatever the parent stores later. */
  lemma ChildReadsParent(ops: seq<Op>, az: seq<Answer>, qs: seq<Plain>, i: nat, j: nat)
    requires History(ops, az, qs) && i < j < |az|
    requires ops[i].Fork? && az[i].Ok? && ops[j].Load? && az[j].Ok? && ops[j].p == ops[i].child
    requires var vpn := ops[j].va / PGSIZE;
             && vpn * PGSIZE < ops[i].sz && Key(ops[i].parent, vpn) in qs[i].m
             && forall l :: i < l < j ==> !Writes(ops[l], Key(ops[i].child, vpn))
    ensures az[j].page == qs[i].m[Key(ops[i].parent, ops[j].va / PGSIZE)].page
  {
    assert Follows(qs[i], ops[i], az[i], qs[i + 1]) && Follows(qs[j], ops[j], az[j], qs[j + 1]);
    Unchanged(ops, az, qs, i + 1, j, PageOf(ops[j].p, ops[j].va));
  }
}
