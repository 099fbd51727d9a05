/** exit, wait, fork and reparenting (kfork, reparent, kexit, kwait, sleep, wakeup and kkill in
    kernel/proc.c) as a state machine over their steps.

    A step is what a process does between two points where another process may come in between:
    taking or releasing wait_lock, or one turn of a loop over the process table.  Only steps that
    the code does while holding wait_lock are guarded by it; scheduling, kill, allocation of a
    process and sleeping on other channels interleave with everything. */
module ExitWait {

  datatype ProcState = UNUSED | USED | SLEEPING | RUNNABLE | RUNNING | ZOMBIE

  /** Where a process is in the code; `Scan(i, kids)` is kwait's loop at table entry `i`. */
  datatype Pc =
    | Idle
    | ForkAlloc(child: nat)
    | ForkLinked(child: nat)
    | Reparent(i: nat)
    | WakeParent
    | MakeZombie
    | Scan(i: nat, kids: bool)
    | InWait

  datatype Proc = Proc(st: ProcState, parent: int, pc: Pc, killed: bool, pid: nat)

  /** `lock` is the holder of wait_lock or -1; `exited` and `reaped` record the pids of all exits
      and of all successful waits. */
  datatype State = State(procs: seq<Proc>, lock: int, init: nat, nextpid: nat, exited: seq<nat>, reaped: seq<nat>)

  datatype Event =
    | Schedule(p: nat)
    | Preempt(p: nat)
    | SleepElsewhere(p: nat)
    | WakeElsewhere(p: nat)
    | Kill(p: nat)
    | Alloc(p: nat, c: nat)
    | AllocFails(p: nat)
    | Link(p: nat)
    | Launch(p: nat)
    | StartExit(p: nat)
    | ExitStep(p: nat)
    | StartWait(p: nat)
    | WaitStep(p: nat, copyFails: bool)
    | WaitResume(p: nat)

  const NOBODY := Proc(UNUSED, -1, Idle, false, 0)

  predicate Live(p: Proc) { p.st == SLEEPING || p.st == RUNNABLE || p.st == RUNNING }

  /** Asleep in kwait, on its own channel. */
  predicate AsleepInWait(p: Proc) { p.st == SLEEPING && p.pc == InWait }

  /** wakeup(q) for a process q: only q itself ever sleeps on its own channel. */
  function Wake(procs: seq<Proc>, q: int): (r: seq<Proc>)
    ensures |r| == |procs|
  {
    if 0 <= q < |procs| && AsleepInWait(procs[q]) then procs[q := procs[q].(st := RUNNABLE)] else procs
  }

  predicate HoldsLock(pc: Pc) { pc.Reparent? || pc.WakeParent? || pc.MakeZombie? || pc.Scan? }

  predicate Enabled(s: State, e: Event) {
    && e.p < |s.procs|
    && var q := s.procs[e.p];
       match e
       case Schedule(p) => q.st == RUNNABLE
       case Preempt(p) => q.st == RUNNING && s.lock != p
       case SleepElsewhere(p) => q.st == RUNNING && s.lock != p && q.pc != InWait
       case WakeElsewhere(p) => q.st == SLEEPING && q.pc != InWait
       case Kill(p) => q.st != UNUSED
       case Alloc(p, c) => q.st == RUNNING && q.pc == Idle && c < |s.procs| && s.procs[c].st == UNUSED
       case AllocFails(p) => q.st == RUNNING && q.pc.ForkAlloc? && q.pc.child < |s.procs|
       case Link(p) => q.st == RUNNING && q.pc.ForkAlloc? && q.pc.child < |s.procs| && s.lock == -1
       case Launch(p) => q.st == RUNNING && q.pc.ForkLinked? && q.pc.child < |s.procs|
       case StartExit(p) => q.st == RUNNING && q.pc == Idle && p != s.init && s.lock == -1
       case ExitStep(p) => q.pc.Reparent? || q.pc.WakeParent? || q.pc.MakeZombie?
       case StartWait(p) => q.st == RUNNING && q.pc == Idle && s.lock == -1
       case WaitStep(p, _) => q.pc.Scan?
       case WaitResume(p) => q.st == RUNNING && q.pc == InWait && s.lock == -1
  }

  function SetPc(s: State, p: nat, pc: Pc): (r: State)
    requires p < |s.procs|
  {
    s.(procs := s.procs[p := s.procs[p].(pc := pc)])
  }

  /** One turn of reparent's loop, then the wakeup of the parent, then the end of kexit. */
  function ExitOnce(s: State, p: nat): (r: State)
    requires p < |s.procs| && (s.procs[p].pc.Reparent? || s.procs[p].pc.WakeParent? || s.procs[p].pc.MakeZombie?)
  {
    var q := s.procs[p];
    match q.pc
    case Reparent(i) =>
      if i >= |s.procs| then SetPc(s, p, WakeParent)
      else if s.procs[i].parent == p then
        var procs := s.procs[i := s.procs[i].(parent := s.init)];
        SetPc(s.(procs := Wake(procs, s.init)), p, Reparent(i + 1))
      else SetPc(s, p, Reparent(i + 1))
    case WakeParent => SetPc(s.(procs := Wake(s.procs, q.parent)), p, MakeZombie)
    case _ =>
      s.(procs := s.procs[p := q.(st := ZOMBIE, pc := Idle)], lock := -1, exited := s.exited + [q.pid])
  }

  /** One turn of kwait's loop, or what follows the loop. */
  function WaitOnce(s: State, p: nat, copyFails: bool): (r: State)
    requires p < |s.procs| && s.procs[p].pc.Scan?
  {
    var q := s.procs[p];
    var i, kids := q.pc.i, q.pc.kids;
    if i >= |s.procs| then
      if !kids || q.killed then SetPc(s, p, Idle).(lock := -1)
      else s.(procs := s.procs[p := q.(st := SLEEPING, pc := InWait)], lock := -1)
    else if s.procs[i].parent != p then SetPc(s, p, Scan(i + 1, kids))
    else if s.procs[i].st != ZOMBIE then SetPc(s, p, Scan(i + 1, true))
    else if copyFails then SetPc(s, p, Idle).(lock := -1)
    else SetPc(s.(procs := s.procs[i := NOBODY], reaped := s.reaped + [s.procs[i].pid]), p, Idle).(lock := -1)
  }

  function Next(s: State, e: Event): (r: State)
    requires Enabled(s, e)
  {
    var q := s.procs[e.p];
    match e
    case Schedule(p) => s.(procs := s.procs[p := q.(st := RUNNING)])
    case Preempt(p) => s.(procs := s.procs[p := q.(st := RUNNABLE)])
    case SleepElsewhere(p) => s.(procs := s.procs[p := q.(st := SLEEPING)])
    case WakeElsewhere(p) => s.(procs := s.procs[p := q.(st := RUNNABLE)])
    case Kill(p) => s.(procs := s.procs[p := q.(killed := true, st := if q.st == SLEEPING then RUNNABLE else q.st)])
    case Alloc(p, c) =>
      SetPc(s.(procs := s.procs[c := Proc(USED, -1, Idle, false, s.nextpid)], nextpid := s.nextpid + 1), p, ForkAlloc(c))
    case AllocFails(p) => SetPc(s.(procs := s.procs[q.pc.child := NOBODY]), p, Idle)
    case Link(p) =>
      SetPc(s.(procs := s.procs[q.pc.child := s.procs[q.pc.child].(parent := p)]), p, ForkLinked(q.pc.child))
    case Launch(p) =>
      SetPc(s.(procs := s.procs[q.pc.child := s.procs[q.pc.child].(st := RUNNABLE)]), p, Idle)
    case StartExit(p) => SetPc(s, p, Reparent(0)).(lock := p)
    case ExitStep(p) => ExitOnce(s, p)
    case StartWait(p) => SetPc(s, p, Scan(0, false)).(lock := p)
    case WaitStep(p, copyFails) => WaitOnce(s, p, copyFails)
    case WaitResume(p) => SetPc(s, p, Scan(0, false)).(lock := p)
  }

  // ----- The invariant -----

  predicate Exiting(pc: Pc) { pc.WakeParent? || pc.MakeZombie? }

  predicate Forking(pc: Pc) { pc.ForkAlloc? || pc.ForkLinked? }

  /** What holds between process `p` and process `c`. */
  predicate PairOk(parent: Proc, p: int, child: Proc, c: int) {
    && (child.parent == p ==>
          // parents are live, and an exiting one has no children behind its loop, then none
          && Live(parent) && !Exiting(parent.pc) && (parent.pc.Reparent? ==> c >= parent.pc.i)
          // nobody sleeps in kwait over a ZOMBIE child, or over one about to become a ZOMBIE
          && (child.st == ZOMBIE || child.pc.MakeZombie? ==> !AsleepInWait(parent))
          // a scan has passed no ZOMBIE child, and remembers a child it has passed
          && (child.st == ZOMBIE && parent.pc.Scan? ==> c >= parent.pc.i)
          && (parent.pc.Scan? && c < parent.pc.i ==> parent.pc.kids))
    // a child being made belongs to one fork, and is its child once it is linked
    && (Forking(parent.pc) && parent.pc.child == c ==> child.st == USED && child.parent == if parent.pc.ForkLinked? then p else -1)
    && (Forking(parent.pc) && Forking(child.pc) && p != c ==> parent.pc.child != child.pc.child)
    // pids are different
    && (parent.st != UNUSED && child.st != UNUSED && p != c ==> parent.pid != child.pid)
  }

  /** What holds of process `p` alone: wait_lock is held by the process that is in a guarded
      stretch, and it is running; init does not exit; a pid has exited exactly if its process is a
      ZOMBIE, and then it has not been reaped. */
  predicate ProcOk(s: State, q: Proc, p: int) {
    && -1 <= q.parent < |s.procs|
    && (HoldsLock(q.pc) <==> s.lock == p)
    && (HoldsLock(q.pc) ==> q.st == RUNNING)
    && (!Live(q) ==> q.pc == Idle)
    && (Forking(q.pc) ==> q.pc.child < |s.procs|)
    && (p == s.init ==> Live(q) && !q.pc.Reparent? && !Exiting(q.pc))
    && (q.st == UNUSED ==> q.parent == -1)
    && (AsleepInWait(q) ==> !q.killed)
    && (q.st != UNUSED ==>
          && q.pid < s.nextpid
          && (q.pid in s.exited <==> q.st == ZOMBIE)
          && q.pid !in s.reaped)
  }

  ghost predicate Distinct(xs: seq<nat>) {
    forall i, j :: 0 <= i < j < |xs| ==> xs[i] != xs[j]
  }

  ghost predicate RecordsOk(s: State) {
    && Distinct(s.exited) && Distinct(s.reaped)
    && (forall x :: x in s.exited ==> x < s.nextpid)
    && (forall x :: x in s.reaped ==> x in s.exited)
  }

  ghost predicate Inv(s: State) {
    && -1 <= s.lock < |s.procs| && s.init < |s.procs|
    && (forall p {:trigger ProcOk(s, s.procs[p], p)} :: 0 <= p < |s.procs| ==> ProcOk(s, s.procs[p], p))
    && (forall p, c {:trigger PairOk(s.procs[p], p, s.procs[c], c)} ::
          0 <= p < |s.procs| && 0 <= c < |s.procs| ==> PairOk(s.procs[p], p, s.procs[c], c))
    && RecordsOk(s)
  }

  // ----- Every step keeps the invariant -----

  /** Process `a` alone, and against processes `p` and `x` in either role. */
  predicate Fits(s: State, p: nat, x: nat, a: nat)
    requires p < |s.procs| && x < |s.procs| && a < |s.procs|
  {
    && ProcOk(s, s.procs[a], a)
    && PairOk(s.procs[p], p, s.procs[a], a) && PairOk(s.procs[a], a, s.procs[p], p)
    && PairOk(s.procs[x], x, s.procs[a], a) && PairOk(s.procs[a], a, s.procs[x], x)
  }

  lemma Facts(s: State, p: nat, x: nat, a: nat)
    requires Inv(s) && p < |s.procs| && x < |s.procs| && a < |s.procs|
    ensures Fits(s, p, x, a) && Fits(s, p, x, p) && Fits(s, p, x, x)
  {
  }

  /** A step that changes only processes `p` and `x` need only look at pairs with one of them. */
  lemma OthersFit(s: State, t: State, p: nat, x: nat)
    requires Inv(s) && p < |s.procs| && x < |s.procs| && |t.procs| == |s.procs|
    requires -1 <= t.lock < |t.procs| && t.init == s.init && RecordsOk(t)
    requires forall a :: 0 <= a < |s.procs| && a != p && a != x ==> t.procs[a] == s.procs[a]
    requires forall a :: 0 <= a < |t.procs| ==> Fits(t, p, x, a)
    ensures Inv(t)
  {
    forall a, c | 0 <= a < |t.procs| && 0 <= c < |t.procs| ensures PairOk(t.procs[a], a, t.procs[c], c) {
      assert Fits(t, p, x, a) && Fits(t, p, x, c);
      assert PairOk(s.procs[a], a, s.procs[c], c);
    }
    forall a | 0 <= a < |t.procs| ensures ProcOk(t, t.procs[a], a) {
      assert Fits(t, p, x, a);
    }
  }

  /** A change of one process's scheduling state or kill mark. */
  lemma LocalKeeps(s: State, p: nat, q: Proc)
    requires Inv(s) && p < |s.procs|
    requires var o := s.procs[p];
             && q == o.(st := q.st, killed := q.killed)
             && (q.st == o.st || (Live(o) && Live(q) && s.lock != p))
             && (AsleepInWait(q) ==> AsleepInWait(o) && q.killed == o.killed)
    ensures Inv(s.(procs := s.procs[p := q]))
  {
    var t := s.(procs := s.procs[p := q]);
    forall a | 0 <= a < |t.procs| ensures Fits(t, p, p, a) {
      Facts(s, p, p, a);
    }
    OthersFit(s, t, p, p);
  }

  lemma AllocKeeps(s: State, p: nat, child: nat)
    requires Inv(s) && Enabled(s, Alloc(p, child))
    ensures Inv(Next(s, Alloc(p, child)))
  {
    var t := Next(s, Alloc(p, child));
    Facts(s, p, child, p);
    forall a | 0 <= a < |t.procs| ensures Fits(t, p, child, a) {
      Facts(s, p, child, a);
    }
    OthersFit(s, t, p, child);
  }

  lemma AllocFailsKeeps(s: State, p: nat)
    requires Inv(s) && Enabled(s, AllocFails(p))
    ensures Inv(Next(s, AllocFails(p)))
  {
    var child, t := s.procs[p].pc.child, Next(s, AllocFails(p));
    Facts(s, p, child, p);
    forall a | 0 <= a < |t.procs| ensures Fits(t, p, child, a) {
      Facts(s, p, child, a);
    }
    OthersFit(s, t, p, child);
  }

  lemma LinkKeeps(s: State, p: nat)
    requires Inv(s) && Enabled(s, Link(p))
    ensures Inv(Next(s, Link(p)))
  {
    var child, t := s.procs[p].pc.child, Next(s, Link(p));
    Facts(s, p, child, p);
    forall a | 0 <= a < |t.procs| ensures Fits(t, p, child, a) {
      Facts(s, p, child, a);
    }
    OthersFit(s, t, p, child);
  }

  lemma LaunchKeeps(s: State, p: nat)
    requires Inv(s) && Enabled(s, Launch(p))
    ensures Inv(Next(s, Launch(p)))
  {
    var child, t := s.procs[p].pc.child, Next(s, Launch(p));
    Facts(s, p, child, p);
    forall a | 0 <= a < |t.procs| ensures Fits(t, p, child, a) {
      Facts(s, p, child, a);
    }
    OthersFit(s, t, p, child);
  }

  lemma StartExitKeeps(s: State, p: nat)
    requires Inv(s) && Enabled(s, StartExit(p))
    ensures Inv(SetPc(s, p, Reparent(0)).(lock := p))
  {
    var t := SetPc(s, p, Reparent(0)).(lock := p);
    forall a | 0 <= a < |t.procs| ensures Fits(t, p, p, a) {
      Facts(s, p, p, a);
    }
    OthersFit(s, t, p, p);
  }

  lemma StartScanKeeps(s: State, p: nat)
    requires Inv(s) && p < |s.procs| && s.lock == -1 && s.procs[p].st == RUNNING
    requires s.procs[p].pc == Idle || s.procs[p].pc == InWait
    ensures Inv(SetPc(s, p, Scan(0, false)).(lock := p))
  {
    var t := SetPc(s, p, Scan(0, false)).(lock := p);
    forall a | 0 <= a < |t.procs| ensures Fits(t, p, p, a) {
      Facts(s, p, p, a);
    }
    OthersFit(s, t, p, p);
  }

  lemma WakeKeeps(s: State, q: int)
    requires Inv(s)
    ensures Inv(s.(procs := Wake(s.procs, q)))
  {
    var t := s.(procs := Wake(s.procs, q));
    if 0 <= q < |s.procs| {
      forall a | 0 <= a < |t.procs| ensures Fits(t, q, q, a) {
        Facts(s, q, q, a);
      }
      OthersFit(s, t, q, q);
    }
  }

  // The child at entry `i` passes to init, which has been woken.
  lemma AdoptKeeps(s: State, p: nat, i: nat)
    requires Inv(s) && p < |s.procs| && i < |s.procs| && s.procs[p].pc == Reparent(i) && s.procs[i].parent == p
    requires !AsleepInWait(s.procs[s.init])
    ensures Inv(s.(procs := s.procs[i := s.procs[i].(parent := s.init)]))
  {
    var t := s.(procs := s.procs[i := s.procs[i].(parent := s.init)]);
    Facts(s, p, i, s.init);
    forall a | 0 <= a < |t.procs| ensures Fits(t, p, i, a) {
      Facts(s, p, i, a);
    }
    OthersFit(s, t, p, i);
  }

  lemma MovePcKeeps(s: State, p: nat, pc: Pc)
    requires Inv(s) && p < |s.procs| && CanMove(s, p, pc)
    ensures Inv(SetPc(s, p, pc))
  {
    var t := SetPc(s, p, pc);
    forall a | 0 <= a < |t.procs| ensures Fits(t, p, p, a) {
      Facts(s, p, p, a);
    }
    OthersFit(s, t, p, p);
  }

  lemma ZombieKeeps(s: State, p: nat)
    requires Inv(s) && p < |s.procs| && s.procs[p].pc == MakeZombie
    ensures Inv(ExitOnce(s, p))
  {
    var t := ExitOnce(s, p);
    Facts(s, p, p, p);
    forall a | 0 <= a < |t.procs| ensures Fits(t, p, p, a) {
      Facts(s, p, p, a);
    }
    OthersFit(s, t, p, p);
  }

  lemma LeaveKeeps(s: State, p: nat)
    requires Inv(s) && p < |s.procs| && s.procs[p].pc.Scan?
    ensures Inv(SetPc(s, p, Idle).(lock := -1))
  {
    var t := SetPc(s, p, Idle).(lock := -1);
    forall a | 0 <= a < |t.procs| ensures Fits(t, p, p, a) {
      Facts(s, p, p, a);
    }
    OthersFit(s, t, p, p);
  }

  lemma SleepKeeps(s: State, p: nat)
    requires Inv(s) && p < |s.procs| && s.procs[p].pc.Scan? && s.procs[p].pc.i >= |s.procs| && !s.procs[p].killed
    ensures Inv(s.(procs := s.procs[p := s.procs[p].(st := SLEEPING, pc := InWait)], lock := -1))
  {
    var t := s.(procs := s.procs[p := s.procs[p].(st := SLEEPING, pc := InWait)], lock := -1);
    forall a | 0 <= a < |t.procs| ensures Fits(t, p, p, a) {
      Facts(s, p, p, a);
    }
    OthersFit(s, t, p, p);
  }

  lemma ReapKeeps(s: State, p: nat, i: nat)
    requires Inv(s) && p < |s.procs| && i < |s.procs| && s.procs[p].pc.Scan? && s.procs[i].parent == p && s.procs[i].st == ZOMBIE
    ensures Inv(s.(procs := s.procs[i := NOBODY], reaped := s.reaped + [s.procs[i].pid]))
  {
    var t := s.(procs := s.procs[i := NOBODY], reaped := s.reaped + [s.procs[i].pid]);
    Facts(s, p, i, i);
    forall a | 0 <= a < |t.procs| ensures Fits(t, p, i, a) {
      Facts(s, p, i, a);
    }
    OthersFit(s, t, p, i);
  }

  /** The moves of the program counter inside a guarded stretch that change nothing else. */
  ghost predicate CanMove(s: State, p: nat, pc: Pc)
    requires p < |s.procs|
  {
    var q := s.procs[p];
    || (q.pc.Reparent? && pc == Reparent(q.pc.i + 1) && (q.pc.i < |s.procs| ==> s.procs[q.pc.i].parent != p))
    || (q.pc.Reparent? && pc == WakeParent && q.pc.i >= |s.procs|)
    || (q.pc.WakeParent? && pc == MakeZombie && (0 <= q.parent < |s.procs| ==> !AsleepInWait(s.procs[q.parent])))
    || (q.pc.Scan? && pc.Scan? && pc.i == q.pc.i + 1 && (q.pc.kids ==> pc.kids)
        && (q.pc.i < |s.procs| && s.procs[q.pc.i].parent == p ==> s.procs[q.pc.i].st != ZOMBIE && pc.kids))
  }

  lemma ExitStepKeeps(s: State, p: nat)
    requires Inv(s) && Enabled(s, ExitStep(p))
    ensures Inv(ExitOnce(s, p))
  {
    var q := s.procs[p];
    if q.pc.MakeZombie? {
      ZombieKeeps(s, p);
    } else if q.pc.WakeParent? {
      WakeKeeps(s, q.parent);
      MovePcKeeps(s.(procs := Wake(s.procs, q.parent)), p, MakeZombie);
    } else if q.pc.i < |s.procs| && s.procs[q.pc.i].parent == p {
      AdoptAndWake(s, p, q.pc.i);
    } else {
      MovePcKeeps(s, p, if q.pc.i < |s.procs| then Reparent(q.pc.i + 1) else WakeParent);
    }
  }

  lemma AdoptAndWake(s: State, p: nat, i: nat)
    requires Inv(s) && p < |s.procs| && i < |s.procs| && s.procs[p].pc == Reparent(i) && s.procs[i].parent == p
    ensures var procs := s.procs[i := s.procs[i].(parent := s.init)];
            Inv(SetPc(s.(procs := Wake(procs, s.init)), p, Reparent(i + 1)))
  {
    var s1 := s.(procs := Wake(s.procs, s.init));
    WakeKeeps(s, s.init);
    AdoptKeeps(s1, p, i);
    var s2 := s1.(procs := s1.procs[i := s1.procs[i].(parent := s.init)]);
    assert s2.procs == Wake(s.procs[i := s.procs[i].(parent := s.init)], s.init);
    assert ProcOk(s, s.procs[p], p) && ProcOk(s, s.procs[s.init], s.init);
    MovePcKeeps(s2, p, Reparent(i + 1));
  }

  lemma WaitStepKeeps(s: State, p: nat, copyFails: bool)
    requires Inv(s) && Enabled(s, WaitStep(p, copyFails))
    ensures Inv(WaitOnce(s, p, copyFails))
  {
    var q := s.procs[p];
    if q.pc.i >= |s.procs| {
      ScanEndKeeps(s, p, copyFails);
    } else if s.procs[q.pc.i].parent != p {
      MovePcKeeps(s, p, Scan(q.pc.i + 1, q.pc.kids));
    } else if s.procs[q.pc.i].st != ZOMBIE {
      MovePcKeeps(s, p, Scan(q.pc.i + 1, true));
    } else if copyFails {
      LeaveKeeps(s, p);
    } else {
      ReapAndLeave(s, p, q.pc.i);
    }
  }

  lemma ScanEndKeeps(s: State, p: nat, copyFails: bool)
    requires Inv(s) && p < |s.procs| && s.procs[p].pc.Scan? && s.procs[p].pc.i >= |s.procs|
    ensures Inv(WaitOnce(s, p, copyFails))
  {
    if !s.procs[p].pc.kids || s.procs[p].killed {
      LeaveKeeps(s, p);
    } else {
      SleepKeeps(s, p);
    }
  }

  lemma ReapAndLeave(s: State, p: nat, i: nat)
    requires Inv(s) && p < |s.procs| && i < |s.procs| && s.procs[p].pc.Scan?
    requires s.procs[i].parent == p && s.procs[i].st == ZOMBIE
    ensures Inv(SetPc(s.(procs := s.procs[i := NOBODY], reaped := s.reaped + [s.procs[i].pid]), p, Idle).(lock := -1))
  {
    var s1 := s.(procs := s.procs[i := NOBODY], reaped := s.reaped + [s.procs[i].pid]);
    assert ProcOk(s, s.procs[p], p);
    assert s1.procs[p] == s.procs[p];
    ReapKeeps(s, p, i);
    LeaveKeeps(s1, p);
  }

  lemma StepKeeps(s: State, e: Event)
    requires Inv(s) && Enabled(s, e)
    ensures Inv(Next(s, e))
  {
    var q := s.procs[e.p];
    assert ProcOk(s, q, e.p);
    match e
    case Schedule(p) => LocalKeeps(s, p, q.(st := RUNNING));
    case Preempt(p) => LocalKeeps(s, p, q.(st := RUNNABLE));
    case SleepElsewhere(p) => LocalKeeps(s, p, q.(st := SLEEPING));
    case WakeElsewhere(p) => LocalKeeps(s, p, q.(st := RUNNABLE));
    case Kill(p) => LocalKeeps(s, p, q.(killed := true, st := if q.st == SLEEPING then RUNNABLE else q.st));
    case Alloc(p, c) => AllocKeeps(s, p, c);
    case AllocFails(p) => AllocFailsKeeps(s, p);
    case Link(p) => LinkKeeps(s, p);
    case Launch(p) => LaunchKeeps(s, p);
    case StartExit(p) => StartExitKeeps(s, p);
    case ExitStep(p) => ExitStepKeeps(s, p);
    case StartWait(p) => StartScanKeeps(s, p);
    case WaitStep(p, copyFails) => WaitStepKeeps(s, p, copyFails);
    case WaitResume(p) => StartScanKeeps(s, p);
  }

  // ----- Whole runs -----

  ghost predicate Possible(s: State, es: seq<Event>)
    decreases |es|
  {
    es == [] || (Enabled(s, es[0]) && Possible(Next(s, es[0]), es[1..]))
  }

  function Run(s: State, es: seq<Event>): (r: State)
    requires Possible(s, es)
    decreases |es|
  {
    if es == [] then s else Run(Next(s, es[0]), es[1..])
  }

  /** A table with only init in it, running. */
  function Boot(n: nat): (s: State)
    requires n > 0
  {
    State(seq(n, p => if p == 0 then Proc(RUNNING, -1, Idle, false, 1) else NOBODY), -1, 0, 2, [], [])
  }

  lemma BootOk(n: nat)
    requires n > 0
    ensures Inv(Boot(n))
  {
  }

  lemma {:induction false} RunKeeps(s: State, es: seq<Event>)
    requires Inv(s) && Possible(s, es)
    ensures Inv(Run(s, es))
    decreases |es|
  {
    if es != [] {
      StepKeeps(s, es[0]);
      RunKeeps(Next(s, es[0]), es[1..]);
    }
  }

  /** In every interleaving: no process has a parent that is ZOMBIE or UNUSED, and no parent
      sleeps in kwait while it has a ZOMBIE child, so no exit is missed. */
  lemma NoExitMissed(n: nat, es: seq<Event>, p: nat, c: nat)
    requires n > 0 && Possible(Boot(n), es)
    ensures var t := Run(Boot(n), es);
            p < |t.procs| && c < |t.procs| && t.procs[c].parent == p ==>
              && t.procs[p].st != ZOMBIE && t.procs[p].st != UNUSED
              && (t.procs[c].st == ZOMBIE ==> !AsleepInWait(t.procs[p]))
  {
    BootOk(n);
    RunKeeps(Boot(n), es);
    var t := Run(Boot(n), es);
    if p < |t.procs| && c < |t.procs| {
      assert PairOk(t.procs[p], p, t.procs[c], c);
    }
  }

  // ----- What kwait does -----

  predicate IsChild(s: State, c: nat, p: nat) { c < |s.procs| && s.procs[c].parent == p }

  /** A scan that remembers a child has one. */
  ghost predicate KidsReal(s: State) {
    forall p: nat :: p < |s.procs| && s.procs[p].pc.Scan? && s.procs[p].pc.kids ==> exists c :: IsChild(s, c, p)
  }

  // While one process scans, nobody takes a child from it.
  lemma ChildrenStay(s: State, e: Event, p: nat, c: nat)
    requires Inv(s) && Enabled(s, e) && p < |s.procs| && e.p != p && s.procs[p].pc.Scan? && IsChild(s, c, p)
    ensures IsChild(Next(s, e), c, p)
  {
    assert ProcOk(s, s.procs[p], p) && ProcOk(s, s.procs[e.p], e.p) && ProcOk(s, s.procs[c], c);
    if Forking(s.procs[e.p].pc) {
      assert PairOk(s.procs[e.p], e.p, s.procs[c], c);
    }
  }

  lemma ScanGoesOn(s: State, e: Event, p: nat)
    requires Inv(s) && Enabled(s, e) && p < |s.procs| && e.p != p && Next(s, e).procs[p].pc.Scan?
    ensures s.procs[p].pc == Next(s, e).procs[p].pc
  {
    assert ProcOk(s, s.procs[e.p], e.p);
  }

  lemma KidsStep(s: State, e: Event)
    requires Inv(s) && Enabled(s, e) && KidsReal(s)
    ensures KidsReal(Next(s, e))
  {
    var t := Next(s, e);
    forall p: nat | p < |t.procs| && t.procs[p].pc.Scan? && t.procs[p].pc.kids ensures exists c :: IsChild(t, c, p) {
      if p == e.p {
        var i := s.procs[p].pc.i;
        if s.procs[p].pc.kids {
          var c :| IsChild(s, c, p);
          assert IsChild(t, c, p);
        } else {
          assert IsChild(t, i, p);
        }
      } else {
        ScanGoesOn(s, e, p);
        var c :| IsChild(s, c, p);
        ChildrenStay(s, e, p, c);
      }
    }
  }

  lemma {:induction false} KidsRun(s: State, es: seq<Event>)
    requires Inv(s) && KidsReal(s) && Possible(s, es)
    ensures KidsReal(Run(s, es))
    decreases |es|
  {
    if es != [] {
      StepKeeps(s, es[0]);
      KidsStep(s, es[0]);
      KidsRun(Next(s, es[0]), es[1..]);
    }
  }

  /** In every run, a kwait whose scan is through the table returns -1 exactly if nobody has it as parent
      or it was killed; it goes to sleep exactly if it has a child, none of its children is a ZOMBIE, and
      it was not killed. */
  lemma WaitEnds(n: nat, es: seq<Event>, p: nat, copyFails: bool)
    requires n > 0 && Possible(Boot(n), es)
    requires var s := Run(Boot(n), es); p < |s.procs| && s.procs[p].pc.Scan? && s.procs[p].pc.i >= |s.procs|
    ensures var s := Run(Boot(n), es);
            var t := Next(s, WaitStep(p, copyFails));
            && t.lock == -1 && t == s.(procs := s.procs[p := t.procs[p]], lock := -1)
            && (t.procs[p].pc == Idle && t.procs[p].st == RUNNING <==>
                  s.procs[p].killed || forall c :: 0 <= c < |s.procs| ==> s.procs[c].parent != p)
            && (t.procs[p].pc == InWait && t.procs[p].st == SLEEPING <==>
                  && (exists c :: 0 <= c < |s.procs| && s.procs[c].parent == p)
                  && (forall c :: 0 <= c < |s.procs| && s.procs[c].parent == p ==> s.procs[c].st != ZOMBIE)
                  && !s.procs[p].killed)
  {
    BootOk(n);
    RunKeeps(Boot(n), es);
    KidsRun(Boot(n), es);
    var s := Run(Boot(n), es);
    assert ProcOk(s, s.procs[p], p);
    forall c | 0 <= c < |s.procs| && s.procs[c].parent == p ensures s.procs[p].pc.kids && s.procs[c].st != ZOMBIE {
      assert PairOk(s.procs[p], p, s.procs[c], c);
    }
    if s.procs[p].pc.kids {
      var c :| IsChild(s, c, p);
    }
  }

  /** Before that, a scan ends exactly at a ZOMBIE child, the first in the table.  Unless its status cannot be
      copied out, kwait frees its entry and reports its pid, and changes nobody else. */
  lemma WaitReaps(n: nat, es: seq<Event>, p: nat, copyFails: bool)
    requires n > 0 && Possible(Boot(n), es)
    requires var s := Run(Boot(n), es); p < |s.procs| && s.procs[p].pc.Scan? && s.procs[p].pc.i < |s.procs|
    ensures var s := Run(Boot(n), es);
            var t, i := Next(s, WaitStep(p, copyFails)), s.procs[p].pc.i;
            var found := s.procs[i].parent == p && s.procs[i].st == ZOMBIE;
            && |t.procs| == |s.procs|
            && (!found <==> t.procs[p].pc.Scan?) && (!found ==> t.procs[p].pc.i == i + 1 && t.lock == p)
            && (found ==> i != p && t.procs[p] == s.procs[p].(pc := Idle) && t.lock == -1)
            && (found ==> forall c :: 0 <= c < i && s.procs[c].parent == p ==> s.procs[c].st != ZOMBIE)
            && t.reaped == (if found && !copyFails then s.reaped + [s.procs[i].pid] else s.reaped)
            && t.procs[i].st == (if found && !copyFails then UNUSED else s.procs[i].st)
            && forall c :: 0 <= c < |s.procs| && c != p && c != i ==> t.procs[c] == s.procs[c]
  {
    BootOk(n);
    RunKeeps(Boot(n), es);
    var s := Run(Boot(n), es);
    assert ProcOk(s, s.procs[p], p);
    forall c | 0 <= c < s.procs[p].pc.i && s.procs[c].parent == p ensures s.procs[c].st != ZOMBIE {
      assert PairOk(s.procs[p], p, s.procs[c], c);
    }
  }

  /** What the holder of wait_lock has still to do before it lets go, in steps. */
  function StepsLeft(pc: Pc, n: nat): (k: nat) {
    match pc
    case Reparent(i) => 3 + if i < n then n - i else 0
    case WakeParent => 2
    case MakeZombie => 1
    case Scan(i, _) => 1 + if i < n then n - i else 0
    case _ => 0
  }

  /** wait_lock is not held for ever: its holder can always take its next step, whatever else happens, and each
      brings it closer to letting go. */
  lemma HolderGoesOn(s: State, copyFails: bool)
    requires Inv(s) && s.lock >= 0
    ensures s.lock < |s.procs|
    ensures var pc := s.procs[s.lock].pc;
            var e := if pc.Scan? then WaitStep(s.lock, copyFails) else ExitStep(s.lock);
            && Enabled(s, e) && |Next(s, e).procs| == |s.procs|
            && (Next(s, e).lock == -1 ||
                (Next(s, e).lock == s.lock && StepsLeft(Next(s, e).procs[s.lock].pc, |s.procs|) < StepsLeft(pc, |s.procs|)))
  {
    assert ProcOk(s, s.procs[s.lock], s.lock);
    assert ProcOk(s, s.procs[s.init], s.init);
  }

  // ----- States, parents and kills -----

  // The states that the steps of exit and wait leave a process in.
  lemma ExitStates(s: State, p: nat, c: nat)
    requires Inv(s) && Enabled(s, ExitStep(p)) && c < |s.procs|
    ensures var t := ExitOnce(s, p);
            && |t.procs| == |s.procs|
            && t.procs[c].st == if c == p && s.procs[p].pc == MakeZombie then ZOMBIE
                                else if s.procs[c].st == SLEEPING && t.procs[c].st == RUNNABLE then RUNNABLE else s.procs[c].st
  {
    assert ProcOk(s, s.procs[p], p);
  }

  lemma WaitStates(s: State, p: nat, copyFails: bool, c: nat)
    requires Inv(s) && Enabled(s, WaitStep(p, copyFails)) && c < |s.procs|
    ensures var t := WaitOnce(s, p, copyFails);
            && |t.procs| == |s.procs|
            && (c != p ==> t.procs[c].st == s.procs[c].st || (s.procs[c].st == ZOMBIE && s.procs[c].parent == p && t.procs[c].st == UNUSED))
            && (c == p ==> s.procs[c].st == RUNNING && (t.procs[c].st == RUNNING || t.procs[c].st == SLEEPING))
  {
    assert ProcOk(s, s.procs[p], p);
  }

  /** When a process changes state: it becomes a ZOMBIE only at the end of its exit, and UNUSED only when it is reaped
      by its parent or its fork fails. */
  lemma StateChanges(s: State, e: Event, c: nat)
    requires Inv(s) && Enabled(s, e) && c < |s.procs|
    ensures |Next(s, e).procs| == |s.procs|
    ensures var p, q := s.procs[c], Next(s, e).procs[c];
            && (q.st == RUNNING && p.st != RUNNING <==> e == Schedule(c))
            && (q.st == ZOMBIE && p.st != ZOMBIE <==> e == ExitStep(c) && p.pc == MakeZombie)
            && (q.st == USED && p.st != USED <==> e.Alloc? && e.c == c)
            && (q.st == UNUSED && p.st != UNUSED ==>
                  || (e.WaitStep? && p.st == ZOMBIE && p.parent == e.p) || (e.AllocFails? && s.procs[e.p].pc == ForkAlloc(c)))
            && (q.st == RUNNABLE && p.st == USED ==> e.Launch? && s.procs[e.p].pc == ForkLinked(c))
  {
    assert ProcOk(s, s.procs[e.p], e.p);
    if e.ExitStep? {
      ExitStates(s, e.p, c);
    } else if e.WaitStep? {
      WaitStates(s, e.p, e.copyFails, c);
    } else if Forking(s.procs[e.p].pc) {
      assert PairOk(s.procs[e.p], e.p, s.procs[c], c);
    }
  }

  /** A sleep in kwait ends only when a child of the sleeper exits, when init gets a child from an exiting process, or
      when the sleeper is killed. */
  lemma WaitSleepEnds(s: State, e: Event, c: nat)
    requires Inv(s) && Enabled(s, e) && c < |s.procs| && AsleepInWait(s.procs[c]) && !AsleepInWait(Next(s, e).procs[c])
    ensures e == Kill(c) || (e.ExitStep? && (s.procs[e.p].parent == c || c == s.init))
    ensures Next(s, e).procs[c].st == RUNNABLE
  {
    assert ProcOk(s, s.procs[c], c) && ProcOk(s, s.procs[e.p], e.p);
    assert PairOk(s.procs[e.p], e.p, s.procs[c], c);
  }

  /** Who a process has as parent changes only when it is linked by the process that forks it, passes to
      init because its parent exits, or is gone. */
  lemma ParentChanges(s: State, e: Event, c: nat)
    requires Inv(s) && Enabled(s, e) && c < |s.procs| && Next(s, e).procs[c].parent != s.procs[c].parent
    ensures var t := Next(s, e);
            || (e.Link? && s.procs[e.p].pc == ForkAlloc(c) && s.procs[c].parent == -1 && t.procs[c].parent == e.p)
            || (e.ExitStep? && s.procs[c].parent == e.p && t.procs[c].parent == s.init)
            || (e.WaitStep? && s.procs[c].parent == e.p && s.procs[c].st == ZOMBIE && t.procs[c].st == UNUSED)
  {
    assert ProcOk(s, s.procs[c], c);
    if Forking(s.procs[e.p].pc) {
      assert PairOk(s.procs[e.p], e.p, s.procs[s.procs[e.p].pc.child], s.procs[e.p].pc.child);
    }
  }

  /** In every run the process that forked a child is its parent when the child first becomes RUNNABLE, and
      its pid is not the pid of any other process, nor of one that has exited. */
  lemma ForkedChild(n: nat, es: seq<Event>, p: nat, d: nat)
    requires n > 0 && Possible(Boot(n), es) && Enabled(Run(Boot(n), es), Launch(p))
    ensures var s := Run(Boot(n), es);
            var c, t := s.procs[p].pc.child, Next(s, Launch(p));
            && c < |t.procs| && s.procs[c].st == USED && t.procs[c].st == RUNNABLE && t.procs[c].parent == p
            && t.procs[c].pid !in t.exited
            && (d < |t.procs| && d != c && t.procs[d].st != UNUSED ==> t.procs[d].pid != t.procs[c].pid)
  {
    BootOk(n);
    RunKeeps(Boot(n), es);
    var s := Run(Boot(n), es);
    var c := s.procs[p].pc.child;
    assert PairOk(s.procs[p], p, s.procs[c], c) && ProcOk(s, s.procs[c], c) && ProcOk(s, s.procs[p], p);
    if d < |s.procs| {
      assert PairOk(s.procs[d], d, s.procs[c], c);
    }
  }

  /** Process `p`, if it is still the one with pid `x`, is marked. */
  predicate Marked(s: State, p: nat, x: nat) {
    p < |s.procs| && x < s.nextpid && (s.procs[p].st != UNUSED && s.procs[p].pid == x ==> s.procs[p].killed)
  }

  // What a step does to one process that keeps its pid.
  lemma SameProcess(s: State, e: Event, p: nat)
    requires Inv(s) && Enabled(s, e) && p < |s.procs|
    ensures |Next(s, e).procs| == |s.procs| && s.nextpid <= Next(s, e).nextpid
    ensures var q, r := s.procs[p], Next(s, e).procs[p];
            r.st == UNUSED || (q.st == UNUSED && r.pid == s.nextpid) || (r.pid == q.pid && q.st != UNUSED && (q.killed ==> r.killed))
  {
    assert ProcOk(s, s.procs[p], p) && ProcOk(s, s.procs[e.p], e.p);
    if Forking(s.procs[e.p].pc) {
      var c := s.procs[e.p].pc.child;
      assert PairOk(s.procs[e.p], e.p, s.procs[c], c);
    }
  }

  lemma MarkStays(s: State, e: Event, p: nat, x: nat)
    requires Inv(s) && Enabled(s, e) && Marked(s, p, x)
    ensures Marked(Next(s, e), p, x) && |Next(s, e).procs| == |s.procs|
  {
    SameProcess(s, e, p);
  }

  /** A process that has been killed stays marked until it is gone, and does not sleep in kwait. */
  lemma KilledForGood(s: State, es: seq<Event>, p: nat)
    requires Inv(s) && Possible(s, [Kill(p)] + es)
    ensures var t := Run(s, [Kill(p)] + es);
            p < |s.procs| == |t.procs| &&
            (t.procs[p].st != UNUSED && t.procs[p].pid == s.procs[p].pid ==> t.procs[p].killed && !AsleepInWait(t.procs[p]))
  {
    var all, u := [Kill(p)] + es, Next(s, Kill(p));
    assert all[1..] == es && all[0] == Kill(p);
    assert ProcOk(s, s.procs[p], p);
    StepKeeps(s, Kill(p));
    MarkedRun(u, es, p, s.procs[p].pid);
    var t := Run(u, es);
    assert ProcOk(t, t.procs[p], p);
  }

  lemma {:induction false} MarkedRun(s: State, es: seq<Event>, p: nat, x: nat)
    requires Inv(s) && Possible(s, es) && Marked(s, p, x)
    ensures Marked(Run(s, es), p, x) && Inv(Run(s, es)) && |Run(s, es).procs| == |s.procs|
    decreases |es|
  {
    if es != [] {
      StepKeeps(s, es[0]);
      MarkStays(s, es[0], p, x);
      MarkedRun(Next(s, es[0]), es[1..], p, x);
    }
  }

  /** Each exit is reaped by at most one successful kwait, and only exits are reaped. */
  lemma ReapedOnce(n: nat, es: seq<Event>)
    requires n > 0 && Possible(Boot(n), es)
    ensures var t := Run(Boot(n), es);
            Distinct(t.reaped) && Distinct(t.exited) && forall x :: x in t.reaped ==> x in t.exited
  {
    BootOk(n);
    RunKeeps(Boot(n), es);
  }

  /** Process `p` is the ZOMBIE of the exit of pid `x`. */
  predicate IsZombie(s: State, p: nat, x: nat) {
    p < |s.procs| && s.procs[p].st == ZOMBIE && s.procs[p].pid == x
  }

  ghost predicate Accounted(s: State) {
    forall x :: x in s.exited && x !in s.reaped ==> exists p :: IsZombie(s, p, x)
  }

  lemma ZombiesStay(s: State, e: Event, p: nat, x: nat)
    requires Inv(s) && Enabled(s, e) && IsZombie(s, p, x) && x !in Next(s, e).reaped
    ensures IsZombie(Next(s, e), p, x)
  {
    assert ProcOk(s, s.procs[p], p);
    assert ProcOk(s, s.procs[e.p], e.p);
    if e.ExitStep? {
      ZombieStaysInExit(s, e.p, p, x);
    } else if Forking(s.procs[e.p].pc) {
      assert PairOk(s.procs[e.p], e.p, s.procs[p], p);
    }
  }

  lemma ZombieStaysInExit(s: State, p: nat, z: nat, x: nat)
    requires Inv(s) && Enabled(s, ExitStep(p)) && IsZombie(s, z, x)
    ensures IsZombie(ExitOnce(s, p), z, x)
  {
  }

  lemma AccountedStep(s: State, e: Event)
    requires Inv(s) && Enabled(s, e) && Accounted(s)
    ensures Accounted(Next(s, e))
  {
    var t := Next(s, e);
    forall x | x in t.exited && x !in t.reaped ensures exists p :: IsZombie(t, p, x) {
      if x in s.exited {
        assert x !in s.reaped;
        var p :| IsZombie(s, p, x);
        ZombiesStay(s, e, p, x);
      } else {
        assert IsZombie(t, e.p, x);
      }
    }
  }

  /** No exit is forgotten: a pid that has exited and has not been reaped is still a ZOMBIE. */
  lemma {:induction false} ExitsAccounted(s: State, es: seq<Event>)
    requires Inv(s) && Accounted(s) && Possible(s, es)
    ensures Accounted(Run(s, es))
    decreases |es|
  {
    if es != [] {
      StepKeeps(s, es[0]);
      AccountedStep(s, es[0]);
      ExitsAccounted(Next(s, es[0]), es[1..]);
    }
  }
}
