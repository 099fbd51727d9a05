/** The multi-level feedback queue (scheduler, priority_boost and yield in kernel/proc.c, the
    timer branches of usertrap and kerneltrap in kernel/trap.c).

    Every scheduling decision is one step.  A process that is RUNNING is on some CPU; `onLevel`
    is the scheduler's local variable, the level at which it was dispatched. */
module Scheduler {
  import opened Common

  const LEVELS := 4

  function Quantum(level: int): (q: nat)
    requires 0 <= level < LEVELS
    ensures q >= 2
  {
    [2, 4, 8, 16][level]
  }

  datatype ProcState = UNUSED | USED | SLEEPING | RUNNABLE | RUNNING | ZOMBIE

  datatype Proc = Proc(
    state: ProcState,
    level: int,
    onLevel: int,
    ticksUsed: int,
    ticksTotal: seq<int>,
    timesScheduled: int,
    syscalls: int,
    sliceStart: int)

  // ----- Choosing a process -----

  predicate Ready(p: Proc, level: int) { p.state == RUNNABLE && p.level == level }

  ghost predicate IsFirst(procs: seq<Proc>, level: int, start: nat, i: nat)
    requires start < |procs|
  {
    && i < |procs| && Ready(procs[i], level)
    && forall j :: 0 <= j < |procs| && Ready(procs[j], level) ==>
         Distance(start, i, |procs|) <= Distance(start, j, |procs|)
  }

  /** The scheduler's choice: the lowest level with a RUNNABLE process, and there the first one
      from the round-robin index on. */
  ghost predicate IsPick(procs: seq<Proc>, rr: seq<nat>, level: int, i: nat)
    requires IndicesOk(rr, |procs|)
  {
    && 0 <= level < LEVELS
    && IsFirst(procs, level, rr[level], i)
    && forall l, j :: 0 <= l < level && 0 <= j < |procs| ==> !Ready(procs[j], l)
  }

  /** The choice is RUNNABLE, has the lowest level of all RUNNABLE processes, and is the first of its level
      from the index on, counting round the table. */
  lemma PickIsLowest(procs: seq<Proc>, rr: seq<nat>, level: int, i: nat, j: nat)
    requires IndicesOk(rr, |procs|)
    requires IsPick(procs, rr, level, i) && j < |procs| && procs[j].state == RUNNABLE && procs[j].level >= 0
    ensures i < |procs| && procs[i].state == RUNNABLE && procs[i].level == level && 0 <= level < LEVELS
    ensures procs[i].level <= procs[j].level
    ensures procs[i].level == procs[j].level ==> (i - rr[level]) % |procs| <= (j - rr[level]) % |procs|
  {
    if procs[j].level < level {
      assert Ready(procs[j], procs[j].level);
    }
    Circle(rr[level], i, 0, |procs|);
    Circle(rr[level], j, 0, |procs|);
  }

  /** While `p` waits at a level, every pick of another process there brings the index closer. */
  lemma DistanceShrinks(procs: seq<Proc>, level: int, start: nat, i: nat, p: nat)
    requires start < |procs| && IsFirst(procs, level, start, i)
    requires p < |procs| && Ready(procs[p], level) && i != p
    ensures Distance(Succ(i, |procs|), p, |procs|) < Distance(start, p, |procs|)
  {
  }

  // ----- Accounting -----

  /** scheduler, before the switch */
  function Dispatched(p: Proc): (r: Proc) {
    p.(state := RUNNING, onLevel := p.level, timesScheduled := p.timesScheduled + 1,
       sliceStart := if p.ticksUsed == 0 then p.syscalls else p.sliceStart)
  }

  /** The timer interrupt's charge. */
  function Charged(p: Proc): (r: Proc)
    requires 0 <= p.level < LEVELS == |p.ticksTotal|
  {
    p.(ticksUsed := p.ticksUsed + 1, ticksTotal := p.ticksTotal[p.level := p.ticksTotal[p.level] + 1])
  }

  /** yield, and the scheduler after the switch back. */
  function GivenUp(p: Proc): (r: Proc)
    requires 0 <= p.onLevel < LEVELS
  {
    var q := p.(state := RUNNABLE);
    if p.ticksUsed >= Quantum(p.onLevel) then
      q.(level := if p.syscalls - p.sliceStart < p.ticksUsed && p.level < 3 then p.level + 1 else p.level,
         ticksUsed := 0, sliceStart := p.syscalls)
    else q
  }

  function Boosted(p: Proc): (r: Proc) {
    if p.state == RUNNABLE then p.(level := 0, ticksUsed := 0, sliceStart := p.syscalls) else p
  }

  /** allocproc */
  const FRESH := Proc(USED, 0, 0, 0, [0, 0, 0, 0], 0, 0, 0)

  predicate Expired(p: Proc)
    requires 0 <= p.level < LEVELS
  {
    p.ticksUsed >= Quantum(p.level)
  }

  /** A running process below a RUNNABLE one of a lower level gives up the CPU early. */
  predicate Outranked(procs: seq<Proc>, level: int) {
    exists j :: 0 <= j < |procs| && procs[j].state == RUNNABLE && procs[j].level < level
  }

  /** What holds of every process between steps: `level` is a level, the slice is not used up,
      the slice started at a count already reached, and a running process has not changed level. */
  ghost predicate ProcOk(p: Proc) {
    && 0 <= p.level < LEVELS && |p.ticksTotal| == LEVELS
    && 0 <= p.ticksUsed < Quantum(p.level)
    && p.sliceStart <= p.syscalls
    && (p.state == RUNNING ==> p.onLevel == p.level)
  }

  datatype Event =
    | Dispatch(i: nat)
    | Tick(i: nat, boost: bool)
    | Syscall(i: nat)
    | Sleep(i: nat)
    | Wakeup(i: nat)
    | Alloc(i: nat)
    | Start(i: nat)
    | Exit(i: nat)
    | Reap(i: nat)
    | IdleBoost

  predicate Enabled(procs: seq<Proc>, e: Event) {
    e == IdleBoost ||
    (e.i < |procs| && procs[e.i].state ==
       match e
       case Dispatch(_) => RUNNABLE
       case Wakeup(_) => SLEEPING
       case Alloc(_) => UNUSED
       case Start(_) => USED
       case Reap(_) => ZOMBIE
       case _ => RUNNING)
  }

  function BoostAll(procs: seq<Proc>): (r: seq<Proc>)
    ensures |r| == |procs| && forall j :: 0 <= j < |procs| ==> r[j] == Boosted(procs[j])
  {
    seq(|procs|, j requires 0 <= j < |procs| => Boosted(procs[j]))
  }

  /** The timer interrupt: charge, boost when it is time (which spares the running process), and
      give up the CPU if the slice is used up, a lower level is waiting, or there was a boost. */
  function Ticked(procs: seq<Proc>, i: nat, boost: bool): (r: seq<Proc>)
    requires i < |procs| && 0 <= procs[i].level < LEVELS == |procs[i].ticksTotal|
    requires 0 <= procs[i].onLevel < LEVELS
  {
    var p := Charged(procs[i]);
    var q := if Expired(p) || Outranked(procs[i := p], p.level) || boost then GivenUp(p) else p;
    (if boost then BoostAll(procs[i := p]) else procs[i := p])[i := q]
  }

  function Next(procs: seq<Proc>, e: Event): (r: seq<Proc>)
    requires Enabled(procs, e)
    requires forall j :: 0 <= j < |procs| ==> 0 <= procs[j].level < LEVELS == |procs[j].ticksTotal|
    requires !e.IdleBoost? && procs[e.i].state == RUNNING ==> 0 <= procs[e.i].onLevel < LEVELS
  {
    match e
    case Dispatch(i) => procs[i := Dispatched(procs[i])]
    case Tick(i, boost) => Ticked(procs, i, boost)
    case Syscall(i) => procs[i := procs[i].(syscalls := procs[i].syscalls + 1)]
    case Sleep(i) => procs[i := procs[i].(state := SLEEPING)]
    case Wakeup(i) => procs[i := procs[i].(state := RUNNABLE)]
    case Alloc(i) => procs[i := FRESH]
    case Start(i) => procs[i := procs[i].(state := RUNNABLE)]
    case Exit(i) => procs[i := procs[i].(state := ZOMBIE)]
    case Reap(i) => procs[i := FRESH.(state := UNUSED)]
    case IdleBoost => BoostAll(procs)
  }

  ghost predicate TableOk(procs: seq<Proc>) {
    forall j :: 0 <= j < |procs| ==> ProcOk(procs[j])
  }

  lemma TickKeeps(procs: seq<Proc>, i: nat, boost: bool)
    requires TableOk(procs) && i < |procs| && procs[i].state == RUNNING
    ensures TableOk(Ticked(procs, i, boost))
  {
  }

  lemma StepKeeps(procs: seq<Proc>, e: Event)
    requires TableOk(procs) && Enabled(procs, e)
    ensures TableOk(Next(procs, e))
  {
    if e.Tick? {
      TickKeeps(procs, e.i, e.boost);
    } else if !e.IdleBoost? {
      assert ProcOk(procs[e.i]);
    }
  }

  /** A process moves down one level exactly at the tick that ends its slice, if it made fewer system
      calls in the slice than it was charged ticks; it moves up only to level 0, by a boost or as a new
      process. */
  lemma LevelChanges(procs: seq<Proc>, e: Event, k: nat)
    requires TableOk(procs) && Enabled(procs, e) && k < |procs|
    ensures var p, q := procs[k], Next(procs, e)[k];
            && (q.level > p.level <==>
                  && e.Tick? && e.i == k && p.level < 3
                  && p.ticksUsed + 1 == [2, 4, 8, 16][p.level] && p.syscalls - p.sliceStart < [2, 4, 8, 16][p.level])
            && (q.level > p.level ==> q.level == p.level + 1)
            && (q.level < p.level ==>
                  q.level == 0 && (e.IdleBoost? || (e.Tick? && e.boost) || ((e.Alloc? || e.Reap?) && e.i == k)))
  {
    assert ProcOk(procs[k]);
  }

  /** When a tick takes the CPU away: the process it interrupts goes on exactly if its slice has ticks
      left, there is no boost, and no RUNNABLE process has a lower level.  Without a boost nobody else
      changes. */
  lemma TickMeans(procs: seq<Proc>, i: nat, boost: bool)
    requires TableOk(procs) && i < |procs| && procs[i].state == RUNNING
    ensures var t := Next(procs, Tick(i, boost));
            && |t| == |procs|
            && (t[i].state == RUNNING <==>
                  && procs[i].ticksUsed + 1 < [2, 4, 8, 16][procs[i].level] && !boost
                  && forall j :: 0 <= j < |t| && t[j].state == RUNNABLE ==> t[j].level >= t[i].level)
            && (t[i].state != RUNNING ==> t[i].state == RUNNABLE)
            && (!boost ==> forall j :: 0 <= j < |t| && j != i ==> t[j] == procs[j])
  {
    var t := Next(procs, Tick(i, boost));
    var p := Charged(procs[i]);
    assert ProcOk(procs[i]);
    var u := procs[i := p];
    if j :| 0 <= j < |u| && u[j].state == RUNNABLE && u[j].level < p.level {
      assert j != i && (boost || t[j] == procs[j]);
    }
  }

  /** When a process changes state. */
  lemma StateChanges(procs: seq<Proc>, e: Event, k: nat)
    requires TableOk(procs) && Enabled(procs, e) && k < |procs|
    ensures var p, q := procs[k].state, Next(procs, e)[k].state;
            && (q == RUNNING && p != RUNNING <==> e == Dispatch(k))
            && (q == SLEEPING && p != SLEEPING <==> e == Sleep(k))
            && (q == ZOMBIE && p != ZOMBIE <==> e == Exit(k))
            && (q == USED && p != USED <==> e == Alloc(k))
            && (q == UNUSED && p != UNUSED <==> e == Reap(k))
            && (q == RUNNABLE && p != RUNNABLE <==> e == Wakeup(k) || e == Start(k) || (e.Tick? && e.i == k && q != RUNNING))
  {
    assert ProcOk(procs[k]);
  }

  predicate IsBoost(e: Event) { e.IdleBoost? || (e.Tick? && e.boost) }

  /** A boost brings every RUNNABLE process to level 0 with a fresh slice; the process that a tick
      interrupts does not get it, and those asleep or on other CPUs do not change. */
  lemma BoostMeans(procs: seq<Proc>, e: Event, k: nat)
    requires TableOk(procs) && Enabled(procs, e) && IsBoost(e) && k < |procs|
    ensures var p, q := procs[k], Next(procs, e)[k];
            && (p.state == RUNNABLE ==> q == p.(level := 0, ticksUsed := 0, sliceStart := p.syscalls))
            && (p.state != RUNNABLE && (e.IdleBoost? || k != e.i) ==> q == p)
            && (e.Tick? && k == e.i ==> q.state == RUNNABLE && q.level >= p.level)
  {
    assert ProcOk(procs[k]);
    if e.Tick? {
      assert ProcOk(procs[e.i]);
    }
  }

  ghost predicate Possible(procs: seq<Proc>, es: seq<Event>)
    requires TableOk(procs)
    decreases |es|
  {
    es == [] || (Enabled(procs, es[0]) && (StepKeeps(procs, es[0]); Possible(Next(procs, es[0]), es[1..])))
  }

  ghost function Run(procs: seq<Proc>, es: seq<Event>): (r: seq<Proc>)
    requires TableOk(procs) && Possible(procs, es)
    decreases |es|
  {
    if es == [] then procs else StepKeeps(procs, es[0]); Run(Next(procs, es[0]), es[1..])
  }

  /** Over every run: levels stay in 0..3, a process off the CPU has ticks left in its slice, and
      slice_start_syscalls never exceeds systemcall_count. */
  lemma {:induction false} RunKeeps(procs: seq<Proc>, es: seq<Event>)
    requires TableOk(procs) && Possible(procs, es)
    ensures TableOk(Run(procs, es)) && |Run(procs, es)| == |procs|
    decreases |es|
  {
    if es != [] {
      StepKeeps(procs, es[0]);
      RunKeeps(Next(procs, es[0]), es[1..]);
    }
  }

  lemma {:induction false} RunMore(procs: seq<Proc>, es: seq<Event>, e: Event)
    requires TableOk(procs) && Possible(procs, es + [e])
    ensures Possible(procs, es) && TableOk(Run(procs, es)) && Enabled(Run(procs, es), e)
    ensures |Run(procs, es)| == |procs| && Run(procs, es + [e]) == Next(Run(procs, es), e)
    decreases |es|
  {
    if es == [] {
      assert [e][1..] == [];
    } else {
      assert (es + [e])[1..] == es[1..] + [e];
      StepKeeps(procs, es[0]);
      NextLength(procs, es[0]);
      RunMore(Next(procs, es[0]), es[1..], e);
    }
  }

  /** In every run, right after a tick the process it interrupted has not kept the CPU from a RUNNABLE
      process of a lower level, nor past the end of its slice. */
  lemma NobodyOutranked(procs: seq<Proc>, es: seq<Event>, i: nat, boost: bool, j: nat)
    requires TableOk(procs) && Possible(procs, es + [Tick(i, boost)])
    ensures var t := Run(procs, es + [Tick(i, boost)]);
            && i < |t|
            && (t[i].state == RUNNING ==>
                  && 0 <= t[i].level < LEVELS && t[i].ticksUsed < [2, 4, 8, 16][t[i].level]
                  && (j < |t| && t[j].state == RUNNABLE ==> t[i].level <= t[j].level))
  {
    RunMore(procs, es, Tick(i, boost));
    var u := Run(procs, es);
    TickMeans(u, i, boost);
    StepKeeps(u, Tick(i, boost));
    assert ProcOk(Next(u, Tick(i, boost))[i]);
  }

  // ----- Accounting over runs -----

  /** How often `e` happens. */
  function Count(es: seq<Event>, e: Event): (c: nat) {
    if es == [] then 0 else (if es[0] == e then 1 else 0) + Count(es[1..], e)
  }

  function Ticks(es: seq<Event>, k: nat): (c: nat) { Count(es, Tick(k, false)) + Count(es, Tick(k, true)) }

  /** Over every run a process has been charged each of its ticks, at the level it had, and its dispatches
      and system calls have been counted. */
  lemma {:induction false} CountsEverything(procs: seq<Proc>, es: seq<Event>, k: nat)
    requires TableOk(procs) && Possible(procs, es) && k < |procs|
    requires forall n :: 0 <= n < |es| ==> es[n] != Alloc(k) && es[n] != Reap(k)
    ensures |Run(procs, es)| == |procs| && TableOk(Run(procs, es))
    ensures var p, q := procs[k], Run(procs, es)[k];
            && ProcOk(p) && ProcOk(q)
            && TotalTicks(q) == TotalTicks(p) + Ticks(es, k)
            && q.timesScheduled == p.timesScheduled + Count(es, Dispatch(k))
            && q.syscalls == p.syscalls + Count(es, Syscall(k))
            && forall l :: 0 <= l < LEVELS ==> q.ticksTotal[l] >= p.ticksTotal[l]
    decreases |es|
  {
    assert ProcOk(procs[k]);
    if es != [] {
      StepKeeps(procs, es[0]);
      NextLength(procs, es[0]);
      StepCounts(procs, es[0], k);
      CountsEverything(Next(procs, es[0]), es[1..], k);
    }
  }

  lemma StepCounts(procs: seq<Proc>, e: Event, k: nat)
    requires TableOk(procs) && Enabled(procs, e) && k < |procs| && e != Alloc(k) && e != Reap(k)
    ensures |Next(procs, e)| == |procs|
    ensures var p, q := procs[k], Next(procs, e)[k];
            && |p.ticksTotal| == |q.ticksTotal| == LEVELS && 0 <= p.level < LEVELS
            && q.ticksTotal == (if e.Tick? && e.i == k then p.ticksTotal[p.level := p.ticksTotal[p.level] + 1] else p.ticksTotal)
            && q.timesScheduled == p.timesScheduled + (if e == Dispatch(k) then 1 else 0)
            && q.syscalls == p.syscalls + (if e == Syscall(k) then 1 else 0)
  {
    assert ProcOk(procs[k]);
  }

  /** In this part of a slice, `t` ticks into it, process `k` is dispatched again only after a tick. */
  predicate RestartsAfterTick(es: seq<Event>, k: nat, t: nat) {
    es == [] ||
    ((es[0] == Dispatch(k) ==> t > 0) && RestartsAfterTick(es[1..], k, if es[0] == Tick(k, false) then t + 1 else t))
  }

  /** Within a slice: the ticks used and the system calls made so far. */
  lemma {:induction false} SliceSoFar(procs: seq<Proc>, es: seq<Event>, k: nat)
    requires TableOk(procs) && Possible(procs, es) && k < |procs|
    requires forall n :: 0 <= n < |es| ==> !IsBoost(es[n]) && es[n] != Alloc(k) && es[n] != Reap(k)
    requires 0 <= procs[k].level < LEVELS && 0 <= procs[k].ticksUsed && RestartsAfterTick(es, k, procs[k].ticksUsed)
    requires procs[k].ticksUsed + Count(es, Tick(k, false)) < Quantum(procs[k].level)
    ensures |Run(procs, es)| == |procs|
    ensures var p, q := procs[k], Run(procs, es)[k];
            && q.level == p.level && q.ticksUsed == p.ticksUsed + Count(es, Tick(k, false))
            && q.syscalls - q.sliceStart == p.syscalls - p.sliceStart + Count(es, Syscall(k))
    decreases |es|
  {
    if es != [] {
      StepKeeps(procs, es[0]);
      SliceStep(procs, es[0], k);
      SliceSoFar(Next(procs, es[0]), es[1..], k);
    }
  }

  lemma SliceStep(procs: seq<Proc>, e: Event, k: nat)
    requires TableOk(procs) && Enabled(procs, e) && k < |procs| && !IsBoost(e) && e != Alloc(k) && e != Reap(k)
    requires e == Dispatch(k) ==> procs[k].ticksUsed > 0
    requires e == Tick(k, false) ==> 0 <= procs[k].level < LEVELS && procs[k].ticksUsed + 1 < Quantum(procs[k].level)
    ensures |Next(procs, e)| == |procs|
    ensures var p, q := procs[k], Next(procs, e)[k];
            && q.level == p.level && q.ticksUsed == p.ticksUsed + (if e == Tick(k, false) then 1 else 0)
            && q.syscalls - q.sliceStart == p.syscalls - p.sliceStart + (if e == Syscall(k) then 1 else 0)
  {
    assert ProcOk(procs[k]);
  }

  /** The demotion rule over a whole slice: a process is dispatched with a fresh slice, runs, sleeps and is
      dispatched again in any order, and is charged the last tick of the slice.  It then moves down
      exactly if it made fewer system calls than it was charged ticks.  (Calls before the first tick
      count only from its last dispatch before that tick.) */
  lemma DemotedByCount(procs: seq<Proc>, es: seq<Event>, k: nat)
    requires TableOk(procs) && k < |procs| && procs[k].ticksUsed == 0
    requires Possible(procs, [Dispatch(k)] + es + [Tick(k, false)])
    requires forall n :: 0 <= n < |es| ==> !IsBoost(es[n]) && es[n] != Alloc(k) && es[n] != Reap(k)
    requires RestartsAfterTick(es, k, 0)
    requires 0 <= procs[k].level < LEVELS && Count(es, Tick(k, false)) + 1 == [2, 4, 8, 16][procs[k].level]
    ensures var q := Run(procs, [Dispatch(k)] + es + [Tick(k, false)]);
            && |q| == |procs|
            && q[k].level == if Count(es, Syscall(k)) < [2, 4, 8, 16][procs[k].level] && procs[k].level < 3
                             then procs[k].level + 1 else procs[k].level
  {
    var all := [Dispatch(k)] + es;
    RunMore(procs, all, Tick(k, false));
    var one := Next(procs, Dispatch(k));
    assert all[0] == Dispatch(k) && all[1..] == es;
    StepKeeps(procs, Dispatch(k));
    assert forall n :: 0 <= n < |es| ==> es[n] == all[n + 1];
    SliceSoFar(one, es, k);
    assert Run(procs, all) == Run(one, es);
    LevelChanges(Run(procs, all), Tick(k, false), k);
    assert ProcOk(Run(procs, all)[k]);
  }

  // ----- No starvation -----

  /** The round-robin indices are in the table. */
  ghost predicate IndicesOk(rr: seq<nat>, n: nat) {
    |rr| == LEVELS && forall l :: 0 <= l < LEVELS ==> rr[l] < n
  }

  /** The indices after an event: a dispatch moves that of its level past the process. */
  ghost function IndicesAfter(procs: seq<Proc>, rr: seq<nat>, e: Event): (r: seq<nat>)
    requires TableOk(procs) && Enabled(procs, e) && IndicesOk(rr, |procs|)
    ensures IndicesOk(r, |procs|)
  {
    if e.Dispatch? then
      assert ProcOk(procs[e.i]);
      rr[procs[e.i].level := Succ(e.i, |procs|)]
    else rr
  }

  /** In this run the scheduler dispatches by its rule. */
  ghost predicate FollowsRule(procs: seq<Proc>, rr: seq<nat>, es: seq<Event>)
    requires TableOk(procs) && Possible(procs, es) && IndicesOk(rr, |procs|)
    decreases |es|
  {
    es == [] ||
    (&& (es[0].Dispatch? ==> IsPick(procs, rr, procs[es[0].i].level, es[0].i))
     && (StepKeeps(procs, es[0]);
         NextLength(procs, es[0]);
         FollowsRule(Next(procs, es[0]), IndicesAfter(procs, rr, es[0]), es[1..])))
  }

  lemma NextLength(procs: seq<Proc>, e: Event)
    requires TableOk(procs) && Enabled(procs, e)
    ensures |Next(procs, e)| == |procs|
  {
  }

  /** Process `p` is RUNNABLE at `level` in every state of the run. */
  ghost predicate StaysReady(procs: seq<Proc>, es: seq<Event>, p: nat, level: int)
    requires TableOk(procs) && Possible(procs, es)
    decreases |es|
  {
    && p < |procs| && Ready(procs[p], level)
    && (es != [] ==> (StepKeeps(procs, es[0]); StaysReady(Next(procs, es[0]), es[1..], p, level)))
  }

  /** How many dispatches the run has of processes at `level` or a later one. */
  ghost function Dispatches(procs: seq<Proc>, es: seq<Event>, level: int): (c: nat)
    requires TableOk(procs) && Possible(procs, es)
    decreases |es|
  {
    if es == [] then 0
    else
      StepKeeps(procs, es[0]);
      (if es[0].Dispatch? && procs[es[0].i].level >= level then 1 else 0) + Dispatches(Next(procs, es[0]), es[1..], level)
  }

  /** No starvation: while a process stays RUNNABLE at a level, in any run of dispatches, ticks, system
      calls, sleeps, wakeups, boosts, forks and exits, at most as many others at that level or a later
      one are dispatched as its distance from the index, so at most NPROC - 1. */
  lemma {:induction false} BoundedWaiting(procs: seq<Proc>, rr: seq<nat>, es: seq<Event>, p: nat, level: int)
    requires TableOk(procs) && Possible(procs, es) && IndicesOk(rr, |procs|)
    requires FollowsRule(procs, rr, es) && StaysReady(procs, es, p, level)
    ensures 0 <= level < LEVELS && Dispatches(procs, es, level) <= Distance(rr[level], p, |procs|) <= |procs| - 1
    decreases |es|
  {
    assert ProcOk(procs[p]);
    if es != [] {
      var e := es[0];
      StepKeeps(procs, e);
      NextLength(procs, e);
      BoundedWaiting(Next(procs, e), IndicesAfter(procs, rr, e), es[1..], p, level);
      if e.Dispatch? && procs[e.i].level >= level {
        PickIsLowest(procs, rr, procs[e.i].level, e.i, p);
        assert !Ready(Next(procs, e)[e.i], level);
        DistanceShrinks(procs, level, rr[level], e.i, p);
      }
    }
  }

  /** At level 0 that bounds the dispatches of all processes. */
  lemma TopLevelWaiting(procs: seq<Proc>, rr: seq<nat>, es: seq<Event>, p: nat)
    requires TableOk(procs) && Possible(procs, es) && IndicesOk(rr, |procs|)
    requires FollowsRule(procs, rr, es) && StaysReady(procs, es, p, 0)
    ensures AllDispatches(es) <= |procs| - 1
  {
    BoundedWaiting(procs, rr, es, p, 0);
    CountAll(procs, es);
  }

  function AllDispatches(es: seq<Event>): (c: nat) {
    if es == [] then 0 else (if es[0].Dispatch? then 1 else 0) + AllDispatches(es[1..])
  }

  lemma {:induction false} CountAll(procs: seq<Proc>, es: seq<Event>)
    requires TableOk(procs) && Possible(procs, es)
    ensures Dispatches(procs, es, 0) == AllDispatches(es)
    decreases |es|
  {
    if es != [] {
      StepKeeps(procs, es[0]);
      if es[0].Dispatch? {
        assert ProcOk(procs[es[0].i]);
      }
      CountAll(Next(procs, es[0]), es[1..]);
    }
  }

  /** Process `p` is RUNNABLE in every state of the run. */
  ghost predicate StaysRunnable(procs: seq<Proc>, es: seq<Event>, p: nat)
    requires TableOk(procs) && Possible(procs, es)
    decreases |es|
  {
    && p < |procs| && procs[p].state == RUNNABLE
    && (es != [] ==> (StepKeeps(procs, es[0]); StaysRunnable(Next(procs, es[0]), es[1..], p)))
  }

  lemma {:induction false} StaysAtTop(procs: seq<Proc>, es: seq<Event>, p: nat)
    requires TableOk(procs) && Possible(procs, es) && StaysRunnable(procs, es, p) && procs[p].level == 0
    ensures StaysReady(procs, es, p, 0)
    decreases |es|
  {
    if es != [] {
      StepKeeps(procs, es[0]);
      LevelChanges(procs, es[0], p);
      assert ProcOk(Next(procs, es[0])[p]);
      StaysAtTop(Next(procs, es[0]), es[1..], p);
    }
  }

  /** A boost ends every wait: whatever its level was, a process that is RUNNABLE at the boost and stays
      so sees at most NPROC - 1 dispatches after it, of all processes together. */
  lemma BoostEndsWaiting(procs: seq<Proc>, rr: seq<nat>, e: Event, es: seq<Event>, p: nat)
    requires TableOk(procs) && Possible(procs, [e] + es) && IndicesOk(rr, |procs|) && IsBoost(e)
    requires FollowsRule(procs, rr, [e] + es) && StaysRunnable(procs, [e] + es, p)
    ensures AllDispatches(es) <= |procs| - 1
  {
    assert ([e] + es)[1..] == es;
    StepKeeps(procs, e);
    NextLength(procs, e);
    BoostMeans(procs, e, p);
    StaysAtTop(Next(procs, e), es, p);
    TopLevelWaiting(Next(procs, e), IndicesAfter(procs, rr, e), es, p);
  }

  // ----- A process that only computes -----

  function TotalTicks(p: Proc): (c: int)
    requires |p.ticksTotal| == LEVELS
  {
    p.ticksTotal[0] + p.ticksTotal[1] + p.ticksTotal[2] + p.ticksTotal[3]
  }

  /** The level after `c` charged ticks without a system call or a boost. */
  function LevelAfter(c: int): (level: int) {
    if c < 2 then 0 else if c < 6 then 1 else if c < 14 then 2 else 3
  }

  ghost predicate Computes(p: Proc) {
    && ProcOk(p) && p.syscalls == 0 == p.sliceStart
    && match p.level
       case 0 => TotalTicks(p) == p.ticksUsed
       case 1 => TotalTicks(p) == 2 + p.ticksUsed
       case 2 => TotalTicks(p) == 6 + p.ticksUsed
       case _ => TotalTicks(p) >= 14 + p.ticksUsed
  }

  /** An event that neither is a system call of process `k`, nor a boost, nor its creation. */
  predicate Harmless(e: Event, k: nat) {
    && !e.IdleBoost? && (e.Tick? ==> !e.boost)
    && (e.i == k ==> !e.Syscall? && !e.Alloc? && !e.Reap?)
  }

  lemma ComputesStep(procs: seq<Proc>, e: Event, k: nat)
    requires TableOk(procs) && Enabled(procs, e) && k < |procs| && Computes(procs[k]) && Harmless(e, k)
    ensures Computes(Next(procs, e)[k])
  {
  }

  /** The level of a process that makes no system call and sees no boost depends only on the
      ticks it has been charged: 0 after 0-1, 1 after 2-5, 2 after 6-13, 3 after 14 or more. */
  lemma {:induction false} ComputingLevel(procs: seq<Proc>, es: seq<Event>, k: nat)
    requires TableOk(procs) && Possible(procs, es) && k < |procs| && Computes(procs[k])
    requires forall n :: 0 <= n < |es| ==> Harmless(es[n], k)
    ensures |Run(procs, es)| == |procs| && Computes(Run(procs, es)[k])
    ensures Run(procs, es)[k].level == LevelAfter(TotalTicks(Run(procs, es)[k]))
    decreases |es|
  {
    if es != [] {
      StepKeeps(procs, es[0]);
      ComputesStep(procs, es[0], k);
      ComputingLevel(Next(procs, es[0]), es[1..], k);
    }
  }

  lemma FreshComputes()
    ensures Computes(FRESH)
  {
  }

  // ----- The code -----

  const BOOST_TICKS := 128

  class Mlfq {
    var procs: seq<Proc>
    var rr: seq<nat>        // roundrobin_index
    var globalTicks: nat

    ghost predicate Valid()
      reads this
    {
      IndicesOk(rr, |procs|) && TableOk(procs) && globalTicks < BOOST_TICKS
    }

    /** procinit: `n` unused entries, zero as the kernel's memory is at boot. */
    constructor (n: nat)
      requires n > 0
      ensures Valid() && |procs| == n && globalTicks == 0
      ensures forall i :: 0 <= i < n ==> procs[i].state == UNUSED
      ensures forall l :: 0 <= l < LEVELS ==> rr[l] == 0
    {
      procs := seq(n, _ => Proc(UNUSED, 0, 0, 0, seq(LEVELS, _ => 0), 0, 0, 0));
      rr, globalTicks := seq(LEVELS, _ => 0), 0;
    }

    // The two passes over the table at one level.
    method ScanLevel(level: int) returns (found: bool, i: nat)
      requires |rr| == LEVELS && 0 <= level < LEVELS && rr[level] < |procs|
      ensures found ==> IsFirst(procs, level, rr[level], i)
      ensures !found ==> forall j :: 0 <= j < |procs| ==> !Ready(procs[j], level)
    {
      var start := rr[level];
      i := start;
      while i < |procs|
        invariant start <= i <= |procs|
        invariant forall j :: start <= j < i ==> !Ready(procs[j], level)
      {
        if procs[i].state == RUNNABLE && procs[i].level == level {
          return true, i;
        }
        i := i + 1;
      }
      i := 0;
      while i < start
        invariant 0 <= i <= start
        invariant forall j :: 0 <= j < i ==> !Ready(procs[j], level)
      {
        if procs[i].state == RUNNABLE && procs[i].level == level {
          return true, i;
        }
        i := i + 1;
      }
      return false, 0;
    }

    /** One pass of the scheduler's loop: it switches to a process exactly when one is RUNNABLE,
        to the one the rule names, and moves that level's index past it. */
    method PickAndRun() returns (found: bool, i: nat)
      requires Valid()
      modifies this`procs, this`rr
      ensures Valid()
      ensures found <==> exists j :: 0 <= j < |old(procs)| && old(procs)[j].state == RUNNABLE
      ensures !found ==> procs == old(procs) && rr == old(rr)
      ensures found ==>
                && i < |old(procs)| && IsPick(old(procs), old(rr), old(procs)[i].level, i)
                && Enabled(old(procs), Dispatch(i)) && procs == Next(old(procs), Dispatch(i))
                && rr == IndicesAfter(old(procs), old(rr), Dispatch(i)) == old(rr)[old(procs)[i].level := (i + 1) % |procs|]
    {
      found, i := false, 0;
      var level := 0;
      while level < LEVELS
        invariant 0 <= level <= LEVELS
        invariant procs == old(procs) && rr == old(rr)
        invariant forall l, j :: 0 <= l < level && 0 <= j < |procs| ==> !Ready(procs[j], l)
      {
        found, i := ScanLevel(level);
        if found {
          StepKeeps(procs, Dispatch(i));
          var p := procs[i];
          var start := if p.ticksUsed == 0 then p.syscalls else p.sliceStart;
          procs := procs[i := p.(state := RUNNING, onLevel := level, timesScheduled := p.timesScheduled + 1, sliceStart := start)];
          rr := rr[level := (i + 1) % |procs|];
          Circle(i, i, 0, |procs|);
          return;
        }
        level := level + 1;
      }
      forall j | 0 <= j < |procs| ensures procs[j].state != RUNNABLE {
        assert ProcOk(procs[j]);
        assert !Ready(procs[j], procs[j].level);
      }
      found := false;
    }

    method PriorityBoost()
      modifies this`procs
      ensures procs == BoostAll(old(procs))
    {
      var j := 0;
      while j < |procs|
        invariant 0 <= j <= |procs| == |old(procs)|
        invariant forall k :: 0 <= k < j ==> procs[k] == Boosted(old(procs)[k])
        invariant forall k :: j <= k < |procs| ==> procs[k] == old(procs)[k]
      {
        if procs[j].state == RUNNABLE {
          procs := procs[j := procs[j].(level := 0, ticksUsed := 0, sliceStart := procs[j].syscalls)];
        }
        j := j + 1;
      }
    }

    /** A timer interrupt while process `i` runs; `cpu0` says that it came on CPU 0. */
    method TimerTick(i: nat, cpu0: bool)
      requires Valid() && i < |procs| && procs[i].state == RUNNING
      modifies this`procs, this`globalTicks
      ensures Valid()
      ensures globalTicks == if cpu0 then (old(globalTicks) + 1) % 128 else old(globalTicks)
      ensures var boost := cpu0 && globalTicks == 0;
              && procs == Next(old(procs), Tick(i, boost))
              && (procs[i].state == RUNNING <==>
                    && old(procs)[i].ticksUsed + 1 < [2, 4, 8, 16][old(procs)[i].level] && !boost
                    && forall j :: 0 <= j < |procs| && procs[j].state == RUNNABLE ==> procs[j].level >= procs[i].level)
    {
      assert ProcOk(procs[i]);
      TickMeans(procs, i, cpu0 && globalTicks + 1 == 128);
      ghost var procs0 := procs;
      var p := procs[i];
      p := p.(ticksUsed := p.ticksUsed + 1, ticksTotal := p.ticksTotal[p.level := p.ticksTotal[p.level] + 1]);
      procs := procs[i := p];
      var shouldYield := p.ticksUsed >= Quantum(p.level);
      if !shouldYield {
        shouldYield := LowerLevelWaits(p.level);
      }
      ghost var boosted := false;
      if cpu0 {
        globalTicks := globalTicks + 1;
        if globalTicks >= BOOST_TICKS {
          globalTicks := 0;
          PriorityBoost();
          shouldYield := true;
          boosted := true;
        }
      }
      assert procs[i] == p;
      if shouldYield {
        YieldCpu(i);
      }
      assert procs == Ticked(procs0, i, boosted);
      TickKeeps(procs0, i, boosted);
    }

    /** A timer interrupt on CPU 0 while nothing runs there. */
    method IdleTick()
      requires Valid()
      modifies this`procs, this`globalTicks
      ensures Valid() && globalTicks == (old(globalTicks) + 1) % 128
      ensures procs == if globalTicks == 0 then Next(old(procs), IdleBoost) else old(procs)
    {
      globalTicks := globalTicks + 1;
      if globalTicks >= BOOST_TICKS {
        globalTicks := 0;
        StepKeeps(procs, IdleBoost);
        PriorityBoost();
      }
    }

    method LowerLevelWaits(level: int) returns (r: bool)
      ensures r <==> Outranked(procs, level)
    {
      var j := 0;
      while j < |procs|
        invariant 0 <= j <= |procs|
        invariant forall k :: 0 <= k < j ==> !(procs[k].state == RUNNABLE && procs[k].level < level)
      {
        if procs[j].state == RUNNABLE && procs[j].level < level {
          return true;
        }
        j := j + 1;
      }
      return false;
    }

    // yield, and the scheduler's demotion test after the switch.
    method YieldCpu(i: nat)
      requires i < |procs| && 0 <= procs[i].onLevel < LEVELS
      modifies this`procs
      ensures procs == old(procs)[i := GivenUp(old(procs)[i])]
    {
      var p := procs[i].(state := RUNNABLE);
      if p.ticksUsed >= Quantum(p.onLevel) {
        var delta := p.syscalls - p.sliceStart;
        if delta < p.ticksUsed && p.level < 3 {
          p := p.(level := p.level + 1);
        }
        p := p.(ticksUsed := 0, sliceStart := p.syscalls);
      }
      procs := procs[i := p];
    }
  }
}
