/** The protocol around the disk queue (virtio_disk_rw and virtio_disk_intr in
    kernel/virtio_disk.c): who is active, who sleeps, who is woken, and which descriptors are in
    use (descriptor chains as in section 2.6 of VIRTIO 1.1).

    A process holds vdisk_lock except while it sleeps, so a step is what one process does from
    getting the lock to sleeping or returning, or one interrupt of the device. */
module DiskProtocol {
  import opened Common

  const NUM := 8 // descriptors

  /** A pending request's process waits to become active, or waits for the device. */
  datatype Phase = Waiting(awake: bool) | Busy(done: bool, awake: bool)

  /** `inUse` counts descriptors; `active` is 0 when no request is. */
  datatype State = State(queue: seq<nat>, active: nat, phase: map<nat, Phase>, inUse: nat)

  /** `Kill` is kkill's wakeup of a sleeping process, which may come at any time. */
  datatype Event = Arrive(b: nat, pick: nat) | Resume(b: nat, pick: nat) | Interrupt | Kill(b: nat)

  ghost predicate Distinct(queue: seq<nat>) {
    forall i, j :: 0 <= i < j < |queue| ==> queue[i] != queue[j]
  }

  /** Three descriptors are taken and the process sleeps until the device is done. */
  function Issue(s: State, b: nat): (r: State) {
    s.(inUse := s.inUse + 3, phase := s.phase[b := Busy(false, false)])
  }

  /** The scheduler loop of a waiting process, from getting the lock to sleeping. */
  function Loop(s: State, b: nat, pick: nat): (r: State)
    requires pick < |s.queue|
  {
    if s.active == b then Issue(s, b)
    else if s.active != 0 then s.(phase := s.phase[b := Waiting(false)])
    else
      var chosen := s.queue[pick];
      var s1 := s.(active := chosen);
      if chosen == b then Issue(s1, b)
      else s1.(phase := s.phase[chosen := Waiting(true)][b := Waiting(false)])
  }

  /** The request is done: its descriptors are freed and every waiting process is woken. */
  function Finish(s: State, b: nat): (r: State)
    requires s.inUse >= 3
  {
    var queue := Remove(s.queue, b);
    State(queue, 0, map x | x in queue :: Waiting(true), s.inUse - 3)
  }

  predicate Awake(s: State, b: nat) { b in s.phase && s.phase[b].awake }

  ghost predicate Inv(s: State) {
    && Distinct(s.queue)
    && (forall b :: b in s.queue <==> b in s.phase)
    && 0 !in s.queue
    && (forall b :: b in s.phase && b != s.active ==> s.phase[b].Waiting?)
    && (s.active == 0 ==> s.inUse == 0 && forall b :: b in s.phase ==> s.phase[b] == Waiting(true))
    && (s.active != 0 ==>
          && s.active in s.phase
          && match s.phase[s.active]
             case Waiting(awake) => awake && s.inUse == 0
             case Busy(done, awake) => s.inUse == 3 && (done ==> awake))
  }

  ghost predicate Enabled(s: State, e: Event) {
    match e
    case Arrive(b, pick) => b != 0 && b !in s.queue && pick <= |s.queue|
    case Resume(b, pick) => Awake(s, b) && pick < |s.queue|
    case Interrupt => s.active in s.phase && s.phase[s.active].Busy? && !s.phase[s.active].done
    case Kill(b) => b in s.phase
  }

  ghost function Next(s: State, e: Event): (r: State)
    requires Inv(s) && Enabled(s, e)
  {
    match e
    case Arrive(b, pick) =>
      Loop(s.(queue := s.queue + [b], phase := s.phase[b := Waiting(true)]), b, pick)
    case Resume(b, pick) =>
      if s.phase[b].Waiting? then Loop(s, b, pick)
      else if s.phase[b].done then Finish(s, b)
      else s.(phase := s.phase[b := Busy(false, false)])
    case Interrupt => s.(phase := s.phase[s.active := Busy(true, true)])
    case Kill(b) => s.(phase := s.phase[b := s.phase[b].(awake := true)])
  }

  /** A process that goes on to issue its request finds every descriptor free. */
  lemma DescriptorsSuffice(s: State, b: nat)
    requires Inv(s) && b in s.phase && s.phase[b].Waiting? && (s.active == b || s.active == 0)
    ensures s.inUse == 0 && NUM - s.inUse >= 3
  {
  }

  lemma LoopKeeps(s: State, b: nat, pick: nat)
    requires Inv(s) && pick < |s.queue| && b in s.phase && s.phase[b].Waiting?
    ensures Inv(Loop(s, b, pick))
  {
  }

  lemma {:induction false} RemoveDistinct(queue: seq<nat>, b: nat)
    requires Distinct(queue)
    ensures Distinct(Remove(queue, b))
  {
    if queue != [] {
      RemoveDistinct(queue[..|queue| - 1], b);
      assert queue[|queue| - 1] !in queue[..|queue| - 1];
    }
  }

  lemma FinishKeeps(s: State, b: nat)
    requires Inv(s) && s.active == b != 0 && s.phase[b].Busy?
    ensures Inv(Finish(s, b))
  {
    RemoveDistinct(s.queue, b);
  }

  lemma StepKeeps(s: State, e: Event)
    requires Inv(s) && Enabled(s, e)
    ensures Inv(Next(s, e))
  {
    match e
    case Arrive(b, pick) =>
      var s1 := s.(queue := s.queue + [b], phase := s.phase[b := Waiting(true)]);
      assert Inv(s1);
      LoopKeeps(s1, b, pick);
    case Resume(b, pick) =>
      if s.phase[b].Waiting? {
        LoopKeeps(s, b, pick);
      } else if s.phase[b].done {
        FinishKeeps(s, b);
      }
    case Interrupt =>
    case Kill(_) =>
  }

  ghost predicate Possible(s: State, es: seq<Event>)
    requires Inv(s)
    decreases |es|
  {
    es == [] || (Enabled(s, es[0]) && (StepKeeps(s, es[0]); Possible(Next(s, es[0]), es[1..])))
  }

  ghost function Run(s: State, es: seq<Event>): (r: State)
    requires Inv(s) && Possible(s, es)
    decreases |es|
  {
    if es == [] then s else StepKeeps(s, es[0]); Run(Next(s, es[0]), es[1..])
  }

  /** In every run: at most one request is with the device, it is the active one, at most three
      descriptors are in use, and no wakeup is lost: while a request is pending, some pending
      process is awake or the device is working. */
  lemma {:induction false} RunIsOrderly(s: State, es: seq<Event>)
    requires Inv(s) && Possible(s, es)
    ensures var t := Run(s, es);
            && Inv(t)
            && t.inUse <= 3
            && (forall b :: b in t.phase && t.phase[b].Busy? ==> b == t.active)
            && (t.queue != [] ==>
                  (exists b :: b in t.queue && Awake(t, b))
                  || (t.active in t.phase && t.phase[t.active].Busy? && !t.phase[t.active].done))
    decreases |es|
  {
    if es != [] {
      StepKeeps(s, es[0]);
      RunIsOrderly(Next(s, es[0]), es[1..]);
    } else if s.queue != [] {
      var b := if s.active == 0 then s.queue[0] else s.active;
      assert b in s.queue;
      assert Awake(s, b) || s.phase[b] == Busy(false, false);
    }
  }

  // ----- Arrival order -----

  /** What has arrived, in order; a buffer may come again.  An arrival's stamp is its index, and `done`
      are the stamps of the requests that have finished. */
  datatype Record = Record(arrivals: seq<nat>, done: set<nat>)

  /** The stamp of the last arrival of `b`. */
  function Latest(arrivals: seq<nat>, b: nat): (x: int)
    ensures b in arrivals ==> 0 <= x < |arrivals| && arrivals[x] == b && forall y :: x < y < |arrivals| ==> arrivals[y] != b
  {
    if arrivals == [] then -1
    else if arrivals[|arrivals| - 1] == b then |arrivals| - 1
    else Latest(arrivals[..|arrivals| - 1], b)
  }

  /** What an event adds to the record: a request arrives, or finishes and leaves virtio_disk_rw. */
  ghost function Noted(r: Record, s: State, e: Event): (r': Record)
    requires Inv(s) && Enabled(s, e)
  {
    match e
    case Arrive(b, _) => r.(arrivals := r.arrivals + [b])
    case Resume(b, _) =>
      if s.phase[b].Busy? && s.phase[b].done && b in r.arrivals then r.(done := r.done + {Latest(r.arrivals, b) as nat}) else r
    case _ => r
  }

  ghost function Recorded(r: Record, s: State, es: seq<Event>): (r': Record)
    requires Inv(s) && Possible(s, es)
    decreases |es|
  {
    if es == [] then r else StepKeeps(s, es[0]); Recorded(Noted(r, s, es[0]), Next(s, es[0]), es[1..])
  }

  /** The stamps below `n` that are not done, in increasing order. */
  function Open(n: nat, done: set<nat>): (xs: seq<nat>)
    ensures forall i :: 0 <= i < |xs| ==> xs[i] < n && xs[i] !in done
    ensures forall i, j :: 0 <= i < j < |xs| ==> xs[i] < xs[j]
  {
    if n == 0 then []
    else if n - 1 in done then Open(n - 1, done)
    else Open(n - 1, done) + [n - 1]
  }

  lemma {:induction false} OpenHasAll(n: nat, done: set<nat>, x: nat)
    requires x < n && x !in done
    ensures x in Open(n, done)
  {
    if x < n - 1 {
      OpenHasAll(n - 1, done, x);
    }
  }

  /** The requests with those stamps. */
  function Pending(arrivals: seq<nat>, n: nat, done: set<nat>): (bs: seq<nat>)
    requires n <= |arrivals|
  {
    if n == 0 then []
    else if n - 1 in done then Pending(arrivals, n - 1, done)
    else Pending(arrivals, n - 1, done) + [arrivals[n - 1]]
  }

  lemma {:induction false} PendingStamps(arrivals: seq<nat>, n: nat, done: set<nat>)
    requires n <= |arrivals|
    ensures var bs, xs := Pending(arrivals, n, done), Open(n, done);
            |bs| == |xs| && forall i :: 0 <= i < |bs| ==> bs[i] == arrivals[xs[i]]
  {
    if n > 0 {
      var bs, xs := Pending(arrivals, n - 1, done), Open(n - 1, done);
      PendingStamps(arrivals, n - 1, done);
      if n - 1 !in done {
        assert Pending(arrivals, n, done) == bs + [arrivals[n - 1]] && Open(n, done) == xs + [n - 1];
      }
    }
  }

  /** The queue is the pending requests, and a pending request has not arrived again. */
  ghost predicate InOrder(queue: seq<nat>, r: Record) {
    && queue == Pending(r.arrivals, |r.arrivals|, r.done)
    && (forall x :: x in r.done ==> x < |r.arrivals|)
    && (forall x: nat, y :: x < y < |r.arrivals| && x !in r.done ==> r.arrivals[x] != r.arrivals[y])
  }

  lemma {:induction false} PendingPrefix(arrivals: seq<nat>, b: nat, n: nat, done: set<nat>)
    requires n <= |arrivals|
    ensures Pending(arrivals + [b], n, done) == Pending(arrivals, n, done)
  {
    if n > 0 {
      PendingPrefix(arrivals, b, n - 1, done);
    }
  }

  /** A request that is not in the queue has no open stamp. */
  lemma NotOpen(queue: seq<nat>, r: Record, b: nat, x: nat)
    requires InOrder(queue, r) && b !in queue && x < |r.arrivals| && x !in r.done
    ensures r.arrivals[x] != b
  {
    OpenHasAll(|r.arrivals|, r.done, x);
    PendingStamps(r.arrivals, |r.arrivals|, r.done);
    var i :| 0 <= i < |queue| && Open(|r.arrivals|, r.done)[i] == x;
    assert queue[i] == r.arrivals[x];
  }

  lemma ArriveInOrder(queue: seq<nat>, r: Record, b: nat)
    requires InOrder(queue, r) && b !in queue
    ensures InOrder(queue + [b], r.(arrivals := r.arrivals + [b]))
  {
    var n := |r.arrivals|;
    PendingPrefix(r.arrivals, b, n, r.done);
    forall x: nat | x < n && x !in r.done ensures r.arrivals[x] != b {
      NotOpen(queue, r, b, x);
    }
  }

  lemma RemoveLast(bs: seq<nat>, z: nat, b: nat)
    ensures Remove(bs + [z], b) == if z == b then Remove(bs, b) else Remove(bs, b) + [z]
  {
    assert (bs + [z])[..|bs|] == bs;
  }

  /** Finishing one stamp takes its request out and leaves the others in order. */
  lemma {:induction false} FinishOne(arrivals: seq<nat>, n: nat, done: set<nat>, x: nat)
    requires x < |arrivals| && n <= |arrivals| && x !in done
    requires forall y: nat :: y < n && y != x && y !in done ==> arrivals[y] != arrivals[x]
    ensures Pending(arrivals, n, done + {x}) == Remove(Pending(arrivals, n, done), arrivals[x])
  {
    if n > 0 {
      FinishOne(arrivals, n - 1, done, x);
      var before := Pending(arrivals, n - 1, done);
      if n - 1 == x || n - 1 !in done {
        RemoveLast(before, arrivals[n - 1], arrivals[x]);
        assert Pending(arrivals, n, done) == before + [arrivals[n - 1]];
      }
    }
  }

  lemma FinishStamp(queue: seq<nat>, r: Record, x: nat)
    requires InOrder(queue, r) && x < |r.arrivals| && x !in r.done
    ensures InOrder(Remove(queue, r.arrivals[x]), r.(done := r.done + {x}))
  {
    forall y: nat | y < |r.arrivals| && y != x && y !in r.done ensures r.arrivals[y] != r.arrivals[x] {
      assert if y < x then r.arrivals[y] != r.arrivals[x] else r.arrivals[x] != r.arrivals[y];
    }
    FinishOne(r.arrivals, |r.arrivals|, r.done, x);
  }

  /** The open stamp of a request in the queue is that of its last arrival. */
  lemma StampOf(queue: seq<nat>, r: Record, b: nat) returns (x: nat)
    requires InOrder(queue, r) && b in queue
    ensures x < |r.arrivals| && x !in r.done && r.arrivals[x] == b && Latest(r.arrivals, b) == x
  {
    PendingStamps(r.arrivals, |r.arrivals|, r.done);
    var i :| 0 <= i < |queue| && queue[i] == b;
    x := Open(|r.arrivals|, r.done)[i];
    assert r.arrivals[x] == b && b in r.arrivals;
  }

  lemma FinishInOrder(queue: seq<nat>, r: Record, b: nat)
    requires InOrder(queue, r) && b in queue
    ensures b in r.arrivals
    ensures InOrder(Remove(queue, b), r.(done := r.done + {Latest(r.arrivals, b) as nat}))
  {
    var x := StampOf(queue, r, b);
    FinishStamp(queue, r, x);
  }

  lemma StepInOrder(s: State, r: Record, e: Event)
    requires Inv(s) && Enabled(s, e) && InOrder(s.queue, r)
    ensures InOrder(Next(s, e).queue, Noted(r, s, e))
  {
    match e
    case Arrive(b, _) => ArriveInOrder(s.queue, r, b);
    case Resume(b, _) =>
      if s.phase[b].Busy? && s.phase[b].done {
        assert b in s.queue;
        FinishInOrder(s.queue, r, b);
      }
    case Interrupt =>
    case Kill(_) =>
  }

  lemma {:induction false} RunInOrder(s: State, r: Record, es: seq<Event>)
    requires Inv(s) && Possible(s, es) && InOrder(s.queue, r)
    ensures InOrder(Run(s, es).queue, Recorded(r, s, es))
    decreases |es|
  {
    if es != [] {
      StepInOrder(s, r, es[0]);
      StepKeeps(s, es[0]);
      RunInOrder(Next(s, es[0]), Noted(r, s, es[0]), es[1..]);
    }
  }

  const IDLE := State([], 0, map[], 0)

  /** In every run from an idle disk the queue is exactly the requests that have arrived and not
      finished, in the order of their arrival. */
  lemma ArrivalOrder(es: seq<Event>)
    requires Possible(IDLE, es)
    ensures var t, r := Run(IDLE, es), Recorded(Record([], {}), IDLE, es);
            var xs := Open(|r.arrivals|, r.done);
            && |t.queue| == |xs|
            && (forall i :: 0 <= i < |xs| ==> t.queue[i] == r.arrivals[xs[i]])
            && (forall x: nat :: x in xs <==> x < |r.arrivals| && x !in r.done)
            && (forall i, j :: 0 <= i < j < |xs| ==> xs[i] < xs[j])
            && t.inUse <= 3 && (forall b :: b in t.phase && t.phase[b].Busy? ==> b == t.active)
  {
    RunInOrder(IDLE, Record([], {}), es);
    RunIsOrderly(IDLE, es);
    var r := Recorded(Record([], {}), IDLE, es);
    PendingStamps(r.arrivals, |r.arrivals|, r.done);
    forall x: nat | x < |r.arrivals| && x !in r.done ensures x in Open(|r.arrivals|, r.done) {
      OpenHasAll(|r.arrivals|, r.done, x);
    }
  }

  // ----- One completion for each request -----

  /** 1 if the device has completed the active request and its process has not yet left. */
  function Owed(s: State): (n: nat) {
    if s.active in s.phase && s.phase[s.active].Busy? && s.phase[s.active].done then 1 else 0
  }

  /** The steps of the run in which a request leaves the queue. */
  ghost function Leaves(s: State, es: seq<Event>): (n: nat)
    requires Inv(s) && Possible(s, es)
    decreases |es|
  {
    if es == [] then 0
    else
      StepKeeps(s, es[0]);
      (if |Next(s, es[0]).queue| < |s.queue| then 1 else 0) + Leaves(Next(s, es[0]), es[1..])
  }

  function Interrupts(es: seq<Event>): (n: nat) {
    if es == [] then 0 else (if es[0].Interrupt? then 1 else 0) + Interrupts(es[1..])
  }

  lemma {:induction false} RemoveShorter(queue: seq<nat>, b: nat)
    requires b in queue
    ensures |Remove(queue, b)| < |queue|
  {
    var n := |queue| - 1;
    if b in queue[..n] {
      RemoveShorter(queue[..n], b);
    } else {
      RemoveAbsent(queue[..n], b);
    }
  }

  /** A request leaves only when the device has completed it, and it is the active one. */
  lemma StepOwes(s: State, e: Event)
    requires Inv(s) && Enabled(s, e)
    ensures var t := Next(s, e);
            && (|t.queue| < |s.queue| <==> e.Resume? && s.active == e.b && s.phase[e.b].Busy? && s.phase[e.b].done)
            && Owed(s) + (if e.Interrupt? then 1 else 0) == Owed(t) + (if |t.queue| < |s.queue| then 1 else 0)
  {
    if e.Resume? && s.phase[e.b].Busy? && s.phase[e.b].done {
      assert e.b in s.queue;
      RemoveShorter(s.queue, e.b);
    }
  }

  /** In every run from an idle disk as many requests have left as the device has completed, but for the one
      whose process has not run since. */
  lemma {:induction false} OneCompletionEach(s: State, es: seq<Event>)
    requires Inv(s) && Possible(s, es)
    ensures Owed(s) + Interrupts(es) == Leaves(s, es) + Owed(Run(s, es))
    decreases |es|
  {
    if es != [] {
      StepKeeps(s, es[0]);
      StepOwes(s, es[0]);
      OneCompletionEach(Next(s, es[0]), es[1..]);
    }
  }

  // ----- Descriptors -----

  function FreeSet(free: seq<bool>): (r: set<int>) {
    set i | 0 <= i < |free| && free[i]
  }

  lemma TakeOne(free: seq<bool>, i: nat)
    requires i < |free| && free[i]
    ensures FreeSet(free[i := false]) == FreeSet(free) - {i}
    ensures |FreeSet(free[i := false])| == |FreeSet(free)| - 1
  {
  }

  class Descriptors {
    var free: seq<bool>
    var next: seq<nat>    // desc[i].next
    var more: seq<bool>   // desc[i].flags & VRING_DESC_F_NEXT

    ghost predicate Valid()
      reads this
    {
      |free| == |next| == |more| && forall i :: 0 <= i < |next| ==> next[i] < |next|
    }

    /** virtio_disk_init: every descriptor is free. */
    constructor ()
      ensures Valid() && |free| == NUM && |FreeSet(free)| >= 3
    {
      free, next, more := seq(NUM, _ => true), seq(NUM, _ => 0), seq(NUM, _ => false);
      new;
      assert {0, 1, 2} <= FreeSet(free) && FreeSet(free) == {0, 1, 2} + (FreeSet(free) - {0, 1, 2});
    }

    method AllocDesc() returns (i: int)
      requires Valid()
      modifies this`free
      ensures Valid()
      ensures i == -1 <==> FreeSet(old(free)) == {}
      ensures i == -1 ==> free == old(free)
      ensures i != -1 ==> 0 <= i < |free| && old(free)[i] && free == old(free)[i := false] && forall k :: 0 <= k < i ==> !old(free)[k]
    {
      i := 0;
      while i < |free|
        invariant 0 <= i <= |free|
        invariant forall k :: 0 <= k < i ==> !free[k]
      {
        if free[i] {
          assert i in FreeSet(free);
          free := free[i := false];
          return;
        }
        i := i + 1;
      }
      assert FreeSet(free) == {};
      i := -1;
    }

    /** alloc3_desc: three different free descriptors, or none at all if there are fewer. */
    method Alloc3() returns (ok: bool, a: int, b: int, c: int)
      requires Valid()
      modifies this`free
      ensures Valid()
      ensures ok <==> |FreeSet(old(free))| >= 3
      ensures !ok ==> free == old(free)
      ensures ok ==>
                && 0 <= a < |free| && 0 <= b < |free| && 0 <= c < |free| && a != b && b != c && a != c
                && old(free)[a] && old(free)[b] && old(free)[c]
                && free == old(free)[a := false][b := false][c := false]
    {
      ok := false;
      b, c := -1, -1;
      a := AllocDesc();
      if a < 0 {
        return;
      }
      TakeOne(old(free), a);
      b := AllocDesc();
      if b < 0 {
        free := free[a := true];
        return;
      }
      TakeOne(old(free)[a := false], b);
      c := AllocDesc();
      if c < 0 {
        free := free[a := true][b := true];
        return;
      }
      TakeOne(old(free)[a := false][b := false], c);
      ok := true;
    }

    method FreeDesc(i: nat)
      requires Valid() && i < |free| && !free[i]
      modifies this
      ensures Valid() && free == old(free)[i := true]
      ensures next == old(next)[i := 0] && more == old(more)[i := false]
    {
      next := next[i := 0];
      more := more[i := false];
      free := free[i := true];
    }

    /** free_chain follows the links of a chain and frees exactly its descriptors. */
    method FreeChain(first: nat, ghost chain: seq<nat>)
      requires Valid() && chain != [] && first == chain[0]
      requires forall k :: 0 <= k < |chain| ==> chain[k] < |free| && !free[chain[k]]
      requires forall k, l :: 0 <= k < l < |chain| ==> chain[k] != chain[l]
      requires forall k :: 0 <= k < |chain| ==> more[chain[k]] == (k + 1 < |chain|)
      requires forall k :: 0 < k < |chain| ==> next[chain[k - 1]] == chain[k]
      modifies this
      ensures Valid() && |free| == |old(free)|
      ensures forall i :: 0 <= i < |free| ==> free[i] == (old(free)[i] || i in chain)
    {
      var i := first;
      ghost var k := 0;
      while true
        invariant Valid() && |free| == |old(free)|
        invariant 0 <= k < |chain| && i == chain[k]
        invariant forall j :: 0 <= j < |free| ==> free[j] == (old(free)[j] || j in chain[..k])
        invariant forall l :: k <= l < |chain| ==> !free[chain[l]] && more[chain[l]] == (l + 1 < |chain|)
        invariant forall l :: k < l < |chain| ==> next[chain[l - 1]] == chain[l]
        decreases |chain| - k
      {
        var flag := more[i];
        var nxt := next[i];
        FreeDesc(i);
        TakeMore(chain, k);
        if flag {
          i := nxt;
          k := k + 1;
        } else {
          TakeAll(chain, k + 1);
          break;
        }
      }
    }
  }
}
