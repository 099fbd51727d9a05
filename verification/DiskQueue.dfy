/** The disk request queue of kernel/virtio_disk.c.

    A request is the buffer that it is for, named by a positive number; 0 is the null pointer.
    The queue links are taken as protected by vdisk_lock.  (bget in kernel/bio.c also clears a
    buffer's link without that lock; the model leaves that write out.) */
module DiskQueue {
  import opened Common

  const UINT_MAX := 0xFFFF_FFFF
  const INT_MAX := 0x7FFF_FFFF

  datatype Policy = FCFS | SSTF

  // ----- The rule of selection -----

  /** What the selection reads of a request: its block and its process's level, if it has one. */
  datatype Request = Request(blockno: nat, level: Option<int>)

  function Gap(a: nat, b: nat): (d: nat) { if a > b then a - b else b - a }

  predicate HasLevel(r: Request) { r.level.Some? && r.level.value < INT_MAX }

  ghost predicate IsBest(q: seq<Request>, best: int) {
    && (forall i :: 0 <= i < |q| && HasLevel(q[i]) ==> best <= q[i].level.value)
    && (exists i :: 0 <= i < |q| && HasLevel(q[i]) && q[i].level.value == best)
  }

  /** A request of the best level, or any request if none has a level. */
  ghost predicate Candidate(q: seq<Request>, i: nat) {
    && i < |q|
    && ((forall j :: 0 <= j < |q| ==> !HasLevel(q[j])) || (HasLevel(q[i]) && IsBest(q, q[i].level.value)))
  }

  /** The earliest candidate; under SSTF the nearest to the head, the earliest of those. */
  ghost predicate Best(q: seq<Request>, policy: Policy, head: nat, i: nat) {
    && Candidate(q, i)
    && forall j: nat :: Candidate(q, j) && j != i ==>
         if policy == FCFS || Gap(q[j].blockno, head) == Gap(q[i].blockno, head) then i < j
         else Gap(q[i].blockno, head) < Gap(q[j].blockno, head)
  }

  /** The code starts SSTF from the distance UINT_MAX and wants a smaller one, so a candidate at
      just that distance is never taken and the head of the queue is chosen instead. */
  ghost predicate Reachable(q: seq<Request>, policy: Policy, head: nat) {
    policy == FCFS || exists j: nat :: Candidate(q, j) && Gap(q[j].blockno, head) < UINT_MAX
  }

  ghost predicate IsChoice(q: seq<Request>, policy: Policy, head: nat, i: nat) {
    if Reachable(q, policy, head) then Best(q, policy, head, i) else i == 0 < |q|
  }

  /** The choice has the lowest level present. */
  lemma BestHasLowestLevel(q: seq<Request>, policy: Policy, head: nat, i: nat, j: nat)
    requires Best(q, policy, head, i) && j < |q| && HasLevel(q[j])
    ensures HasLevel(q[i]) && q[i].level.value <= q[j].level.value
  {
  }

  /** What the rule says against any other request: a lower level goes first; of one level, under FCFS the one that
      came first, under SSTF the one whose block is nearer to the head, and of two as near the one that
      came first. */
  lemma BestMeans(q: seq<Request>, policy: Policy, head: nat, i: nat, j: nat)
    requires Best(q, policy, head, i) && j < |q|
    ensures i < |q|
    ensures q[j].level.Some? && q[j].level.value < 0x7FFF_FFFF ==> q[i].level.Some? && q[i].level.value <= q[j].level.value
    ensures q[j].level == q[i].level && policy == FCFS ==> i <= j
    ensures q[j].level == q[i].level && policy == SSTF ==>
              var a := if q[i].blockno >= head then q[i].blockno - head else head - q[i].blockno;
              var b := if q[j].blockno >= head then q[j].blockno - head else head - q[j].blockno;
              a <= b && (a == b ==> i <= j)
  {
    if q[j].level == q[i].level {
      assert Candidate(q, j);
    }
  }

  lemma LowestLevel(q: seq<Request>, n: nat) returns (found: bool, best: int)
    requires n <= |q|
    ensures !found ==> forall i :: 0 <= i < n ==> !HasLevel(q[i])
    ensures found ==> (exists i :: 0 <= i < n && HasLevel(q[i]) && q[i].level.value == best)
    ensures found ==> forall i :: 0 <= i < n && HasLevel(q[i]) ==> best <= q[i].level.value
  {
    found, best := false, 0;
    var i := 0;
    while i < n
      invariant 0 <= i <= n
      invariant !found ==> forall k :: 0 <= k < i ==> !HasLevel(q[k])
      invariant found ==> exists k :: 0 <= k < i && HasLevel(q[k]) && q[k].level.value == best
      invariant found ==> forall k :: 0 <= k < i && HasLevel(q[k]) ==> best <= q[k].level.value
    {
      if HasLevel(q[i]) && (!found || q[i].level.value < best) {
        found, best := true, q[i].level.value;
      }
      i := i + 1;
    }
  }

  /** There is a candidate in every queue that is not empty. */
  lemma CandidateExists(q: seq<Request>)
    requires q != []
    ensures exists i: nat :: Candidate(q, i)
  {
    var found, best := LowestLevel(q, |q|);
    if found {
      var i :| 0 <= i < |q| && HasLevel(q[i]) && q[i].level.value == best;
      assert IsBest(q, best);
      assert Candidate(q, i);
    } else {
      assert Candidate(q, 0);
    }
  }

  /** The head and every request are on a disk of `size` blocks. */
  predicate OnDisk(q: seq<Request>, head: nat, size: nat) {
    head < size && forall i :: 0 <= i < |q| ==> q[i].blockno < size
  }

  /** On every disk whose size fits an unsigned int the code's choice is the rule's choice. */
  lemma ChoiceIsBest(q: seq<Request>, policy: Policy, head: nat, size: nat, i: nat)
    requires IsChoice(q, policy, head, i) && OnDisk(q, head, size) && size <= UINT_MAX
    ensures Best(q, policy, head, i)
  {
    if q != [] {
      CandidateExists(q);
      var j: nat :| Candidate(q, j);
      assert Gap(q[j].blockno, head) < UINT_MAX;
    }
  }

  /** On such a disk no request of a lower level is passed over. */
  lemma LowestLevelFirst(q: seq<Request>, policy: Policy, head: nat, size: nat, i: nat, j: nat)
    requires IsChoice(q, policy, head, i) && OnDisk(q, head, size) && size <= UINT_MAX && j < |q| && HasLevel(q[j])
    ensures HasLevel(q[i]) && q[i].level.value <= q[j].level.value
  {
    ChoiceIsBest(q, policy, head, size, i);
    BestHasLowestLevel(q, policy, head, i, j);
  }

  /** For any numbers at all: the code's choice is a candidate exactly when some candidate is less than
      UINT_MAX away from the head position, or the head of the queue is itself one. */
  lemma ChoiceRespectsLevels(q: seq<Request>, policy: Policy, head: nat, i: nat)
    requires q != [] && IsChoice(q, policy, head, i)
    ensures Candidate(q, i) <==> Reachable(q, policy, head) || Candidate(q, 0)
  {
  }

  /** Beyond such disks, at the end of the range of unsigned ints, a request can be passed over. */
  lemma LevelPassedOver()
    ensures var q := [Request(5, Some(3)), Request(UINT_MAX, Some(0))];
            IsChoice(q, SSTF, 0, 0) && q[1].level.value < q[0].level.value
  {
  }

  // ----- The queue in memory -----

  /** The links of the queue: from each request to the next, and from the last to null. */
  ghost predicate Chained(queue: seq<nat>, head: nat, qnext: map<nat, nat>) {
    && (forall i :: 0 <= i < |queue| ==> queue[i] != 0)
    && (forall i, j :: 0 <= i < j < |queue| ==> queue[i] != queue[j])
    && head == At(queue, 0)
    && (forall i :: 0 <= i < |queue| ==> LinkAt(queue, qnext, i))
  }

  function At(queue: seq<nat>, i: nat): (b: nat) { if i < |queue| then queue[i] else 0 }

  ghost predicate LinkAt(queue: seq<nat>, qnext: map<nat, nat>, i: nat)
    requires i < |queue|
  {
    queue[i] in qnext && qnext[queue[i]] == At(queue, i + 1)
  }

  lemma AppendChained(queue: seq<nat>, head: nat, qnext: map<nat, nat>, b: nat)
    requires Chained(queue, head, qnext) && b != 0 && b !in queue
    ensures queue == [] ==> Chained([b], b, qnext[b := 0])
    ensures queue != [] ==> Chained(queue + [b], head, qnext[b := 0][queue[|queue| - 1] := b])
  {
    var q := queue + [b];
    if queue == [] {
      assert LinkAt([b], qnext[b := 0], 0);
    } else {
      var qnext' := qnext[b := 0][queue[|queue| - 1] := b];
      forall i | 0 <= i < |q| ensures LinkAt(q, qnext', i) {
        if i < |queue| {
          assert LinkAt(queue, qnext, i);
        }
      }
    }
  }

  lemma RemoveChained(queue: seq<nat>, head: nat, qnext: map<nat, nat>, i: nat)
    requires Chained(queue, head, qnext) && i < |queue|
    ensures queue[i] in qnext
    ensures i == 0 ==> Chained(Without(queue, i), qnext[queue[i]], qnext)
    ensures i > 0 ==> Chained(Without(queue, i), head, qnext[queue[i - 1] := qnext[queue[i]]])
  {
    assert LinkAt(queue, qnext, i);
    var q := Without(queue, i);
    var qnext' := if i == 0 then qnext else qnext[queue[i - 1] := qnext[queue[i]]];
    forall k | 0 <= k < |q| ensures LinkAt(q, qnext', k) {
      assert LinkAt(queue, qnext, if k < i then k else k + 1);
    }
  }

  function Requests(queue: seq<nat>, request: map<nat, Request>): (q: seq<Request>)
    requires forall i :: 0 <= i < |queue| ==> queue[i] in request
    ensures |q| == |queue|
    ensures forall i :: 0 <= i < |queue| ==> q[i] == request[queue[i]]
  {
    seq(|queue|, i requires 0 <= i < |queue| => request[queue[i]])
  }

  /** The queue as the rule sees it: the pending requests in order, what is known of them, where the head
      is, and which request is active, if any. */
  datatype Disk = Disk(queue: seq<nat>, request: map<nat, Request>, position: nat, active: nat)

  class Queue {
    const size: nat                  // blocks on the disk
    var qnext: map<nat, nat>
    var head: nat                    // disk_queue
    var active: nat                  // disk_active
    var position: nat                // disk_head_position
    var policy: Policy
    var request: map<nat, Request>   // blockno and the level of the buffer's process
    ghost var queue: seq<nat>

    ghost predicate Valid()
      reads this
    {
      && Chained(queue, head, qnext)
      && (forall i :: 0 <= i < |queue| ==> queue[i] in request)
      && (active != 0 ==> active in queue)
      && size <= UINT_MAX && OnDisk(Pending(), position, size)
    }

    ghost function D(): (d: Disk)
      reads this
    {
      Disk(queue, request, position, active)
    }

    ghost function Pending(): (q: seq<Request>)
      requires forall i :: 0 <= i < |queue| ==> queue[i] in request
      reads this
    {
      Requests(queue, request)
    }

    /** At boot no request is queued and none is active. */
    constructor (policy: Policy, size: nat)
      requires 0 < size <= UINT_MAX
      ensures Valid() && D() == Disk([], map[], 0, 0) && this.policy == policy && this.size == size
    {
      qnext, head, active, position, queue, request := map[], 0, 0, 0, [], map[];
      this.policy, this.size := policy, size;
    }

    /** A new request goes to the end. */
    method Enqueue(b: nat, r: Request)
      requires Valid() && b != 0 && b !in queue && r.blockno < size
      modifies this`qnext, this`head, this`queue, this`request
      ensures Valid() && queue == old(queue) + [b] && request == old(request)[b := r]
    {
      request := request[b := r];
      AppendChained(queue, head, qnext, b);
      if head == 0 {
        assert queue == [];
        qnext := qnext[b := 0];
        head := b;
      } else {
        ghost var i := 0;
        var p := head;
        assert LinkAt(queue, qnext, 0);
        while qnext[p] != 0
          invariant 0 <= i < |queue| && p == queue[i] && p in qnext && qnext[p] == At(queue, i + 1)
          decreases |queue| - i
        {
          p := qnext[p];
          i := i + 1;
          assert LinkAt(queue, qnext, i);
        }
        qnext := qnext[b := 0];
        qnext := qnext[p := b];
      }
      queue := queue + [b];
    }

    // The scan for the lowest level.
    method ScanLevels() returns (found: bool, best: int)
      requires Valid()
      ensures found <==> exists i :: 0 <= i < |queue| && HasLevel(Pending()[i])
      ensures found ==> IsBest(Pending(), best)
    {
      ghost var q := Pending();
      found, best := false, INT_MAX;
      var iter := head;
      ghost var i := 0;
      while iter != 0
        invariant 0 <= i <= |queue| && iter == At(queue, i)
        invariant !found ==> best == INT_MAX && forall k :: 0 <= k < i ==> !HasLevel(q[k])
        invariant found ==> best < INT_MAX && exists k :: 0 <= k < i && HasLevel(q[k]) && q[k].level.value == best
        invariant forall k :: 0 <= k < i && HasLevel(q[k]) ==> best <= q[k].level.value
        decreases |queue| - i
      {
        assert LinkAt(queue, qnext, i);
        var r := request[iter];
        assert r == q[i];
        if r.level.Some? && r.level.value < best {
          best := r.level.value;
          found := true;
          assert HasLevel(q[i]);
        }
        iter := qnext[iter];
        i := i + 1;
      }
    }

    // The scan for the request itself, at index `c` of the queue.
    method ScanRequests(found: bool, best: int) returns (chosen: nat, ghost c: nat)
      requires Valid() && queue != []
      requires found <==> exists i :: 0 <= i < |queue| && HasLevel(Pending()[i])
      requires found ==> IsBest(Pending(), best)
      ensures c < |queue| && chosen == queue[c] && IsChoice(Pending(), policy, position, c)
    {
      ghost var q := Pending();
      chosen, c := head, 0;
      var minDist: nat := UINT_MAX;
      var curr := head;
      ghost var i := 0;
      while curr != 0
        invariant 0 <= i <= |queue| && curr == At(queue, i)
        invariant c < |queue| && chosen == queue[c]
        invariant policy == FCFS ==> forall k: nat :: k < i ==> !Candidate(q, k)
        invariant policy == SSTF ==> NearestOf(q, position, i, c, minDist)
        decreases |queue| - i
      {
        assert LinkAt(queue, qnext, i);
        var r := request[curr];
        assert r == q[i];
        CandidateTest(q, found, best, i);
        NearestStep(q, position, i, c, minDist);
        if !found || (r.level.Some? && r.level.value == best) {
          if policy == FCFS {
            return curr, i;
          } else {
            var dist := if r.blockno > position then r.blockno - position else position - r.blockno;
            if dist < minDist {
              minDist := dist;
              chosen, c := curr, i;
            }
          }
        }
        curr := qnext[curr];
        i := i + 1;
      }
      CandidateExists(q);
      NearestIsChoice(q, position, c, minDist);
    }

    /** The selection, when no request is active: it makes active the request the rule names. */
    method Select() returns (ghost c: nat)
      requires Valid() && active == 0 && queue != []
      modifies this`active
      ensures Valid() && c < |queue| && active == queue[c]
      ensures IsChoice(Pending(), policy, position, c) && Best(Pending(), policy, position, c)
    {
      var found, best := ScanLevels();
      var chosen;
      chosen, c := ScanRequests(found, best);
      active := chosen;
      ChoiceIsBest(Pending(), policy, position, size, c);
    }

    /** The level of a pending process changes. */
    method Relevel(b: nat, level: Option<int>)
      requires Valid() && b in request
      modifies this`request
      ensures Valid() && request == old(request)[b := old(request)[b].(level := level)]
    {
      request := request[b := request[b].(level := level)];
    }

    /** The active request is issued: the head moves to its block. */
    method Issue()
      requires Valid() && active != 0
      modifies this`position
      ensures Valid() && active in request && position == request[active].blockno
    {
      ghost var i :| 0 <= i < |queue| && queue[i] == active;
      assert Pending()[i] == request[active];
      position := request[active].blockno;
    }

    // The request before the one at `i`.
    method FindBefore(b: nat, ghost i: nat) returns (q: nat)
      requires Chained(queue, head, qnext) && 0 < i < |queue| && queue[i] == b && head != b
      ensures q == queue[i - 1]
    {
      q := head;
      ghost var k := 0;
      assert LinkAt(queue, qnext, 0);
      while q != 0 && qnext[q] != b
        invariant 0 <= k < i && q == queue[k] && q in qnext && qnext[q] == queue[k + 1]
        decreases i - k
      {
        q := qnext[q];
        k := k + 1;
        assert LinkAt(queue, qnext, k);
      }
    }

    /** The active request leaves the queue; the others keep their order. */
    method Dequeue(b: nat, ghost i: nat)
      requires Valid() && active == b && i < |queue| && queue[i] == b
      modifies this`qnext, this`head, this`active, this`queue
      ensures Valid() && active == 0 && queue == Without(old(queue), i)
    {
      RemoveChained(queue, head, qnext, i);
      if head == b {
        assert i == 0;
        head := qnext[b];
      } else {
        var q := FindBefore(b, i);
        qnext := qnext[q := qnext[b]];
      }
      active := 0;
      queue := Without(queue, i);
    }
  }

  // ----- Histories -----

  datatype Op = Add(b: nat, r: Request) | Level(b: nat, level: Option<int>) | Choose | Issue | Finish

  /** When an operation can happen; a buffer has at most one request. */
  predicate Allowed(d: Disk, op: Op, size: nat) {
    match op
    case Add(b, r) => b != 0 && b !in d.queue && r.blockno < size
    case Level(b, _) => b in d.request
    case Choose => d.active == 0 && d.queue != []
    case Issue => d.active != 0
    case Finish => d.active != 0
  }

  /** In every history a choice makes active the request that the rule names; see BestMeans. */
  lemma ChooseMeans(d: Disk, policy: Policy)
    requires d.queue != [] && forall i :: 0 <= i < |d.queue| ==> d.queue[i] in d.request
    ensures var q := Requests(d.queue, d.request);
            exists i: nat :: i < |d.queue| && Next(d, Choose, policy) == d.(active := d.queue[i]) && Best(q, policy, d.position, i)
  {
    var q := Requests(d.queue, d.request);
    var i := FindBest(q, policy, d.position);
    var c := Choice(q, policy, d.position);
    BestUnique(q, policy, d.position, i, c.value);
  }

  // Every queue that is not empty has a best request.
  lemma FindBest(q: seq<Request>, policy: Policy, head: nat) returns (i: nat)
    requires q != []
    ensures Best(q, policy, head, i)
  {
    CandidateExists(q);
    i :| Candidate(q, i);
    var n := 0;
    while n < |q|
      invariant 0 <= n <= |q| && Candidate(q, i)
      invariant forall j: nat :: j < n && Candidate(q, j) && j != i ==>
                  if policy == FCFS || Gap(q[j].blockno, head) == Gap(q[i].blockno, head) then i < j
                  else Gap(q[i].blockno, head) < Gap(q[j].blockno, head)
    {
      if Candidate(q, n) && n != i && !(if policy == FCFS || Gap(q[n].blockno, head) == Gap(q[i].blockno, head) then i < n
                                        else Gap(q[i].blockno, head) < Gap(q[n].blockno, head)) {
        i := n;
      }
      n := n + 1;
    }
  }

  /** At most one request is the best. */
  lemma BestUnique(q: seq<Request>, policy: Policy, head: nat, i: nat, j: nat)
    requires Best(q, policy, head, i) && Best(q, policy, head, j)
    ensures i == j
  {
  }

  /** The rule's choice, if there is one. */
  ghost function Choice(q: seq<Request>, policy: Policy, head: nat): (c: Option<nat>)
    ensures c.Some? ==> Best(q, policy, head, c.value)
    ensures c.None? ==> forall i: nat :: !Best(q, policy, head, i)
  {
    if i: nat :| Best(q, policy, head, i) then Some(i) else None
  }

  /** What an operation does: the choice is the rule's, from the head's position. */
  ghost function Next(d: Disk, op: Op, policy: Policy): (t: Disk) {
    match op
    case Add(b, r) => d.(queue := d.queue + [b], request := d.request[b := r])
    case Level(b, level) => if b in d.request then d.(request := d.request[b := d.request[b].(level := level)]) else d
    case Choose =>
      if forall i :: 0 <= i < |d.queue| ==> d.queue[i] in d.request then
        var c := Choice(Requests(d.queue, d.request), policy, d.position);
        if c.Some? then d.(active := d.queue[c.value]) else d
      else d
    case Issue => if d.active in d.request then d.(position := d.request[d.active].blockno) else d
    case Finish => d.(queue := Remove(d.queue, d.active), active := 0)
  }

  method Perform(q: Queue, op: Op)
    requires q.Valid() && Allowed(q.D(), op, q.size)
    modifies q
    ensures q.Valid() && q.D() == Next(old(q.D()), op, q.policy) && q.policy == old(q.policy)
    ensures op.Choose? ==> q.active != 0
  {
    match op
    case Add(b, r) => q.Enqueue(b, r);
    case Level(b, level) => q.Relevel(b, level);
    case Choose =>
      ghost var c := q.Select();
      BestUnique(q.Pending(), q.policy, q.position, c, Choice(q.Pending(), q.policy, q.position).value);
    case Issue => q.Issue();
    case Finish =>
      ghost var i: nat :| i < |q.queue| && q.queue[i] == q.active;
      RemoveAt(q.queue, i);
      q.Dequeue(q.active, i);
  }

  ghost predicate Possible(d: Disk, ops: seq<Op>, policy: Policy, size: nat)
    decreases |ops|
  {
    ops == [] || (Allowed(d, ops[0], size) && Possible(Next(d, ops[0], policy), ops[1..], policy, size))
  }

  ghost function After(d: Disk, ops: seq<Op>, policy: Policy): (t: Disk)
    decreases |ops|
  {
    if ops == [] then d else After(Next(d, ops[0], policy), ops[1..], policy)
  }

  /** Over every history of arrivals, changes of level, choices, issues and completions, each choice is of
      the lowest level present and, under SSTF, nearest to the block issued last. */
  method Run(q: Queue, ops: seq<Op>)
    requires q.Valid() && Possible(q.D(), ops, q.policy, q.size)
    modifies q
    ensures q.Valid() && q.policy == old(q.policy) && q.D() == After(old(q.D()), ops, q.policy)
  {
    var n := 0;
    while n < |ops|
      invariant 0 <= n <= |ops| && q.Valid() && q.policy == old(q.policy) && Possible(q.D(), ops[n..], q.policy, q.size)
      invariant After(q.D(), ops[n..], q.policy) == After(old(q.D()), ops, q.policy)
    {
      assert ops[n..][1..] == ops[n + 1..];
      Perform(q, ops[n]);
      n := n + 1;
    }
  }

  lemma CandidateTest(q: seq<Request>, found: bool, best: int, i: nat)
    requires i < |q|
    requires found <==> exists k :: 0 <= k < |q| && HasLevel(q[k])
    requires found ==> IsBest(q, best)
    ensures Candidate(q, i) <==> !found || (q[i].level.Some? && q[i].level.value == best)
  {
  }

  /** The nearest of the first `n` requests is `c`, at distance `d`; UINT_MAX if there is none. */
  ghost predicate NearestOf(q: seq<Request>, head: nat, n: nat, c: nat, d: nat) {
    && d <= UINT_MAX
    && (d == UINT_MAX ==> c == 0 && forall k: nat :: k < n && Candidate(q, k) ==> Gap(q[k].blockno, head) >= UINT_MAX)
    && (d < UINT_MAX ==>
          && c < n && Candidate(q, c) && Gap(q[c].blockno, head) == d
          && forall k: nat :: k < n && Candidate(q, k) ==>
               d <= Gap(q[k].blockno, head) && (d == Gap(q[k].blockno, head) ==> c <= k))
  }

  lemma NearestStep(q: seq<Request>, head: nat, n: nat, c: nat, d: nat)
    requires n < |q|
    ensures NearestOf(q, head, n, c, d) ==>
              if Candidate(q, n) && Gap(q[n].blockno, head) < d then NearestOf(q, head, n + 1, n, Gap(q[n].blockno, head))
              else NearestOf(q, head, n + 1, c, d)
  {
  }

  lemma NearestIsChoice(q: seq<Request>, head: nat, c: nat, d: nat)
    ensures NearestOf(q, head, |q|, c, d) && q != [] ==> IsChoice(q, SSTF, head, c)
  {
  }
}
