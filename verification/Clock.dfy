/** Victim selection (get_victim in kernel/kalloc.c): what the two-revolution clock must return. */
module Clock {
  import opened Common
  import opened Paging

  /** What get_victim and vmfault read of a process; a process with a page table is a key of the map. */
  datatype ProcInfo = ProcInfo(pid: int, level: int, sz: nat)
  type Procs = map<Proc, ProcInfo>

  predicate UserFrame(s: State, procs: Procs, i: nat) {
    && i < |s.frames|
    && s.frames[i].inUse
    && s.frames[i].p in procs
    && procs[s.frames[i].p].pid != 1
    && procs[s.frames[i].p].pid != 2
  }

  /** A frame the scan may return: not of process 1 or 2, and mapped by its process. */
  predicate Evictable(s: State, procs: Procs, i: nat) {
    UserFrame(s, procs, i) && Backs(s, i, KeyOf(s, i))
  }

  /** `want` restricts the first phase to one level; the second phase takes any level. */
  predicate Candidate(s: State, procs: Procs, want: Option<int>, i: nat) {
    Evictable(s, procs, i) && (want.Some? ==> procs[s.frames[i].p].level == want.value)
  }

  predicate Referenced(s: State, i: nat)
    requires i < |s.frames|
  {
    s.frames[i].ref || (KeyOf(s, i) in s.pt && s.pt[KeyOf(s, i)].flags.a)
  }

  // ----- The rule -----

  /** The clock's choice: the first unreferenced candidate after the hand if there is one, else
      the first candidate after the hand. */
  ghost predicate IsVictim(s: State, procs: Procs, want: Option<int>, hand: nat, i: nat)
    requires hand < |s.frames|
  {
    && Candidate(s, procs, want, i)
    && (Referenced(s, i) ==> forall j :: Candidate(s, procs, want, j) ==> Referenced(s, j))
    && (forall j :: Candidate(s, procs, want, j)
                    && Distance(hand, j, |s.frames|) < Distance(hand, i, |s.frames|) ==>
                    Referenced(s, j) && !Referenced(s, i))
  }

  // ----- The scan invariant -----

  /** After `scanned` steps from `hand`: candidates passed were referenced and have lost their
      bits, the other evictable frames are as at the start, and none was passed twice. */
  ghost predicate ScanInv(s: State, now: State, procs: Procs, want: Option<int>, hand: nat, scanned: nat)
    requires hand < |s.frames| == |now.frames|
  {
    forall k :: 0 <= k < |s.frames| && Evictable(s, procs, Ahead(hand, k, |s.frames|)) ==>
      ScanOk(s, now, procs, want, Ahead(hand, k, |s.frames|), k, scanned)
  }

  ghost predicate ScanOk(s: State, now: State, procs: Procs, want: Option<int>, i: nat, k: nat, scanned: nat)
    requires i < |s.frames| == |now.frames| && Evictable(s, procs, i)
  {
    if Candidate(s, procs, want, i) then
      && k >= scanned - |s.frames|
      && if k < scanned then Referenced(s, i) && !Referenced(now, i) else Referenced(now, i) == Referenced(s, i)
    else Referenced(now, i) == Referenced(s, i)
  }

  /** After a find: exactly the candidates that the hand passed have lost their bits. */
  ghost predicate Swept(s: State, now: State, procs: Procs, want: Option<int>, hand: nat, victim: nat)
    requires hand < |s.frames| == |now.frames| && victim < |s.frames|
  {
    forall j :: Evictable(s, procs, j) ==>
      (Referenced(now, j) <==>
       && Referenced(s, j)
       && !(&& Candidate(s, procs, want, j)
            && (Referenced(s, victim) || Distance(hand, j, |s.frames|) < Distance(hand, victim, |s.frames|))))
  }

  lemma CandidatesKept(s: State, now: State, procs: Procs, want: Option<int>, i: nat)
    requires BitsOnly(s, now)
    ensures Candidate(now, procs, want, i) == Candidate(s, procs, want, i)
  {
  }

  /** Frame `i` with both its bits cleared. */
  function Unreference(s: State, i: nat): (t: State)
    requires i < |s.frames| && KeyOf(s, i) in s.pt
  {
    var e := s.pt[KeyOf(s, i)];
    s.(frames := s.frames[i := s.frames[i].(ref := false)],
       pt := s.pt[KeyOf(s, i) := e.(flags := e.flags.(a := false))])
  }

  // Evictable frames have different keys, because their pages differ.
  lemma CandidatesApart(s: State, procs: Procs, i: nat, j: nat)
    requires FramesApart(s) && Evictable(s, procs, i) && Evictable(s, procs, j) && i != j
    ensures KeyOf(s, i) != KeyOf(s, j)
  {
  }

  lemma AtInjective(hand: nat, k: nat, l: nat, n: nat)
    requires hand < n && k < n && l < n && k != l
    ensures Ahead(hand, k, n) != Ahead(hand, l, n)
  {
  }

  lemma UnreferenceOthers(s: State, now: State, procs: Procs, i: nat, j: nat)
    requires FramesApart(s) && BitsOnly(s, now) && i != j
    requires Evictable(s, procs, i) && Evictable(s, procs, j)
    ensures Referenced(Unreference(now, i), j) == Referenced(now, j)
    ensures !Referenced(Unreference(now, i), i)
  {
    CandidatesApart(s, procs, i, j);
  }

  lemma UnreferenceBits(s: State, now: State, i: nat)
    requires BitsOnly(s, now) && i < |now.frames| && KeyOf(now, i) in now.pt
    ensures BitsOnly(s, Unreference(now, i))
  {
  }

  datatype Look = Skip | Pass | Take

  function Inspected(s: State, procs: Procs, want: Option<int>, i: nat): (r: Look)
    requires i < |s.frames|
  {
    if !Candidate(s, procs, want, i) then Skip else if Referenced(s, i) then Pass else Take
  }

  /** The place in the current revolution of scan step `scanned` of two. */
  function Lap(scanned: nat, n: nat): (k: nat)
    requires 0 < n && scanned <= 2 * n
    ensures k < n
  {
    if scanned < n then scanned else if scanned < 2 * n then scanned - n else 0
  }

  lemma NextPlace(hand: nat, scanned: nat, n: nat)
    requires hand < n && scanned < 2 * n
    ensures var i := Ahead(hand, Lap(scanned, n), n);
            Ahead(hand, Lap(scanned + 1, n), n) == Succ(i, n)
  {
  }

  /** Passing a referenced candidate keeps the scan invariant. */
  lemma PassCandidate(s: State, now: State, procs: Procs, want: Option<int>, hand: nat, scanned: nat)
    requires hand < |s.frames| && scanned < |s.frames| && FramesApart(s) && BitsOnly(s, now)
    requires ScanInv(s, now, procs, want, hand, scanned)
    requires var i := Ahead(hand, scanned, |s.frames|); Candidate(s, procs, want, i) && Referenced(now, i)
    ensures var i := Ahead(hand, scanned, |s.frames|);
            ScanInv(s, Unreference(now, i), procs, want, hand, scanned + 1)
  {
    var n := |s.frames|;
    var i := Ahead(hand, scanned, n);
    forall k | 0 <= k < n && Evictable(s, procs, Ahead(hand, k, n))
      ensures ScanOk(s, Unreference(now, i), procs, want, Ahead(hand, k, n), k, scanned + 1)
    {
      assert ScanOk(s, now, procs, want, Ahead(hand, k, n), k, scanned);
      if k != scanned {
        AtInjective(hand, k, scanned, n);
        UnreferenceOthers(s, now, procs, i, Ahead(hand, k, n));
      }
    }
  }

  /** A frame that is not taken is passed; in the second revolution it is no candidate. */
  lemma ScanPasses(s: State, before: State, after: State, procs: Procs, want: Option<int>, hand: nat, scanned: nat)
    requires hand < |s.frames| && scanned < 2 * |s.frames| && FramesApart(s) && BitsOnly(s, before)
    requires ScanInv(s, before, procs, want, hand, scanned)
    requires var i := Ahead(hand, Lap(scanned, |s.frames|), |s.frames|);
             && Inspected(before, procs, want, i) != Take
             && after == if Inspected(before, procs, want, i) == Pass then Unreference(before, i) else before
    ensures BitsOnly(s, after) && ScanInv(s, after, procs, want, hand, scanned + 1)
    ensures after == before || Candidate(s, procs, want, Ahead(hand, Lap(scanned, |s.frames|), |s.frames|))
  {
    var i := Ahead(hand, Lap(scanned, |s.frames|), |s.frames|);
    CandidatesKept(s, before, procs, want, i);
    if Inspected(before, procs, want, i) == Pass {
      assert ScanOk(s, before, procs, want, i, Lap(scanned, |s.frames|), scanned);
      PassCandidate(s, before, procs, want, hand, scanned);
      UnreferenceBits(s, before, i);
    }
  }

  /** A candidate found unreferenced is the clock's choice. */
  lemma ScanFinds(s: State, now: State, procs: Procs, want: Option<int>, hand: nat, scanned: nat, i: nat)
    requires hand < |s.frames| && scanned < 2 * |s.frames| && BitsOnly(s, now)
    requires ScanInv(s, now, procs, want, hand, scanned)
    requires i == Ahead(hand, Lap(scanned, |s.frames|), |s.frames|) && Candidate(s, procs, want, i) && !Referenced(now, i)
    ensures IsVictim(s, procs, want, hand, i)
  {
    var n := |s.frames|;
    var k := Lap(scanned, n);
    assert Distance(hand, i, n) == k;
    assert ScanOk(s, now, procs, want, i, k, scanned);
    forall j | Evictable(s, procs, j)
      ensures ScanOk(s, now, procs, want, j, Distance(hand, j, n), scanned)
    {
      var l := Distance(hand, j, n);
      assert Ahead(hand, l, n) == j;
    }
  }

  lemma SweptAt(s: State, now: State, procs: Procs, want: Option<int>, hand: nat, scanned: nat, i: nat)
    requires hand < |s.frames| == |now.frames| && scanned < 2 * |s.frames| && ScanInv(s, now, procs, want, hand, scanned)
    requires i == Ahead(hand, Lap(scanned, |s.frames|), |s.frames|) && IsVictim(s, procs, want, hand, i)
    requires BitsOnly(s, now) && !Referenced(now, i)
    ensures Swept(s, now, procs, want, hand, i)
  {
    var n := |s.frames|;
    assert Distance(hand, i, n) == Lap(scanned, n);
    assert ScanOk(s, now, procs, want, i, Lap(scanned, n), scanned);
    forall j | Evictable(s, procs, j)
      ensures ScanOk(s, now, procs, want, j, Distance(hand, j, n), scanned)
    {
      assert Ahead(hand, Distance(hand, j, n), n) == j;
    }
  }

  lemma ScanExhausts(s: State, now: State, procs: Procs, want: Option<int>, hand: nat, i: nat)
    requires hand < |s.frames| == |now.frames| && ScanInv(s, now, procs, want, hand, 2 * |s.frames|)
    ensures !Candidate(s, procs, want, i)
  {
    if i < |s.frames| {
      var k := Distance(hand, i, |s.frames|);
      assert Ahead(hand, k, |s.frames|) == i;
      if Evictable(s, procs, i) {
        assert ScanOk(s, now, procs, want, i, k, 2 * |s.frames|);
      }
    }
  }

  // ----- The two phases together -----

  /** The numerically highest level of a process owning one of the first `n` frames, leaving out
      processes 1 and 2; -1 if there is none. */
  function HighestLevel(s: State, procs: Procs, n: nat): (level: int)
    requires n <= |s.frames|
  {
    if n == 0 then -1
    else
      var rest := HighestLevel(s, procs, n - 1);
      if UserFrame(s, procs, n - 1) && procs[s.frames[n - 1].p].level > rest
      then procs[s.frames[n - 1].p].level else rest
  }

  lemma {:induction false} HighestLevelBounds(s: State, procs: Procs, n: nat, i: nat)
    requires i < n <= |s.frames| && UserFrame(s, procs, i)
    ensures HighestLevel(s, procs, n) >= procs[s.frames[i].p].level
  {
    if i < n - 1 {
      HighestLevelBounds(s, procs, n - 1, i);
    }
  }

  /** The phase that decides: the highest level, if a frame of it is evictable, or any level. */
  ghost function PhaseOf(s: State, procs: Procs): (want: Option<int>) {
    var top := HighestLevel(s, procs, |s.frames|);
    if exists i :: Candidate(s, procs, Some(top), i) then Some(top) else None
  }

  /** get_victim's choice: by the clock among the frames of the highest level, or, if no frame of
      that level is evictable, by the clock among all. */
  ghost predicate Chosen(s: State, procs: Procs, hand: nat, victim: nat)
    requires hand < |s.frames|
  {
    IsVictim(s, procs, PhaseOf(s, procs), hand, victim)
  }

  lemma EvictableMeans(s: State, procs: Procs, i: nat)
    requires i < |s.frames|
    ensures Evictable(s, procs, i) <==>
            var f := s.frames[i];
            && f.inUse && f.p in procs && procs[f.p].pid != 1 && procs[f.p].pid != 2
            && Key(f.p, f.vpn) in s.pt && s.pt[Key(f.p, f.vpn)].flags.v && s.pt[Key(f.p, f.vpn)].ppn == f.ppn
  {
  }

  lemma NoneEvictable(s: State, procs: Procs)
    requires !exists i :: Evictable(s, procs, i)
    ensures forall i: nat :: i < |s.frames| && s.frames[i].inUse && s.frames[i].p in procs ==>
              var f := s.frames[i];
              || procs[f.p].pid == 1 || procs[f.p].pid == 2
              || Key(f.p, f.vpn) !in s.pt || !s.pt[Key(f.p, f.vpn)].flags.v || s.pt[Key(f.p, f.vpn)].ppn != f.ppn
  {
    forall i: nat | i < |s.frames| && s.frames[i].inUse && s.frames[i].p in procs
      ensures var f := s.frames[i];
              || procs[f.p].pid == 1 || procs[f.p].pid == 2
              || Key(f.p, f.vpn) !in s.pt || !s.pt[Key(f.p, f.vpn)].flags.v || s.pt[Key(f.p, f.vpn)].ppn != f.ppn
    {
      EvictableMeans(s, procs, i);
    }
  }

  /** What the choice means, against any frame `other` in use and mapped by a process other than 1 and
      2.  The victim is such a frame too.  It has the highest level among the frames of those processes
      if `other` has it.  Of two frames of one level the unreferenced one goes first, and of two alike
      the one that the hand comes to first. */
  lemma ChosenMeans(s: State, procs: Procs, hand: nat, victim: nat, other: nat)
    requires hand < |s.frames| && Chosen(s, procs, hand, victim) && other < |s.frames|
    requires var f := s.frames[other];
             && f.inUse && f.p in procs && procs[f.p].pid != 1 && procs[f.p].pid != 2
             && Key(f.p, f.vpn) in s.pt && s.pt[Key(f.p, f.vpn)].flags.v && s.pt[Key(f.p, f.vpn)].ppn == f.ppn
    ensures victim < |s.frames|
    ensures var f := s.frames[victim];
            && f.inUse && f.p in procs && procs[f.p].pid != 1 && procs[f.p].pid != 2
            && Key(f.p, f.vpn) in s.pt && s.pt[Key(f.p, f.vpn)].flags.v && s.pt[Key(f.p, f.vpn)].ppn == f.ppn
    ensures (forall i :: 0 <= i < |s.frames| && s.frames[i].inUse && s.frames[i].p in procs ==>
               procs[s.frames[i].p].pid == 1 || procs[s.frames[i].p].pid == 2 || procs[s.frames[i].p].level <= procs[s.frames[other].p].level)
            && procs[s.frames[other].p].level >= 0 ==>
              procs[s.frames[victim].p].level == procs[s.frames[other].p].level
    ensures var f, g := s.frames[victim], s.frames[other];
            var marked, marked' := f.ref || s.pt[Key(f.p, f.vpn)].flags.a, g.ref || s.pt[Key(g.p, g.vpn)].flags.a;
            procs[f.p].level == procs[g.p].level ==>
              && (marked ==> marked')
              && (marked == marked' ==> (victim - hand) % |s.frames| <= (other - hand) % |s.frames|)
  {
    var n := |s.frames|;
    var top := HighestLevel(s, procs, n);
    var level := procs[s.frames[other].p].level;
    assert Evictable(s, procs, other);
    HighestLevelBounds(s, procs, n, other);
    if level >= 0 && forall i :: 0 <= i < n && s.frames[i].inUse && s.frames[i].p in procs ==>
         procs[s.frames[i].p].pid == 1 || procs[s.frames[i].p].pid == 2 || procs[s.frames[i].p].level <= level {
      HighestLevelAttained(s, procs, n, level);
      assert Candidate(s, procs, Some(top), other);
    }
    var w := PhaseOf(s, procs);
    assert IsVictim(s, procs, w, hand, victim);
    assert procs[s.frames[victim].p].level == level ==> Candidate(s, procs, w, other);
    Circle(hand, victim, 0, n);
    Circle(hand, other, 0, n);
  }

  lemma {:induction false} HighestLevelAttained(s: State, procs: Procs, n: nat, level: int)
    requires n <= |s.frames| && level >= 0
    requires forall i: nat :: UserFrame(s, procs, i) ==> procs[s.frames[i].p].level <= level
    ensures HighestLevel(s, procs, n) <= level
  {
    if n > 0 {
      HighestLevelAttained(s, procs, n - 1, level);
    }
  }
}
