/** The paging operations of kernel/kalloc.c and kernel/vm.c, each taken as one step.

    Every operation keeps the one-to-one match of frames and slots with page table entries
    (`Inv`) and says exactly what it does to what each process sees (`Logical`).  A panic ends
    the run, so the operations report it and promise nothing about the state after it. */
module VirtualMemory {
  import opened Common
  import opened Paging
  import opened Clock
  import opened SwapSpace
  import Raid

  datatype Fault = Panicked | Refused | Mapped(ppn: nat)

  datatype Outcome = Dead | Failed | Done

  ghost predicate SameOutside(s: State, t: State, p: Proc) {
    && |s.swap| == |s.slots| && |t.swap| == |t.slots|
    && forall k: Key :: k.p != p ==> Logical(t, k) == Logical(s, k)
  }

  /** No frame may be evicted, or there is no slot to evict it to. */
  ghost predicate CannotEvict(s: State, procs: Procs) { NoVictim(s, procs) || NoSlot(s.swap) }

  ghost predicate NoVictim(s: State, procs: Procs) { !exists i :: Evictable(s, procs, i) }

  ghost predicate NoSlot(swap: seq<Option<Proc>>) { forall j :: 0 <= j < |swap| ==> swap[j].Some? }

  /** There is an unused frame and memory for it, so nothing need be evicted. */
  ghost predicate Spare(s: State) { s.free != [] && exists i :: 0 <= i < |s.frames| && !s.frames[i].inUse }

  ghost predicate OutOfFrames(s: State, procs: Procs) { !Spare(s) && CannotEvict(s, procs) }

  /** The free pages that are left when kalloc_user has returned. */
  ghost function FreeAfter(s: State): (n: int) { if Spare(s) then |s.free| - 1 else |s.free| }

  /** The parent's page `k` cannot be copied although the copy does not panic. */
  ghost predicate CannotCopy(s: State, procs: Procs, k: Key, need: nat) {
    || (Swapped(s, k) && (s.free == [] || need > |s.free| || forall j :: 0 <= j < |s.swap| ==> s.swap[j].Some?))
    || (!Swapped(s, k) && Resident(s, k) && !OutOfFrames(s, procs) && need > FreeAfter(s))
  }

  ghost predicate CopyPanics(s: State, procs: Procs, k: Key) {
    !Swapped(s, k) && Resident(s, k) && OutOfFrames(s, procs)
  }

  /** No page was brought in, and none of processes 1 and 2 evicted. */
  ghost predicate MayEvict(s: State, t: State, procs: Procs) {
    forall k ::
      && (Resident(t, k) ==> Resident(s, k))
      && (Resident(s, k) && k.p in procs && (procs[k.p].pid == 1 || procs[k.p].pid == 2) ==> Resident(t, k))
  }

  lemma SystemStaysOn(s: State, t: State, u: State, procs: Procs)
    requires MayEvict(s, t, procs) && StillResident(t, u)
    ensures SystemStays(s, u, procs)
  {
  }

  // get_victim and then swap_out of the page `k`, which is of neither process.
  lemma EvictionUnseen(s: State, t: State, u: State, procs: Procs, k: Key)
    requires SameMemory(s, t) && SameResident(s, t) && SameMemory(t, u) && OnlyGone(t, u, k)
    requires k.p in procs && procs[k.p].pid != 1 && procs[k.p].pid != 2
    ensures SameMemory(s, u) && MayEvict(s, u, procs)
  {
  }

  /** What was resident of processes 1 and 2 is resident. */
  ghost predicate SystemStays(s: State, t: State, procs: Procs) {
    forall k :: Resident(s, k) && k.p in procs && (procs[k.p].pid == 1 || procs[k.p].pid == 2) ==> Resident(t, k)
  }

  /** No entry of process `p` is mapped or swapped at or above page `n`. */
  ghost predicate NothingFrom(s: State, p: Proc, n: nat) {
    forall k: Key :: k.p == p && k.vpn >= n ==> !Resident(s, k) && !Swapped(s, k)
  }

  /** A process with nothing mapped or swapped owns no frame and no swap slot. */
  lemma NothingOwned(s: State, p: Proc)
    requires Inv(s, {}) && NothingFrom(s, p, 0)
    ensures forall i :: 0 <= i < |s.frames| && s.frames[i].inUse ==> s.frames[i].p != p
    ensures forall j :: 0 <= j < |s.swap| ==> s.swap[j] != Some(p)
  {
  }

  /** Two pages never share a frame or a swap slot. */
  lemma NoSharing(s: State, k: Key, l: Key)
    requires Inv(s, {}) && k != l
    ensures Resident(s, k) && Resident(s, l) ==> s.pt[k].ppn != s.pt[l].ppn
    ensures Swapped(s, k) && Swapped(s, l) ==> s.pt[k].ppn != s.pt[l].ppn
  {
  }

  lemma MappedIffSeen(s: State, k: Key, floating: set<nat>)
    requires Inv(s, floating)
    ensures Logical(s, k).Some? <==> Resident(s, k) || Swapped(s, k)
    ensures !(Resident(s, k) && Swapped(s, k))
  {
  }

  class Memory {
    var frames: seq<Frame>
    var clockHand: nat
    var swap: seq<Option<Proc>>
    var pt: map<Key, Pte>
    var mem: map<nat, Page>
    var free: seq<nat>
    const space: Swap
    var procs: Procs

    ghost function S(): (s: State)
      reads this, space`slots
    {
      State(frames, swap, pt, mem, free, space.slots)
    }

    ghost predicate Valid(floating: set<nat>)
      reads this, space, space.disks
    {
      && space.Valid()
      && clockHand < |frames|
      && Inv(S(), floating)
      && (forall p :: p in procs ==> procs[p].level >= 0)
      && (forall i :: 0 <= i < |frames| && frames[i].inUse ==> frames[i].p in procs)
    }

    /** kinit: the free list holds `pages`, no frame and no slot is in use, nothing is mapped. */
    constructor (n: nat, pages: seq<nat>, slots: nat, mode: Raid.Mode, procs: Procs)
      requires n > 0 && slots <= Raid.MAX_SWAP_PAGES
      requires forall i, j :: 0 <= i < j < |pages| ==> pages[i] != pages[j]
      requires forall p :: p in procs ==> procs[p].level >= 0
      ensures Valid({}) && fresh(space) && fresh(space.disks) && free == pages && this.procs == procs
      ensures forall k :: Logical(S(), k) == None
    {
      frames, clockHand := seq(n, _ => FREE_FRAME), 0;
      swap := seq(slots, _ => None);
      pt, free, mem := map[], pages, map a | a in pages :: Filled(1);
      space := new Swap(slots, mode);
      this.procs := procs;
    }

    /** A process is new, has another size or moves to another level. */
    method SetProc(p: Proc, info: ProcInfo)
      requires Valid({}) && info.level >= 0
      modifies this`procs
      ensures Valid({}) && procs == old(procs)[p := info]
    {
      procs := procs[p := info];
    }

    /** A disk of the swap space fails: unless the array is striped, nobody sees a change. */
    method DiskFails(disk: Raid.DiskNo, junk: seq<Raid.Block>)
      requires Valid({}) && space.mode != Raid.Striping
      modifies space`failed, space.disks
      ensures Valid({}) && S() == old(S())
      ensures space.failed == if old(space.failed) == -1 then disk else old(space.failed)
    {
      space.Fail(disk, junk);
    }

    // The scan's look at one frame.  `Pass` gives a referenced candidate its second chance.
    method Inspect(idx: nat, want: Option<int>) returns (r: Look)
      requires idx < |frames|
      modifies this`frames, this`pt
      ensures r == Inspected(old(S()), procs, want, idx)
      ensures S() == if r == Pass then Unreference(old(S()), idx) else old(S())
    {
      var f := frames[idx];
      var key := Key(f.p, f.vpn);
      if f.inUse && f.p in procs {
        if procs[f.p].pid == 1 || procs[f.p].pid == 2 {
          return Skip;
        }
        if want.Some? && procs[f.p].level != want.value {
          return Skip;
        }
        if key !in pt || !pt[key].flags.v {
          return Skip;
        }
        if pt[key].ppn != f.ppn {
          return Skip;
        }
        if pt[key].flags.a || f.ref {
          frames := frames[idx := f.(ref := false)];
          pt := pt[key := pt[key].(flags := pt[key].flags.(a := false))];
          return Pass;
        }
        return Take;
      }
      return Skip;
    }

    // The clock moves on by one frame.
    method ClockStep(want: Option<int>, ghost s: State, ghost hand: nat, ghost scanned: nat) returns (found: bool, idx: nat)
      requires hand < |s.frames| == |frames| && scanned < 2 * |frames| && FramesApart(s)
      requires clockHand == Ahead(hand, Lap(scanned, |frames|), |frames|)
      requires BitsOnly(s, S()) && ScanInv(s, S(), procs, want, hand, scanned)
      modifies this`frames, this`clockHand, this`pt
      ensures |frames| == |s.frames| && clockHand < |frames| && BitsOnly(s, S())
      ensures found ==> Candidate(s, procs, want, idx) && IsVictim(s, procs, want, hand, idx)
      ensures found ==> S() == old(S()) && idx == old(clockHand) && clockHand == Succ(idx, |frames|) && !Referenced(S(), idx)
      ensures !found ==> clockHand == Ahead(hand, Lap(scanned + 1, |frames|), |frames|) && ScanInv(s, S(), procs, want, hand, scanned + 1)
      ensures !found ==> S() == old(S()) || Candidate(s, procs, want, idx)
    {
      ghost var before := S();
      NextPlace(hand, scanned, |frames|);
      idx := clockHand;
      clockHand := if clockHand + 1 == |frames| then 0 else clockHand + 1;
      CandidatesKept(s, before, procs, want, idx);
      var look := Inspect(idx, want);
      found := look == Take;
      if found {
        ScanFinds(s, before, procs, want, hand, scanned, idx);
      } else {
        ScanPasses(s, before, S(), procs, want, hand, scanned);
      }
    }

    /** One phase of get_victim: up to two revolutions of the clock. */
    method ClockPhase(want: Option<int>) returns (found: bool, victim: nat, ghost scanned: nat)
      requires clockHand < |frames| && FramesApart(S())
      modifies this`frames, this`clockHand, this`pt
      ensures clockHand < |frames| && BitsOnly(old(S()), S())
      ensures found <==> exists i :: Candidate(old(S()), procs, want, i)
      ensures found ==> IsVictim(old(S()), procs, want, old(clockHand), victim)
      ensures found ==> scanned < 2 * |frames| && ScanInv(old(S()), S(), procs, want, old(clockHand), scanned)
      ensures found ==> victim == Ahead(old(clockHand), Lap(scanned, |frames|), |frames|) && !Referenced(S(), victim)
      ensures found ==> clockHand == Succ(victim, |frames|)
      ensures !found ==> S() == old(S()) && clockHand == old(clockHand)
    {
      ghost var s, hand, n := S(), clockHand, |frames|;
      var count := 0;
      found, victim, scanned := false, 0, 0;
      while count < 2 * |frames|
        invariant 0 <= count == scanned <= 2 * n && |frames| == n
        invariant clockHand == Ahead(hand, Lap(scanned, n), n) && BitsOnly(s, S())
        invariant ScanInv(s, S(), procs, want, hand, scanned)
        invariant (exists i :: Candidate(s, procs, want, i)) || S() == s
      {
        found, victim := ClockStep(want, s, hand, scanned);
        if found {
          return;
        }
        count, scanned := count + 1, scanned + 1;
      }
      forall i ensures !Candidate(s, procs, want, i) {
        ScanExhausts(s, S(), procs, want, hand, i);
      }
    }

    method FindHighestLevel() returns (level: int)
      ensures level == HighestLevel(S(), procs, |frames|)
    {
      level := -1;
      var i := 0;
      while i < |frames|
        invariant 0 <= i <= |frames|
        invariant level == HighestLevel(S(), procs, i)
      {
        var f := frames[i];
        if f.inUse && f.p in procs && procs[f.p].pid != 1 && procs[f.p].pid != 2 {
          if procs[f.p].level > level {
            level := procs[f.p].level;
          }
        }
        i := i + 1;
      }
    }

    // The two phases of get_victim.
    method TwoPhases() returns (panicked: bool, victim: nat, ghost want: Option<int>, ghost scanned: nat)
      requires clockHand < |frames| && FramesApart(S())
      requires forall p :: p in procs ==> procs[p].level >= 0
      modifies this`frames, this`clockHand, this`pt
      ensures clockHand < |frames| && BitsOnly(old(S()), S())
      ensures panicked <==> !exists i :: Evictable(old(S()), procs, i)
      ensures !panicked ==> want == PhaseOf(old(S()), procs) && IsVictim(old(S()), procs, want, old(clockHand), victim)
      ensures !panicked ==> scanned < 2 * |frames| && ScanInv(old(S()), S(), procs, want, old(clockHand), scanned)
      ensures !panicked ==> victim == Ahead(old(clockHand), Lap(scanned, |frames|), |frames|) && !Referenced(S(), victim)
      ensures !panicked ==> clockHand == Succ(victim, |frames|)
    {
      ghost var s := S();
      victim, want, scanned := 0, None, 0;
      var top := FindHighestLevel();
      if top == -1 {
        forall i: nat ensures !Evictable(s, procs, i) {
          if i < |s.frames| && UserFrame(s, procs, i) {
            HighestLevelBounds(s, procs, |s.frames|, i);
          }
        }
        return true, 0, None, 0;
      }
      var found;
      found, victim, scanned := ClockPhase(Some(top));
      if found {
        assert Evictable(s, procs, victim);
        return false, victim, Some(top), scanned;
      }
      found, victim, scanned := ClockPhase(None);
      if found {
        assert Evictable(s, procs, victim);
        return false, victim, None, scanned;
      }
      forall i: nat ensures !Evictable(s, procs, i) {
        assert !Candidate(s, procs, None, i);
      }
      return true, 0, None, 0;
    }

    /** get_victim: it panics exactly when every frame that is in use and mapped belongs to process 1 or 2
        or to nobody.  The frame it finds, within two revolutions of each phase, is the one the clock
        rule names; the hand is then past it, and the candidates on the way have lost their bits. */
    method GetVictim() returns (panicked: bool, victim: nat)
      requires clockHand < |frames| && FramesApart(S())
      requires forall p :: p in procs ==> procs[p].level >= 0
      modifies this`frames, this`clockHand, this`pt
      ensures clockHand < |frames| && BitsOnly(old(S()), S())
      ensures panicked ==>
                forall i: nat :: i < |old(frames)| && old(frames)[i].inUse && old(frames)[i].p in procs ==>
                  var f := old(frames)[i];
                  || procs[f.p].pid == 1 || procs[f.p].pid == 2
                  || Key(f.p, f.vpn) !in old(pt) || !old(pt)[Key(f.p, f.vpn)].flags.v || old(pt)[Key(f.p, f.vpn)].ppn != f.ppn
      ensures !panicked ==>
                && victim < |old(frames)|
                && var f := old(frames)[victim];
                   && f.inUse && f.p in procs && procs[f.p].pid != 1 && procs[f.p].pid != 2
                   && Key(f.p, f.vpn) in old(pt) && old(pt)[Key(f.p, f.vpn)].flags.v && old(pt)[Key(f.p, f.vpn)].ppn == f.ppn
      ensures panicked <==> !exists i :: Evictable(old(S()), procs, i)
      ensures !panicked ==>
                && Chosen(old(S()), procs, old(clockHand), victim) && clockHand == Succ(victim, |frames|)
                && Swept(old(S()), S(), procs, PhaseOf(old(S()), procs), old(clockHand), victim)
    {
      ghost var s, hand := S(), clockHand;
      ghost var want, scanned;
      panicked, victim, want, scanned := TwoPhases();
      if panicked {
        NoneEvictable(s, procs);
      } else {
        EvictableMeans(s, procs, victim);
        SweptAt(s, S(), procs, want, hand, scanned, victim);
      }
    }

    // The search for a free swap slot, in swap_out and in uvmcopy.
    method FindSlot() returns (found: bool, j: nat)
      ensures found ==> j < |swap| && swap[j] == None && forall l :: 0 <= l < j ==> swap[l].Some?
      ensures !found ==> forall l :: 0 <= l < |swap| ==> swap[l].Some?
    {
      j := 0;
      while j < |swap|
        invariant 0 <= j <= |swap|
        invariant forall l :: 0 <= l < j ==> swap[l].Some?
      {
        if swap[j].None? {
          return true, j;
        }
        j := j + 1;
      }
      return false, 0;
    }

    /** kalloc_user: a frame for page `vpn` of `p`, evicting another page if need be.  What every
        process sees is unchanged; the new frame is not mapped yet. */
    method KallocUser(vpn: nat, p: Proc) returns (panicked: bool, i: nat)
      requires Valid({}) && p in procs
      modifies this, space, space.disks
      ensures procs == old(procs)
      ensures panicked <==> OutOfFrames(old(S()), procs)
      ensures !panicked ==>
                && Valid({i}) && i < |frames| && frames[i].inUse && KeyOf(S(), i) == Key(p, vpn)
                && SameMemory(old(S()), S()) && MayEvict(old(S()), S(), procs)
                && |free| == FreeAfter(old(S())) && Pages(S()) == Pages(old(S()))
      ensures Spare(old(S())) ==>
                && swap == old(swap) && i < |old(frames)| && !old(frames)[i].inUse && (forall l :: 0 <= l < i ==> old(frames)[l].inUse)
                && i < |frames| && frames[i] == Frame(true, p, vpn, old(free)[0], true) && free == old(free)[1..]
      ensures !Spare(old(S())) && !panicked ==> Chosen(old(S()), procs, old(clockHand), i)
    {
      i := 0;
      while i < |frames| && frames[i].inUse
        invariant 0 <= i <= |frames|
        invariant forall l :: 0 <= l < i ==> frames[l].inUse
      {
        i := i + 1;
      }
      if i < |frames| && free != [] {
        TakeFreeKeeps(S(), i, Key(p, vpn));
        ghost var s := S();
        mem := mem[free[0] := Filled(5)];
        FramesUsedUpdate(frames, i, Frame(true, p, vpn, free[0], true));
        frames := frames[i := Frame(true, p, vpn, free[0], true)];
        free := free[1..];
        assert S() == TakeFree(s, i, Key(p, vpn));
        return false, i;
      }
      panicked, i := EvictFor(vpn, p);
    }

    // The eviction branch of kalloc_user.
    method EvictFor(vpn: nat, p: Proc) returns (panicked: bool, i: nat)
      requires Valid({}) && p in procs
      modifies this, space, space.disks
      ensures procs == old(procs)
      ensures free == old(free) && (panicked <==> CannotEvict(old(S()), procs))
      ensures !panicked ==>
                && Chosen(old(S()), procs, old(clockHand), i)
                && Valid({i}) && i < |frames| && frames[i].inUse && KeyOf(S(), i) == Key(p, vpn)
                && SameMemory(old(S()), S()) && MayEvict(old(S()), S(), procs)
                && Pages(S()) == Pages(old(S()))
    {
      ghost var s := S();
      panicked, i := PickVictim();
      if !panicked {
        ghost var t := S();
        ghost var j;
        panicked, j := SwapOut(i, vpn, p);
        if !panicked {
          EvictionUnseen(s, t, S(), procs, KeyOf(t, i));
        }
      }
    }

    // get_victim, which nobody sees.
    method PickVictim() returns (panicked: bool, i: nat)
      requires Valid({})
      modifies this`frames, this`clockHand, this`pt
      ensures Valid({}) && SameMemory(old(S()), S()) && SameResident(old(S()), S())
      ensures panicked <==> NoVictim(old(S()), procs)
      ensures !panicked ==> Chosen(old(S()), procs, old(clockHand), i) && i < |frames| && frames[i].inUse
      ensures !panicked ==> frames[i].p in procs && procs[frames[i].p].pid != 1 && procs[frames[i].p].pid != 2
      ensures FramesUsed(frames) == FramesUsed(old(frames))
    {
      ghost var s := S();
      panicked, i := GetVictim();
      BitsOnlyKeeps(s, S(), {});
      FramesUsedSame(s.frames, frames);
    }

    /** swap_out of the page in frame `i`, and the frame handed to page `vpn` of `p`. */
    method SwapOut(i: nat, vpn: nat, p: Proc) returns (panicked: bool, ghost j: nat)
      requires Valid({}) && p in procs && i < |frames| && frames[i].inUse
      modifies this`swap, this`pt, this`mem, this`frames, space`slots, space`c, space.disks
      ensures panicked <==> NoSlot(old(swap))
      ensures !panicked ==>
                && Valid({i}) && i < |frames| && frames[i].inUse && KeyOf(S(), i) == Key(p, vpn)
                && SameMemory(old(S()), S()) && OnlyGone(old(S()), S(), old(KeyOf(S(), i)))
                && FramesUsed(frames) == FramesUsed(old(frames))
                && j < |old(swap)| && old(swap)[j] == None && swap == old(swap)[j := Some(old(frames)[i].p)]
                && forall l :: 0 <= l < j ==> old(swap)[l].Some?
    {
      var found, slot := FindSlot();
      j := slot;
      if !found {
        return true, j;
      }
      SwapOutTo(i, slot, vpn, p);
      return false, j;
    }

    // The page in frame `i` goes to the free slot `j`.
    method SwapOutTo(i: nat, j: nat, vpn: nat, p: Proc)
      requires Valid({}) && p in procs && i < |frames| && frames[i].inUse && j < |swap| && swap[j] == None
      modifies this`swap, this`pt, this`mem, this`frames, space`slots, space`c, space.disks
      ensures Valid({i}) && i < |frames| && frames[i].inUse && KeyOf(S(), i) == Key(p, vpn)
      ensures SameMemory(old(S()), S()) && OnlyGone(old(S()), S(), old(KeyOf(S(), i)))
      ensures FramesUsed(frames) == FramesUsed(old(frames))
      ensures swap == old(swap)[j := Some(old(frames)[i].p)]
      ensures var k := old(KeyOf(S(), i));
              k in old(pt) && pt == old(pt)[k := Pte(j, old(pt)[k].flags.(v := false, s := true))]
    {
      ghost var s := S();
      assert Backs(s, i, KeyOf(s, i));
      var f := frames[i];
      var key := Key(f.p, f.vpn);
      swap := swap[j := Some(f.p)];
      pt := pt[key := Pte(j, pt[key].flags.(v := false, s := true))];
      space.Put(j, mem[f.ppn]);
      mem := mem[f.ppn := Filled(5)];
      FramesUsedUpdate(frames, i, Frame(true, p, vpn, f.ppn, true));
      frames := frames[i := Frame(true, p, vpn, f.ppn, true)];
      assert S() == Evict(s, i, j, Key(p, vpn));
      EvictKeeps(s, i, j, Key(p, vpn));
    }

    /** swap_in for the floating frame `i`: the process sees the same page as before. */
    method LoadFromSwap(i: nat)
      requires Valid({i}) && i < |frames| && frames[i].inUse && Swapped(S(), KeyOf(S(), i))
      modifies this`mem, this`swap, this`pt
      ensures Valid({}) && SameMemory(old(S()), S()) && StillResident(old(S()), S())
      ensures var k := KeyOf(S(), i);
              pt == old(pt)[k := Pte(frames[i].ppn, old(pt)[k].flags.(s := false, v := true))]
      ensures Resident(S(), KeyOf(S(), i))
    {
      ghost var s := S();
      SwapInKeeps(s, i);
      var key := Key(frames[i].p, frames[i].vpn);
      var e := pt[key];
      var page := space.Get(e.ppn);
      mem := mem[frames[i].ppn := page];
      swap := swap[e.ppn := None];
      pt := pt[key := Pte(frames[i].ppn, e.flags.(s := false, v := true))];
      assert S() == SwapIn(s, i);
    }

    /** kfree_user of the page of the floating frame `i`, found by its page number. */
    method KfreeUser(ppn: nat, ghost i: nat)
      requires Valid({i}) && i < |frames| && frames[i].inUse && frames[i].ppn == ppn
      modifies this`frames, this`free, this`mem
      ensures Valid({}) && SameMemory(old(S()), S())
      ensures frames == old(frames)[i := FREE_FRAME] && free == [ppn] + old(free) && Pages(S()) == Pages(old(S()))
    {
      ghost var s := S();
      DropFrameKeeps(s, i);
      var l := 0;
      while !(frames[l].inUse && frames[l].ppn == ppn)
        invariant 0 <= l <= i
        decreases i - l
      {
        l := l + 1;
      }
      assert l == i;
      FramesUsedUpdate(frames, i, FREE_FRAME);
      frames := frames[l := FREE_FRAME];
      free := [ppn] + free;
      mem := mem[ppn := Filled(1)];
      assert S() == DropFrame(s, i);
    }

    // walk with allocation: `need` page-table pages come off the free list, or it fails.
    method GrowPageTable(need: nat, ghost floating: set<nat>) returns (ok: bool)
      requires Valid(floating)
      modifies this`free
      ensures Valid(floating) && SameMemory(old(S()), S())
      ensures ok <==> need <= |old(free)|
      ensures |free| == if ok then |old(free)| - need else 0
    {
      ghost var s := S();
      ok := need <= |free|;
      free := if ok then free[need..] else [];
      assert S() == s.(free := s.free[if ok then need else |s.free|..], mem := S().mem);
      FreeListKeeps(s, S(), floating);
    }

    /** mappages of one page: the floating frame `i`, filled with `page`, is mapped with `flags`,
        or there is no memory for the page table and the frame is given back. */
    method MapOrGiveBack(i: nat, page: Page, flags: Flags, need: nat) returns (ok: bool)
      requires Valid({i}) && i < |frames| && frames[i].inUse
      requires Logical(S(), KeyOf(S(), i)) == None
      modifies this
      ensures procs == old(procs)
      ensures Valid({}) && SameMemoryBut(old(S()), S(), old(KeyOf(S(), i))) && StillResident(old(S()), S())
      ensures ok <==> need <= |old(free)|
      ensures Pages(S()) == Pages(old(S())) - if ok then need else |old(free)|
      ensures Logical(S(), old(KeyOf(S(), i))) == if ok then Some(Seen(page, flags)) else None
      ensures ok ==> Resident(S(), old(KeyOf(S(), i))) && pt[old(KeyOf(S(), i))].ppn == old(frames[i].ppn)
    {
      ghost var s0 := S();
      ok := GrowPageTable(need, {i});
      ghost var s := S();
      assert Logical(s, KeyOf(s, i)) == Logical(s0, KeyOf(s0, i));
      if ok {
        MappedIffSeen(s, KeyOf(s, i), {i});
        MapNewKeeps(s, i, page, flags);
        mem := mem[frames[i].ppn := page];
        pt := pt[Key(frames[i].p, frames[i].vpn) := Pte(frames[i].ppn, flags.(v := true, s := false))];
        assert S() == MapNew(s, i, page, flags);
      } else {
        KfreeUser(frames[i].ppn, i);
      }
    }

    // The page of the floating frame `i` comes from swap, or is new and zeros.
    method FillFrame(i: nat, need: nat) returns (ok: bool)
      requires Valid({i}) && i < |frames| && frames[i].inUse && !Resident(S(), KeyOf(S(), i))
      modifies this
      ensures procs == old(procs)
      ensures Valid({}) && StillResident(old(S()), S())
      ensures SameMemoryBut(old(S()), S(), old(KeyOf(S(), i)))
      ensures ok <==> Swapped(old(S()), old(KeyOf(S(), i))) || need <= |old(free)|
      ensures Pages(S()) <= Pages(old(S())) && (need == 0 ==> Pages(S()) == Pages(old(S())))
      ensures ok ==> Resident(S(), old(KeyOf(S(), i))) && pt[old(KeyOf(S(), i))].ppn == old(frames)[i].ppn
      ensures Logical(S(), old(KeyOf(S(), i))) ==
              if Swapped(old(S()), old(KeyOf(S(), i))) then Logical(old(S()), old(KeyOf(S(), i)))
              else if ok then Some(View(Filled(0), true, true, false, true)) else None
    {
      var key := Key(frames[i].p, frames[i].vpn);
      MappedIffSeen(S(), key, {i});
      if key in pt && pt[key].flags.s {
        LoadFromSwap(i);
        return true;
      }
      var flags := Flags(false, true, true, false, true, false, false, false, false, false);
      ok := MapOrGiveBack(i, Filled(0), flags, need);
    }

    /** vmfault: a swapped page comes back as it was, a page first touched is zeros, and nothing
        else changes for anybody. */
    method VmFault(p: Proc, va: nat, need: nat) returns (r: Fault)
      requires Valid({}) && p in procs
      modifies this, space, space.disks
      ensures procs == old(procs)
      ensures !r.Panicked? ==>
                Valid({}) && SameMemoryBut(old(S()), S(), Key(p, va / PGSIZE)) && SystemStays(old(S()), S(), procs)
      ensures r.Refused? ==> SameMemory(old(S()), S())
      ensures !r.Panicked? ==> Pages(S()) <= Pages(old(S())) && (need == 0 ==> Pages(S()) == Pages(old(S())))
      ensures va >= procs[p].sz || Resident(old(S()), Key(p, va / PGSIZE)) ==> r.Refused? && S() == old(S())
      ensures va < procs[p].sz && !Resident(old(S()), Key(p, va / PGSIZE)) ==>
                && (r.Panicked? <==> OutOfFrames(old(S()), procs))
                && (r.Refused? <==> !r.Panicked? && !Swapped(old(S()), Key(p, va / PGSIZE)) && need > FreeAfter(old(S())))
      ensures r.Mapped? ==>
                && Resident(S(), Key(p, va / PGSIZE)) && pt[Key(p, va / PGSIZE)].ppn == r.ppn
                && Logical(S(), Key(p, va / PGSIZE)) ==
                   if Logical(old(S()), Key(p, va / PGSIZE)).Some? then Logical(old(S()), Key(p, va / PGSIZE))
                   else Some(View(Filled(0), true, true, false, true))
    {
      if va >= procs[p].sz {
        return Refused;
      }
      var key := Key(p, va / PGSIZE);
      if key in pt && pt[key].flags.v {
        return Refused;
      }
      ghost var s0 := S();
      var panicked, i := KallocUser(va / PGSIZE, p);
      if panicked {
        return Panicked;
      }
      ghost var s := S();
      MappedIffSeen(s0, key, {});
      MappedIffSeen(s, key, {i});
      assert Logical(s, key) == Logical(s0, key);
      var ppn := frames[i].ppn;
      var ok := FillFrame(i, need);
      SystemStaysOn(s0, s, S(), procs);
      if !ok {
        return Refused;
      }
      return Mapped(ppn);
    }

    /** A load from a resident page, which marks it accessed. */
    method ReadPage(key: Key) returns (page: Page)
      requires Valid({}) && Resident(S(), key)
      modifies this`pt
      ensures Valid({}) && SameMemory(old(S()), S()) && StillResident(old(S()), S())
      ensures Logical(old(S()), key) == Some(Seen(page, old(pt)[key].flags))
    {
      ghost var s := S();
      ghost var i := FrameBehind(s, key, {});
      page := mem[pt[key].ppn];
      pt := pt[key := pt[key].(flags := pt[key].flags.(a := true))];
      BitsOnlyKeeps(s, S(), {});
    }

    /** A store to a resident page. */
    method WritePage(key: Key, page: Page)
      requires Valid({}) && Resident(S(), key)
      modifies this`mem, this`pt
      ensures Valid({}) && SameMemoryBut(old(S()), S(), key) && StillResident(old(S()), S())
      ensures Logical(S(), key) == Some(Seen(page, old(pt)[key].flags))
    {
      ghost var s := S();
      StoreKeeps(s, key, page);
      var e := pt[key];
      mem := mem[e.ppn := page];
      pt := pt[key := e.(flags := e.flags.(a := true, d := true))];
      assert S() == StoreTo(s, key, page);
    }

    /** One step of uvmunmap with do_free: the page is gone, and its frame or slot given back. */
    method UnmapPage(key: Key)
      requires Valid({})
      modifies this
      ensures procs == old(procs)
      ensures Valid({}) && SameMemoryBut(old(S()), S(), key) && Logical(S(), key) == None
      ensures StillResidentBut(old(S()), S(), key) && Pages(S()) == Pages(old(S()))
    {
      ghost var s := S();
      MappedIffSeen(s, key, {});
      if key !in pt || (!pt[key].flags.v && !pt[key].flags.s) {
        return;
      }
      if pt[key].flags.s {
        ReleaseSlotKeeps(s, key, {});
        swap := swap[pt[key].ppn := None];
        pt := pt - {key};
        assert S() == ReleaseSlot(s, key);
      } else {
        ghost var i: nat :| i !in {} && Backs(s, i, key);
        ClearResidentKeeps(s, key, i);
        var ppn := pt[key].ppn;
        pt := pt - {key};
        assert S() == s.(pt := s.pt - {key});
        KfreeUser(ppn, i);
      }
    }

    /** uvmunmap with do_free: pages `from` up to `from + n` of `p` are gone, nothing else changes. */
    method UvmUnmap(p: Proc, from: nat, n: nat)
      requires Valid({})
      modifies this
      ensures procs == old(procs)
      ensures Valid({})
      ensures forall k: Key :: Logical(S(), k) ==
                if k.p == p && from <= k.vpn < from + n then None else Logical(old(S()), k)
      ensures forall k: Key :: Resident(old(S()), k) && !(k.p == p && from <= k.vpn < from + n) ==> Resident(S(), k)
      ensures Pages(S()) == Pages(old(S()))
    {
      ghost var s0 := S();
      var a := from;
      while a < from + n
        invariant from <= a <= from + n
        invariant Valid({}) && procs == old(procs)
        invariant UnmappedUpTo(s0, S(), p, from, a) && Pages(S()) == Pages(s0)
      {
        ghost var s := S();
        UnmapPage(Key(p, a));
        UnmapAdvances(s0, s, S(), p, from, a);
        a := a + 1;
      }
    }

    // kalloc of the first free page, and kfree of it when the copy is done.
    method UseBounceBuffer()
      requires Valid({}) && free != []
      modifies this`mem
      ensures Valid({}) && SameMemory(old(S()), S())
    {
      ghost var s := S();
      mem := mem[free[0] := Filled(1)];
      assert s.free[0..] == s.free && S() == s.(free := s.free[0..], mem := S().mem);
      FreeListKeeps(s, S(), {});
    }

    // The child's slot `j` receives the page in the parent's slot.
    method CopyToSlot(from: Key, to: Key, j: nat)
      requires Valid({}) && Swapped(S(), from) && Logical(S(), to) == None
      requires j < |swap| && swap[j] == None
      modifies this`swap, this`pt, space`slots, space`c, space.disks
      ensures Valid({}) && SameMemoryBut(old(S()), S(), to) && Logical(S(), to) == Logical(old(S()), from)
      ensures StillResident(old(S()), S())
    {
      ghost var s := S();
      MappedIffSeen(s, to, {});
      CopySlotKeeps(s, from, to, j);
      var e := pt[from];
      var page := space.Get(e.ppn);
      space.Put(j, page);
      swap := swap[j := Some(to.p)];
      pt := pt[to := Pte(j, e.flags.(v := false, s := true))];
      assert S() == CopySlot(s, from, to, j);
    }

    // uvmcopy of a page in swap: a slot for the child, copied through a bounce buffer.
    method CopySwapped(from: Key, to: Key, need: nat) returns (ok: bool)
      requires Valid({}) && Swapped(S(), from) && Logical(S(), to) == None
      modifies this`swap, this`pt, this`mem, this`free, space`slots, space`c, space.disks
      ensures Valid({}) && SameMemoryBut(old(S()), S(), to) && StillResident(old(S()), S())
      ensures Logical(S(), to) == if ok then Logical(old(S()), from) else None
      ensures ok <==> !CannotCopy(old(S()), procs, from, need)
      ensures Pages(S()) <= Pages(old(S())) && (need == 0 ==> Pages(S()) == Pages(old(S())))
    {
      ghost var s0 := S();
      var found, j := FindSlot();
      if !found || free == [] {
        return false;
      }
      UseBounceBuffer();
      ghost var s1 := S();
      ok := GrowPageTable(need, {});
      ghost var s := S();
      assert Logical(s, to) == Logical(s1, to) == Logical(s0, to);
      assert Logical(s, from) == Logical(s1, from) == Logical(s0, from);
      if ok {
        CopyToSlot(from, to, j);
      }
    }

    // uvmcopy of a resident page.  Allocating the child's frame may evict the parent's page, so
    // its entry is read again.
    method CopyResident(from: Key, to: Key, need: nat) returns (panicked: bool, ok: bool)
      requires Valid({}) && to.p in procs && Resident(S(), from) && Logical(S(), to) == None
      modifies this, space, space.disks
      ensures procs == old(procs)
      ensures panicked <==> CopyPanics(old(S()), procs, from)
      ensures !panicked ==>
                && (ok <==> !CannotCopy(old(S()), procs, from, need))
                && Valid({}) && SameMemoryBut(old(S()), S(), to) && SystemStays(old(S()), S(), procs)
                && Pages(S()) <= Pages(old(S())) && (need == 0 ==> Pages(S()) == Pages(old(S())))
                && Logical(S(), to) == if ok then Logical(old(S()), from) else None
    {
      ghost var s0 := S();
      MappedIffSeen(s0, from, {});
      ok := false;
      var i;
      panicked, i := KallocUser(to.vpn, to.p);
      if panicked {
        return;
      }
      ghost var s := S();
      assert Logical(s, from) == Logical(s0, from) && Logical(s, to) == Logical(s0, to);
      MappedIffSeen(s, from, {i});
      var e := pt[from];
      var page;
      if e.flags.v {
        page := mem[e.ppn];
      } else {
        page := space.Get(e.ppn);
      }
      assert Logical(s, from) == Some(Seen(page, e.flags));
      ok := MapOrGiveBack(i, page, e.flags, need);
    }

    // One pass of uvmcopy's loop.
    method CopyPage(from: Key, to: Key, need: nat) returns (panicked: bool, ok: bool)
      requires Valid({}) && to.p in procs && Logical(S(), to) == None
      modifies this, space, space.disks
      ensures procs == old(procs)
      ensures panicked <==> CopyPanics(old(S()), procs, from)
      ensures !panicked ==>
                && (ok <==> !CannotCopy(old(S()), procs, from, need))
                && Valid({}) && SameMemoryBut(old(S()), S(), to) && SystemStays(old(S()), S(), procs)
                && Pages(S()) <= Pages(old(S())) && (need == 0 ==> Pages(S()) == Pages(old(S())))
                && Logical(S(), to) == if ok then Logical(old(S()), from) else None
    {
      MappedIffSeen(S(), from, {});
      panicked, ok := false, true;
      if from in pt && (pt[from].flags.v || pt[from].flags.s) {
        if pt[from].flags.s {
          ok := CopySwapped(from, to, need);
        } else {
          panicked, ok := CopyResident(from, to, need);
        }
      }
    }

    /** uvmcopy: on success the child sees below `sz` exactly what the parent sees, on failure
        every page, frame and slot of the child has been given back; nobody else sees a change.
        It fails only in a state `stop` in which pages up to `at` are copied and `at` cannot be.
        `need` is the number of page-table pages that walk allocates for each page. */
    method UvmCopy(parent: Proc, child: Proc, sz: nat, need: nat -> nat) returns (r: Outcome, ghost at: nat, ghost stop: State)
      requires Valid({}) && parent in procs && child in procs && parent != child
      requires NothingFrom(S(), child, 0)
      modifies this, space, space.disks
      ensures procs == old(procs)
      ensures !r.Dead? ==> Valid({}) && SameOutside(old(S()), S(), child) && SystemStays(old(S()), S(), procs)
      ensures r.Failed? ==> SameMemory(old(S()), S()) && NothingFrom(S(), child, 0)
      ensures !r.Dead? ==> Pages(S()) <= Pages(old(S())) && ((forall v: nat :: need(v) == 0) ==> Pages(S()) == Pages(old(S())))
      ensures r.Done? ==>
                forall vpn: nat :: Logical(S(), Key(child, vpn)) ==
                  if vpn * PGSIZE < sz then Logical(old(S()), Key(parent, vpn)) else None
      ensures !r.Done? ==> at * PGSIZE < sz && Inv(stop, {}) && CopiedUpTo(old(S()), stop, parent, child, at)
      ensures r.Failed? ==> CannotCopy(stop, procs, Key(parent, at), need(at))
      ensures r.Dead? ==> CopyPanics(stop, procs, Key(parent, at))
    {
      ghost var s0 := S();
      stop := s0;
      NothingSeen(s0, child);
      var vpn := 0;
      at := 0;
      while vpn * PGSIZE < sz
        invariant Valid({}) && procs == old(procs)
        invariant CopiedUpTo(s0, S(), parent, child, vpn) && SystemStays(s0, S(), procs)
        invariant Pages(S()) <= Pages(s0) && ((forall v: nat :: need(v) == 0) ==> Pages(S()) == Pages(s0))
        invariant vpn * PGSIZE < sz + PGSIZE
      {
        ghost var s := S();
        at, stop := vpn, s;
        var panicked, ok := CopyPage(Key(parent, vpn), Key(child, vpn), need(vpn));
        if panicked {
          return Dead, at, stop;
        }
        if !ok {
          CopyFails(s0, s, S(), parent, child, vpn);
          ghost var s' := S();
          UvmUnmap(child, 0, vpn);
          UncopyAll(s0, s', S(), parent, child, vpn);
          return Failed, at, stop;
        }
        CopyAdvances(s0, s, S(), parent, child, vpn);
        vpn := vpn + 1;
      }
      r := Done;
    }
  }

  /** The pages from `from` up to `n` of process `p` are gone; everything else is as it was. */
  ghost predicate UnmappedUpTo(s0: State, s: State, p: Proc, from: nat, n: nat) {
    && |s0.swap| == |s0.slots| && |s.swap| == |s.slots|
    && (forall k: Key :: Logical(s, k) == if k.p == p && from <= k.vpn < n then None else Logical(s0, k))
    && (forall k: Key :: Resident(s0, k) && !(k.p == p && from <= k.vpn < n) ==> Resident(s, k))
  }

  lemma UnmapAdvances(s0: State, s: State, t: State, p: Proc, from: nat, n: nat)
    requires from <= n && UnmappedUpTo(s0, s, p, from, n)
    requires SameMemoryBut(s, t, Key(p, n)) && Logical(t, Key(p, n)) == None && StillResidentBut(s, t, Key(p, n))
    ensures UnmappedUpTo(s0, t, p, from, n + 1)
  {
    forall k: Key ensures k.p == p && k.vpn == n ==> k == Key(p, n) {
    }
  }

  lemma NothingSeen(s: State, p: Proc)
    requires Inv(s, {})
    ensures NothingFrom(s, p, 0) <==> forall vpn: nat :: Logical(s, Key(p, vpn)) == None
  {
  }

  /** The first `n` pages have been copied; everything else is as it was. */
  ghost predicate CopiedUpTo(s0: State, s: State, parent: Proc, child: Proc, n: nat) {
    && SameOutside(s0, s, child)
    && forall vpn: nat :: Logical(s, Key(child, vpn)) ==
         if vpn < n then Logical(s0, Key(parent, vpn)) else None
  }

  lemma CopyAdvances(s0: State, s: State, t: State, parent: Proc, child: Proc, n: nat)
    requires parent != child && CopiedUpTo(s0, s, parent, child, n)
    requires SameMemoryBut(s, t, Key(child, n)) && Logical(t, Key(child, n)) == Logical(s, Key(parent, n))
    ensures CopiedUpTo(s0, t, parent, child, n + 1)
  {
  }

  lemma CopyFails(s0: State, s: State, t: State, parent: Proc, child: Proc, n: nat)
    requires parent != child && CopiedUpTo(s0, s, parent, child, n)
    requires SameMemoryBut(s, t, Key(child, n)) && Logical(t, Key(child, n)) == None
    ensures CopiedUpTo(s0, t, parent, child, n)
  {
  }

  lemma UncopyAll(s0: State, s: State, t: State, parent: Proc, child: Proc, n: nat)
    requires Inv(t, {}) && CopiedUpTo(s0, s, parent, child, n)
    requires forall vpn: nat :: Logical(s0, Key(child, vpn)) == None
    requires |t.swap| == |t.slots|
    requires forall k: Key :: Logical(t, k) == if k.p == child && 0 <= k.vpn < n then None else Logical(s, k)
    ensures SameMemory(s0, t) && NothingFrom(t, child, 0)
  {
    forall k: Key ensures Logical(t, k) == Logical(s0, k) {
      if k.p == child {
        assert Key(child, k.vpn) == k;
      }
    }
    NothingSeen(t, child);
  }
}
