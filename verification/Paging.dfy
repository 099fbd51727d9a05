/** Demand paging, swap and fork (kernel/kalloc.c, kernel/vm.c).

    Virtual and physical addresses are page numbers (byte addresses divided by PGSIZE); a page
    table maps a process and a virtual page to an entry.  An entry with the valid bit names a
    physical page, one with the swap bit names a swap slot.  An absent entry is the entry 0.

    The frame table, the swap table, the page tables, physical memory and swap space together
    stand for one logical memory per process, given by `Logical`.  Each operation is one step. */
module Paging {
  import opened Common
  import Raid

  const PGSIZE := 4096

  /** A page in memory has the form it has on disk: blocks of bits. */
  type Page = Raid.Page

  /** A block filled with one byte, lowest bit first. */
  function FilledBlock(c: nat): (b: Raid.Block) {
    UnpackLength(c, 8);
    seq(Raid.BITS, j requires 0 <= j < Raid.BITS => Unpack(c, 8).0[j % 8])
  }

  /** A page filled with one byte, as memset leaves it. */
  function Filled(c: nat): (p: Page) { [FilledBlock(c), FilledBlock(c), FilledBlock(c), FilledBlock(c)] }

  /** The byte 0 fills a page with zero bits. */
  lemma FilledZero()
    ensures Filled(0) == Raid.ZERO_PAGE
  {
    UnpackZero(8);
    assert FilledBlock(0) == Raid.Zero();
  }

  lemma {:induction false} UnpackZero(count: nat)
    ensures |Unpack(0, count).0| == count && forall j :: 0 <= j < count ==> !Unpack(0, count).0[j]
  {
    if count > 0 {
      UnpackZero(count - 1);
    }
  }

  // ----- Page table entries -----

  /** The low ten bits of an entry, lowest first: V R W X U G A D, then the two bits left to
      software, of which the lower is the swap bit. */
  datatype Flags = Flags(v: bool, r: bool, w: bool, x: bool, u: bool, g: bool, a: bool, d: bool, s: bool, t: bool)

  datatype Pte = Pte(ppn: nat, flags: Flags)

  function FlagAt(f: Flags, k: nat): (b: bool)
    requires k < 10
  {
    match k
    case 0 => f.v
    case 1 => f.r
    case 2 => f.w
    case 3 => f.x
    case 4 => f.u
    case 5 => f.g
    case 6 => f.a
    case 7 => f.d
    case 8 => f.s
    case _ => f.t
  }

  function FlagList(f: Flags): (bits: seq<bool>)
    ensures |bits| == 10 && forall k :: 0 <= k < 10 ==> bits[k] == FlagAt(f, k)
  {
    seq(10, k requires 0 <= k < 10 => FlagAt(f, k))
  }

  /** `bits`, lowest first, packed below the number `high`: a shift and a bitwise-or per bit. */
  function Pack(bits: seq<bool>, high: nat): (n: nat) {
    if bits == [] then high else 2 * Pack(bits[1..], high) + if bits[0] then 1 else 0
  }

  /** The low `count` bits of `n`, and `n` shifted right by `count`. */
  function Unpack(n: nat, count: nat): (r: (seq<bool>, nat)) {
    if count == 0 then ([], n)
    else
      var (bits, high) := Unpack(n / 2, count - 1);
      ([n % 2 == 1] + bits, high)
  }

  lemma {:induction false} PackUnpack(bits: seq<bool>, high: nat)
    ensures Unpack(Pack(bits, high), |bits|) == (bits, high)
  {
    if bits != [] {
      PackUnpack(bits[1..], high);
      assert [bits[0]] + bits[1..] == bits;
    }
  }

  /** The 64-bit word of an entry: PA2PTE(pa) | flags, or slot << 10 | flags. */
  function Encode(e: Pte): (n: nat) { Pack(FlagList(e.flags), e.ppn) }

  /** PTE_FLAGS(pte) bit by bit, and pte >> 10. */
  function Decode(n: nat): (e: Pte) {
    var (b, high) := Unpack(n, 10);
    UnpackLength(n, 10);
    Pte(high, Flags(b[0], b[1], b[2], b[3], b[4], b[5], b[6], b[7], b[8], b[9]))
  }

  lemma {:induction false} UnpackLength(n: nat, count: nat)
    ensures |Unpack(n, count).0| == count
  {
    if count > 0 {
      UnpackLength(n / 2, count - 1);
    }
  }

  /** Reading an entry's word gives back the page number or slot and the flags packed into it. */
  lemma PteRoundTrip(e: Pte)
    ensures Decode(Encode(e)) == e
  {
    PackUnpack(FlagList(e.flags), e.ppn);
  }

  lemma PackFrom(bits: seq<bool>, high: nat, k: nat)
    requires k < |bits|
    ensures Pack(bits[k..], high) == 2 * Pack(bits[k + 1..], high) + if bits[k] then 1 else 0
  {
    assert bits[k..][1..] == bits[k + 1..];
  }

  lemma PackFive(bits: seq<bool>, high: nat, k: nat)
    requires k + 5 <= |bits|
    ensures Pack(bits[k..], high) ==
              32 * Pack(bits[k + 5..], high) + (if bits[k] then 1 else 0) + (if bits[k + 1] then 2 else 0)
              + (if bits[k + 2] then 4 else 0) + (if bits[k + 3] then 8 else 0) + (if bits[k + 4] then 16 else 0)
  {
    PackFrom(bits, high, k);
    PackFrom(bits, high, k + 1);
    PackFrom(bits, high, k + 2);
    PackFrom(bits, high, k + 3);
    PackFrom(bits, high, k + 4);
  }

  /** The word of an entry: the page number or slot from bit 10 on, and each flag at its bit. */
  lemma PteWord(e: Pte)
    ensures Encode(e) ==
              1024 * e.ppn + (if e.flags.v then 1 else 0) + (if e.flags.r then 2 else 0) + (if e.flags.w then 4 else 0)
              + (if e.flags.x then 8 else 0) + (if e.flags.u then 16 else 0) + (if e.flags.g then 32 else 0)
              + (if e.flags.a then 64 else 0) + (if e.flags.d then 128 else 0) + (if e.flags.s then 256 else 0)
              + (if e.flags.t then 512 else 0)
  {
    var bits := FlagList(e.flags);
    assert bits[0..] == bits && bits[10..] == [];
    PackFive(bits, e.ppn, 0);
    PackFive(bits, e.ppn, 5);
  }

  const PTE_V := 1
  const PTE_R := 2
  const PTE_W := 4
  const PTE_X := 8
  const PTE_U := 16
  const PTE_A := 64
  const PTE_S := 256

  /** The bit `mask`, a power of two, is set in the word `w`. */
  predicate Has(w: nat, mask: nat)
    requires mask > 0
  {
    w / mask % 2 == 1
  }

  function Set(w: nat, mask: nat): (r: nat)
    requires mask > 0
  {
    if Has(w, mask) then w else w + mask
  }

  function Clear(w: nat, mask: nat): (r: int)
    requires mask > 0
  {
    if Has(w, mask) then w - mask else w
  }

  function Pow2(k: nat): (n: nat)
    ensures n > 0
  {
    if k == 0 then 1 else 2 * Pow2(k - 1)
  }

  lemma {:induction false} TestAt(bits: seq<bool>, high: nat, k: nat)
    requires k < |bits|
    ensures Has(Pack(bits, high), Pow2(k)) == bits[k]
  {
    if k > 0 {
      TestAt(bits[1..], high, k - 1);
      HalfTwice(Pack(bits, high), Pow2(k - 1));
    }
  }

  lemma HalfTwice(w: nat, n: nat)
    requires n > 0
    ensures w / (2 * n) == w / 2 / n
  {
    var q, r := w / 2 / n, w / 2 % n;
    assert w == 2 * n * q + (2 * r + w % 2);
    DivideBack(2 * n, q, 2 * r + w % 2);
  }

  lemma DivideBack(n: nat, q: nat, r: nat)
    requires r < n
    ensures (n * q + r) / n == q && (n * q + r) % n == r
  {
    var q' := (n * q + r) / n;
    if q < q' {
      Scale(n, q + 1, q');
    } else if q > q' {
      Scale(n, q' + 1, q);
    }
  }

  lemma {:induction false} PackUpdate(bits: seq<bool>, high: nat, k: nat, b: bool)
    requires k < |bits|
    ensures Pack(bits[k := b], high) == Pack(bits, high) + (if b then Pow2(k) else 0) - (if bits[k] then Pow2(k) else 0)
  {
    var bits' := bits[k := b];
    if k == 0 {
      assert bits'[1..] == bits[1..];
    } else {
      PackUpdate(bits[1..], high, k - 1, b);
      assert bits'[1..] == bits[1..][k - 1 := b];
    }
  }

  /** Setting and clearing a bit of the word is setting and clearing it in the list. */
  lemma UpdateAt(bits: seq<bool>, high: nat, k: nat)
    requires k < |bits|
    ensures Clear(Pack(bits, high), Pow2(k)) == Pack(bits[k := false], high)
    ensures Set(Pack(bits, high), Pow2(k)) == Pack(bits[k := true], high)
  {
    TestAt(bits, high, k);
    PackUpdate(bits, high, k, false);
    PackUpdate(bits, high, k, true);
  }

  lemma Twice(a: nat, b: nat)
    ensures 2 * a * b == 2 * (a * b)
  {
  }

  lemma {:induction false} PackHigh(bits: seq<bool>, high: nat)
    ensures Pack(bits, high) == Pow2(|bits|) * high + Pack(bits, 0) && Pack(bits, 0) < Pow2(|bits|)
  {
    if bits != [] {
      PackHigh(bits[1..], high);
      Twice(Pow2(|bits| - 1), high);
    }
  }

  lemma Masks()
    ensures PTE_V == Pow2(0) && PTE_R == Pow2(1) && PTE_W == Pow2(2) && PTE_X == Pow2(3) && PTE_U == Pow2(4)
    ensures PTE_A == Pow2(6) && PTE_S == Pow2(8) && 1024 == Pow2(10)
  {
    assert Pow2(4) == 16;
    assert Pow2(8) == 256;
  }

  /** Testing a bit of the word is reading the flag; the rest is the page number or slot. */
  lemma BitTests(e: Pte)
    ensures Has(Encode(e), PTE_V) == e.flags.v && Has(Encode(e), PTE_R) == e.flags.r && Has(Encode(e), PTE_W) == e.flags.w
    ensures Has(Encode(e), PTE_X) == e.flags.x && Has(Encode(e), PTE_U) == e.flags.u && Has(Encode(e), PTE_A) == e.flags.a
    ensures Has(Encode(e), PTE_S) == e.flags.s
    ensures Encode(e) / 1024 == e.ppn
  {
    var bits := FlagList(e.flags);
    Masks();
    forall k | 0 <= k < 10 ensures Has(Encode(e), Pow2(k)) == bits[k] {
      TestAt(bits, e.ppn, k);
    }
    FlagsWord(e);
  }

  // PTE_FLAGS, and the rest of the word.
  lemma FlagsWord(e: Pte)
    ensures Encode(e) % 1024 == Pack(FlagList(e.flags), 0) && Encode(e) / 1024 == e.ppn
    ensures Encode(e) == 1024 * e.ppn + Pack(FlagList(e.flags), 0)
  {
    Masks();
    PackHigh(FlagList(e.flags), e.ppn);
    DivideBack(1024, e.ppn, Pack(FlagList(e.flags), 0));
  }

  // Clearing one flag and setting another, under a new number.
  lemma RetagWord(e: Pte, clear: nat, put: nat, number: nat, f: Flags)
    requires clear < 10 && put < 10
    requires forall k: nat :: k < 10 ==> FlagAt(f, k) == if k == put then true else if k == clear then false else FlagAt(e.flags, k)
    ensures Clear(Encode(e) % 1024, Pow2(clear)) >= 0
    ensures 1024 * number + Set(Clear(Encode(e) % 1024, Pow2(clear)), Pow2(put)) == Encode(Pte(number, f))
  {
    var bits := FlagList(e.flags);
    FlagsWord(e);
    UpdateAt(bits, 0, clear);
    UpdateAt(bits[clear := false], 0, put);
    assert FlagList(f) == bits[clear := false][put := true];
    FlagsWord(Pte(number, f));
  }

  /** swap_out on the word: the flags with V cleared and S set, under the slot's number. */
  lemma SwapOutWord(e: Pte, slot: nat)
    ensures Clear(Encode(e) % 1024, PTE_V) >= 0
    ensures 1024 * slot + Set(Clear(Encode(e) % 1024, PTE_V), PTE_S) == Encode(Pte(slot, e.flags.(v := false, s := true)))
  {
    Masks();
    RetagWord(e, 0, 8, slot, e.flags.(v := false, s := true));
  }

  /** swap_in on the word: the flags with S cleared and V set, under the number of the new page. */
  lemma SwapInWord(e: Pte, ppn: nat)
    ensures Clear(Encode(e) % 1024, PTE_S) >= 0
    ensures 1024 * ppn + Set(Clear(Encode(e) % 1024, PTE_S), PTE_V) == Encode(Pte(ppn, e.flags.(s := false, v := true)))
  {
    Masks();
    RetagWord(e, 8, 0, ppn, e.flags.(s := false, v := true));
  }

  lemma ClearFlag(f: Flags, g: Flags, clear: nat, number: nat)
    requires clear < 10
    requires forall k: nat :: k < 10 ==> FlagAt(g, k) == if k == clear then false else FlagAt(f, k)
    ensures Clear(Encode(Pte(number, f)), Pow2(clear)) == Encode(Pte(number, g))
  {
    UpdateAt(FlagList(f), number, clear);
    assert FlagList(g) == FlagList(f)[clear := false];
  }

  /** get_victim's clearing of the access bit. */
  lemma ClearAccessedWord(e: Pte)
    ensures Clear(Encode(e), PTE_A) == Encode(e.(flags := e.flags.(a := false)))
  {
    Masks();
    ClearFlag(e.flags, e.flags.(a := false), 6, e.ppn);
  }

  /** vmfault's entry for a page that is touched first: R, W and U, and V from mappages. */
  lemma FirstTouchWord(ppn: nat)
    ensures Encode(Pte(ppn, Flags(true, true, true, false, true, false, false, false, false, false))) == 1024 * ppn + PTE_V + PTE_R + PTE_W + PTE_U
  {
    PteWord(Pte(ppn, Flags(true, true, true, false, true, false, false, false, false, false)));
  }

  // ----- The state -----

  type Proc = nat
  datatype Key = Key(p: Proc, vpn: nat)

  /** An entry of the frame table; `in_use == 2`, set and cleared within one step, is not visible. */
  datatype Frame = Frame(inUse: bool, p: Proc, vpn: nat, ppn: nat, ref: bool)

  const FREE_FRAME := Frame(false, 0, 0, 0, false)

  /** `swap[i]` is the owner of slot `i` if it is in use; `free` is the kernel's free list. */
  datatype State = State(
    frames: seq<Frame>,
    swap: seq<Option<Proc>>,
    pt: map<Key, Pte>,
    mem: map<nat, Page>,
    free: seq<nat>,
    slots: seq<Page>)

  predicate Resident(s: State, k: Key) { k in s.pt && s.pt[k].flags.v }

  predicate Swapped(s: State, k: Key) { k in s.pt && s.pt[k].flags.s }

  function KeyOf(s: State, i: nat): (k: Key)
    requires i < |s.frames|
  {
    Key(s.frames[i].p, s.frames[i].vpn)
  }

  /** Frame `i` backs the valid entry `k`. */
  predicate Backs(s: State, i: nat, k: Key) {
    && i < |s.frames|
    && s.frames[i].inUse
    && k == KeyOf(s, i)
    && Resident(s, k)
    && s.pt[k].ppn == s.frames[i].ppn
  }

  predicate SlotHolds(s: State, j: nat, k: Key) {
    Swapped(s, k) && s.pt[k].ppn == j
  }

  ghost predicate FramesApart(s: State) {
    forall i, j :: 0 <= i < j < |s.frames| && s.frames[i].inUse && s.frames[j].inUse ==>
      s.frames[i].ppn != s.frames[j].ppn
  }

  ghost predicate FreeApart(s: State) {
    && (forall i, j :: 0 <= i < j < |s.free| ==> s.free[i] != s.free[j])
    && (forall i, j :: 0 <= i < |s.frames| && 0 <= j < |s.free| && s.frames[i].inUse ==> s.frames[i].ppn != s.free[j])
  }

  /** Frames in use match valid entries one to one, except the frames in `floating`, which
      kalloc_user has handed out and nobody has mapped yet. */
  ghost predicate FramesMatch(s: State, floating: set<nat>) {
    && FramesApart(s)
    && (forall i :: 0 <= i < |s.frames| && s.frames[i].inUse ==> s.frames[i].ppn in s.mem)
    && (forall i :: 0 <= i < |s.frames| && s.frames[i].inUse && i !in floating ==>
          Backs(s, i, KeyOf(s, i)))
    && (forall k :: Resident(s, k) ==> !s.pt[k].flags.s && exists i :: i !in floating && Backs(s, i, k))
  }

  /** Slots in use match swapped entries one to one. */
  ghost predicate SlotsMatch(s: State) {
    && |s.swap| == |s.slots|
    && (forall k :: Swapped(s, k) ==>
          !s.pt[k].flags.v && s.pt[k].ppn < |s.swap| && s.swap[s.pt[k].ppn] == Some(k.p))
    && (forall k, l :: Swapped(s, k) && Swapped(s, l) && s.pt[k].ppn == s.pt[l].ppn ==> k == l)
    && (forall j :: 0 <= j < |s.swap| && s.swap[j].Some? ==> exists k :: SlotHolds(s, j, k))
  }

  ghost predicate Inv(s: State, floating: set<nat>) {
    FramesMatch(s, floating) && FreeApart(s) && SlotsMatch(s)
  }

  /** A page as its process sees it: contents and permissions. */
  datatype View = View(page: Page, r: bool, w: bool, x: bool, u: bool)

  function Seen(page: Page, f: Flags): (v: View) { View(page, f.r, f.w, f.x, f.u) }

  /** What a process sees at a virtual page, wherever the page is. */
  function Logical(s: State, k: Key): (r: Option<View>)
    requires |s.swap| == |s.slots|
  {
    if Resident(s, k) && s.pt[k].ppn in s.mem then Some(Seen(s.mem[s.pt[k].ppn], s.pt[k].flags))
    else if Swapped(s, k) && s.pt[k].ppn < |s.slots| then Some(Seen(s.slots[s.pt[k].ppn], s.pt[k].flags))
    else None
  }

  ghost predicate SameMemory(s: State, t: State) {
    && |s.swap| == |s.slots| && |t.swap| == |t.slots|
    && forall k :: Logical(t, k) == Logical(s, k)
  }

  ghost predicate SameMemoryBut(s: State, t: State, k0: Key) {
    && |s.swap| == |s.slots| && |t.swap| == |t.slots|
    && forall k :: k != k0 ==> Logical(t, k) == Logical(s, k)
  }

  /** What was resident still is. */
  ghost predicate StillResident(s: State, t: State) {
    forall k :: Resident(s, k) ==> Resident(t, k)
  }

  ghost predicate StillResidentBut(s: State, t: State, k0: Key) {
    forall k :: k != k0 && Resident(s, k) ==> Resident(t, k)
  }

  /** The page `k0` was evicted, and no page brought in. */
  ghost predicate OnlyGone(s: State, t: State, k0: Key) {
    forall k :: Resident(t, k) <==> Resident(s, k) && k != k0
  }

  ghost predicate SameResident(s: State, t: State) {
    forall k :: Resident(t, k) <==> Resident(s, k)
  }

  // ----- Counting pages -----

  function FramesUsed(frames: seq<Frame>): (n: nat)
    ensures n <= |frames|
  {
    if frames == [] then 0 else FramesUsed(frames[..|frames| - 1]) + if frames[|frames| - 1].inUse then 1 else 0
  }

  /** The pages of memory that are free or in a frame; the others are in page tables. */
  function Pages(s: State): (n: nat) { |s.free| + FramesUsed(s.frames) }

  lemma {:induction false} FramesUsedUpdate(frames: seq<Frame>, i: nat, f: Frame)
    requires i < |frames|
    ensures FramesUsed(frames[i := f]) ==
            FramesUsed(frames) + (if f.inUse then 1 else 0) - (if frames[i].inUse then 1 else 0)
  {
    var last := |frames| - 1;
    if i < last {
      assert frames[i := f][..last] == frames[..last][i := f];
      FramesUsedUpdate(frames[..last], i, f);
    } else {
      assert frames[i := f][..last] == frames[..last];
    }
  }

  lemma {:induction false} FramesUsedSame(frames: seq<Frame>, frames': seq<Frame>)
    requires |frames| == |frames'| && forall i :: 0 <= i < |frames| ==> frames[i].inUse == frames'[i].inUse
    ensures FramesUsed(frames) == FramesUsed(frames')
  {
    if frames != [] {
      FramesUsedSame(frames[..|frames| - 1], frames'[..|frames| - 1]);
    }
  }

  lemma {:induction false} NoFramesUsed(frames: seq<Frame>)
    requires forall i :: 0 <= i < |frames| ==> !frames[i].inUse
    ensures FramesUsed(frames) == 0
  {
    if frames != [] {
      NoFramesUsed(frames[..|frames| - 1]);
    }
  }

  // ----- Steps on the state, and what they keep -----

  /** Clearing access bits and reference bits changes nothing that matters. */
  ghost predicate BitsOnly(s: State, t: State) {
    && t == s.(frames := t.frames, pt := t.pt)
    && |t.frames| == |s.frames|
    && (forall i :: 0 <= i < |s.frames| ==> t.frames[i] == s.frames[i].(ref := t.frames[i].ref))
    && t.pt.Keys == s.pt.Keys
    && (forall k :: k in s.pt ==> t.pt[k] == s.pt[k].(flags := s.pt[k].flags.(a := t.pt[k].flags.a)))
  }

  /** Swapped entries and slots stay matched when neither changes. */
  lemma SlotsKept(s: State, t: State)
    requires SlotsMatch(s) && t.swap == s.swap && |t.slots| == |s.slots|
    requires forall k :: Swapped(t, k) <==> Swapped(s, k)
    requires forall k :: Swapped(s, k) ==> k in t.pt && t.pt[k].ppn == s.pt[k].ppn && !t.pt[k].flags.v
    ensures SlotsMatch(t)
  {
    forall j | 0 <= j < |t.swap| && t.swap[j].Some? ensures exists k :: SlotHolds(t, j, k) {
      var k :| SlotHolds(s, j, k);
      assert SlotHolds(t, j, k);
    }
  }

  /** The frame behind a resident page. */
  lemma FrameBehind(s: State, k: Key, floating: set<nat>) returns (i: nat)
    requires FramesMatch(s, floating) && Resident(s, k)
    ensures i !in floating && Backs(s, i, k) && s.pt[k].ppn in s.mem && !s.pt[k].flags.s
  {
    i :| i !in floating && Backs(s, i, k);
  }

  lemma BitsOnlyFrames(s: State, t: State, floating: set<nat>)
    requires FramesMatch(s, floating) && BitsOnly(s, t)
    ensures FramesMatch(t, floating)
  {
    forall i | 0 <= i < |t.frames| && t.frames[i].inUse && i !in floating ensures Backs(t, i, KeyOf(t, i)) {
      assert Backs(s, i, KeyOf(s, i));
    }
    forall k | Resident(t, k) ensures !t.pt[k].flags.s && exists i :: i !in floating && Backs(t, i, k) {
      var i := FrameBehind(s, k, floating);
      assert Backs(t, i, k);
    }
  }

  lemma BitsOnlyKeeps(s: State, t: State, floating: set<nat>)
    requires Inv(s, floating) && BitsOnly(s, t)
    ensures Inv(t, floating) && SameMemory(s, t) && SameResident(s, t)
  {
    BitsOnlyFrames(s, t, floating);
    SlotsKept(s, t);
  }

  /** A store to a resident page: the page has new contents, and its entry is accessed and dirty. */
  function StoreTo(s: State, k: Key, page: Page): (t: State)
    requires k in s.pt
  {
    var e := s.pt[k];
    s.(mem := s.mem[e.ppn := page], pt := s.pt[k := e.(flags := e.flags.(a := true, d := true))])
  }

  lemma StoreFrames(s: State, k: Key, page: Page)
    requires FramesMatch(s, {}) && Resident(s, k)
    ensures FramesMatch(StoreTo(s, k, page), {})
  {
    var t := StoreTo(s, k, page);
    forall l | Resident(t, l) ensures !t.pt[l].flags.s && exists j :: j !in {} && Backs(t, j, l) {
      var j := FrameBehind(s, l, {});
      assert j !in {} && Backs(t, j, l);
    }
    forall j | 0 <= j < |t.frames| && t.frames[j].inUse && j !in {} ensures Backs(t, j, KeyOf(t, j)) {
      assert Backs(s, j, KeyOf(s, j));
    }
  }

  lemma StoreKeeps(s: State, k: Key, page: Page)
    requires Inv(s, {}) && Resident(s, k)
    ensures var t := StoreTo(s, k, page);
            && Inv(t, {}) && Resident(t, k)
            && SameMemoryBut(s, t, k) && Logical(t, k) == Some(Seen(page, s.pt[k].flags)) && StillResident(s, t)
  {
    var t := StoreTo(s, k, page);
    StoreFrames(s, k, page);
    SlotsKept(s, t);
    var i := FrameBehind(s, k, {});
    forall l | l != k ensures Logical(t, l) == Logical(s, l) {
      if Resident(s, l) {
        var j := FrameBehind(s, l, {});
      }
    }
  }

  /** Frame `i` is free and takes the first page of the free list. */
  function TakeFree(s: State, i: nat, k: Key): (t: State)
    requires i < |s.frames| && s.free != []
  {
    s.(frames := s.frames[i := Frame(true, k.p, k.vpn, s.free[0], true)],
       free := s.free[1..],
       mem := s.mem[s.free[0] := Filled(5)])
  }

  lemma TakeFreeFrames(s: State, i: nat, k: Key)
    requires FramesMatch(s, {}) && FreeApart(s) && i < |s.frames| && !s.frames[i].inUse && s.free != []
    ensures FramesMatch(TakeFree(s, i, k), {i}) && FreeApart(TakeFree(s, i, k))
  {
    var t := TakeFree(s, i, k);
    forall l | Resident(t, l) ensures !t.pt[l].flags.s && exists j :: j !in {i} && Backs(t, j, l) {
      var j := FrameBehind(s, l, {});
      assert Backs(t, j, l);
    }
  }

  lemma TakeFreeKeeps(s: State, i: nat, k: Key)
    requires Inv(s, {}) && i < |s.frames| && !s.frames[i].inUse && s.free != []
    ensures Inv(TakeFree(s, i, k), {i}) && SameMemory(s, TakeFree(s, i, k))
  {
    var t := TakeFree(s, i, k);
    TakeFreeFrames(s, i, k);
    SlotsKept(s, t);
    forall l ensures Logical(t, l) == Logical(s, l) {
      if Resident(s, l) {
        var j := FrameBehind(s, l, {});
      }
    }
  }

  /** swap_out of the page in frame `i` to slot `j`, and the frame handed to `k`. */
  function Evict(s: State, i: nat, j: nat, k: Key): (t: State)
    requires i < |s.frames| && s.frames[i].inUse && s.frames[i].ppn in s.mem
    requires KeyOf(s, i) in s.pt
    requires j < |s.swap| == |s.slots|
  {
    var f := s.frames[i];
    var old_ := Key(f.p, f.vpn);
    s.(swap := s.swap[j := Some(f.p)],
       pt := s.pt[old_ := Pte(j, s.pt[old_].flags.(v := false, s := true))],
       slots := s.slots[j := s.mem[f.ppn]],
       mem := s.mem[f.ppn := Filled(5)],
       frames := s.frames[i := Frame(true, k.p, k.vpn, f.ppn, true)])
  }

  lemma EvictSlots(s: State, i: nat, j: nat, k: Key)
    requires SlotsMatch(s) && j < |s.swap| && s.swap[j] == None
    requires i < |s.frames| && s.frames[i].ppn in s.mem && Backs(s, i, KeyOf(s, i)) && !Swapped(s, KeyOf(s, i))
    ensures SlotsMatch(Evict(s, i, j, k))
  {
    var t := Evict(s, i, j, k);
    forall m | 0 <= m < |t.swap| && t.swap[m].Some? ensures exists l :: SlotHolds(t, m, l) {
      if m == j {
        assert SlotHolds(t, m, KeyOf(s, i));
      } else {
        var l :| SlotHolds(s, m, l);
        assert SlotHolds(t, m, l);
      }
    }
  }

  lemma EvictFrames(s: State, i: nat, j: nat, k: Key)
    requires FramesMatch(s, {}) && FreeApart(s) && i < |s.frames| && s.frames[i].inUse && j < |s.swap| == |s.slots|
    ensures Backs(s, i, KeyOf(s, i)) && !Swapped(s, KeyOf(s, i))
    ensures FramesMatch(Evict(s, i, j, k), {i}) && FreeApart(Evict(s, i, j, k))
  {
    assert Backs(s, i, KeyOf(s, i));
    var t := Evict(s, i, j, k);
    forall l | Resident(t, l) ensures !t.pt[l].flags.s && exists m :: m !in {i} && Backs(t, m, l) {
      var m := FrameBehind(s, l, {});
      assert Backs(t, m, l);
    }
  }

  lemma EvictKeeps(s: State, i: nat, j: nat, k: Key)
    requires Inv(s, {}) && i < |s.frames| && s.frames[i].inUse && j < |s.swap| && s.swap[j] == None
    ensures Backs(s, i, KeyOf(s, i))
    ensures Inv(Evict(s, i, j, k), {i}) && SameMemory(s, Evict(s, i, j, k)) && OnlyGone(s, Evict(s, i, j, k), KeyOf(s, i))
  {
    EvictFrames(s, i, j, k);
    EvictSlots(s, i, j, k);
    forall l ensures Logical(Evict(s, i, j, k), l) == Logical(s, l) {
      if Resident(s, l) {
        var m := FrameBehind(s, l, {});
      }
    }
  }

  /** mappages of the page in the floating frame `i`, which now holds `page`. */
  function MapNew(s: State, i: nat, page: Page, flags: Flags): (t: State)
    requires i < |s.frames|
  {
    s.(mem := s.mem[s.frames[i].ppn := page],
       pt := s.pt[KeyOf(s, i) := Pte(s.frames[i].ppn, flags.(v := true, s := false))])
  }

  lemma MapNewFrames(s: State, i: nat, page: Page, flags: Flags)
    requires FramesMatch(s, {i}) && i < |s.frames| && s.frames[i].inUse && !Resident(s, KeyOf(s, i))
    ensures FramesMatch(MapNew(s, i, page, flags), {})
  {
    var k, t := KeyOf(s, i), MapNew(s, i, page, flags);
    assert Backs(t, i, k);
    forall l | Resident(t, l) ensures !t.pt[l].flags.s && exists m :: m !in {} && Backs(t, m, l) {
      if l == k {
        assert i !in {} && Backs(t, i, k);
      } else {
        var m := FrameBehind(s, l, {i});
        assert m !in {} && Backs(t, m, l);
      }
    }
    forall m | 0 <= m < |t.frames| && t.frames[m].inUse && m !in {}
      ensures Backs(t, m, KeyOf(t, m))
    {
      if m != i {
        assert Backs(s, m, KeyOf(s, m));
      }
    }
  }

  lemma MapNewKeeps(s: State, i: nat, page: Page, flags: Flags)
    requires Inv(s, {i}) && i < |s.frames| && s.frames[i].inUse
    requires !Resident(s, KeyOf(s, i)) && !Swapped(s, KeyOf(s, i))
    ensures var t := MapNew(s, i, page, flags);
            && Inv(t, {})
            && SameMemoryBut(s, t, KeyOf(s, i))
            && Logical(t, KeyOf(s, i)) == Some(Seen(page, flags))
            && StillResident(s, t)
  {
    var k, t := KeyOf(s, i), MapNew(s, i, page, flags);
    MapNewFrames(s, i, page, flags);
    SlotsKept(s, t);
    forall l | l != k ensures Logical(t, l) == Logical(s, l) {
      if Resident(s, l) {
        var m := FrameBehind(s, l, {i});
      }
    }
  }

  /** swap_in of the page of the floating frame `i`. */
  function SwapIn(s: State, i: nat): (t: State)
    requires i < |s.frames| && |s.swap| == |s.slots|
    requires Swapped(s, KeyOf(s, i)) && s.pt[KeyOf(s, i)].ppn < |s.slots|
  {
    var e := s.pt[KeyOf(s, i)];
    s.(mem := s.mem[s.frames[i].ppn := s.slots[e.ppn]],
       swap := s.swap[e.ppn := None],
       pt := s.pt[KeyOf(s, i) := Pte(s.frames[i].ppn, e.flags.(s := false, v := true))])
  }

  lemma SwapInKeeps(s: State, i: nat)
    requires Inv(s, {i}) && i < |s.frames| && s.frames[i].inUse && Swapped(s, KeyOf(s, i))
    ensures Inv(SwapIn(s, i), {}) && SameMemory(s, SwapIn(s, i)) && Resident(SwapIn(s, i), KeyOf(s, i))
    ensures StillResident(s, SwapIn(s, i))
  {
    var k := KeyOf(s, i);
    var j := s.pt[k].ppn;
    var u := ReleaseSlot(s, k);
    ReleaseSlotKeeps(s, k, {i});
    var t := MapNew(u, i, s.slots[j], s.pt[k].flags);
    MapNewKeeps(u, i, s.slots[j], s.pt[k].flags);
    assert t == SwapIn(s, i);
    forall l ensures Logical(t, l) == Logical(s, l) {
      if l != k {
        assert Logical(u, l) == Logical(s, l);
      }
    }
  }

  /** A swapped entry is cleared and its slot given back. */
  function ReleaseSlot(s: State, k: Key): (t: State)
    requires Swapped(s, k) && s.pt[k].ppn < |s.swap|
  {
    s.(swap := s.swap[s.pt[k].ppn := None], pt := s.pt - {k})
  }

  lemma ReleaseSlotSlots(s: State, k: Key)
    requires SlotsMatch(s) && Swapped(s, k)
    ensures SlotsMatch(ReleaseSlot(s, k))
  {
    var t := ReleaseSlot(s, k);
    forall m | 0 <= m < |t.swap| && t.swap[m].Some? ensures exists l :: SlotHolds(t, m, l) {
      var l :| SlotHolds(s, m, l);
      assert SlotHolds(t, m, l);
    }
  }

  /** Entries that name no frame may go. */
  lemma FramesKept(s: State, t: State, floating: set<nat>)
    requires FramesMatch(s, floating) && t.frames == s.frames && t.mem == s.mem
    requires forall l :: Resident(t, l) <==> Resident(s, l)
    requires forall l :: Resident(s, l) ==> l in t.pt && t.pt[l] == s.pt[l]
    ensures FramesMatch(t, floating)
  {
    forall l | Resident(t, l) ensures !t.pt[l].flags.s && exists m :: m !in floating && Backs(t, m, l) {
      var m := FrameBehind(s, l, floating);
      assert Backs(t, m, l);
    }
    forall m | 0 <= m < |t.frames| && t.frames[m].inUse && m !in floating ensures Backs(t, m, KeyOf(t, m)) {
      assert Backs(s, m, KeyOf(s, m));
    }
  }

  lemma ReleaseSlotKeeps(s: State, k: Key, floating: set<nat>)
    requires Inv(s, floating) && Swapped(s, k)
    ensures var t := ReleaseSlot(s, k);
            Inv(t, floating) && SameMemoryBut(s, t, k) && Logical(t, k) == None && StillResidentBut(s, t, k)
  {
    FramesKept(s, ReleaseSlot(s, k), floating);
    ReleaseSlotSlots(s, k);
  }

  /** kfree_user of the page in frame `i`: the frame is free and the page, filled with 1, is
      back on the free list. */
  function DropFrame(s: State, i: nat): (t: State)
    requires i < |s.frames|
  {
    var f := s.frames[i];
    s.(frames := s.frames[i := FREE_FRAME], free := [f.ppn] + s.free, mem := s.mem[f.ppn := Filled(1)])
  }

  lemma DropFrameFrames(s: State, i: nat)
    requires FramesMatch(s, {i}) && FreeApart(s) && i < |s.frames| && s.frames[i].inUse
    ensures FramesMatch(DropFrame(s, i), {}) && FreeApart(DropFrame(s, i))
  {
    var t := DropFrame(s, i);
    forall l | Resident(t, l) ensures !t.pt[l].flags.s && exists m :: m !in {} && Backs(t, m, l) {
      var m := FrameBehind(s, l, {i});
      assert m !in {} && Backs(t, m, l);
    }
    forall m | 0 <= m < |t.frames| && t.frames[m].inUse && m !in {} ensures Backs(t, m, KeyOf(t, m)) {
      assert Backs(s, m, KeyOf(s, m));
    }
  }

  lemma DropFrameKeeps(s: State, i: nat)
    requires Inv(s, {i}) && i < |s.frames| && s.frames[i].inUse
    ensures Inv(DropFrame(s, i), {}) && SameMemory(s, DropFrame(s, i))
  {
    var t := DropFrame(s, i);
    DropFrameFrames(s, i);
    SlotsKept(s, t);
    forall l ensures Logical(t, l) == Logical(s, l) {
      if Resident(s, l) {
        var m := FrameBehind(s, l, {i});
      }
    }
  }

  lemma ClearResidentFrames(s: State, k: Key, i: nat)
    requires FramesMatch(s, {}) && Backs(s, i, k)
    ensures FramesMatch(s.(pt := s.pt - {k}), {i})
  {
    var t := s.(pt := s.pt - {k});
    forall l | Resident(t, l) ensures !t.pt[l].flags.s && exists m :: m !in {i} && Backs(t, m, l) {
      var m := FrameBehind(s, l, {});
      assert m !in {i} && Backs(t, m, l);
    }
    forall m | 0 <= m < |t.frames| && t.frames[m].inUse && m !in {i} ensures Backs(t, m, KeyOf(t, m)) {
      assert Backs(s, m, KeyOf(s, m));
    }
  }

  /** Clearing a valid entry leaves its frame floating. */
  lemma ClearResidentKeeps(s: State, k: Key, i: nat)
    requires Inv(s, {}) && Backs(s, i, k)
    ensures var t := s.(pt := s.pt - {k});
            Inv(t, {i}) && SameMemoryBut(s, t, k) && Logical(t, k) == None && StillResidentBut(s, t, k)
  {
    ClearResidentFrames(s, k, i);
    SlotsKept(s, s.(pt := s.pt - {k}));
  }

  /** uvmcopy of a swapped page: slot `j` receives a copy of the parent's slot. */
  function CopySlot(s: State, from: Key, to: Key, j: nat): (t: State)
    requires Swapped(s, from) && s.pt[from].ppn < |s.slots| && j < |s.swap| == |s.slots|
  {
    var e := s.pt[from];
    s.(swap := s.swap[j := Some(to.p)],
       slots := s.slots[j := s.slots[e.ppn]],
       pt := s.pt[to := Pte(j, e.flags.(v := false, s := true))])
  }

  lemma CopySlotSlots(s: State, from: Key, to: Key, j: nat)
    requires SlotsMatch(s) && Swapped(s, from) && !Resident(s, to) && !Swapped(s, to)
    requires j < |s.swap| && s.swap[j] == None
    ensures SlotsMatch(CopySlot(s, from, to, j))
  {
    var t := CopySlot(s, from, to, j);
    forall m | 0 <= m < |t.swap| && t.swap[m].Some? ensures exists l :: SlotHolds(t, m, l) {
      if m == j {
        assert SlotHolds(t, m, to);
      } else {
        var l :| SlotHolds(s, m, l);
        assert SlotHolds(t, m, l);
      }
    }
  }

  lemma CopySlotKeeps(s: State, from: Key, to: Key, j: nat)
    requires Inv(s, {}) && Swapped(s, from) && !Resident(s, to) && !Swapped(s, to)
    requires j < |s.swap| && s.swap[j] == None
    ensures var t := CopySlot(s, from, to, j);
            && Inv(t, {})
            && SameMemoryBut(s, t, to)
            && Logical(t, to) == Logical(s, from)
            && StillResident(s, t)
  {
    FramesKept(s, CopySlot(s, from, to, j), {});
    CopySlotSlots(s, from, to, j);
  }

  lemma FreeListFrames(s: State, t: State, floating: set<nat>)
    requires FramesMatch(s, floating) && FreeApart(s) && t.frames == s.frames && t.pt == s.pt
    requires forall a :: a in s.mem && a !in s.free ==> a in t.mem
    ensures FramesMatch(t, floating)
  {
    forall l | Resident(t, l) ensures !t.pt[l].flags.s && exists m :: m !in floating && Backs(t, m, l) {
      var m := FrameBehind(s, l, floating);
      assert Backs(t, m, l);
    }
    forall m | 0 <= m < |t.frames| && t.frames[m].inUse && m !in floating ensures Backs(t, m, KeyOf(t, m)) {
      assert Backs(s, m, KeyOf(s, m));
    }
  }

  /** Pages leaving the free list (for page-table pages), or junk written to pages on it. */
  lemma FreeListKeeps(s: State, t: State, floating: set<nat>)
    requires Inv(s, floating)
    requires exists n :: 0 <= n <= |s.free| && t == s.(free := s.free[n..], mem := t.mem)
    requires forall a :: a in s.mem && a !in s.free ==> a in t.mem && t.mem[a] == s.mem[a]
    ensures Inv(t, floating) && SameMemory(s, t)
  {
    FreeListFrames(s, t, floating);
    SlotsKept(s, t);
    forall l ensures Logical(t, l) == Logical(s, l) {
      if Resident(s, l) {
        var m := FrameBehind(s, l, floating);
      }
    }
  }
}
