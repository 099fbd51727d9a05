/** Swap space on the disk array: pages in slots, written and read through the RAID code
    (swap_out and swap_in in kernel/kalloc.c, kernel/raid.c). */
module SwapSpace {
  import opened Raid

  predicate SlotIs(c: Contents, slots: seq<Page>, j: Slot)
    requires j < |slots|
  {
    forall i :: 0 <= i < BLOCKS_PER_PAGE ==> c[LogicalBlock(j, i)] == slots[j][i]
  }

  /** The contents `c` of the array are the pages `slots`. */
  ghost predicate Stores(c: Contents, slots: seq<Page>) {
    |slots| <= MAX_SWAP_PAGES && forall j: Slot :: j < |slots| ==> SlotIs(c, slots, j)
  }

  lemma PutStores(c: Contents, slots: seq<Page>, slot: Slot, page: Page)
    requires Stores(c, slots) && slot < |slots|
    ensures Stores(PutPage(c, slot, page, BLOCKS_PER_PAGE), slots[slot := page])
  {
    var c', slots' := PutPage(c, slot, page, BLOCKS_PER_PAGE), slots[slot := page];
    forall j: Slot | j < |slots'| ensures SlotIs(c', slots', j) {
      assert SlotIs(c, slots, j);
      forall i | 0 <= i < BLOCKS_PER_PAGE ensures c'[LogicalBlock(j, i)] == slots'[j][i] {
        PutPageAt(c, slot, page, BLOCKS_PER_PAGE, LogicalBlock(j, i));
      }
    }
  }

  /** No page is lost: at most one disk has failed, and none in an array without redundancy. */
  predicate Reliable(mode: Mode, failed: int) { -1 <= failed < NUM_DISKS && (mode == Striping ==> failed == -1) }

  /** A slot read through the array is the page. */
  lemma GetReads(a: DiskArray, mode: Mode, failed: int, c: Contents, slots: seq<Page>, slot: Slot)
    requires Holds(a, mode, failed, c) && Reliable(mode, failed) && Stores(c, slots) && slot < |slots|
    ensures ReadPage(a, mode, failed, slot) == slots[slot]
  {
    assert SlotIs(c, slots, slot);
    var page := ReadPage(a, mode, failed, slot);
    forall i | 0 <= i < BLOCKS_PER_PAGE ensures page[i] == slots[slot][i] {
      ReadPageAt(a, mode, failed, slot, i);
      ReadReturnsContents(a, mode, failed, c, LogicalBlock(slot, i));
    }
  }

  class Swap {
    const disks: Array
    const mode: Mode
    var failed: int              // the failed disk, or -1
    ghost var slots: seq<Page>
    ghost var c: Contents

    ghost predicate Valid()
      reads this, disks
    {
      Reliable(mode, failed) && Holds(disks.blocks, mode, failed, c) && Stores(c, slots)
    }

    /** A zeroed array of `n` slots with no failed disk. */
    constructor (n: nat, mode: Mode)
      requires n <= MAX_SWAP_PAGES
      ensures Valid() && fresh(disks) && this.mode == mode && failed == -1 && slots == seq(n, _ => ZERO_PAGE)
    {
      disks := new Array();
      this.mode, failed, slots, c := mode, -1, seq(n, _ => ZERO_PAGE), ZeroContents();
      new;
      ZeroHolds(mode);
    }

    method Put(slot: Slot, page: Page)
      requires Valid() && slot < |slots|
      modifies this`slots, this`c, disks
      ensures Valid() && slots == old(slots)[slot := page]
    {
      WritePageHolds(disks.blocks, mode, failed, c, slot, page, BLOCKS_PER_PAGE);
      PutStores(c, slots, slot, page);
      disks.Write(mode, failed, slot, page);
      slots, c := slots[slot := page], PutPage(c, slot, page, BLOCKS_PER_PAGE);
    }

    method Get(slot: Slot) returns (page: Page)
      requires Valid() && slot < |slots|
      ensures page == slots[slot]
    {
      GetReads(disks.blocks, mode, failed, c, slots, slot);
      page := disks.Read(mode, failed, slot);
    }

    /** The first disk to fail, whatever it holds from then on: unless the array is striped, no
        page is lost. */
    method Fail(disk: DiskNo, junk: seq<Block>)
      requires Valid()
      modifies this`failed, disks
      ensures mode != Striping ==> Valid()
      ensures failed == if old(failed) == -1 then disk else old(failed)
    {
      if failed == -1 {
        FailureHolds(disks.blocks, Garble(disks.blocks, disk, junk), mode, c, disk);
        disks.blocks := Garble(disks.blocks, disk, junk);
        failed := disk;
      }
    }
  }
}
