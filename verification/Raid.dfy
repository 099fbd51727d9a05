/** The simulated disk array under swap (kernel/raid.c, kernel/raid.h).

    A swap slot holds one page of four disk blocks.  The array is a region of one real disk cut
    into NUM_DISKS simulated disks of SIM_DISK_SIZE blocks.  `failed` is the number of the
    failed simulated disk, or -1.  A block is given by its bits, so the byte-wise XOR of the
    parity code is `!=` on each bit. */
module Raid {

  const BSIZE := 1024
  const BITS := 8 * BSIZE
  const NUM_DISKS := 4
  const SIM_DISK_SIZE := 10000
  const SWAP_START_BLOCK := 2000
  const MAX_SWAP_PAGES := 1024
  const BLOCKS_PER_PAGE := 4
  const DISK_BLOCKS := 42000 // SWAP_START_BLOCK + NUM_DISKS * SIM_DISK_SIZE

  /** The logical blocks of all slots, rounded up to whole parity stripes. */
  const STRIPES := 1366
  const LOGICAL_BLOCKS := 4098

  type Block = b: seq<bool> | |b| == BITS witness seq(BITS, _ => false)
  type Page = p: seq<Block> | |p| == BLOCKS_PER_PAGE witness seq(BLOCKS_PER_PAGE, _ => Zero())
  type DiskArray = a: seq<Block> | |a| == DISK_BLOCKS witness seq(DISK_BLOCKS, _ => Zero())
  type Contents = c: seq<Block> | |c| == LOGICAL_BLOCKS witness seq(LOGICAL_BLOCKS, _ => Zero())

  type Slot = s: int | 0 <= s < MAX_SWAP_PAGES

  /** RAID levels 0, 1, 5 and 10. */
  datatype Mode = Striping | Mirroring | Parity | StripedMirrors

  function Zero(): (b: Block) { seq(BITS, _ => false) }

  function Xor(a: Block, b: Block): (r: Block)
    ensures forall j :: 0 <= j < BITS ==> r[j] == (a[j] != b[j])
  {
    seq(BITS, j requires 0 <= j < BITS => (a[j] != b[j]))
  }

  // ----- Address arithmetic -----

  function Addr(disk: nat, offset: nat): (a: nat)
    requires disk <= NUM_DISKS && offset < SIM_DISK_SIZE
    ensures SWAP_START_BLOCK <= a && (disk < NUM_DISKS ==> a < DISK_BLOCKS)
  {
    SWAP_START_BLOCK + disk * SIM_DISK_SIZE + offset
  }

  function LogicalBlock(slot: Slot, i: nat): (lb: nat)
    requires i < BLOCKS_PER_PAGE
    ensures lb < LOGICAL_BLOCKS && lb / BLOCKS_PER_PAGE == slot && lb % BLOCKS_PER_PAGE == i
  {
    slot * BLOCKS_PER_PAGE + i
  }

  function StripeOf(lb: nat): (offset: nat)
    requires lb < LOGICAL_BLOCKS
    ensures offset < STRIPES
  {
    lb / (NUM_DISKS - 1)
  }

  function MirrorPair(lb: nat): (disk: nat) ensures disk < NUM_DISKS - 1 { 2 * (lb % (NUM_DISKS / 2)) }

  function MirrorOffset(lb: nat): (offset: nat)
    requires lb < LOGICAL_BLOCKS
    ensures offset < SIM_DISK_SIZE
  {
    lb / (NUM_DISKS / 2)
  }

  function ParityDisk(offset: nat): (disk: nat) ensures disk < NUM_DISKS { offset % NUM_DISKS }

  function DataDisk(lb: nat): (disk: nat)
    requires lb < LOGICAL_BLOCKS
    ensures disk < NUM_DISKS && disk != ParityDisk(StripeOf(lb))
  {
    var d := lb % (NUM_DISKS - 1);
    if d >= ParityDisk(StripeOf(lb)) then d + 1 else d
  }

  /** The logical block that lives on data disk `disk` of stripe `offset`. */
  function BlockAt(offset: nat, disk: nat): (lb: nat)
    requires offset < STRIPES && disk < NUM_DISKS && disk != ParityDisk(offset)
    ensures lb < LOGICAL_BLOCKS
  {
    offset * (NUM_DISKS - 1) + if disk > ParityDisk(offset) then disk - 1 else disk
  }

  lemma AddrInjective(disk: nat, offset: nat, disk': nat, offset': nat)
    requires disk < NUM_DISKS && offset < SIM_DISK_SIZE && disk' < NUM_DISKS && offset' < SIM_DISK_SIZE
    ensures Addr(disk, offset) == Addr(disk', offset') ==> disk == disk' && offset == offset'
  {
  }

  lemma BlockAtPlace(lb: nat)
    requires lb < LOGICAL_BLOCKS
    ensures BlockAt(StripeOf(lb), DataDisk(lb)) == lb
  {
  }

  /** The map from logical blocks to disk blocks is injective, stays inside the array, and never
      meets a parity block of any stripe. */
  lemma DataPlacement(lb: nat, lb': nat, offset: nat)
    requires lb < LOGICAL_BLOCKS && lb' < LOGICAL_BLOCKS && offset < SIM_DISK_SIZE
    ensures SWAP_START_BLOCK <= Addr(DataDisk(lb), StripeOf(lb)) < DISK_BLOCKS
    ensures Addr(DataDisk(lb), StripeOf(lb)) == Addr(DataDisk(lb'), StripeOf(lb')) ==> lb == lb'
    ensures Addr(DataDisk(lb), StripeOf(lb)) != Addr(ParityDisk(offset), offset)
    ensures BlockAt(StripeOf(lb), DataDisk(lb)) == lb
  {
    AddrInjective(DataDisk(lb), StripeOf(lb), DataDisk(lb'), StripeOf(lb'));
    AddrInjective(DataDisk(lb), StripeOf(lb), ParityDisk(offset), offset);
    BlockAtPlace(lb);
    BlockAtPlace(lb');
  }

  lemma MirrorPlacement(lb: nat, lb': nat)
    requires lb < LOGICAL_BLOCKS && lb' < LOGICAL_BLOCKS
    ensures SWAP_START_BLOCK <= Addr(MirrorPair(lb), MirrorOffset(lb))
    ensures Addr(MirrorPair(lb) + 1, MirrorOffset(lb)) < DISK_BLOCKS
    ensures Addr(MirrorPair(lb), MirrorOffset(lb)) == Addr(MirrorPair(lb'), MirrorOffset(lb')) ==> lb == lb'
    ensures Addr(MirrorPair(lb), MirrorOffset(lb)) != Addr(MirrorPair(lb') + 1, MirrorOffset(lb'))
  {
  }

  // ----- What one block write and one block read do -----

  /** The blocks of a stripe, one per disk. */
  function Row(a: DiskArray, offset: nat): (row: seq<Block>)
    requires offset < SIM_DISK_SIZE
    ensures |row| == NUM_DISKS
    ensures forall d :: 0 <= d < NUM_DISKS ==> row[d] == a[Addr(d, offset)]
  {
    seq(NUM_DISKS, d requires 0 <= d < NUM_DISKS => a[Addr(d, offset)])
  }

  /** XOR onto `init` of the blocks of a row that are not on a disk in `skip`. */
  function RowXor(row: seq<Block>, skip: set<int>, init: Block): (r: Block) {
    if row == [] then init
    else
      var d := |row| - 1;
      var acc := RowXor(row[..d], skip, init);
      if d in skip then acc else Xor(acc, row[d])
  }

  function WriteMirrored(a: DiskArray, failed: int, lb: nat, data: Block): (r: DiskArray)
    requires lb < LOGICAL_BLOCKS
  {
    var disk, offset := MirrorPair(lb), MirrorOffset(lb);
    var a1 := if disk != failed then a[Addr(disk, offset) := data] else a;
    if disk + 1 != failed then a1[Addr(disk + 1, offset) := data] else a1
  }

  function WriteParity(a: DiskArray, failed: int, lb: nat, data: Block): (r: DiskArray)
    requires lb < LOGICAL_BLOCKS
  {
    var offset := StripeOf(lb);
    var dataAt, parityAt := Addr(DataDisk(lb), offset), Addr(ParityDisk(offset), offset);
    if failed == DataDisk(lb) then
      a[parityAt := RowXor(Row(a, offset), {failed, ParityDisk(offset)}, data)]
    else if failed == ParityDisk(offset) then
      a[dataAt := data]
    else
      a[dataAt := data][parityAt := Xor(a[parityAt], Xor(a[dataAt], data))]
  }

  function WriteBlock(a: DiskArray, mode: Mode, failed: int, lb: nat, data: Block): (r: DiskArray)
    requires lb < LOGICAL_BLOCKS
  {
    match mode
    case Striping =>
      if lb % NUM_DISKS != failed then a[Addr(lb % NUM_DISKS, lb / NUM_DISKS) := data] else a
    case Mirroring => WriteMirrored(a, failed, lb, data)
    case StripedMirrors => WriteMirrored(a, failed, lb, data)
    case Parity => WriteParity(a, failed, lb, data)
  }

  function ReadBlock(a: DiskArray, mode: Mode, failed: int, lb: nat): (r: Block)
    requires lb < LOGICAL_BLOCKS
  {
    match mode
    case Striping =>
      if lb % NUM_DISKS != failed then a[Addr(lb % NUM_DISKS, lb / NUM_DISKS)] else Zero()
    case Mirroring => ReadMirrored(a, failed, lb)
    case StripedMirrors => ReadMirrored(a, failed, lb)
    case Parity =>
      var offset := StripeOf(lb);
      if failed != DataDisk(lb) then a[Addr(DataDisk(lb), offset)]
      else RowXor(Row(a, offset), {failed}, Zero())
  }

  function ReadMirrored(a: DiskArray, failed: int, lb: nat): (r: Block)
    requires lb < LOGICAL_BLOCKS
  {
    var disk, offset := MirrorPair(lb), MirrorOffset(lb);
    a[Addr(if failed == disk then disk + 1 else disk, offset)]
  }

  function WritePage(a: DiskArray, mode: Mode, failed: int, slot: Slot, page: Page, n: nat): (r: DiskArray)
    requires n <= BLOCKS_PER_PAGE
  {
    if n == 0 then a
    else WriteBlock(WritePage(a, mode, failed, slot, page, n - 1), mode, failed, LogicalBlock(slot, n - 1), page[n - 1])
  }

  lemma WritePageStep(a: DiskArray, mode: Mode, failed: int, slot: Slot, page: Page, i: nat)
    requires i < BLOCKS_PER_PAGE
    ensures WritePage(a, mode, failed, slot, page, i + 1) ==
            WriteBlock(WritePage(a, mode, failed, slot, page, i), mode, failed, LogicalBlock(slot, i), page[i])
  {
  }

  function ReadPage(a: DiskArray, mode: Mode, failed: int, slot: Slot): (r: Page)
  {
    [ReadBlock(a, mode, failed, LogicalBlock(slot, 0)), ReadBlock(a, mode, failed, LogicalBlock(slot, 1)),
     ReadBlock(a, mode, failed, LogicalBlock(slot, 2)), ReadBlock(a, mode, failed, LogicalBlock(slot, 3))]
  }

  // ----- The invariant: the array stands for plain contents -----

  function XorBits(s: seq<bool>): (r: bool) {
    s != [] && XorBits(s[..|s| - 1]) != s[|s| - 1]
  }

  /** Bit `j` of each disk of a stripe, taking data from `c` and parity from the array. */
  function Column(a: DiskArray, c: Contents, offset: nat, j: nat): (s: seq<bool>)
    requires offset < STRIPES && j < BITS
  {
    seq(NUM_DISKS, d requires 0 <= d < NUM_DISKS =>
      if d == ParityDisk(offset) then a[Addr(d, offset)][j] else c[BlockAt(offset, d)][j])
  }

  /** The bits of a stripe XOR to zero. */
  ghost predicate Balanced(a: DiskArray, c: Contents, offset: nat)
    requires offset < STRIPES
  {
    forall j :: 0 <= j < BITS ==> !XorBits(Column(a, c, offset, j))
  }

  /** Every surviving copy agrees with `c`, and every surviving parity block balances its stripe. */
  ghost predicate Holds(a: DiskArray, mode: Mode, failed: int, c: Contents) {
    match mode
    case Striping => HoldsStriped(a, failed, c)
    case Mirroring => HoldsMirrored(a, failed, c)
    case StripedMirrors => HoldsMirrored(a, failed, c)
    case Parity => HoldsParity(a, failed, c)
  }

  ghost predicate HoldsParity(a: DiskArray, failed: int, c: Contents) {
    && (forall lb :: 0 <= lb < LOGICAL_BLOCKS && DataDisk(lb) != failed ==>
          a[Addr(DataDisk(lb), StripeOf(lb))] == c[lb])
    && (forall offset :: 0 <= offset < STRIPES && ParityDisk(offset) != failed ==> Balanced(a, c, offset))
  }

  ghost predicate HoldsStriped(a: DiskArray, failed: int, c: Contents) {
    forall lb :: 0 <= lb < LOGICAL_BLOCKS && lb % NUM_DISKS != failed ==>
      a[Addr(lb % NUM_DISKS, lb / NUM_DISKS)] == c[lb]
  }

  ghost predicate HoldsMirrored(a: DiskArray, failed: int, c: Contents) {
    && (forall lb :: 0 <= lb < LOGICAL_BLOCKS && MirrorPair(lb) != failed ==>
          a[Addr(MirrorPair(lb), MirrorOffset(lb))] == c[lb])
    && (forall lb :: 0 <= lb < LOGICAL_BLOCKS && MirrorPair(lb) + 1 != failed ==>
          a[Addr(MirrorPair(lb) + 1, MirrorOffset(lb))] == c[lb])
  }

  // ----- XOR algebra -----

  lemma {:induction false} XorBitsUpdate(s: seq<bool>, i: nat, v: bool)
    requires i < |s|
    ensures XorBits(s[i := v]) == ((XorBits(s) != s[i]) != v)
  {
    var last := |s| - 1;
    if i < last {
      assert s[i := v][..last] == s[..last][i := v];
      XorBitsUpdate(s[..last], i, v);
    } else {
      assert s[i := v][..last] == s[..last];
    }
  }

  /** The skipping XOR loop computes `init` plus the column with the skipped bits masked out. */
  lemma {:induction false} RowXorBit(row: seq<Block>, skip: set<int>, init: Block, col: seq<bool>, j: nat)
    requires j < BITS && |col| == |row|
    requires forall k :: 0 <= k < |row| ==> col[k] == (k !in skip && row[k][j])
    ensures RowXor(row, skip, init)[j] == (init[j] != XorBits(col))
  {
    if row != [] {
      var d := |row| - 1;
      RowXorBit(row[..d], skip, init, col[..d], j);
    }
  }

  lemma BlockAtInverse(offset: nat, disk: nat)
    requires offset < STRIPES && disk < NUM_DISKS && disk != ParityDisk(offset)
    ensures DataDisk(BlockAt(offset, disk)) == disk
    ensures StripeOf(BlockAt(offset, disk)) == offset
  {
  }

  // A column read off the disks alone, with a failed disk masked out.
  lemma SurvivingColumn(a: DiskArray, failed: int, c: Contents, offset: nat, j: nat, d: nat)
    requires HoldsParity(a, failed, c) && offset < STRIPES && j < BITS
    requires d < NUM_DISKS && d != failed
    ensures Column(a, c, offset, j)[d] == a[Addr(d, offset)][j]
  {
    if d != ParityDisk(offset) {
      BlockAtInverse(offset, d);
    }
  }

  // ----- Reads return the contents -----

  lemma DegradedRead(a: DiskArray, c: Contents, lb: nat)
    requires lb < LOGICAL_BLOCKS && HoldsParity(a, DataDisk(lb), c)
    ensures RowXor(Row(a, StripeOf(lb)), {DataDisk(lb) as int}, Zero()) == c[lb]
  {
    var offset, failed := StripeOf(lb), DataDisk(lb);
    var row := Row(a, offset);
    DataPlacement(lb, lb, offset);
    forall j | 0 <= j < BITS ensures RowXor(row, {failed as int}, Zero())[j] == c[lb][j] {
      var col := Column(a, c, offset, j);
      forall k | 0 <= k < NUM_DISKS && k != failed ensures col[k] == row[k][j] {
        SurvivingColumn(a, failed, c, offset, j, k);
      }
      RowXorBit(row, {failed as int}, Zero(), col[failed := false], j);
      XorBitsUpdate(col, failed, false);
    }
  }

  /** With no failed disk or one failed disk, modes 1, 5 and 10 read back every block.  Mode 0
      reads zeros from the failed disk and the contents elsewhere. */
  lemma ReadReturnsContents(a: DiskArray, mode: Mode, failed: int, c: Contents, lb: nat)
    requires lb < LOGICAL_BLOCKS && Holds(a, mode, failed, c)
    ensures ReadBlock(a, mode, failed, lb) ==
            if mode == Striping && lb % NUM_DISKS == failed then Zero() else c[lb]
  {
    if mode == Parity && failed == DataDisk(lb) {
      DegradedRead(a, c, lb);
    } else if mode != Striping {
      MirrorPlacement(lb, lb);
    }
  }

  // ----- Writes keep the invariant -----

  lemma WriteMirroredHolds(a: DiskArray, failed: int, c: Contents, lb: nat, data: Block)
    requires lb < LOGICAL_BLOCKS && HoldsMirrored(a, failed, c)
    ensures HoldsMirrored(WriteMirrored(a, failed, lb, data), failed, c[lb := data])
  {
    var r, c' := WriteMirrored(a, failed, lb, data), c[lb := data];
    MirrorPlacement(lb, lb);
    forall k | 0 <= k < LOGICAL_BLOCKS
      ensures MirrorPair(k) != failed ==> r[Addr(MirrorPair(k), MirrorOffset(k))] == c'[k]
      ensures MirrorPair(k) + 1 != failed ==> r[Addr(MirrorPair(k) + 1, MirrorOffset(k))] == c'[k]
    {
      MirrorPlacement(lb, k);
      MirrorPlacement(k, lb);
    }
  }

  lemma ParityDataKept(a: DiskArray, failed: int, c: Contents, lb: nat, data: Block, k: nat)
    requires lb < LOGICAL_BLOCKS && k < LOGICAL_BLOCKS && DataDisk(k) != failed
    requires a[Addr(DataDisk(k), StripeOf(k))] == c[k]
    ensures WriteParity(a, failed, lb, data)[Addr(DataDisk(k), StripeOf(k))] == c[lb := data][k]
  {
    DataPlacement(k, lb, StripeOf(lb));
    DataPlacement(lb, k, StripeOf(lb));
  }

  // A write to a block of another stripe does not show in this stripe's columns.
  lemma OtherStripe(a: DiskArray, failed: int, c: Contents, lb: nat, data: Block, offset: nat, j: nat)
    requires lb < LOGICAL_BLOCKS && offset < STRIPES && j < BITS && offset != StripeOf(lb)
    ensures Column(WriteParity(a, failed, lb, data), c[lb := data], offset, j) == Column(a, c, offset, j)
  {
    var r := WriteParity(a, failed, lb, data);
    DataPlacement(lb, lb, offset);
    assert r[Addr(ParityDisk(offset), offset)] == a[Addr(ParityDisk(offset), offset)];
    forall d | 0 <= d < NUM_DISKS && d != ParityDisk(offset) ensures BlockAt(offset, d) != lb {
      BlockAtInverse(offset, d);
    }
  }

  // In the written stripe exactly the data bit and the parity bit of each column change.
  lemma OwnStripe(a: DiskArray, failed: int, c: Contents, lb: nat, data: Block, j: nat)
    requires lb < LOGICAL_BLOCKS && j < BITS
    ensures var offset := StripeOf(lb);
            var r := WriteParity(a, failed, lb, data);
            Column(r, c[lb := data], offset, j) ==
            Column(a, c, offset, j)[DataDisk(lb) := data[j]]
                                   [ParityDisk(offset) := r[Addr(ParityDisk(offset), offset)][j]]
  {
  }

  // The subtractive update keeps a column balanced.
  lemma SubtractiveUpdate(col: seq<bool>, dd: nat, pd: nat, new_: bool, parity: bool)
    requires dd < |col| && pd < |col| && dd != pd && !XorBits(col)
    requires parity == (col[pd] != (col[dd] != new_))
    ensures !XorBits(col[dd := new_][pd := parity])
  {
    XorBitsUpdate(col, dd, new_);
    XorBitsUpdate(col[dd := new_], pd, parity);
  }

  lemma HealthyParityBit(a: DiskArray, failed: int, lb: nat, data: Block, j: nat)
    requires lb < LOGICAL_BLOCKS && j < BITS
    requires failed != DataDisk(lb) && failed != ParityDisk(StripeOf(lb))
    ensures var offset := StripeOf(lb);
            var parityAt := Addr(ParityDisk(offset), offset);
            WriteParity(a, failed, lb, data)[parityAt][j] ==
            (a[parityAt][j] != (a[Addr(DataDisk(lb), offset)][j] != data[j]))
  {
  }

  lemma HealthyBit(a: DiskArray, failed: int, c: Contents, lb: nat, data: Block, j: nat)
    requires lb < LOGICAL_BLOCKS && j < BITS && HoldsParity(a, failed, c)
    requires failed != DataDisk(lb) && failed != ParityDisk(StripeOf(lb))
    ensures !XorBits(Column(WriteParity(a, failed, lb, data), c[lb := data], StripeOf(lb), j))
  {
    var offset := StripeOf(lb);
    var dd, pd := DataDisk(lb), ParityDisk(offset);
    var col := Column(a, c, offset, j);
    SurvivingColumn(a, failed, c, offset, j, dd);
    SurvivingColumn(a, failed, c, offset, j, pd);
    assert Balanced(a, c, offset);
    var parity := WriteParity(a, failed, lb, data)[Addr(pd, offset)][j];
    HealthyParityBit(a, failed, lb, data, j);
    SubtractiveUpdate(col, dd, pd, data[j], parity);
    OwnStripe(a, failed, c, lb, data, j);
  }

  // Rebuilding parity from the survivors and the new data keeps a column balanced.
  lemma RebuiltParity(row: seq<Block>, col: seq<bool>, dd: nat, pd: nat, data: Block, j: nat)
    requires |row| == |col| && dd < |row| && pd < |row| && dd != pd && j < BITS
    requires forall k :: 0 <= k < |row| && k != dd ==> col[k] == row[k][j]
    ensures !XorBits(col[dd := data[j]][pd := RowXor(row, {dd as int, pd as int}, data)[j]])
  {
    var masked := col[dd := false][pd := false];
    RowXorBit(row, {dd as int, pd as int}, data, masked, j);
    var parity := RowXor(row, {dd as int, pd as int}, data)[j];
    assert col[dd := data[j]][pd := parity] == masked[dd := data[j]][pd := parity];
    XorBitsUpdate(masked, dd, data[j]);
    XorBitsUpdate(masked[dd := data[j]], pd, parity);
  }

  lemma DegradedBit(a: DiskArray, c: Contents, lb: nat, data: Block, j: nat)
    requires lb < LOGICAL_BLOCKS && j < BITS && HoldsParity(a, DataDisk(lb), c)
    ensures !XorBits(Column(WriteParity(a, DataDisk(lb), lb, data), c[lb := data], StripeOf(lb), j))
  {
    var offset := StripeOf(lb);
    var dd := DataDisk(lb);
    var row, col := Row(a, offset), Column(a, c, offset, j);
    forall k | 0 <= k < NUM_DISKS && k != dd ensures col[k] == row[k][j] {
      SurvivingColumn(a, dd, c, offset, j, k);
    }
    RebuiltParity(row, col, dd, ParityDisk(offset), data, j);
    OwnStripe(a, dd, c, lb, data, j);
  }

  lemma WriteParityHolds(a: DiskArray, failed: int, c: Contents, lb: nat, data: Block)
    requires lb < LOGICAL_BLOCKS && HoldsParity(a, failed, c)
    ensures HoldsParity(WriteParity(a, failed, lb, data), failed, c[lb := data])
  {
    var r, c' := WriteParity(a, failed, lb, data), c[lb := data];
    forall k | 0 <= k < LOGICAL_BLOCKS && DataDisk(k) != failed
      ensures r[Addr(DataDisk(k), StripeOf(k))] == c'[k]
    {
      ParityDataKept(a, failed, c, lb, data, k);
    }
    forall offset | 0 <= offset < STRIPES && ParityDisk(offset) != failed ensures Balanced(r, c', offset) {
      assert Balanced(a, c, offset);
      forall j | 0 <= j < BITS ensures !XorBits(Column(r, c', offset, j)) {
        if offset != StripeOf(lb) {
          OtherStripe(a, failed, c, lb, data, offset, j);
        } else if failed == DataDisk(lb) {
          DegradedBit(a, c, lb, data, j);
        } else {
          HealthyBit(a, failed, c, lb, data, j);
        }
      }
    }
  }

  lemma WriteBlockHolds(a: DiskArray, mode: Mode, failed: int, c: Contents, lb: nat, data: Block)
    requires lb < LOGICAL_BLOCKS && Holds(a, mode, failed, c)
    ensures Holds(WriteBlock(a, mode, failed, lb, data), mode, failed, c[lb := data])
  {
    match mode
    case Striping =>
    case Mirroring => WriteMirroredHolds(a, failed, c, lb, data);
    case StripedMirrors => WriteMirroredHolds(a, failed, c, lb, data);
    case Parity => WriteParityHolds(a, failed, c, lb, data);
  }

  function PutPage(c: Contents, slot: Slot, page: Page, n: nat): (r: Contents)
    requires n <= BLOCKS_PER_PAGE
  {
    if n == 0 then c else PutPage(c, slot, page, n - 1)[LogicalBlock(slot, n - 1) := page[n - 1]]
  }

  /** Writing a page replaces the contents of its slot and of nothing else. */
  lemma {:induction false} WritePageHolds(a: DiskArray, mode: Mode, failed: int, c: Contents, slot: Slot, page: Page, n: nat)
    requires n <= BLOCKS_PER_PAGE && Holds(a, mode, failed, c)
    ensures Holds(WritePage(a, mode, failed, slot, page, n), mode, failed, PutPage(c, slot, page, n))
  {
    if n > 0 {
      WritePageHolds(a, mode, failed, c, slot, page, n - 1);
      WriteBlockHolds(WritePage(a, mode, failed, slot, page, n - 1), mode, failed,
                      PutPage(c, slot, page, n - 1), LogicalBlock(slot, n - 1), page[n - 1]);
    }
  }

  // ----- Disk failure -----

  ghost predicate AgreeOffDisk(a: DiskArray, b: DiskArray, disk: nat) {
    forall i :: 0 <= i < DISK_BLOCKS && !(disk * SIM_DISK_SIZE <= i - SWAP_START_BLOCK < (disk + 1) * SIM_DISK_SIZE) ==> a[i] == b[i]
  }

  /** Losing one disk, whatever it holds afterwards, loses nothing in any mode but striping. */
  lemma FailureHolds(a: DiskArray, b: DiskArray, mode: Mode, c: Contents, disk: nat)
    requires Holds(a, mode, -1, c) && disk < NUM_DISKS && AgreeOffDisk(a, b, disk)
    ensures Holds(b, mode, disk, c)
  {
    match mode
    case Striping =>
    case Mirroring => FailureHoldsMirrored(a, b, c, disk);
    case StripedMirrors => FailureHoldsMirrored(a, b, c, disk);
    case Parity => FailureHoldsParity(a, b, c, disk);
  }

  lemma FailureHoldsParity(a: DiskArray, b: DiskArray, c: Contents, disk: nat)
    requires HoldsParity(a, -1, c) && disk < NUM_DISKS && AgreeOffDisk(a, b, disk)
    ensures HoldsParity(b, disk, c)
  {
    forall lb | 0 <= lb < LOGICAL_BLOCKS && DataDisk(lb) != disk
      ensures b[Addr(DataDisk(lb), StripeOf(lb))] == c[lb]
    {
      DataPlacement(lb, lb, 0);
    }
    forall offset | 0 <= offset < STRIPES && ParityDisk(offset) != disk ensures Balanced(b, c, offset) {
      assert Balanced(a, c, offset);
      assert b[Addr(ParityDisk(offset), offset)] == a[Addr(ParityDisk(offset), offset)];
      forall j | 0 <= j < BITS ensures Column(b, c, offset, j) == Column(a, c, offset, j) {
      }
    }
  }

  lemma FailureHoldsMirrored(a: DiskArray, b: DiskArray, c: Contents, disk: nat)
    requires HoldsMirrored(a, -1, c) && disk < NUM_DISKS && AgreeOffDisk(a, b, disk)
    ensures HoldsMirrored(b, disk, c)
  {
  }

  // ----- Every run of page writes and at most one disk failure -----

  type DiskNo = d: int | 0 <= d < NUM_DISKS

  /** `junk` is what the failed disk holds from then on; later failures are ignored. */
  datatype Event = WriteSlot(slot: Slot, page: Page) | FailDisk(disk: DiskNo, junk: seq<Block>)

  datatype ArrayState = ArrayState(a: DiskArray, failed: int)

  function Garble(a: DiskArray, disk: DiskNo, junk: seq<Block>): (r: DiskArray)
    ensures AgreeOffDisk(a, r, disk)
  {
    var base := SWAP_START_BLOCK + disk * SIM_DISK_SIZE;
    seq<Block>(DISK_BLOCKS, i requires 0 <= i < DISK_BLOCKS =>
      if base <= i < base + SIM_DISK_SIZE && i - base < |junk| then junk[i - base] else a[i])
  }

  function Step(mode: Mode, s: ArrayState, e: Event): (r: ArrayState) {
    match e
    case WriteSlot(slot, page) => s.(a := WritePage(s.a, mode, s.failed, slot, page, BLOCKS_PER_PAGE))
    case FailDisk(disk, junk) =>
      if s.failed == -1 then ArrayState(Garble(s.a, disk, junk), disk) else s
  }

  function ZeroArray(): (a: DiskArray) { seq<Block>(DISK_BLOCKS, _ => Zero()) }

  function ZeroContents(): (c: Contents) { seq<Block>(LOGICAL_BLOCKS, _ => Zero()) }

  function After(mode: Mode, es: seq<Event>): (s: ArrayState) {
    if es == [] then ArrayState(ZeroArray(), -1)
    else Step(mode, After(mode, es[..|es| - 1]), es[|es| - 1])
  }

  function ContentsAfter(es: seq<Event>): (c: Contents) {
    if es == [] then ZeroContents()
    else
      var c := ContentsAfter(es[..|es| - 1]);
      match es[|es| - 1]
      case WriteSlot(slot, page) => PutPage(c, slot, page, BLOCKS_PER_PAGE)
      case FailDisk(_, _) => c
  }

  const ZERO_PAGE: Page := [Zero(), Zero(), Zero(), Zero()]

  /** The page last written to a slot, or zeros. */
  function LastWritten(es: seq<Event>, slot: Slot): (p: Page) {
    if es == [] then ZERO_PAGE
    else
      match es[|es| - 1]
      case WriteSlot(s, page) => if s == slot then page else LastWritten(es[..|es| - 1], slot)
      case FailDisk(_, _) => LastWritten(es[..|es| - 1], slot)
  }

  lemma {:induction false} PutPageAt(c: Contents, slot: Slot, page: Page, n: nat, lb: nat)
    requires n <= BLOCKS_PER_PAGE && lb < LOGICAL_BLOCKS
    ensures PutPage(c, slot, page, n)[lb] == if lb / BLOCKS_PER_PAGE == slot && lb % BLOCKS_PER_PAGE < n then page[lb % BLOCKS_PER_PAGE] else c[lb]
  {
    if n > 0 {
      PutPageAt(c, slot, page, n - 1, lb);
    }
  }

  lemma {:induction false} ContentsAreLastWritten(es: seq<Event>, slot: Slot, i: nat)
    requires i < BLOCKS_PER_PAGE
    ensures ContentsAfter(es)[LogicalBlock(slot, i)] == LastWritten(es, slot)[i]
  {
    if es != [] {
      var pre := es[..|es| - 1];
      ContentsAreLastWritten(pre, slot, i);
      match es[|es| - 1]
      case WriteSlot(s, page) =>
        PutPageAt(ContentsAfter(pre), s, page, BLOCKS_PER_PAGE, LogicalBlock(slot, i));
      case FailDisk(_, _) =>
    }
  }

  lemma {:induction false} XorOfZeros(s: seq<bool>)
    requires forall k :: 0 <= k < |s| ==> !s[k]
    ensures !XorBits(s)
  {
    if s != [] {
      XorOfZeros(s[..|s| - 1]);
    }
  }

  lemma ZeroHolds(mode: Mode)
    ensures Holds(ZeroArray(), mode, -1, ZeroContents())
  {
    if mode == Parity {
      forall offset | 0 <= offset < STRIPES ensures Balanced(ZeroArray(), ZeroContents(), offset) {
        forall j | 0 <= j < BITS ensures !XorBits(Column(ZeroArray(), ZeroContents(), offset, j)) {
          XorOfZeros(Column(ZeroArray(), ZeroContents(), offset, j));
        }
      }
    }
  }

  lemma {:induction false} RunHolds(mode: Mode, es: seq<Event>)
    ensures var s := After(mode, es);
            -1 <= s.failed < NUM_DISKS && Holds(s.a, mode, s.failed, ContentsAfter(es))
  {
    if es == [] {
      ZeroHolds(mode);
    } else {
      var pre := es[..|es| - 1];
      var s := After(mode, pre);
      RunHolds(mode, pre);
      match es[|es| - 1]
      case WriteSlot(slot, page) =>
        WritePageHolds(s.a, mode, s.failed, ContentsAfter(pre), slot, page, BLOCKS_PER_PAGE);
      case FailDisk(disk, junk) =>
        if s.failed == -1 {
          FailureHolds(s.a, Garble(s.a, disk, junk), mode, ContentsAfter(pre), disk);
        }
    }
  }

  lemma ReadPageAt(a: DiskArray, mode: Mode, failed: int, slot: Slot, i: nat)
    requires i < BLOCKS_PER_PAGE
    ensures ReadPage(a, mode, failed, slot)[i] == ReadBlock(a, mode, failed, LogicalBlock(slot, i))
  {
  }

  lemma ReadsLastBlock(mode: Mode, es: seq<Event>, slot: Slot, i: nat)
    requires i < BLOCKS_PER_PAGE
    ensures var s := After(mode, es);
            ReadPage(s.a, mode, s.failed, slot)[i] ==
            if mode == Striping && i == s.failed then Zero() else LastWritten(es, slot)[i]
  {
    var s := After(mode, es);
    RunHolds(mode, es);
    ReadReturnsContents(s.a, mode, s.failed, ContentsAfter(es), LogicalBlock(slot, i));
    ContentsAreLastWritten(es, slot, i);
    ReadPageAt(s.a, mode, s.failed, slot, i);
  }

  /** The array theorem: after any sequence of writes to any slots, with no failure or one disk
      failing at any point (and holding anything afterwards), modes 1, 5 and 10 read back the
      page last written to each slot.  Striping does so exactly while no disk has failed; a
      block on the failed disk reads as zeros. */
  lemma ReadsLastWrite(mode: Mode, es: seq<Event>, slot: Slot)
    ensures var s := After(mode, es);
            var got, last := ReadPage(s.a, mode, s.failed, slot), LastWritten(es, slot);
            && (mode != Striping || s.failed == -1 ==> got == last)
            && (mode == Striping && s.failed != -1 ==> 0 <= s.failed < BLOCKS_PER_PAGE && got == last[s.failed := Zero()])
  {
    var s := After(mode, es);
    var got, last := ReadPage(s.a, mode, s.failed, slot), LastWritten(es, slot);
    assert -1 <= s.failed < NUM_DISKS by { RunHolds(mode, es); }
    forall i | 0 <= i < BLOCKS_PER_PAGE
      ensures got[i] == if mode == Striping && i == s.failed then Zero() else last[i]
    {
      ReadsLastBlock(mode, es, slot, i);
    }
  }

  lemma XorOfFour(s: seq<bool>)
    requires |s| == 4
    ensures XorBits(s) == (((s[0] != s[1]) != s[2]) != s[3])
  {
    assert s[..3][..2] == s[..2] && s[..2][..1] == s[..1] && s[..1][..0] == [];
    assert XorBits(s[..1]) == s[0];
    assert XorBits(s[..2]) == (s[0] != s[1]);
    assert XorBits(s[..3]) == ((s[0] != s[1]) != s[2]);
  }

  /** The page last written: it is that of the last write to the slot, and zeros if there is none. */
  lemma {:induction false} LastWrittenMeans(es: seq<Event>, slot: Slot, k: nat, page: Page)
    requires k < |es| && es[k] == WriteSlot(slot, page)
    requires forall n :: k < n < |es| && es[n].WriteSlot? ==> es[n].slot != slot
    ensures LastWritten(es, slot) == page
  {
    if k < |es| - 1 {
      LastWrittenMeans(es[..|es| - 1], slot, k, page);
    }
  }

  /** So a page that was written is what is read, in modes 1, 5 and 10 with a disk failing before or after,
      in mode 0 if none fails, until the slot is written again. */
  lemma ReadsBack(mode: Mode, es: seq<Event>, slot: Slot, k: nat, page: Page)
    requires k < |es| && es[k] == WriteSlot(slot, page)
    requires forall n :: k < n < |es| && es[n].WriteSlot? ==> es[n].slot != slot
    requires mode == Striping ==> forall n :: 0 <= n < |es| ==> !es[n].FailDisk?
    ensures ReadPage(After(mode, es).a, mode, After(mode, es).failed, slot) == page
  {
    LastWrittenMeans(es, slot, k, page);
    ReadsLastWrite(mode, es, slot);
    if mode == Striping {
      NoFailure(mode, es);
    }
  }

  lemma {:induction false} NoFailure(mode: Mode, es: seq<Event>)
    requires forall n :: 0 <= n < |es| ==> !es[n].FailDisk?
    ensures After(mode, es).failed == -1
  {
    if es != [] {
      NoFailure(mode, es[..|es| - 1]);
    }
  }

  // The block that lies on a healthy array for logical block `lb`, in each mode.
  lemma StripedPlace(a: DiskArray, c: Contents, slot: Slot, i: nat)
    requires i < BLOCKS_PER_PAGE && HoldsStriped(a, -1, c)
    ensures a[2000 + 10000 * i + slot] == c[4 * slot + i]
  {
    var lb := 4 * slot + i;
    assert lb % NUM_DISKS == i && lb / NUM_DISKS == slot;
    assert a[Addr(lb % NUM_DISKS, lb / NUM_DISKS)] == c[lb];
  }

  lemma MirroredPlace(a: DiskArray, c: Contents, slot: Slot, i: nat)
    requires i < BLOCKS_PER_PAGE && HoldsMirrored(a, -1, c)
    ensures var at := 2000 + 20000 * (i % 2) + 2 * slot + i / 2; a[at] == a[at + 10000] == c[4 * slot + i]
  {
    var lb := 4 * slot + i;
    assert lb % 2 == i % 2 && lb / 2 == 2 * slot + i / 2;
    assert a[Addr(MirrorPair(lb), MirrorOffset(lb))] == c[lb] == a[Addr(MirrorPair(lb) + 1, MirrorOffset(lb))];
  }

  lemma ParityPlace(a: DiskArray, c: Contents, lb: nat, disk: nat)
    requires lb < LOGICAL_BLOCKS && HoldsParity(a, -1, c) && disk < 4
    requires disk != lb / 3 % 4 && disk - (if lb / 3 % 4 < disk then 1 else 0) == lb % 3
    ensures a[2000 + 10000 * disk + lb / 3] == c[lb]
  {
    assert DataDisk(lb) == disk && StripeOf(lb) == lb / 3;
    assert a[Addr(DataDisk(lb), StripeOf(lb))] == c[lb];
  }

  // What the array and a block of a page have to do with each other.
  lemma PageHolds(mode: Mode, es: seq<Event>, slot: Slot, i: nat)
    requires i < BLOCKS_PER_PAGE && After(mode, es).failed == -1
    ensures Holds(After(mode, es).a, mode, -1, ContentsAfter(es)) && ContentsAfter(es)[4 * slot + i] == LastWritten(es, slot)[i]
  {
    RunHolds(mode, es);
    ContentsAreLastWritten(es, slot, i);
    assert LogicalBlock(slot, i) == 4 * slot + i;
  }

  /** Where block `i` of the page in a slot lies on the real disk, while no disk has failed.  Striping: on simulated
      disk `i`, at the slot's number. */
  lemma StripedPage(es: seq<Event>, slot: Slot, i: nat)
    requires i < BLOCKS_PER_PAGE && After(Striping, es).failed == -1
    ensures After(Striping, es).a[2000 + 10000 * i + slot] == LastWritten(es, slot)[i]
  {
    PageHolds(Striping, es, slot, i);
    StripedPlace(After(Striping, es).a, ContentsAfter(es), slot, i);
  }

  /** Mirroring: on disks 0 and 1 for even `i` and 2 and 3 for odd `i`, two blocks of a page next to each other. */
  lemma MirroredPage(mode: Mode, es: seq<Event>, slot: Slot, i: nat)
    requires i < BLOCKS_PER_PAGE && (mode == Mirroring || mode == StripedMirrors) && After(mode, es).failed == -1
    ensures var a, at := After(mode, es).a, 2000 + 20000 * (i % 2) + 2 * slot + i / 2;
            a[at] == a[at + 10000] == LastWritten(es, slot)[i]
  {
    PageHolds(mode, es, slot, i);
    MirroredPlace(After(mode, es).a, ContentsAfter(es), slot, i);
  }

  /** Parity: in stripes of three blocks on the three disks, in order, that do not hold the stripe's parity, which is
      on disk `stripe % 4`. */
  lemma ParityPage(es: seq<Event>, slot: Slot, i: nat, disk: nat)
    requires i < BLOCKS_PER_PAGE && After(Parity, es).failed == -1 && disk < 4
    requires disk != (4 * slot + i) / 3 % 4 && disk - (if (4 * slot + i) / 3 % 4 < disk then 1 else 0) == (4 * slot + i) % 3
    ensures After(Parity, es).a[2000 + 10000 * disk + (4 * slot + i) / 3] == LastWritten(es, slot)[i]
  {
    PageHolds(Parity, es, slot, i);
    ParityPlace(After(Parity, es).a, ContentsAfter(es), 4 * slot + i, disk);
  }

  /** While no disk has failed, every parity stripe on the disks XORs to zero. */
  lemma HealthyStripesBalance(es: seq<Event>, offset: nat, j: nat)
    requires offset < STRIPES && j < BITS && After(Parity, es).failed == -1
    ensures var row := Row(After(Parity, es).a, offset);
            !XorBits(seq(NUM_DISKS, d requires 0 <= d < NUM_DISKS => row[d][j]))
    ensures var a := After(Parity, es).a;
            ((a[2000 + offset][j] != a[12000 + offset][j]) != a[22000 + offset][j]) == a[32000 + offset][j]
  {
    var s, c := After(Parity, es), ContentsAfter(es);
    var row := Row(s.a, offset);
    RunHolds(Parity, es);
    forall d | 0 <= d < NUM_DISKS ensures Column(s.a, c, offset, j)[d] == row[d][j] {
      SurvivingColumn(s.a, -1, c, offset, j, d);
    }
    var bits := seq(NUM_DISKS, d requires 0 <= d < NUM_DISKS => row[d][j]);
    assert bits == Column(s.a, c, offset, j);
    assert Balanced(s.a, c, offset);
    XorOfFour(bits);
  }

  // ----- raid_write_page and raid_read_page -----

  method CopyBlock(b: Block) returns (buf: array<bool>)
    ensures fresh(buf) && buf.Length == BITS && buf[..] == b
  {
    buf := new bool[BITS](i requires 0 <= i < BITS => b[i]);
  }

  method XorInto(dst: array<bool>, src: Block)
    requires dst.Length == BITS
    modifies dst
    ensures dst[..] == Xor(old(dst[..]), src)
  {
    for j := 0 to BITS
      invariant forall k :: 0 <= k < j ==> dst[k] == (old(dst[k]) != src[k])
      invariant forall k :: j <= k < BITS ==> dst[k] == old(dst[k])
    {
      dst[j] := dst[j] != src[j];
    }
  }

  class Array {
    var blocks: DiskArray

    constructor ()
      ensures blocks == ZeroArray()
    {
      blocks := ZeroArray();
    }

    // XOR onto `dst` the blocks of a stripe on every disk but the two given ones.
    method XorStripe(dst: array<bool>, offset: nat, skip1: int, skip2: int)
      requires dst.Length == BITS && offset < SIM_DISK_SIZE
      modifies dst
      ensures dst[..] == RowXor(Row(blocks, offset), {skip1, skip2}, old(dst[..]))
      ensures blocks == old(blocks)
    {
      ghost var row := Row(blocks, offset);
      for d := 0 to NUM_DISKS
        invariant dst[..] == RowXor(row[..d], {skip1, skip2}, old(dst[..]))
        invariant blocks == old(blocks)
      {
        assert row[..d + 1][..d] == row[..d];
        if d != skip1 && d != skip2 {
          XorInto(dst, blocks[Addr(d, offset)]);
        }
      }
      assert row[..NUM_DISKS] == row;
    }

    method WriteParityBlock(failed: int, lb: nat, data: Block)
      requires lb < LOGICAL_BLOCKS
      modifies this
      ensures blocks == WriteParity(old(blocks), failed, lb, data)
    {
      var offset := StripeOf(lb);
      var dataDisk, parityDisk := DataDisk(lb), ParityDisk(offset);
      var dataAt, parityAt := Addr(dataDisk, offset), Addr(parityDisk, offset);
      if failed == dataDisk {
        var parity := CopyBlock(data);
        XorStripe(parity, offset, failed, parityDisk);
        blocks := blocks[parityAt := parity[..]];
      } else if failed == parityDisk {
        blocks := blocks[dataAt := data];
      } else {
        var change := CopyBlock(blocks[dataAt]);
        XorInto(change, data);
        var parity := CopyBlock(blocks[parityAt]);
        XorInto(parity, change[..]);
        blocks := blocks[dataAt := data];
        blocks := blocks[parityAt := parity[..]];
      }
    }

    method WriteBothCopies(failed: int, disk: nat, offset: nat, data: Block)
      requires disk + 1 < NUM_DISKS && offset < SIM_DISK_SIZE
      modifies this
      ensures blocks == (var a1 := if disk != failed then old(blocks)[Addr(disk, offset) := data] else old(blocks);
                         if disk + 1 != failed then a1[Addr(disk + 1, offset) := data] else a1)
    {
      if disk != failed {
        blocks := blocks[Addr(disk, offset) := data];
      }
      if disk + 1 != failed {
        blocks := blocks[Addr(disk + 1, offset) := data];
      }
    }

    method WriteOne(mode: Mode, failed: int, lb: nat, data: Block)
      requires lb < LOGICAL_BLOCKS
      modifies this
      ensures blocks == WriteBlock(old(blocks), mode, failed, lb, data)
    {
      match mode {
        case Striping =>
          if lb % NUM_DISKS != failed {
            blocks := blocks[Addr(lb % NUM_DISKS, lb / NUM_DISKS) := data];
          }
        case Mirroring =>
          WriteBothCopies(failed, 2 * (lb % 2), lb / 2, data);
        case StripedMirrors =>
          WriteBothCopies(failed, MirrorPair(lb), MirrorOffset(lb), data);
        case Parity =>
          WriteParityBlock(failed, lb, data);
      }
    }

    /** raid_write_page */
    method Write(mode: Mode, failed: int, slot: Slot, page: Page)
      modifies this
      ensures blocks == WritePage(old(blocks), mode, failed, slot, page, BLOCKS_PER_PAGE)
    {
      for i := 0 to BLOCKS_PER_PAGE
        invariant blocks == WritePage(old(blocks), mode, failed, slot, page, i)
      {
        WritePageStep(old(blocks), mode, failed, slot, page, i);
        WriteOne(mode, failed, LogicalBlock(slot, i), page[i]);
      }
    }

    method ReadParityBlock(failed: int, lb: nat) returns (data: Block)
      requires lb < LOGICAL_BLOCKS
      ensures data == ReadBlock(blocks, Parity, failed, lb)
    {
      var offset := StripeOf(lb);
      if failed != DataDisk(lb) {
        data := blocks[Addr(DataDisk(lb), offset)];
      } else {
        var buf := CopyBlock(Zero());
        XorStripe(buf, offset, failed, failed);
        assert {failed, failed} == {failed};
        data := buf[..];
      }
    }

    method ReadOne(mode: Mode, failed: int, lb: nat) returns (data: Block)
      requires lb < LOGICAL_BLOCKS
      ensures data == ReadBlock(blocks, mode, failed, lb)
    {
      match mode {
        case Striping =>
          data := if lb % NUM_DISKS != failed then blocks[Addr(lb % NUM_DISKS, lb / NUM_DISKS)] else Zero();
        case Mirroring =>
          var disk := 2 * (lb % 2);
          data := blocks[Addr(if failed == disk then disk + 1 else disk, lb / 2)];
        case StripedMirrors =>
          var disk := MirrorPair(lb);
          data := blocks[Addr(if failed == disk then disk + 1 else disk, MirrorOffset(lb))];
        case Parity =>
          data := ReadParityBlock(failed, lb);
      }
    }

    /** raid_read_page */
    method Read(mode: Mode, failed: int, slot: Slot) returns (page: Page)
      ensures page == ReadPage(blocks, mode, failed, slot)
    {
      var got: seq<Block> := [];
      for i := 0 to BLOCKS_PER_PAGE
        invariant |got| == i
        invariant forall k :: 0 <= k < i ==> got[k] == ReadPage(blocks, mode, failed, slot)[k]
      {
        ReadPageAt(blocks, mode, failed, slot, i);
        var data := ReadOne(mode, failed, LogicalBlock(slot, i));
        got := got + [data];
      }
      page := got;
    }
  }
}
