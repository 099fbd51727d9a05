/** The write-ahead log (kernel/log.c).

    A block is a sequence of 32-bit words and a disk is a sequence of blocks.  The log area is
    the header block `start` followed by LOGBLOCKS log blocks.  Word 0 of the header is the
    number of logged blocks, the words after it their home block numbers.

    Every bwrite is one atomic block write.  The operations of kernel/log.c are methods of
    class `Log`, each proved to issue an exact sequence of block writes; a crash is a proper
    prefix of such a sequence, after which all memory is lost.  The theorems at the end speak
    about every run of begin_op, log_write, end_op, commit, crash and repeated recovery. */
module WriteAheadLog {
  import opened Common

  const BLOCK_WORDS := 256

  type Block = b: seq<int> | |b| == BLOCK_WORDS witness seq(BLOCK_WORDS, _ => 0)
  type Disk = seq<Block>

  datatype Write = Write(no: int, data: Block)

  // ----- Block writes and the disk layout -----

  function Store(d: Disk, w: Write): (r: Disk)
    ensures |r| == |d|
  {
    if 0 <= w.no < |d| then d[w.no := w.data] else d
  }

  function Apply(d: Disk, ws: seq<Write>): (r: Disk)
    ensures |r| == |d|
  {
    if ws == [] then d else Store(Apply(d, ws[..|ws| - 1]), ws[|ws| - 1])
  }

  predicate InLog(start: nat, i: int) { start <= i <= start + LOGBLOCKS }

  predicate Layout(d: Disk, start: nat) { start + LOGBLOCKS < |d| }

  predicate IsHome(d: Disk, start: nat, i: int) { 0 <= i < |d| && !InLog(start, i) }

  ghost predicate Distinct(bs: seq<int>) {
    forall i, j :: 0 <= i < j < |bs| ==> bs[i] != bs[j]
  }

  /** What log_write guarantees about the logged block numbers. */
  ghost predicate GoodList(d: Disk, start: nat, bs: seq<int>) {
    && |bs| <= LOGBLOCKS
    && Distinct(bs)
    && forall i :: 0 <= i < |bs| ==> IsHome(d, start, bs[i])
  }

  /** The header block after `write_head`: words beyond the list keep their old contents. */
  function EncodeHead(old_: Block, bs: seq<int>): (r: Block)
    requires |bs| <= LOGBLOCKS
  {
    [|bs|] + bs + old_[1 + |bs|..]
  }

  ghost predicate HeadOk(d: Disk, start: nat) {
    && Layout(d, start)
    && 0 <= d[start][0] <= LOGBLOCKS
    && GoodList(d, start, HeadBlocks(d, start))
  }

  function HeadBlocks(d: Disk, start: nat): (bs: seq<int>)
    requires Layout(d, start) && 0 <= d[start][0] <= LOGBLOCKS
    ensures |bs| == d[start][0]
  {
    d[start][1..1 + d[start][0]]
  }

  // ----- The write sequences of commit and recovery -----

  function LogCopies(view: Disk, start: nat, bs: seq<int>): (ws: seq<Write>)
    requires forall i :: 0 <= i < |bs| ==> 0 <= bs[i] < |view|
    ensures |ws| == |bs|
  {
    seq(|bs|, i requires 0 <= i < |bs| => Write(start + 1 + i, view[bs[i]]))
  }

  function Installs(logged: seq<Block>, bs: seq<int>): (ws: seq<Write>)
    requires |logged| == |bs|
    ensures |ws| == |bs|
  {
    seq(|bs|, i requires 0 <= i < |bs| => Write(bs[i], logged[i]))
  }

  function Gather(d: Disk, bs: seq<int>): (r: seq<Block>)
    requires forall i :: 0 <= i < |bs| ==> 0 <= bs[i] < |d|
    ensures |r| == |bs|
    ensures forall i :: 0 <= i < |bs| ==> r[i] == d[bs[i]]
  {
    seq(|bs|, i requires 0 <= i < |bs| => d[bs[i]])
  }

  /** commit(): copy to the log, write the header, install, erase the header. */
  ghost function CommitWrites(view: Disk, start: nat, bs: seq<int>): (ws: seq<Write>)
    requires Layout(view, start) && GoodList(view, start, bs)
    ensures |ws| == if bs == [] then 0 else 2 * |bs| + 2
  {
    if bs == [] then []
    else
      var head := EncodeHead(view[start], bs);
      LogCopies(view, start, bs) + [Write(start, head)]
      + Installs(Gather(view, bs), bs) + [Write(start, EncodeHead(head, []))]
  }

  /** recover_from_log(): install what the header names, then erase the header. */
  ghost function RecoverWrites(d: Disk, start: nat): (ws: seq<Write>)
    requires HeadOk(d, start)
    ensures |ws| == |HeadBlocks(d, start)| + 1
  {
    var bs := HeadBlocks(d, start);
    Installs(d[start + 1..start + 1 + |bs|], bs) + [Write(start, EncodeHead(d[start], []))]
  }

  ghost function Recovered(d: Disk, start: nat): (r: Disk)
    requires HeadOk(d, start)
  {
    Apply(d, RecoverWrites(d, start))
  }

  // ----- What is durable -----

  function IndexOf(bs: seq<int>, b: int): (k: int)
    ensures -1 <= k < |bs|
    ensures k >= 0 ==> bs[k] == b
    ensures k == -1 <==> b !in bs
  {
    if bs == [] then -1
    else if bs[|bs| - 1] == b then |bs| - 1
    else IndexOf(bs[..|bs| - 1], b)
  }

  /** The contents of home block `i` that survive a crash now: the logged copy if the header
      on disk names the block, else the home copy. */
  ghost function Durable(d: Disk, start: nat, i: int): (r: Block)
    requires HeadOk(d, start) && IsHome(d, start, i)
  {
    var k := IndexOf(HeadBlocks(d, start), i);
    if k >= 0 then d[start + 1 + k] else d[i]
  }

  /** `d` durably stands for the home blocks of `m`. */
  ghost predicate StandsFor(d: Disk, start: nat, m: Disk) {
    && HeadOk(d, start)
    && |m| == |d|
    && forall i :: IsHome(d, start, i) ==> Durable(d, start, i) == m[i]
  }

  ghost predicate SameHome(a: Disk, b: Disk, start: nat) {
    |a| == |b| && forall i :: IsHome(a, start, i) ==> a[i] == b[i]
  }

  lemma {:induction false} ApplyFrame(d: Disk, ws: seq<Write>, i: int)
    requires 0 <= i < |d|
    requires forall k :: 0 <= k < |ws| ==> ws[k].no != i
    ensures Apply(d, ws)[i] == d[i]
  {
    if ws != [] {
      ApplyFrame(d, ws[..|ws| - 1], i);
    }
  }

  lemma {:induction false} ApplyHit(d: Disk, ws: seq<Write>, k: nat)
    requires k < |ws| && 0 <= ws[k].no < |d|
    requires forall l :: k < l < |ws| ==> ws[l].no != ws[k].no
    ensures Apply(d, ws)[ws[k].no] == ws[k].data
  {
    if k < |ws| - 1 {
      ApplyHit(d, ws[..|ws| - 1], k);
    }
  }

  lemma ApplyPush(d: Disk, ws: seq<Write>, w: Write)
    ensures Apply(d, ws + [w]) == Store(Apply(d, ws), w)
  {
    assert (ws + [w])[..|ws|] == ws;
  }

  lemma {:induction false} ApplyAppend(d: Disk, a: seq<Write>, b: seq<Write>)
    ensures Apply(d, a + b) == Apply(Apply(d, a), b)
  {
    if b == [] {
      assert a + b == a;
    } else {
      assert (a + b)[..|a + b| - 1] == a + b[..|b| - 1];
      ApplyAppend(d, a, b[..|b| - 1]);
    }
  }

  // ----- Crash atomicity of one commit -----

  /** A disk whose header is empty, beside the view that bread gives while `bs` is logged. */
  ghost predicate Quiet(d: Disk, view: Disk, start: nat, bs: seq<int>) {
    && Layout(d, start)
    && d[start][0] == 0
    && |view| == |d|
    && GoodList(d, start, bs)
    && forall i :: 0 <= i < |d| && i !in bs ==> view[i] == d[i]
  }

  lemma QuietStandsForItself(d: Disk, view: Disk, start: nat, bs: seq<int>)
    requires Quiet(d, view, start, bs)
    ensures StandsFor(d, start, d)
  {
  }

  // The `l`th block write of commit.
  ghost function CommitWrite(view: Disk, start: nat, bs: seq<int>, l: nat): (w: Write)
    requires Layout(view, start) && GoodList(view, start, bs) && l < 2 * |bs| + 2
  {
    if l < |bs| then Write(start + 1 + l, view[bs[l]])
    else if l == |bs| then Write(start, EncodeHead(view[start], bs))
    else if l < 2 * |bs| + 1 then Write(bs[l - |bs| - 1], view[bs[l - |bs| - 1]])
    else Write(start, EncodeHead(EncodeHead(view[start], bs), []))
  }

  // `ws` are the first block writes of commit.
  ghost predicate StartsCommit(ws: seq<Write>, view: Disk, start: nat, bs: seq<int>) {
    && Layout(view, start) && GoodList(view, start, bs)
    && |ws| <= 2 * |bs| + 2
    && forall l :: 0 <= l < |ws| ==> ws[l] == CommitWrite(view, start, bs, l)
  }

  lemma CommitPrefix(view: Disk, start: nat, bs: seq<int>, k: nat)
    requires Layout(view, start) && GoodList(view, start, bs) && bs != [] && k <= 2 * |bs| + 2
    ensures StartsCommit(CommitWrites(view, start, bs)[..k], view, start, bs)
  {
  }

  // Before the header write only log blocks have changed.
  lemma CrashWhileCopying(d: Disk, view: Disk, start: nat, bs: seq<int>, ws: seq<Write>)
    requires Quiet(d, view, start, bs) && StartsCommit(ws, view, start, bs) && |ws| <= |bs|
    ensures StandsFor(Apply(d, ws), start, d)
  {
    var r := Apply(d, ws);
    forall i | 0 <= i < |d| && (i == start || !InLog(start, i)) ensures r[i] == d[i] {
      ApplyFrame(d, ws, i);
    }
    EmptyHeadStandsFor(r, start, d);
  }

  // The header words that write_head stores are read back as the same list.
  lemma HeadRoundTrip(d: Disk, start: nat, old_: Block, bs: seq<int>)
    requires Layout(d, start) && GoodList(d, start, bs)
    requires d[start] == EncodeHead(old_, bs)
    ensures HeadOk(d, start) && HeadBlocks(d, start) == bs
    ensures d[start][0] == |bs| && forall i :: 0 <= i < |bs| ==> d[start][1 + i] == bs[i]
  {
  }

  // Home blocks that are not logged are never written by commit.
  lemma CommitMissesOthers(d: Disk, view: Disk, start: nat, bs: seq<int>, ws: seq<Write>, i: int)
    requires StartsCommit(ws, view, start, bs) && |d| == |view| && IsHome(d, start, i) && i !in bs
    ensures Apply(d, ws)[i] == d[i]
  {
    ApplyFrame(d, ws, i);
  }

  // What the disk holds once the header is written: the facts that decide `Durable`.
  lemma HeadWritten(d: Disk, view: Disk, start: nat, bs: seq<int>, ws: seq<Write>)
    requires StartsCommit(ws, view, start, bs) && |d| == |view| && |bs| < |ws| <= 2 * |bs| + 1
    ensures Apply(d, ws)[start] == EncodeHead(view[start], bs)
  {
    assert ws[|bs|] == CommitWrite(view, start, bs, |bs|);
    ApplyHit(d, ws, |bs|);
  }

  lemma CopyWritten(d: Disk, view: Disk, start: nat, bs: seq<int>, ws: seq<Write>, l: nat)
    requires StartsCommit(ws, view, start, bs) && |d| == |view| && |bs| < |ws| && l < |bs|
    ensures Apply(d, ws)[start + 1 + l] == view[bs[l]]
  {
    assert ws[l] == CommitWrite(view, start, bs, l);
    ApplyHit(d, ws, l);
  }

  // When the header names `bs`, the log copies decide.
  lemma LoggedStandsFor(r: Disk, start: nat, bs: seq<int>, m: Disk)
    requires HeadOk(r, start) && HeadBlocks(r, start) == bs && |m| == |r|
    requires forall l :: 0 <= l < |bs| ==> r[start + 1 + l] == m[bs[l]]
    requires forall i :: IsHome(r, start, i) && i !in bs ==> r[i] == m[i]
    ensures StandsFor(r, start, m)
  {
    forall i | IsHome(r, start, i) ensures Durable(r, start, i) == m[i] {
      var l := IndexOf(bs, i);
    }
  }

  // Once the header names the blocks, installing changes nothing that is durable.
  lemma CrashWhileInstalling(d: Disk, view: Disk, start: nat, bs: seq<int>, ws: seq<Write>)
    requires Quiet(d, view, start, bs) && StartsCommit(ws, view, start, bs) && |bs| < |ws| <= 2 * |bs| + 1
    ensures StandsFor(Apply(d, ws), start, view)
  {
    var r := Apply(d, ws);
    HeadWritten(d, view, start, bs, ws);
    forall l | 0 <= l < |bs| ensures r[start + 1 + l] == view[bs[l]] {
      CopyWritten(d, view, start, bs, ws, l);
    }
    forall i | IsHome(r, start, i) && i !in bs ensures r[i] == view[i] {
      CommitMissesOthers(d, view, start, bs, ws, i);
    }
    HeadRoundTrip(r, start, view[start], bs);
    LoggedStandsFor(r, start, bs, view);
  }

  lemma CommitHitsLogged(d: Disk, view: Disk, start: nat, bs: seq<int>, ws: seq<Write>, i: int)
    requires StartsCommit(ws, view, start, bs) && |ws| == 2 * |bs| + 2 && |d| == |view| && i in bs
    ensures 0 <= i < |d| && Apply(d, ws)[i] == view[i]
  {
    ApplyHit(d, ws, |bs| + 1 + IndexOf(bs, i));
  }

  lemma CommitCompletes(d: Disk, view: Disk, start: nat, bs: seq<int>, ws: seq<Write>)
    requires Quiet(d, view, start, bs) && StartsCommit(ws, view, start, bs) && |ws| == 2 * |bs| + 2
    ensures var r := Apply(d, ws);
            && StandsFor(r, start, view)
            && r[start][0] == 0
            && SameHome(r, view, start)
  {
    var r := Apply(d, ws);
    ApplyHit(d, ws, 2 * |bs| + 1);
    forall i | IsHome(r, start, i) ensures r[i] == view[i] {
      if i in bs {
        CommitHitsLogged(d, view, start, bs, ws, i);
      } else {
        CommitMissesOthers(d, view, start, bs, ws, i);
      }
    }
    EmptyHeadStandsFor(r, start, view);
  }

  lemma StoppedCommit(d: Disk, view: Disk, start: nat, bs: seq<int>, ws: seq<Write>)
    requires Quiet(d, view, start, bs) && StartsCommit(ws, view, start, bs)
    ensures StandsFor(Apply(d, ws), start, if |ws| <= |bs| then d else view)
  {
    if |ws| <= |bs| {
      CrashWhileCopying(d, view, start, bs, ws);
    } else if |ws| <= 2 * |bs| + 1 {
      CrashWhileInstalling(d, view, start, bs, ws);
    } else {
      CommitCompletes(d, view, start, bs, ws);
    }
  }

  /** A crash after the first `k` block writes of commit leaves every home block old if the
      committing header write is not among them, and every home block new if it is. */
  lemma CommitIsAtomic(d: Disk, view: Disk, start: nat, bs: seq<int>, k: nat)
    requires Quiet(d, view, start, bs) && k <= |CommitWrites(view, start, bs)|
    ensures StandsFor(Apply(d, CommitWrites(view, start, bs)[..k]), start,
                      if k <= |bs| then d else view)
  {
    if bs == [] {
      EmptyHeadStandsFor(d, start, d);
    } else {
      CommitPrefix(view, start, bs, k);
      StoppedCommit(d, view, start, bs, CommitWrites(view, start, bs)[..k]);
    }
  }

  // ----- Recovery, with any number of crashes in it -----

  // The disk after the first `j` block writes of recovery.
  lemma RecoveringDisk(d: Disk, start: nat, j: nat)
    requires HeadOk(d, start) && j <= |RecoverWrites(d, start)|
    ensures var bs := HeadBlocks(d, start);
            var r := Apply(d, RecoverWrites(d, start)[..j]);
            && (forall i :: IsHome(d, start, i) && i !in bs ==> r[i] == d[i])
            && (forall i :: InLog(start, i) && i != start ==> r[i] == d[i])
            && r[start] == (if j <= |bs| then d[start] else EncodeHead(d[start], []))
            && (j > |bs| ==> forall l :: 0 <= l < |bs| ==> r[bs[l]] == d[start + 1 + l])
  {
    var bs := HeadBlocks(d, start);
    var ws := RecoverWrites(d, start)[..j];
    var r := Apply(d, ws);
    assert forall l :: 0 <= l < j && l < |bs| ==> ws[l] == Write(bs[l], d[start + 1 + l]);
    forall i | 0 <= i < |d| && i !in bs && (i != start || j <= |bs|) ensures r[i] == d[i] {
      ApplyFrame(d, ws, i);
    }
    if j > |bs| {
      ApplyHit(d, ws, |bs|);
      forall l | 0 <= l < |bs| ensures r[bs[l]] == d[start + 1 + l] {
        ApplyHit(d, ws, l);
      }
    }
  }

  // `Durable` reads only the header, the log blocks and the home blocks not logged.
  lemma DurableFrame(d: Disk, r: Disk, start: nat, m: Disk)
    requires StandsFor(d, start, m) && |r| == |d|
    requires forall i :: InLog(start, i) ==> r[i] == d[i]
    requires forall i :: IsHome(d, start, i) && i !in HeadBlocks(d, start) ==> r[i] == d[i]
    ensures StandsFor(r, start, m)
  {
    assert HeadBlocks(r, start) == HeadBlocks(d, start);
    forall i | IsHome(r, start, i) ensures Durable(r, start, i) == m[i] {
      assert Durable(d, start, i) == m[i];
    }
  }

  lemma EmptyHeadStandsFor(r: Disk, start: nat, m: Disk)
    requires Layout(r, start) && r[start][0] == 0 && SameHome(r, m, start)
    ensures StandsFor(r, start, m)
  {
  }

  lemma InstalledHome(d: Disk, start: nat, m: Disk, r: Disk)
    requires StandsFor(d, start, m) && |r| == |d|
    requires forall i :: IsHome(d, start, i) && i !in HeadBlocks(d, start) ==> r[i] == d[i]
    requires var bs := HeadBlocks(d, start);
             forall l :: 0 <= l < |bs| ==> r[bs[l]] == d[start + 1 + l]
    ensures SameHome(r, m, start)
  {
    var bs := HeadBlocks(d, start);
    forall i | IsHome(r, start, i) ensures r[i] == m[i] {
      assert Durable(d, start, i) == m[i];
      var l := IndexOf(bs, i);
    }
  }

  lemma RecoverStepKeeps(d: Disk, start: nat, m: Disk, j: nat)
    requires StandsFor(d, start, m) && j <= |RecoverWrites(d, start)|
    ensures var r := Apply(d, RecoverWrites(d, start)[..j]);
            && StandsFor(r, start, m)
            && (j == |RecoverWrites(d, start)| ==> r[start][0] == 0 && SameHome(r, m, start))
  {
    var r := Apply(d, RecoverWrites(d, start)[..j]);
    RecoveringDisk(d, start, j);
    if j <= |HeadBlocks(d, start)| {
      DurableFrame(d, r, start, m);
    } else {
      InstalledHome(d, start, m, r);
      EmptyHeadStandsFor(r, start, m);
    }
  }

  /** Recovery attempts that stop after `crashes[0]`, `crashes[1]`, ... block writes, and then
      one that completes. */
  ghost function RecoverThrough(d: Disk, start: nat, crashes: seq<nat>): (r: Disk)
    requires HeadOk(d, start)
    decreases |crashes|
  {
    if crashes == [] then Recovered(d, start)
    else
      var ws := RecoverWrites(d, start);
      var j := if crashes[0] <= |ws| then crashes[0] else |ws|;
      RecoverStepKeeps(d, start, SelfDurable(d, start), j);
      RecoverThrough(Apply(d, ws[..j]), start, crashes[1..])
  }

  ghost function SelfDurable(d: Disk, start: nat): (m: Disk)
    requires HeadOk(d, start)
    ensures StandsFor(d, start, m)
  {
    seq(|d|, i requires 0 <= i < |d| => if InLog(start, i) then d[i] else Durable(d, start, i))
  }

  /** However often recovery itself crashes, the recovery that completes restores exactly the
      durable home blocks and leaves the log empty. */
  lemma {:induction false} RecoveryIsIdempotent(d: Disk, start: nat, m: Disk, crashes: seq<nat>)
    requires StandsFor(d, start, m)
    ensures var r := RecoverThrough(d, start, crashes);
            && |r| == |d|
            && Layout(r, start)
            && r[start][0] == 0
            && SameHome(r, m, start)
    decreases |crashes|
  {
    var ws := RecoverWrites(d, start);
    if crashes == [] {
      TakeAll(ws, |ws|);
      RecoverStepKeeps(d, start, m, |ws|);
    } else {
      var j := if crashes[0] <= |ws| then crashes[0] else |ws|;
      RecoverStepKeeps(d, start, m, j);
      RecoverStepKeeps(d, start, SelfDurable(d, start), j);
      RecoveryIsIdempotent(Apply(d, ws[..j]), start, m, crashes[1..]);
    }
  }

  /** The commit theorem: a crash between any two block writes of commit, then any number of
      crashed recoveries, then a complete one, leaves the home blocks all old or all new, and
      all new exactly when the committing header write reached the disk. */
  lemma CommitCrashRecover(d: Disk, view: Disk, start: nat, bs: seq<int>, k: nat, crashes: seq<nat>)
    requires Quiet(d, view, start, bs) && k <= |CommitWrites(view, start, bs)|
    ensures var stopped := Apply(d, CommitWrites(view, start, bs)[..k]);
            && HeadOk(stopped, start)
            && SameHome(RecoverThrough(stopped, start, crashes),
                        if k <= |bs| then d else view, start)
            && var r := RecoverThrough(stopped, start, crashes);
               |r| == |d| && forall i :: 0 <= i < |d| && !(start <= i <= start + LOGBLOCKS) ==> r[i] == if k <= |bs| then d[i] else view[i]
  {
    CommitIsAtomic(d, view, start, bs, k);
    RecoveryIsIdempotent(Apply(d, CommitWrites(view, start, bs)[..k]), start,
                         if k <= |bs| then d else view, crashes);
  }

  // ----- The state machine of all runs -----

  /** `view[i]` is what bread returns for block `i`; `lh` is log.lh.block[..log.lh.n]; `used`
      has one entry for each outstanding operation, counting the block numbers it has added. */
  datatype State = State(start: nat, disk: Disk, view: Disk, lh: seq<int>, used: seq<nat>, committing: bool)

  datatype Event =
    | BeginOp
    | LogWrite(op: nat, no: int, data: Block)
    | EndOp(op: nat)
    | Commit
    | CrashInCommit(written: nat, crashes: seq<nat>)
    | Crash(crashes: seq<nat>)

  function Absorb(lh: seq<int>, no: int): (r: seq<int>) {
    if no in lh then lh else lh + [no]
  }

  function Unused(used: seq<nat>): (r: int) {
    if used == [] then 0 else Unused(used[..|used| - 1]) + (MAXOPBLOCKS - used[|used| - 1])
  }

  ghost predicate Inv(s: State) {
    && Quiet(s.disk, s.view, s.start, s.lh)
    && (forall i :: 0 <= i < |s.used| ==> s.used[i] <= MAXOPBLOCKS)
    && |s.lh| + Unused(s.used) <= LOGBLOCKS
    && (s.committing ==> s.used == [])
  }

  /** The guards of begin_op and log_write, and what log_write asks of its caller: inside an
      operation, on a block outside the log, at most MAXOPBLOCKS new numbers per operation. */
  ghost predicate Enabled(s: State, e: Event)
    requires Inv(s)
  {
    match e
    case BeginOp => !s.committing && |s.lh| + (|s.used| + 1) * MAXOPBLOCKS <= LOGBLOCKS
    case LogWrite(op, no, _) =>
      && op < |s.used|
      && IsHome(s.disk, s.start, no)
      && |s.lh| < LOGBLOCKS
      && (no in s.lh || s.used[op] < MAXOPBLOCKS)
    case EndOp(op) => op < |s.used|
    case Commit => s.committing
    case CrashInCommit(written, _) =>
      s.committing && written <= |CommitWrites(s.view, s.start, s.lh)|
    case Crash(_) => true
  }

  ghost function Reboot(s: State, d: Disk): (r: State) {
    s.(disk := d, view := d, lh := [], used := [], committing := false)
  }

  ghost function Next(s: State, e: Event): (r: State)
    requires Inv(s) && Enabled(s, e)
  {
    match e
    case BeginOp => s.(used := s.used + [0])
    case LogWrite(op, no, data) =>
      s.(view := s.view[no := data], lh := Absorb(s.lh, no),
         used := if no in s.lh then s.used else s.used[op := s.used[op] + 1])
    case EndOp(op) =>
      s.(used := s.used[..op] + s.used[op + 1..], committing := |s.used| == 1)
    case Commit =>
      var ws := CommitWrites(s.view, s.start, s.lh);
      s.(disk := Apply(s.disk, ws), view := Apply(s.view, ws), lh := [], committing := false)
    case CrashInCommit(written, crashes) =>
      CommitIsAtomic(s.disk, s.view, s.start, s.lh, written);
      var stopped := Apply(s.disk, CommitWrites(s.view, s.start, s.lh)[..written]);
      Reboot(s, RecoverThrough(stopped, s.start, crashes))
    case Crash(crashes) =>
      QuietStandsForItself(s.disk, s.view, s.start, s.lh);
      Reboot(s, RecoverThrough(s.disk, s.start, crashes))
  }

  // ----- The simple specification: a block map with atomic transactions -----

  datatype Spec = Spec(durable: Disk, current: Disk)

  /** `logged` is the number of blocks in the transaction, so `written > logged` says that the
      committing header write reached the disk. */
  function SpecNext(a: Spec, e: Event, logged: nat): (r: Spec) {
    match e
    case BeginOp => a
    case LogWrite(_, no, data) => a.(current := Store(a.current, Write(no, data)))
    case EndOp(_) => a
    case Commit => a.(durable := a.current)
    case CrashInCommit(written, _) =>
      if written > logged then a.(durable := a.current) else a.(current := a.durable)
    case Crash(_) => a.(current := a.durable)
  }

  ghost predicate Refines(s: State, a: Spec) {
    && Inv(s)
    && SameHome(s.view, a.current, s.start)
    && SameHome(s.disk, a.durable, s.start)
  }

  lemma {:induction false} UnusedAppend(used: seq<nat>, u: nat)
    ensures Unused(used + [u]) == Unused(used) + MAXOPBLOCKS - u
  {
  }

  lemma {:induction false} UnusedUpdate(used: seq<nat>, i: nat, u: nat)
    requires i < |used|
    ensures Unused(used[i := u]) == Unused(used) + used[i] - u
  {
    var last := |used| - 1;
    if i < last {
      assert used[i := u][..last] == used[..last][i := u];
      UnusedUpdate(used[..last], i, u);
    } else {
      assert used[i := u][..last] == used[..last];
    }
  }

  lemma {:induction false} UnusedRemove(used: seq<nat>, i: nat)
    requires i < |used|
    ensures Unused(used[..i] + used[i + 1..]) == Unused(used) - (MAXOPBLOCKS - used[i])
  {
    var last := |used| - 1;
    var r := used[..i] + used[i + 1..];
    if i < last {
      assert r[..last - 1] == used[..last][..i] + used[..last][i + 1..];
      UnusedRemove(used[..last], i);
    } else {
      assert r == used[..last];
    }
  }

  lemma {:induction false} UnusedBounds(used: seq<nat>)
    requires forall i :: 0 <= i < |used| ==> used[i] <= MAXOPBLOCKS
    ensures Unused(used) >= 0
    ensures forall i :: 0 <= i < |used| ==> Unused(used) >= MAXOPBLOCKS - used[i]
  {
    if used != [] {
      UnusedBounds(used[..|used| - 1]);
    }
  }

  /** The size guard of log_write (tested before absorption) cannot fire for an operation that
      still has reservation left; it fires only when every outstanding operation has used its
      whole reservation and the log is full. */
  lemma SizeGuard(s: State, op: nat)
    requires Inv(s) && op < |s.used|
    ensures s.used[op] < MAXOPBLOCKS ==> |s.lh| < LOGBLOCKS
    ensures |s.lh| >= LOGBLOCKS ==>
              |s.lh| == LOGBLOCKS && forall i :: 0 <= i < |s.used| ==> s.used[i] == MAXOPBLOCKS
  {
    UnusedBounds(s.used);
  }

  lemma {:induction false} ApplyAgree(a: Disk, b: Disk, ws: seq<Write>, i: int)
    requires |a| == |b| && 0 <= i < |a| && a[i] == b[i]
    ensures Apply(a, ws)[i] == Apply(b, ws)[i]
  {
    if ws != [] {
      ApplyAgree(a, b, ws[..|ws| - 1], i);
    }
  }

  lemma CommitAgrees(d: Disk, view: Disk, start: nat, bs: seq<int>, ws: seq<Write>)
    requires Quiet(d, view, start, bs) && StartsCommit(ws, view, start, bs) && |ws| == 2 * |bs| + 2
    ensures Quiet(Apply(d, ws), Apply(view, ws), start, [])
  {
    CommitCompletes(d, view, start, bs, ws);
    forall i | 0 <= i < |d| ensures Apply(d, ws)[i] == Apply(view, ws)[i] {
      if i in bs {
        CommitHitsLogged(d, view, start, bs, ws, i);
        CommitHitsLogged(view, view, start, bs, ws, i);
      } else {
        ApplyAgree(d, view, ws, i);
      }
    }
  }

  lemma LogWriteRefines(s: State, a: Spec, e: Event)
    requires Refines(s, a) && Enabled(s, e) && e.LogWrite?
    ensures Refines(Next(s, e), SpecNext(a, e, |s.lh|))
  {
    UnusedBounds(s.used);
    if e.no !in s.lh {
      UnusedUpdate(s.used, e.op, s.used[e.op] + 1);
    }
  }

  lemma CommitRefines(s: State, a: Spec, e: Event)
    requires Refines(s, a) && Enabled(s, e) && e.Commit?
    ensures Refines(Next(s, e), SpecNext(a, e, |s.lh|))
  {
    var ws := CommitWrites(s.view, s.start, s.lh);
    if s.lh != [] {
      CommitPrefix(s.view, s.start, s.lh, |ws|);
      TakeAll(ws, |ws|);
      CommitAgrees(s.disk, s.view, s.start, s.lh, ws);
      CommitCompletes(s.disk, s.view, s.start, s.lh, ws);
    }
  }

  lemma CrashRefines(s: State, a: Spec, e: Event)
    requires Refines(s, a) && Enabled(s, e) && (e.CrashInCommit? || e.Crash?)
    ensures Refines(Next(s, e), SpecNext(a, e, |s.lh|))
  {
    if e.CrashInCommit? {
      var ws := CommitWrites(s.view, s.start, s.lh);
      CommitIsAtomic(s.disk, s.view, s.start, s.lh, e.written);
      RecoveryIsIdempotent(Apply(s.disk, ws[..e.written]), s.start,
                           if e.written <= |s.lh| then s.disk else s.view, e.crashes);
    } else {
      QuietStandsForItself(s.disk, s.view, s.start, s.lh);
      RecoveryIsIdempotent(s.disk, s.start, s.disk, e.crashes);
    }
  }

  lemma BeginRefines(s: State, a: Spec)
    requires Refines(s, a) && Enabled(s, BeginOp)
    ensures Refines(Next(s, BeginOp), SpecNext(a, BeginOp, |s.lh|))
  {
    UnusedAppend(s.used, 0);
    UnusedReserve(s.used);
  }

  lemma EndRefines(s: State, a: Spec, op: nat)
    requires Refines(s, a) && Enabled(s, EndOp(op))
    ensures Refines(Next(s, EndOp(op)), SpecNext(a, EndOp(op), |s.lh|))
  {
    UnusedRemove(s.used, op);
    UnusedBounds(s.used);
  }

  lemma StepRefines(s: State, a: Spec, e: Event)
    requires Refines(s, a) && Enabled(s, e)
    ensures Refines(Next(s, e), SpecNext(a, e, |s.lh|))
  {
    match e
    case BeginOp => BeginRefines(s, a);
    case LogWrite(_, _, _) => LogWriteRefines(s, a, e);
    case EndOp(op) => EndRefines(s, a, op);
    case Commit => CommitRefines(s, a, e);
    case CrashInCommit(_, _) => CrashRefines(s, a, e);
    case Crash(_) => CrashRefines(s, a, e);
  }

  lemma {:induction false} UnusedReserve(used: seq<nat>)
    ensures Unused(used) <= |used| * MAXOPBLOCKS
  {
    if used != [] {
      UnusedReserve(used[..|used| - 1]);
    }
  }

  lemma StepKeepsInv(s: State, e: Event)
    requires Inv(s) && Enabled(s, e)
    ensures Inv(Next(s, e))
  {
    StepRefines(s, Spec(s.disk, s.view), e);
  }

  ghost predicate Possible(s: State, es: seq<Event>)
    requires Inv(s)
    decreases |es|
  {
    es == [] ||
    (Enabled(s, es[0]) && (StepKeepsInv(s, es[0]); Possible(Next(s, es[0]), es[1..])))
  }

  ghost function Run(s: State, es: seq<Event>): (r: State)
    requires Inv(s) && Possible(s, es)
    decreases |es|
  {
    if es == [] then s else StepKeepsInv(s, es[0]); Run(Next(s, es[0]), es[1..])
  }

  ghost function SpecRun(s: State, a: Spec, es: seq<Event>): (r: Spec)
    requires Inv(s) && Possible(s, es)
    decreases |es|
  {
    if es == [] then a
    else
      StepKeepsInv(s, es[0]);
      SpecRun(Next(s, es[0]), SpecNext(a, es[0], |s.lh|), es[1..])
  }

  /** Over every run (any interleaving of operations, commits, crashes at any block write and
      crashed recoveries) the log system is a block map with atomic durable transactions, the
      reservations fit the log, and committing excludes outstanding operations. */
  lemma {:induction false} RunRefines(s: State, a: Spec, es: seq<Event>)
    requires Refines(s, a) && Possible(s, es)
    ensures Refines(Run(s, es), SpecRun(s, a, es))
    ensures |Run(s, es).lh| + Unused(Run(s, es).used) <= LOGBLOCKS
    ensures Run(s, es).committing ==> Run(s, es).used == []
    decreases |es|
  {
    if es != [] {
      StepRefines(s, a, es[0]);
      RunRefines(Next(s, es[0]), SpecNext(a, es[0], |s.lh|), es[1..]);
    }
  }

  // ----- What a reader of blocks sees -----

  /** A block outside the log, over one step: without a crash it changes only by log_write to it. */
  lemma ViewStep(s: State, e: Event, no: int)
    requires Inv(s) && Enabled(s, e) && 0 <= no < |s.disk| && !(s.start <= no <= s.start + LOGBLOCKS)
    requires !e.Crash? && !e.CrashInCommit?
    ensures Inv(Next(s, e)) && Next(s, e).start == s.start && |Next(s, e).disk| == |s.disk| == |Next(s, e).view| == |s.view|
    ensures Next(s, e).view[no] == if e.LogWrite? && e.no == no then e.data else s.view[no]
    ensures Next(s, e).disk[no] == if e.Commit? then s.view[no] else s.disk[no]
  {
    StepRefines(s, Spec(s.disk, s.view), e);
    assert IsHome(Next(s, e).view, s.start, no) && IsHome(s.view, s.start, no) && IsHome(s.disk, s.start, no);
  }

  /** A crash outside commit brings back the blocks on disk.  A crash in commit, wherever it falls and
      however often recovery crashes too, brings back all blocks on disk or all blocks of the transaction,
      and these exactly if the header write was done. */
  lemma CrashStep(s: State, e: Event, no: int)
    requires Inv(s) && Enabled(s, e) && 0 <= no < |s.disk| && !(s.start <= no <= s.start + LOGBLOCKS)
    requires e.Crash? || e.CrashInCommit?
    ensures Inv(Next(s, e)) && Next(s, e).start == s.start && |Next(s, e).disk| == |s.disk| == |Next(s, e).view| == |s.view|
    ensures Next(s, e).view[no] == Next(s, e).disk[no] == if e.CrashInCommit? && e.written > |s.lh| then s.view[no] else s.disk[no]
  {
    StepRefines(s, Spec(s.disk, s.view), e);
    assert IsHome(Next(s, e).view, s.start, no) && IsHome(s.view, s.start, no) && IsHome(s.disk, s.start, no);
  }

  /** While there is no crash and no other log_write to it, a block reads as it was logged. */
  lemma {:induction false} LoggedIsRead(s: State, es: seq<Event>, no: int)
    requires Inv(s) && Possible(s, es) && 0 <= no < |s.disk| && !(s.start <= no <= s.start + LOGBLOCKS)
    requires forall n :: 0 <= n < |es| ==> !es[n].Crash? && !es[n].CrashInCommit? && !(es[n].LogWrite? && es[n].no == no)
    ensures |Run(s, es).view| == |s.view| && Run(s, es).view[no] == s.view[no]
    decreases |es|
  {
    if es != [] {
      ViewStep(s, es[0], no);
      LoggedIsRead(Next(s, es[0]), es[1..], no);
    }
  }

  /** A block that has been committed keeps its contents through every later run, with crashes anywhere in it,
      until it is logged again. */
  lemma {:induction false} CommittedStays(s: State, es: seq<Event>, no: int)
    requires Inv(s) && Possible(s, es) && 0 <= no < |s.disk| && !(s.start <= no <= s.start + LOGBLOCKS) && s.view[no] == s.disk[no]
    requires forall n :: 0 <= n < |es| ==> !(es[n].LogWrite? && es[n].no == no)
    ensures |Run(s, es).view| == |Run(s, es).disk| == |s.view| && Run(s, es).view[no] == Run(s, es).disk[no] == s.view[no]
    decreases |es|
  {
    if es != [] {
      if es[0].Crash? || es[0].CrashInCommit? {
        CrashStep(s, es[0], no);
      } else {
        ViewStep(s, es[0], no);
      }
      CommittedStays(Next(s, es[0]), es[1..], no);
    }
  }

  /** The promise of the log: data that an operation logs, followed by a commit, are read after every run in
      which the block is not logged again, whatever crashes it has after the commit. */
  lemma Durability(s: State, op: nat, no: int, data: Block, es: seq<Event>, fs: seq<Event>)
    requires Inv(s) && Enabled(s, LogWrite(op, no, data)) && Inv(Next(s, LogWrite(op, no, data)))
    requires Possible(Next(s, LogWrite(op, no, data)), es)
    requires forall n :: 0 <= n < |es| ==> !es[n].Crash? && !es[n].CrashInCommit? && !(es[n].LogWrite? && es[n].no == no)
    requires var t := Run(Next(s, LogWrite(op, no, data)), es); Inv(t) && Enabled(t, Commit) && Inv(Next(t, Commit)) && Possible(Next(t, Commit), fs)
    requires forall n :: 0 <= n < |fs| ==> !(fs[n].LogWrite? && fs[n].no == no)
    ensures var t := Run(Next(Run(Next(s, LogWrite(op, no, data)), es), Commit), fs); 0 <= no < |t.view| && t.view[no] == data
  {
    var s1 := Next(s, LogWrite(op, no, data));
    ViewStep(s, LogWrite(op, no, data), no);
    LoggedIsRead(s1, es, no);
    RunStays(s1, es);
    var t := Run(s1, es);
    ViewStep(t, Commit, no);
    CommittedStays(Next(t, Commit), fs, no);
  }

  lemma {:induction false} RunStays(s: State, es: seq<Event>)
    requires Inv(s) && Possible(s, es)
    ensures Run(s, es).start == s.start && |Run(s, es).disk| == |s.disk| && Inv(Run(s, es))
    decreases |es|
  {
    if es != [] {
      StepRefines(s, Spec(s.disk, s.view), es[0]);
      RunStays(Next(s, es[0]), es[1..]);
    }
  }

  /** When a commit is done the log is empty and open: the next begin_op is admitted at once. */
  lemma CommitMakesRoom(s: State)
    requires Inv(s) && Enabled(s, Commit)
    ensures Next(s, Commit).lh == [] && Next(s, Commit).used == [] && !Next(s, Commit).committing
    ensures Inv(Next(s, Commit)) && Enabled(Next(s, Commit), BeginOp)
  {
    StepKeepsInv(s, Commit);
  }

  // ----- The size guard can fire on a write that would only be absorbed -----

  function Filled(k: int): (used: seq<nat>)
    requires 0 <= k <= LOGBLOCKS
  {
    if k <= MAXOPBLOCKS then [k, 0, 0]
    else if k <= 2 * MAXOPBLOCKS then [MAXOPBLOCKS, k - MAXOPBLOCKS, 0]
    else [MAXOPBLOCKS, MAXOPBLOCKS, k - 2 * MAXOPBLOCKS]
  }

  function UpTo(base: int, k: nat): (r: seq<int>)
    ensures |r| == k && forall i :: 0 <= i < k ==> r[i] == base + i
  {
    seq(k, i => base + i)
  }

  // A run with one more event before it.
  lemma RunFrom(s: State, e: Event, rest: seq<Event>) returns (es: seq<Event>)
    requires Inv(s) && Enabled(s, e) && Inv(Next(s, e)) && Possible(Next(s, e), rest)
    ensures Possible(s, es) && Run(s, es) == Run(Next(s, e), rest)
  {
    es := [e] + rest;
    assert es[1..] == rest;
  }

  lemma {:induction false} FillFrom(s: State, base: int, b: Block) returns (es: seq<Event>)
    requires Inv(s) && |s.lh| <= LOGBLOCKS && s.lh == UpTo(base, |s.lh|) && s.used == Filled(|s.lh|)
    requires forall i :: base <= i < base + LOGBLOCKS ==> IsHome(s.disk, s.start, i)
    ensures Possible(s, es)
    ensures |Run(s, es).lh| == LOGBLOCKS && Run(s, es).used == [MAXOPBLOCKS, MAXOPBLOCKS, MAXOPBLOCKS]
    decreases LOGBLOCKS - |s.lh|
  {
    var k := |s.lh|;
    if k == LOGBLOCKS {
      es := [];
    } else {
      var e := LogWrite(if k < MAXOPBLOCKS then 0 else if k < 2 * MAXOPBLOCKS then 1 else 2, base + k, b);
      assert Enabled(s, e);
      StepKeepsInv(s, e);
      var s' := Next(s, e);
      assert s'.lh == UpTo(base, k + 1);
      assert s'.used == Filled(k + 1);
      es := FillFrom(s', base, b);
      es := RunFrom(s, e, es);
    }
  }

  lemma BeginThree(s: State) returns (s1: State, s2: State, s3: State)
    requires Inv(s) && s.lh == [] && s.used == [] && !s.committing
    ensures Enabled(s, BeginOp) && s1 == Next(s, BeginOp) && Inv(s1)
    ensures Enabled(s1, BeginOp) && s2 == Next(s1, BeginOp) && Inv(s2)
    ensures Enabled(s2, BeginOp) && s3 == Next(s2, BeginOp) && Inv(s3) && s3.used == [0, 0, 0]
  {
    s1 := Next(s, BeginOp);
    StepKeepsInv(s, BeginOp);
    s2 := Next(s1, BeginOp);
    StepKeepsInv(s1, BeginOp);
    s3 := Next(s2, BeginOp);
    StepKeepsInv(s2, BeginOp);
  }

  /** Three operations that each log MAXOPBLOCKS blocks fill the log; from there the guard
      rejects even a write to a block that is already logged. */
  lemma GuardRejectsAbsorption(s: State, base: int, b: Block) returns (es: seq<Event>)
    requires Inv(s) && s.lh == [] && s.used == [] && !s.committing
    requires forall i :: base <= i < base + LOGBLOCKS ==> IsHome(s.disk, s.start, i)
    ensures Possible(s, es)
    ensures var t := Run(s, es);
            |t.used| == 3 && |t.lh| >= LOGBLOCKS && Absorb(t.lh, t.lh[0]) == t.lh
  {
    var s1, s2, s3 := BeginThree(s);
    es := FillFrom(s3, base, b);
    es := RunFrom(s2, BeginOp, es);
    es := RunFrom(s1, BeginOp, es);
    es := RunFrom(s, BeginOp, es);
  }

  // ----- The operations of kernel/log.c -----

  class Log {
    const start: nat
    var disk: Disk
    var view: Disk               // what bread returns for each block
    var lh: seq<int>             // log.lh.block[..log.lh.n]
    var outstanding: int
    var committing: bool
    ghost var issued: seq<Write> // every bwrite so far
    ghost var used: seq<nat>     // block numbers added by each outstanding operation

    ghost predicate Valid()
      reads this
    {
      Layout(disk, start) && |view| == |disk| && GoodList(disk, start, lh) && outstanding == |used|
    }

    ghost function Abs(): (s: State)
      reads this
    {
      State(start, disk, view, lh, used, committing)
    }

    /** initlog, with nothing in memory: what was committed before the machine stopped is
        installed, and the log is empty and open. */
    constructor (d: Disk, start: nat)
      requires HeadOk(d, start)
      ensures Valid() && Inv(Abs()) && this.start == start && lh == [] && used == [] && !committing
      ensures disk == Recovered(d, start) && issued == RecoverWrites(d, start)
    {
      this.start, disk, view := start, d, d;
      lh, outstanding, committing, issued, used := [], 0, false, [], [];
      new;
      RecoverFromLog();
      RecoveredIsQuiet(d, start);
    }

    method Bwrite(no: int, data: Block)
      modifies this`disk, this`view, this`issued
      ensures disk == Store(old(disk), Write(no, data)) && view == Store(old(view), Write(no, data))
      ensures issued == old(issued) + [Write(no, data)]
    {
      issued := issued + [Write(no, data)];
      if 0 <= no < |disk| {
        disk := disk[no := data];
      }
      if 0 <= no < |view| {
        view := view[no := data];
      }
    }

    /** write_log: the cached contents of each logged block go to the log, in order. */
    method WriteLog()
      requires Valid()
      modifies this`disk, this`view, this`issued
      ensures Valid()
      ensures var ws := LogCopies(old(view), start, lh);
              issued == old(issued) + ws && disk == Apply(old(disk), ws) && view == Apply(old(view), ws)
    {
      ghost var ws, done := LogCopies(view, start, lh), [];
      var tail := 0;
      while tail < |lh|
        invariant 0 <= tail <= |lh| && |done| == tail && forall l :: 0 <= l < tail ==> done[l] == ws[l]
        invariant issued == old(issued) + done
        invariant disk == Apply(old(disk), done) && view == Apply(old(view), done)
      {
        ApplyFrame(old(view), done, lh[tail]);
        ApplyPush(old(disk), done, ws[tail]);
        ApplyPush(old(view), done, ws[tail]);
        Bwrite(start + tail + 1, view[lh[tail]]);
        done := done + [ws[tail]];
        tail := tail + 1;
      }
      assert done == ws;
    }

    /** write_head: one write of the header block holding the in-memory list. */
    method WriteHead()
      requires Valid()
      modifies this`disk, this`view, this`issued
      ensures Valid()
      ensures var w := Write(start, EncodeHead(old(view)[start], lh));
              issued == old(issued) + [w] && disk == Store(old(disk), w) && view == Store(old(view), w)
    {
      var buf := view[start];
      var hb: seq<int> := buf[0 := |lh|];
      var i := 0;
      while i < |lh|
        invariant 0 <= i <= |lh|
        invariant hb == [|lh|] + lh[..i] + buf[1 + i..]
      {
        hb := hb[1 + i := lh[i]];
        i := i + 1;
      }
      TakeAll(lh, |lh|);
      Bwrite(start, hb);
    }

    /** install_trans: each log block goes to its home block, in order. */
    method InstallTrans()
      requires Valid()
      modifies this`disk, this`view, this`issued
      ensures Valid()
      ensures var ws := Installs(old(view)[start + 1..start + 1 + |lh|], lh);
              issued == old(issued) + ws && disk == Apply(old(disk), ws) && view == Apply(old(view), ws)
    {
      ghost var ws, done := Installs(view[start + 1..start + 1 + |lh|], lh), [];
      var tail := 0;
      while tail < |lh|
        invariant 0 <= tail <= |lh| && |done| == tail && forall l :: 0 <= l < tail ==> done[l] == ws[l]
        invariant issued == old(issued) + done
        invariant disk == Apply(old(disk), done) && view == Apply(old(view), done)
      {
        ApplyFrame(old(view), done, start + 1 + tail);
        ApplyPush(old(disk), done, ws[tail]);
        ApplyPush(old(view), done, ws[tail]);
        Bwrite(lh[tail], view[start + tail + 1]);
        done := done + [ws[tail]];
        tail := tail + 1;
      }
      assert done == ws;
    }

    // The first half of commit: everything up to and including the committing header write.
    method WriteLogAndHead()
      requires Valid()
      modifies this`disk, this`view, this`issued
      ensures Valid()
      ensures var copies, h := LogCopies(old(view), start, lh), Write(start, EncodeHead(old(view)[start], lh));
              && issued == old(issued) + copies + [h]
              && disk == Store(Apply(old(disk), copies), h)
              && view == Store(Apply(old(view), copies), h)
      ensures view[start + 1..start + 1 + |lh|] == Gather(old(view), lh)
      ensures view[start] == EncodeHead(old(view)[start], lh)
    {
      ViewAfterCopies(view, start, lh);
      WriteLog();
      WriteHead();
    }

    // The second half of commit, and all of recovery after read_head.
    method InstallAndErase()
      requires Valid()
      modifies this`disk, this`view, this`issued, this`lh
      ensures Valid() && lh == []
      ensures var bs := old(lh);
              var inst := Installs(old(view)[start + 1..start + 1 + |bs|], bs);
              var h := Write(start, EncodeHead(old(view)[start], []));
              && issued == old(issued) + inst + [h]
              && disk == Store(Apply(old(disk), inst), h)
              && view == Store(Apply(old(view), inst), h)
    {
      ghost var inst := Installs(view[start + 1..start + 1 + |lh|], lh);
      ApplyFrame(view, inst, start);
      InstallTrans();
      lh := [];
      WriteHead();
    }

    /** commit(): exactly the write sequence the crash theorems are about, and the commit step
        of the state machine. */
    method CommitTrans()
      requires Valid() && Inv(Abs()) && committing
      modifies this
      ensures Valid()
      ensures issued == old(issued) + CommitWrites(old(view), start, old(lh))
      ensures Abs() == Next(old(Abs()), Commit)
    {
      ghost var was, v := issued, view;
      if |lh| > 0 {
        CommitComposes(disk, view, start, lh);
        CommitComposes(view, view, start, lh);
        ghost var bs := lh;
        WriteLogAndHead();
        InstallAndErase();
        CommitIssues(was, v, start, bs);
      }
      committing := false;
    }

    method ReadHead()
      requires Layout(view, start) && 0 <= view[start][0] <= LOGBLOCKS
      modifies this`lh
      ensures lh == HeadBlocks(view, start)
    {
      var buf := view[start];
      lh := [];
      var i := 0;
      while i < buf[0]
        invariant 0 <= i <= buf[0]
        invariant lh == buf[1..1 + i]
      {
        lh := lh + [buf[1 + i]];
        i := i + 1;
      }
    }

    /** recover_from_log(): run at boot, when memory holds nothing, so bread reads the disk. */
    method RecoverFromLog()
      requires HeadOk(disk, start) && view == disk && outstanding == |used|
      modifies this`disk, this`view, this`issued, this`lh
      ensures Valid() && lh == [] && view == disk
      ensures issued == old(issued) + RecoverWrites(old(disk), start)
      ensures disk == Recovered(old(disk), start)
    {
      ghost var was, d := issued, disk;
      ReadHead();
      InstallAndErase();
      RecoverIssues(was, d, start);
    }

    /** One pass of begin_op's loop: either the operation is admitted or the caller sleeps. */
    method TryBeginOp() returns (admitted: bool)
      requires Valid() && Inv(Abs())
      modifies this`outstanding, this`used
      ensures admitted == Enabled(old(Abs()), BeginOp)
      ensures admitted <==> !old(committing) && |old(lh)| + 10 * (old(outstanding) + 1) <= 30
      ensures outstanding == if admitted then old(outstanding) + 1 else old(outstanding)
      ensures Abs() == if admitted then Next(old(Abs()), BeginOp) else old(Abs())
      ensures Valid()
    {
      if committing {
        admitted := false;
      } else if |lh| + (outstanding + 1) * MAXOPBLOCKS > LOGBLOCKS {
        admitted := false;
      } else {
        outstanding := outstanding + 1;
        used := used + [0];
        admitted := true;
      }
    }

    /** log_write on a block that the caller has changed to `data`.  The method reports the
        panics; a write that does not panic is the log_write step of the state machine. */
    method WriteBlock(ghost op: nat, no: int, data: Block) returns (panicked: bool)
      requires Valid() && Inv(Abs())
      requires op < |used| && IsHome(disk, start, no) && (no in lh || used[op] < MAXOPBLOCKS)
      modifies this`view, this`lh, this`used
      ensures panicked <==> |old(lh)| >= LOGBLOCKS
      ensures panicked ==> Abs() == old(Abs())
      ensures !panicked ==> Abs() == Next(old(Abs()), LogWrite(op, no, data))
      ensures !panicked ==> view == old(view)[no := data] && lh == (if no in old(lh) then old(lh) else old(lh) + [no])
      ensures Valid()
    {
      if |lh| >= LOGBLOCKS {
        return true;
      }
      view := view[no := data];
      var i := 0;
      while i < |lh| && lh[i] != no
        invariant 0 <= i <= |lh|
        invariant no !in lh[..i]
      {
        i := i + 1;
      }
      TakeAll(lh, |lh|);
      if i == |lh| {
        lh := lh + [no];
        used := used[op := used[op] + 1];
      } else {
        lh := lh[i := no];
      }
      panicked := false;
    }

    /** end_op up to the call of commit: the last operation out must commit. */
    method FinishOp(ghost op: nat) returns (doCommit: bool)
      requires Valid() && Inv(Abs()) && op < |used|
      modifies this`outstanding, this`committing, this`used
      ensures doCommit == committing == (old(outstanding) == 1)
      ensures Abs() == Next(old(Abs()), EndOp(op))
      ensures Valid()
    {
      outstanding := outstanding - 1;
      used := used[..op] + used[op + 1..];
      doCommit := false;
      if outstanding == 0 {
        doCommit := true;
        committing := true;
      }
    }
  }

  lemma ViewAfterCopies(v: Disk, start: nat, bs: seq<int>)
    requires Layout(v, start) && GoodList(v, start, bs)
    ensures var r := Apply(v, LogCopies(v, start, bs));
            && r[start] == v[start]
            && r[start + 1..start + 1 + |bs|] == Gather(v, bs)
  {
    var ws := LogCopies(v, start, bs);
    ApplyFrame(v, ws, start);
    forall l | 0 <= l < |bs| ensures Apply(v, ws)[start + 1 + l] == v[bs[l]] {
      ApplyHit(v, ws, l);
    }
  }

  lemma CommitIssues(was: seq<Write>, v: Disk, start: nat, bs: seq<int>)
    requires Layout(v, start) && GoodList(v, start, bs) && bs != []
    ensures var head := EncodeHead(v[start], bs);
            was + CommitWrites(v, start, bs) ==
            was + LogCopies(v, start, bs) + [Write(start, head)]
            + Installs(Gather(v, bs), bs) + [Write(start, EncodeHead(head, []))]
  {
  }

  lemma RecoverIssues(was: seq<Write>, d: Disk, start: nat)
    requires HeadOk(d, start)
    ensures var bs := HeadBlocks(d, start);
            var inst, h := Installs(d[start + 1..start + 1 + |bs|], bs), Write(start, EncodeHead(d[start], []));
            && was + RecoverWrites(d, start) == was + inst + [h]
            && Recovered(d, start) == Store(Apply(d, inst), h)
  {
  }

  lemma RecoveredIsQuiet(d: Disk, start: nat)
    requires HeadOk(d, start)
    ensures Quiet(Recovered(d, start), Recovered(d, start), start, [])
  {
    RecoverIssues([], d, start);
  }

  lemma CommitComposes(d: Disk, v: Disk, start: nat, bs: seq<int>)
    requires |d| == |v| && Layout(v, start) && GoodList(v, start, bs) && bs != []
    ensures var head := EncodeHead(v[start], bs);
            var h1, h2 := Write(start, head), Write(start, EncodeHead(head, []));
            Apply(d, CommitWrites(v, start, bs)) ==
            Store(Apply(Store(Apply(d, LogCopies(v, start, bs)), h1), Installs(Gather(v, bs), bs)), h2)
  {
    var head := EncodeHead(v[start], bs);
    var h1, h2 := Write(start, head), Write(start, EncodeHead(head, []));
    var copies, inst := LogCopies(v, start, bs), Installs(Gather(v, bs), bs);
    var d1 := Apply(d, copies + [h1]);
    assert d1 == Store(Apply(d, copies), h1) by { assert (copies + [h1])[..|copies|] == copies; }
    ApplyAppend(d, copies + [h1], inst);
    var all := copies + [h1] + inst + [h2];
    assert all[..|all| - 1] == copies + [h1] + inst;
  }
}
