/**
  Runs of `allocate_inode` and `allocate_data_block` of src/fs/simple_fs.rs, in any order, with any failures and
  under any superblock that `mount` accepts: when no number is handed out twice.

  `allocate_inode` reads block 1 but writes the bitmap block that the superblock names;
  `allocate_data_block` reads and writes block 2.
*/
module FsAllocation {
  import opened Bytes
  import opened Options
  import opened FsLayout
  import opened FsDevice
  import opened FsPlans
  import opened FsInvariant
  import opened FsRuns
  import opened FsStart
  import opened Bitmaps

  datatype Call = InodeCall(faults: seq<Fault>) | DataCall(faults: seq<Fault>)

  function Do(d: Disk, sb: SuperBlock, c: Call): Effect<u64> {
    match c
    case InodeCall(faults) => Perform(d, faults, AllocateInodePlan(d, sb))
    case DataCall(faults) => Perform(d, faults, AllocateDataPlan(d, sb))
  }

  /** The inode numbers that the successful calls of a run return, in order. */
  function Inodes(d: Disk, sb: SuperBlock, calls: seq<Call>): seq<u64>
    decreases |calls|
  {
    if calls == [] then [] else
      var e := Do(d, sb, calls[0]);
      (if calls[0].InodeCall? && e.result.Ok? then [e.result.value] else []) + Inodes(e.disk, sb, calls[1..])
  }

  /** The data blocks that the successful calls of a run return, in order. */
  function DataBlocks(d: Disk, sb: SuperBlock, calls: seq<Call>): seq<u64>
    decreases |calls|
  {
    if calls == [] then [] else
      var e := Do(d, sb, calls[0]);
      (if calls[0].DataCall? && e.result.Ok? then [e.result.value] else []) + DataBlocks(e.disk, sb, calls[1..])
  }

  predicate Increasing(s: seq<u64>) {
    forall i, j | 0 <= i < j < |s| :: s[i] < s[j]
  }

  // ---------------------------------------------------------------- one call

  /** A read and a write, with any faults: the block written is as it was, torn, or new. */
  lemma ReadThenWrite(d: Disk, faults: seq<Fault>, r: nat, b: nat, block: Block)
    ensures var o := Exec(d, faults, [Read(r), Write(b, block)]);
            && (o.done ==> r < |d| && b < |d| && o.disk == d[b := block])
            && (o.disk == d || (b < |d| && exists kept: nat :: o.disk == d[b := Torn(d[b], block, kept)]))
            && (faults == [] && r < |d| && b < |d| ==> o.done)
  {
    hide Torn;
    ExecTwo(d, faults, Read(r), Write(b, block));
    var o1 := Exec(d, faults, [Read(r)]);
    if o1.done {
      var f := Now(o1.faults);
      var o := Exec(d, o1.faults, [Write(b, block)]);
      if b < |d| && f.Fails? { assert o.disk == d[b := Torn(d[b], block, f.kept)]; }
      if b < |d| && f.Works? {
        TornWhole(d[b], block);
        assert o.disk == d[b := block] == d[b := Torn(d[b], block, BLOCK_SIZE)];
      }
    }
  }

  lemma TornWhole(a: Block, b: Block)
    ensures Torn(a, b, BLOCK_SIZE) == b
  {
  }

  /** A torn write of one more bit leaves the map as it was or with the bit set. */
  lemma TornBit(m: Block, i: nat, kept: nat)
    requires i < 4096
    ensures Torn(m, SetBit(m, i), kept) == m || Torn(m, SetBit(m, i), kept) == SetBit(m, i)
  {
    TornByte(m, i / 8, WithBit(m[i / 8], i % 8), kept);
  }

  /** What a call leaves of block `id`, and what it returns, if it reads and writes its map there. */
  lemma MapCall(d: Disk, faults: seq<Fault>, id: nat, i: nat)
    requires FirstClear(At(d, id)) == Some(i) && i < 4096
    ensures var m := At(d, id);
            var o := Exec(d, faults, [Read(id), Write(id, SetBit(m, i))]);
            && (o.done ==> At(o.disk, id) == SetBit(m, i))
            && (At(o.disk, id) == m || At(o.disk, id) == SetBit(m, i))
            && (forall b: nat | b != id :: At(o.disk, b) == At(d, b))
  {
    hide WithBit, Torn, FirstClear;
    var m := At(d, id);
    ReadThenWrite(d, faults, id, id, SetBit(m, i));
    var o := Exec(d, faults, [Read(id), Write(id, SetBit(m, i))]);
    if o.disk != d {
      var kept: nat :| o.disk == d[id := Torn(d[id], SetBit(m, i), kept)];
      TornBit(m, i, kept);
    }
  }

  lemma ReadOnly(d: Disk, faults: seq<Fault>, id: nat)
    ensures Exec(d, faults, [Read(id)]).disk == d
  {
  }

  /** A call on a map that it reads and writes in the same block, whether inodes or data blocks. */
  predicate InPlace(sb: SuperBlock, c: Call) {
    c.DataCall? || sb.inodeBitmapBlock == INODE_BITMAP_BLOCK
  }

  function MapBlock(c: Call): nat {
    if c.InodeCall? then INODE_BITMAP_BLOCK else DATA_BITMAP_BLOCK
  }

  function First(sb: SuperBlock, c: Call): u64 {
    if c.InodeCall? then 0 else sb.dataBlockStart
  }

  /** The first `lo` bits are set. */
  predicate Below(m: Block, lo: nat) {
    lo <= 4096 && forall j: nat | j < lo :: IsSet(m, j)
  }

  lemma SetBitKeepsBelow(m: Block, i: nat, lo: nat)
    requires Below(m, lo) && FirstClear(m) == Some(i)
    ensures lo <= i && Below(SetBit(m, i), i + 1)
  {
    hide HasBit;
    forall j: nat | j < i + 1 ensures IsSet(SetBit(m, i), j) { SetBitEffect(m, i, j); }
  }

  lemma CallInPlace(d: Disk, sb: SuperBlock, c: Call, lo: nat)
    requires InPlace(sb, c) && Below(At(d, MapBlock(c)), lo)
    ensures var e := Do(d, sb, c);
            && Below(At(e.disk, MapBlock(c)), lo)
            && (forall b: nat | b != MapBlock(c) :: At(e.disk, b) == At(d, b))
            && (e.result.Ok? ==>
                  var i := e.result.value - First(sb, c);
                  lo <= i < 4096 && Below(At(e.disk, MapBlock(c)), i + 1))
  {
    hide SetBit, IsSet, FirstClear, Exec;
    var id, m := MapBlock(c), At(d, MapBlock(c));
    match FirstClear(m)
    case None => ReadOnly(d, c.faults, id);
    case Some(i) =>
      MapCall(d, c.faults, id, i);
      SetBitKeepsBelow(m, i, lo);
  }

  /** A call on a device that does not fail: the first clear bit, no space, or an overflowing block number. */
  lemma CallExact(d: Disk, sb: SuperBlock)
    requires |d| > 2 && sb.inodeBitmapBlock < |d|
    ensures Do(d, sb, InodeCall([])).result
         == match FirstClear(d[1]) case None => Err(NoSpace) case Some(i) => Ok(i)
    ensures Do(d, sb, DataCall([])).result
         == match FirstClear(d[2])
            case None => Err(NoSpace)
            case Some(i) => if sb.dataBlockStart + i <= 0xFFFF_FFFF_FFFF_FFFF then Ok(sb.dataBlockStart + i) else Panic
  {
    hide WithBit, FirstClear;
    ReadWorks(d, 1);
    ReadWorks(d, 2);
    var f, g := FirstClear(d[1]), FirstClear(d[2]);
    if f.Some? { ReadThenWrite(d, [], 1, sb.inodeBitmapBlock, SetBit(d[1], f.value)); }
    if g.Some? { ReadThenWrite(d, [], 2, 2, SetBit(d[2], g.value)); }
  }

  lemma ReadWorks(d: Disk, id: nat)
    requires id < |d|
    ensures Exec(d, [], [Read(id)]).done
  {
  }

  // ---------------------------------------------------------------- runs

  lemma IncreasingCons(x: u64, s: seq<u64>)
    requires Increasing(s) && forall y | y in s :: x < y
    ensures Increasing([x] + s)
  {
    var t := [x] + s;
    forall i, j | 0 <= i < j < |t| ensures t[i] < t[j] {
      assert t[j] == s[j - 1] && s[j - 1] in s && (i > 0 ==> t[i] == s[i - 1]);
    }
  }

  lemma RepeatedIsNot(x: u64)
    ensures !Increasing([x, x])
  {
    assert [x, x][0] == [x, x][1];
  }

  lemma {:induction false} InodesIncrease(d: Disk, sb: SuperBlock, calls: seq<Call>, lo: nat)
    requires sb.inodeBitmapBlock == INODE_BITMAP_BLOCK && Below(At(d, INODE_BITMAP_BLOCK), lo)
    ensures Increasing(Inodes(d, sb, calls)) && forall x | x in Inodes(d, sb, calls) :: lo <= x < 4096
    decreases |calls|
  {
    hide Do, Below;
    if calls != [] {
      var c, e := calls[0], Do(d, sb, calls[0]);
      if c.InodeCall? {
        CallInPlace(d, sb, c, lo);
        InodesIncrease(e.disk, sb, calls[1..], if e.result.Ok? then e.result.value + 1 else lo);
        if e.result.Ok? { IncreasingCons(e.result.value, Inodes(e.disk, sb, calls[1..])); }
      } else {
        NothingBelow(At(d, DATA_BITMAP_BLOCK));
        CallInPlace(d, sb, c, 0);
        InodesIncrease(e.disk, sb, calls[1..], lo);
        assert [] + Inodes(e.disk, sb, calls[1..]) == Inodes(e.disk, sb, calls[1..]);
      }
    }
  }

  lemma NothingBelow(m: Block)
    ensures Below(m, 0)
  {
  }

  /** An inode call leaves all blocks alone but the one that the superblock names. */
  lemma InodeCallElsewhere(d: Disk, sb: SuperBlock, faults: seq<Fault>, b: nat)
    requires b != sb.inodeBitmapBlock
    ensures At(Do(d, sb, InodeCall(faults)).disk, b) == At(d, b)
  {
    hide WithBit, FirstClear, Torn;
    var m := At(d, INODE_BITMAP_BLOCK);
    match FirstClear(m)
    case None => ReadOnly(d, faults, INODE_BITMAP_BLOCK);
    case Some(i) =>
      ReadThenWrite(d, faults, INODE_BITMAP_BLOCK, sb.inodeBitmapBlock, SetBit(m, i));
  }

  /** No inode call of the run writes over the data bitmap. */
  predicate LeavesDataMap(sb: SuperBlock, calls: seq<Call>) {
    sb.inodeBitmapBlock != DATA_BITMAP_BLOCK || forall i | 0 <= i < |calls| :: calls[i].DataCall?
  }

  lemma {:induction false} DataBlocksIncrease(d: Disk, sb: SuperBlock, calls: seq<Call>, lo: nat)
    requires LeavesDataMap(sb, calls) && Below(At(d, DATA_BITMAP_BLOCK), lo)
    ensures Increasing(DataBlocks(d, sb, calls))
    ensures forall x | x in DataBlocks(d, sb, calls) :: sb.dataBlockStart + lo <= x < sb.dataBlockStart + 4096
    decreases |calls|
  {
    hide Do, Below;
    if calls != [] {
      var c, e := calls[0], Do(d, sb, calls[0]);
      assert LeavesDataMap(sb, calls[1..]);
      if c.DataCall? {
        CallInPlace(d, sb, c, lo);
        DataBlocksIncrease(e.disk, sb, calls[1..], if e.result.Ok? then e.result.value - sb.dataBlockStart + 1 else lo);
        if e.result.Ok? { IncreasingCons(e.result.value, DataBlocks(e.disk, sb, calls[1..])); }
      } else {
        InodeCallElsewhere(d, sb, c.faults, DATA_BITMAP_BLOCK);
        DataBlocksIncrease(e.disk, sb, calls[1..], lo);
        assert [] + DataBlocks(e.disk, sb, calls[1..]) == DataBlocks(e.disk, sb, calls[1..]);
      }
    }
  }

  // ---------------------------------------------------------------- inodes: exactly when

  /** A call without failures would return an inode. */
  predicate CanAllocate(d: Disk, sb: SuperBlock) {
    |d| > INODE_BITMAP_BLOCK && sb.inodeBitmapBlock < |d| && FirstClear(At(d, INODE_BITMAP_BLOCK)).Some?
  }

  /** With the bitmap written elsewhere no call changes what the next one reads. */
  lemma CallElsewhere(d: Disk, sb: SuperBlock, c: Call)
    requires sb.inodeBitmapBlock != INODE_BITMAP_BLOCK
    ensures var e := Do(d, sb, c);
            && |e.disk| == |d| && At(e.disk, INODE_BITMAP_BLOCK) == At(d, INODE_BITMAP_BLOCK)
            && (c.InodeCall? && e.result.Ok? ==> CanAllocate(d, sb))
            && (c == InodeCall([]) && CanAllocate(d, sb) ==>
                  e.result == Ok(FirstClear(At(d, INODE_BITMAP_BLOCK)).value))
  {
    hide WithBit, IsSet, Torn;
    match c
    case DataCall(_) =>
      NothingBelow(At(d, DATA_BITMAP_BLOCK));
      CallInPlace(d, sb, c, 0);
    case InodeCall(faults) =>
      InodeCallElsewhere(d, sb, faults, INODE_BITMAP_BLOCK);
      var m := At(d, INODE_BITMAP_BLOCK);
      var f := FirstClear(m);
      if f.Some? { ReadThenWrite(d, faults, INODE_BITMAP_BLOCK, sb.inodeBitmapBlock, SetBit(m, f.value)); }
  }

  lemma {:induction false} NoInodes(d: Disk, sb: SuperBlock, calls: seq<Call>)
    requires sb.inodeBitmapBlock != INODE_BITMAP_BLOCK && !CanAllocate(d, sb)
    ensures Inodes(d, sb, calls) == []
    decreases |calls|
  {
    hide Do;
    if calls != [] {
      CallElsewhere(d, sb, calls[0]);
      NoInodes(Do(d, sb, calls[0]).disk, sb, calls[1..]);
    }
  }

  const TWICE := [InodeCall([]), InodeCall([])]

  lemma SameInodeTwice(d: Disk, sb: SuperBlock)
    requires sb.inodeBitmapBlock != INODE_BITMAP_BLOCK && CanAllocate(d, sb)
    ensures var i := FirstClear(At(d, INODE_BITMAP_BLOCK)).value; Inodes(d, sb, TWICE) == [i, i]
  {
    hide Do;
    var d1 := Do(d, sb, InodeCall([])).disk;
    CallElsewhere(d, sb, InodeCall([]));
    CallElsewhere(d1, sb, InodeCall([]));
    assert TWICE[1..] == [InodeCall([])] && [InodeCall([])][1..] == [];
    assert Inodes(d1, sb, [InodeCall([])]) == [FirstClear(At(d, INODE_BITMAP_BLOCK)).value];
  }

  /**
    On a given disk, over every run of calls with any failures: the inodes returned strictly increase, so none
    comes twice, if and only if the superblock names block 1 as the inode bitmap, or no call could succeed.
  */
  lemma InodesNeverTwice(d: Disk, sb: SuperBlock)
    ensures (forall calls: seq<Call> :: Increasing(Inodes(d, sb, calls)))
            <==> sb.inodeBitmapBlock == INODE_BITMAP_BLOCK || !CanAllocate(d, sb)
  {
    hide Inodes, Below;
    if sb.inodeBitmapBlock == INODE_BITMAP_BLOCK {
      NothingBelow(At(d, INODE_BITMAP_BLOCK));
      forall calls: seq<Call> ensures Increasing(Inodes(d, sb, calls)) { InodesIncrease(d, sb, calls, 0); }
    } else if !CanAllocate(d, sb) {
      forall calls: seq<Call> ensures Increasing(Inodes(d, sb, calls)) { NoInodes(d, sb, calls); }
    } else {
      SameInodeTwice(d, sb);
      RepeatedIsNot(FirstClear(At(d, INODE_BITMAP_BLOCK)).value);
      assert !Increasing(Inodes(d, sb, TWICE));
    }
  }

  /** So a superblock is safe on every disk if and only if it names block 1. */
  lemma InodeBitmapMustBeOne(sb: SuperBlock)
    ensures (forall d: Disk, calls: seq<Call> :: Increasing(Inodes(d, sb, calls)))
            <==> sb.inodeBitmapBlock == INODE_BITMAP_BLOCK
  {
    if sb.inodeBitmapBlock == INODE_BITMAP_BLOCK {
      forall d: Disk, calls: seq<Call> ensures Increasing(Inodes(d, sb, calls)) { InodesNeverTwice(d, sb); }
    } else {
      var d: Disk := seq(sb.inodeBitmapBlock + 2, _ => ZeroBlock());
      assert At(d, INODE_BITMAP_BLOCK) == ZeroBlock();
      ZeroIsClear();
      SameInodeTwice(d, sb);
      RepeatedIsNot(FirstClear(At(d, INODE_BITMAP_BLOCK)).value);
      assert !Increasing(Inodes(d, sb, TWICE));
    }
  }

  // ---------------------------------------------------------------- data blocks: exactly when

  const LAST_BLOCK: u64 := 0xFFFF_FFFF_FFFF_FFFF

  /** The bitmap that an inode call writes always has bit 0 set, as far as the write gets. */
  lemma FirstBitStays(d: Disk, sb: SuperBlock, c: Call)
    requires Below(At(d, DATA_BITMAP_BLOCK), 1)
    ensures Below(At(Do(d, sb, c).disk, DATA_BITMAP_BLOCK), 1)
  {
    hide HasBit, WithBit, FirstClear;
    match c
    case DataCall(_) => CallInPlace(d, sb, c, 1);
    case InodeCall(faults) =>
      var m := At(d, INODE_BITMAP_BLOCK);
      var f := FirstClear(m);
      if sb.inodeBitmapBlock != DATA_BITMAP_BLOCK {
        InodeCallElsewhere(d, sb, faults, DATA_BITMAP_BLOCK);
      } else if f.Some? {
        ReadThenWrite(d, faults, INODE_BITMAP_BLOCK, DATA_BITMAP_BLOCK, SetBit(m, f.value));
        NothingBelow(m);
        SetBitKeepsBelow(m, f.value, 0);
        assert IsSet(SetBit(m, f.value), 0);
        TornFirstBit(At(d, DATA_BITMAP_BLOCK), SetBit(m, f.value));
      } else {
        ReadOnly(d, faults, INODE_BITMAP_BLOCK);
      }
  }

  lemma TornFirstBit(a: Block, b: Block)
    requires Below(a, 1) && Below(b, 1)
    ensures forall kept: nat :: Below(Torn(a, b, kept), 1)
  {
    forall kept: nat ensures Below(Torn(a, b, kept), 1) {
      assert IsSet(a, 0) && IsSet(b, 0);
      assert Torn(a, b, kept)[0] == if kept == 0 then a[0] else b[0];
    }
  }

  /** If only block `LAST_BLOCK` can be returned, it is returned at most once. */
  lemma {:induction false} LastBlockOnce(d: Disk, sb: SuperBlock, calls: seq<Call>)
    requires sb.dataBlockStart == LAST_BLOCK
    ensures |DataBlocks(d, sb, calls)| <= if Below(At(d, DATA_BITMAP_BLOCK), 1) then 0 else 1
    decreases |calls|
  {
    hide Do, Below;
    if calls != [] {
      var c, e := calls[0], Do(d, sb, calls[0]);
      if Below(At(d, DATA_BITMAP_BLOCK), 1) {
        FirstBitStays(d, sb, c);
        if c.DataCall? { CallInPlace(d, sb, c, 1); }
      } else if c.DataCall? {
        NothingBelow(At(d, DATA_BITMAP_BLOCK));
        CallInPlace(d, sb, c, 0);
      }
      LastBlockOnce(e.disk, sb, calls[1..]);
    }
  }

  const TURNS := [InodeCall([]), DataCall([]), InodeCall([]), DataCall([])]

  /** Inode and data calls in turn, both on block 2: each inode call resets the data bitmap. */
  lemma Turn(d: Disk, sb: SuperBlock)
    requires |d| == 3 && d[1] == ZeroBlock()
    requires sb.inodeBitmapBlock == DATA_BITMAP_BLOCK && sb.dataBlockStart < LAST_BLOCK
    ensures var d1 := Do(d, sb, InodeCall([])).disk;
            var e := Do(d1, sb, DataCall([]));
            |e.disk| == 3 && e.disk[1] == ZeroBlock() && e.result == Ok(sb.dataBlockStart + 1)
  {
    hide WithBit, IsSet, FirstClear, ZeroBlock, Exec;
    ZeroIsClear();
    ReadThenWrite(d, [], 1, 2, OneBit());
    var d1 := Do(d, sb, InodeCall([])).disk;
    assert d1 == d[2 := OneBit()];
    OneBitNext();
    ReadThenWrite(d1, [], 2, 2, SetBit(OneBit(), 1));
  }

  lemma OneBitNext()
    ensures FirstClear(OneBit()) == Some(1)
  {
    hide HasBit, WithBit, FirstClear;
    ZeroByte(1);
    SetBitEffect(ZeroBlock(), 0, 0);
    SetBitEffect(ZeroBlock(), 0, 1);
    FirstClearUnique(OneBit(), 1);
  }

  lemma SameBlockTwice(d: Disk, sb: SuperBlock)
    requires |d| == 3 && d[1] == ZeroBlock()
    requires sb.inodeBitmapBlock == DATA_BITMAP_BLOCK && sb.dataBlockStart < LAST_BLOCK
    ensures DataBlocks(d, sb, TURNS) == [sb.dataBlockStart + 1, sb.dataBlockStart + 1]
  {
    hide Do;
    var d1 := Do(d, sb, InodeCall([])).disk;
    var d2 := Do(d1, sb, DataCall([])).disk;
    var d3 := Do(d2, sb, InodeCall([])).disk;
    Turn(d, sb);
    Turn(d2, sb);
    assert TURNS[1..] == [DataCall([]), InodeCall([]), DataCall([])];
    assert TURNS[1..][1..] == [InodeCall([]), DataCall([])] && TURNS[1..][1..][1..] == [DataCall([])];
    assert DataBlocks(d3, sb, [DataCall([])]) == [sb.dataBlockStart + 1];
    assert DataBlocks(d2, sb, [InodeCall([]), DataCall([])]) == [sb.dataBlockStart + 1];
    assert DataBlocks(d1, sb, TURNS[1..]) == [sb.dataBlockStart + 1, sb.dataBlockStart + 1];
  }

  /** Without inode calls in between the data blocks returned strictly increase, whatever fails. */
  lemma DataBlocksNeverTwice(d: Disk, sb: SuperBlock, calls: seq<Call>)
    requires forall i | 0 <= i < |calls| :: calls[i].DataCall?
    ensures Increasing(DataBlocks(d, sb, calls))
    ensures forall x | x in DataBlocks(d, sb, calls) :: sb.dataBlockStart <= x < sb.dataBlockStart + 4096
  {
    NothingBelow(At(d, DATA_BITMAP_BLOCK));
    DataBlocksIncrease(d, sb, calls, 0);
  }

  /**
    In any mixture of calls they do so on every disk if and only if the superblock does not name block 2 as the
    inode bitmap, or leaves a single block number to return.
  */
  lemma InodeBitmapMustNotBeTwo(sb: SuperBlock)
    ensures (forall d: Disk, calls: seq<Call> :: Increasing(DataBlocks(d, sb, calls)))
            <==> sb.inodeBitmapBlock != DATA_BITMAP_BLOCK || sb.dataBlockStart == LAST_BLOCK
  {
    hide DataBlocks, Below;
    if sb.inodeBitmapBlock != DATA_BITMAP_BLOCK {
      forall d: Disk, calls: seq<Call> ensures Increasing(DataBlocks(d, sb, calls)) {
        NothingBelow(At(d, DATA_BITMAP_BLOCK));
        DataBlocksIncrease(d, sb, calls, 0);
      }
    } else if sb.dataBlockStart == LAST_BLOCK {
      forall d: Disk, calls: seq<Call> ensures Increasing(DataBlocks(d, sb, calls)) { LastBlockOnce(d, sb, calls); }
    } else {
      var d: Disk := [ZeroBlock(), ZeroBlock(), ZeroBlock()];
      SameBlockTwice(d, sb);
      RepeatedIsNot(sb.dataBlockStart + 1);
      assert !Increasing(DataBlocks(d, sb, TURNS));
    }
  }
}
