/**
  The disk that `format` and `init_root_directory` leave, for every device on which they succeed.
*/
module FsStart {
  import opened Bytes
  import opened Options
  import opened FsLayout
  import opened FsDevice
  import opened FsPlans
  import opened FsInvariant
  import opened FsRuns
  import opened Bitmaps

  /** `format` of `disk` and then `init_root_directory` both returned `Ok` and left world `w`. */
  predicate Started(disk: Disk, formatFaults: seq<Fault>, initFaults: seq<Fault>, w: World) {
    |disk| < 0x1_0000_0000_0000_0000 &&
    var f := Perform(disk, formatFaults, FormatPlan(|disk|));
    f.result.Ok? &&
    var r := Perform(f.disk, initFaults, InitRootPlan(f.disk, f.result.value));
    r.result.Ok? && w == World(r.disk, Some(f.result.value))
  }

  /** Every block belongs to exactly one of the areas that the superblock describes. */
  lemma FormatPartitions(capacity: u64, b: nat)
    requires 10 <= capacity && b < capacity
    ensures var sb := FormatSuper(capacity);
            var inTable := sb.inodeTableStartBlock <= b < sb.inodeTableStartBlock + sb.inodeCount / INODES_PER_BLOCK;
            var inData := sb.dataBlockStart <= b < sb.dataBlockStart + sb.dataBlockCount;
            && sb.totalBlocks == capacity && sb.inodeCount == 4 * (capacity / 10) > 0 && sb.dataBlockCount > 0
            && sb.dataBlockStart + sb.dataBlockCount == capacity
            && multiset{b == SUPERBLOCK_BLOCK, b == sb.inodeBitmapBlock, b == sb.dataBitmapBlock,
                        inTable, inData}[true] == 1
  {
    var start := INODE_TABLE_START_BLOCK + capacity / 10;
    assert 0 <= capacity - start < 0x1_0000_0000_0000_0000;
  }

  lemma {:induction false} DoneInRange(disk: Disk, faults: seq<Fault>, steps: seq<Access>)
    requires Exec(disk, faults, steps).done
    ensures InRange(disk, steps) && Exec(disk, faults, steps).disk == Apply(disk, steps)
    decreases |steps|
  {
    if steps != [] {
      DoneInRange(After(disk, steps[0], Works), Later(faults), steps[1..]);
      forall i | 0 <= i < |steps| ensures steps[i].id < |disk| {
        if i > 0 { assert steps[i] == steps[1..][i - 1]; }
      }
    }
  }

  lemma ApplyCons(d: Disk, a: Access, rest: seq<Access>)
    ensures Apply(d, [a] + rest) == Apply(After(d, a, Works), rest)
  {
    assert ([a] + rest)[1..] == rest;
  }

  // ---------------------------------------------------------------- format

  function Formatted(disk: Disk): Disk
    requires 3 <= |disk| < 0x1_0000_0000_0000_0000
  {
    disk[0 := SuperImage(FormatSuper(|disk|))][1 := ZeroBlock()][2 := ZeroBlock()]
  }

  lemma FormatDone(disk: Disk, faults: seq<Fault>)
    requires |disk| < 0x1_0000_0000_0000_0000
    requires Perform(disk, faults, FormatPlan(|disk|)).result.Ok?
    ensures |disk| >= 3
    ensures Perform(disk, faults, FormatPlan(|disk|)).disk == Formatted(disk)
    ensures Perform(disk, faults, FormatPlan(|disk|)).result == Ok(FormatSuper(|disk|))
  {
    hide SuperImage, ZeroBlock;
    var steps := FormatPlan(|disk|).steps;
    DoneInRange(disk, faults, steps);
    assert steps[2].id == 2;
    ApplyThree(disk, steps[0], steps[1], steps[2]);
    assert steps == [steps[0], steps[1], steps[2]];
  }

  /** On a device that does not fail `format` panics under three blocks and succeeds otherwise. */
  lemma FormatResult(disk: Disk)
    requires |disk| < 0x1_0000_0000_0000_0000
    ensures Perform(disk, [], FormatPlan(|disk|)).result == if |disk| < 3 then Panic else Ok(FormatSuper(|disk|))
  {
    hide SuperImage, ZeroBlock;
    var steps := FormatPlan(|disk|).steps;
    ExecReliable(disk, steps);
    assert |disk| >= 3 ==> InRange(disk, steps);
  }

  lemma ApplyThree(d: Disk, a: Access, b: Access, c: Access)
    ensures Apply(d, [a, b, c]) == After(After(After(d, a, Works), b, Works), c, Works)
  {
    assert [a, b, c] == [a] + [b, c];
    ApplyCons(d, a, [b, c]);
    ApplyTwo(After(d, a, Works), b, c);
  }

  // ---------------------------------------------------------------- init_root_directory

  lemma ZeroIsClear()
    ensures FirstClear(ZeroBlock()) == Some(0)
  {
    hide HasBit;
    ZeroByte(0);
    assert !IsSet(ZeroBlock(), 0);
    FirstClearUnique(ZeroBlock(), 0);
  }

  function OneBit(): Block {
    SetBit(ZeroBlock(), 0)
  }

  function RootInode(capacity: u64): Inode {
    NewInode(Directory, 2, INODE_TABLE_START_BLOCK + capacity / 10)
  }

  function RootImage(disk: Disk): Block
    requires 4 <= |disk| < 0x1_0000_0000_0000_0000
  {
    PutInode(disk[3], 0, RootInode(|disk|))
  }

  /** The disk of a new file system; block 3 and the directory block coincide on devices under 10 blocks. */
  function Fresh(disk: Disk): Disk
    requires 4 <= |disk| < 0x1_0000_0000_0000_0000
  {
    Formatted(disk)[1 := OneBit()][2 := OneBit()][3 := RootImage(disk)][DirBlock(|disk|) := NewDirectory()]
  }

  function InitWrites(disk: Disk): seq<Access>
    requires 4 <= |disk| < 0x1_0000_0000_0000_0000
  {
    [Read(1), Write(1, OneBit()), Read(2), Write(2, OneBit()), Read(3), Write(3, RootImage(disk)),
     Write(DirBlock(|disk|), NewDirectory())]
  }

  /** The accesses of `init_root_directory` on a freshly formatted disk. */
  lemma InitSteps(disk: Disk)
    requires 4 <= |disk| < 0x1_0000_0000_0000_0000
    ensures InitRootPlan(Formatted(disk), FormatSuper(|disk|)) == Plan(InitWrites(disk), Ok(()))
  {
    hide SuperImage, ZeroBlock, PutInode, NewDirectory, NewInode, SetBit, EncodeSuper;
    var d0, sb := Formatted(disk), FormatSuper(|disk|);
    var first := [Read(1), Write(1, OneBit())];
    ZeroIsClear();
    ApplyTwo(d0, first[0], first[1]);
    var d1 := d0[1 := OneBit()];
    assert Apply(d0, first) == d1;
    assert AfterBitmap(d1, sb) == Plan(InitWrites(disk)[2..], Ok(())) by { InitRest(disk); }
    assert At(d0, INODE_BITMAP_BLOCK) == ZeroBlock();
    assert first + InitWrites(disk)[2..] == InitWrites(disk);
    assert InitRootPlan(d0, sb) == Prefixed(first, AfterBitmap(d1, sb));
  }

  lemma InitRest(disk: Disk)
    requires 4 <= |disk| < 0x1_0000_0000_0000_0000
    ensures AfterBitmap(Formatted(disk)[1 := OneBit()], FormatSuper(|disk|)) == Plan(InitWrites(disk)[2..], Ok(()))
  {
    hide SuperImage, ZeroBlock, PutInode, NewDirectory, NewInode, SetBit, EncodeSuper;
    var d1, sb := Formatted(disk)[1 := OneBit()], FormatSuper(|disk|);
    ZeroIsClear();
    var alloc := AllocateDataPlan(d1, sb);
    var second := [Read(2), Write(2, OneBit())];
    assert At(d1, DATA_BITMAP_BLOCK) == ZeroBlock();
    assert alloc == Plan(second, Ok(DirBlock(|disk|)));
    ApplyTwo(d1, second[0], second[1]);
    var d2 := d1[2 := OneBit()];
    assert Apply(d1, second) == d2;
    assert At(d2, 3) == disk[3];
    assert WriteInodePlan(d2, sb, RootInode(|disk|), 0) == Plan([Read(3), Write(3, RootImage(disk))], Ok(()));
    assert InitRootAt(d2, sb, DirBlock(|disk|)) == Plan(InitWrites(disk)[4..], Ok(()));
    assert second + InitWrites(disk)[4..] == InitWrites(disk)[2..];
  }

  /** On any disk: a full data bitmap is no space, and a block number out of range is a panic. */
  lemma InitRefusals(d: Disk, sb: SuperBlock)
    requires |d| > 2
    ensures var r := Perform(d, [], InitRootPlan(d, sb)).result;
            match FirstClear(d[2])
            case None => r == Err(NoSpace)
            case Some(i) => sb.dataBlockStart + i > 0xFFFF_FFFF_FFFF_FFFF ==> r == Panic
  {
    hide FirstClear, WithBit, InitRootAt;
    var first := [Read(1), Write(1, SetBit(d[1], 0))];
    ApplyTwo(d, first[0], first[1]);
    var d1 := Apply(d, first);
    assert At(d1, 2) == d[2];
    var p := AfterBitmap(d1, sb);
    assert InitRootPlan(d, sb) == Prefixed(first, p);
    ExecReliable(d, first + p.steps);
    var alloc := AllocateDataPlan(d1, sb);
    if !alloc.result.Ok? { assert p.steps == alloc.steps && InRange(d, first + p.steps); }
  }

  lemma ApplyInit(disk: Disk)
    requires 4 <= |disk| < 0x1_0000_0000_0000_0000
    ensures Apply(Formatted(disk), InitWrites(disk)) == Fresh(disk)
  {
    hide SuperImage, ZeroBlock, PutInode, NewDirectory, NewInode, SetBit, RootImage, OneBit;
    var d0, s := Formatted(disk), InitWrites(disk);
    assert s == [s[0]] + s[1..] && s[1..] == [s[1]] + s[2..] && s[2..] == [s[2]] + s[3..] && s[3..] == [s[3]] + s[4..];
    ApplyCons(d0, s[0], s[1..]);
    ApplyCons(d0, s[1], s[2..]);
    var d1 := d0[1 := OneBit()];
    ApplyCons(d1, s[2], s[3..]);
    ApplyCons(d1, s[3], s[4..]);
    ApplyThree(d1[2 := OneBit()], s[4], s[5], s[6]);
    assert s[4..] == [s[4], s[5], s[6]];
  }

  /** On every device where both succeed they leave the same kind of disk. */
  lemma StartDisk(disk: Disk, formatFaults: seq<Fault>, initFaults: seq<Fault>, w: World)
    requires Started(disk, formatFaults, initFaults, w)
    ensures 4 <= |disk| < 0x1_0000_0000_0000_0000 && w == World(Fresh(disk), Some(FormatSuper(|disk|)))
  {
    hide Formatted, InitWrites, FormatPlan, InitRootPlan, FormatSuper;
    FormatDone(disk, formatFaults);
    if |disk| == 3 {
      ThreeBlocksFail(disk, initFaults);
    } else {
      InitSteps(disk);
      DoneInRange(Formatted(disk), initFaults, InitWrites(disk));
      ApplyInit(disk);
    }
  }

  /** With three blocks there is no room for the inode table: `init_root_directory` fails. */
  lemma ThreeBlocksFail(disk: Disk, faults: seq<Fault>)
    requires |disk| == 3
    ensures !Perform(Formatted(disk), faults, InitRootPlan(Formatted(disk), FormatSuper(3))).result.Ok?
  {
    hide SuperImage, ZeroBlock, PutInode, NewDirectory, NewInode, SetBit, EncodeSuper;
    var p := InitRootPlan(Formatted(disk), FormatSuper(3));
    var last := p.steps[|p.steps| - 1];
    if p.result.Ok? {
      assert last.id >= 3;
      if Exec(Formatted(disk), faults, p.steps).done {
        DoneInRange(Formatted(disk), faults, p.steps);
      }
    }
  }

  // ---------------------------------------------------------------- the fresh disk is good

  lemma ZeroEntry(k: nat)
    requires k < DIR_ENTRIES_PER_BLOCK
    ensures !Entry(ZeroBlock(), k).Used()
  {
    var s := ZeroBlock()[k * DIR_ENTRY_SIZE..k * DIR_ENTRY_SIZE + DIR_ENTRY_SIZE];
    assert s[10..12][0] == s[10] == ZeroBlock()[k * DIR_ENTRY_SIZE + 10] == 0;
    LowBit(s[10..12]);
  }

  lemma NewDirectoryEntries(k: nat)
    requires k < DIR_ENTRIES_PER_BLOCK
    ensures k == 0 ==> Entry(NewDirectory(), k) == DotEntry(DOT)
    ensures k == 1 ==> Entry(NewDirectory(), k) == DotEntry(DOTDOT)
    ensures k >= 2 ==> !Entry(NewDirectory(), k).Used()
  {
    hide Entry, PutEntry, ZeroBlock;
    ZeroEntry(k);
    PutEntrySlots(ZeroBlock(), 0, 0, DOT);
    PutEntrySlots(PutEntry(ZeroBlock(), 0, 0, DOT), 1, 0, DOTDOT);
  }

  lemma NewDirectoryZero()
    ensures forall i | 2 * DIR_ENTRY_SIZE <= i < BLOCK_SIZE :: NewDirectory()[i] == 0
    ensures Entry(NewDirectory(), 2).name == seq(DIR_NAME_MAX, _ => 0)
  {
    hide EncodeEntry;
    var s := NewDirectory()[2 * DIR_ENTRY_SIZE..3 * DIR_ENTRY_SIZE];
    assert s[12..] == seq(DIR_NAME_MAX, _ => 0);
  }

  lemma NewDirectoryGood()
    ensures WellFormed(NewDirectory()) && NamesOk(NewDirectory())
  {
    hide Entry, NewDirectory;
    NewDirectoryZero();
    forall k: nat | k < DIR_ENTRIES_PER_BLOCK
      ensures k >= 2 ==> !Entry(NewDirectory(), k).Used()
    {
      NewDirectoryEntries(k);
    }
    NewDirectoryEntries(0);
    NewDirectoryEntries(1);
  }

  lemma SuperImageMounts(sb: SuperBlock)
    requires sb.magicNumber == MAGIC_NUMBER
    ensures MountResult(SuperImage(sb)) == Ok(sb)
  {
    hide DecodeSuper, EncodeSuper;
    SuperRoundTrip(sb);
    assert SuperImage(sb)[..64] == EncodeSuper(sb);
  }

  /** The bytes of block 0 behind the geometry: the magic number, and zeros to the end. */
  lemma SuperImageBytes(capacity: u64, k: nat)
    requires 56 <= k < 512
    ensures SuperImage(FormatSuper(capacity))[k]
         == if k == 56 then 0xEF else if k == 57 then 0xBE else if k == 58 then 0xAD else if k == 59 then 0xDE else 0
  {
    hide EncodeSuper, FormatSuper, ToLE;
    var sb := FormatSuper(capacity);
    var s := SuperImage(sb);
    FormatMagic(capacity);
    SuperBytes(sb);
    if k < 64 {
      assert s[..64] == EncodeSuper(sb);
      if k < 60 {
        assert s[k] == EncodeSuper(sb)[56..60][k - 56];
        ToLEByte(4, 0xDEAD_BEEF, k - 56);
        MagicBytes();
      } else {
        assert s[k] == EncodeSuper(sb)[60..64][k - 60];
        ToLEByte(4, 0, k - 60);
        ZeroDivided(k - 60);
      }
    }
  }

  lemma FormatMagic(capacity: u64)
    ensures FormatSuper(capacity).magicNumber == 0xDEAD_BEEF
  {
  }

  lemma MagicBytes()
    ensures 0xDEAD_BEEF / Span(0) % 256 == 0xEF && 0xDEAD_BEEF / Span(1) % 256 == 0xBE
    ensures 0xDEAD_BEEF / Span(2) % 256 == 0xAD && 0xDEAD_BEEF / Span(3) % 256 == 0xDE
  {
    assert Span(1) == 256 && Span(2) == 0x1_0000 && Span(3) == 0x100_0000;
  }

  lemma ZeroDivided(k: nat)
    ensures 0 / Span(k) % 256 == 0
  {
  }

  lemma RootFields(capacity: u64)
    requires capacity >= 4
    ensures RootInode(capacity) == RootOf(capacity)
  {
    assert RootInode(capacity).directPointers == RootOf(capacity).directPointers;
  }

  lemma FreshRoot(disk: Disk)
    requires 10 <= |disk| < 0x1_0000_0000_0000_0000
    ensures InodeAt(Fresh(disk), 0) == Some(RootOf(|disk|)) && Marked(Fresh(disk), 0)
  {
    hide PutInode, InodeSlot, NewInode, NewDirectory, SuperImage, RootInode, RootOf, ZeroBlock;
    RootFields(|disk|);
    assert At(Fresh(disk), 3) == RootImage(disk);
    PutInodeSlots(disk[3], 0, RootInode(|disk|));
    SetBitEffect(ZeroBlock(), 0, 0);
  }

  lemma FreshGood(disk: Disk)
    requires 10 <= |disk| < 0x1_0000_0000_0000_0000
    ensures Good(Fresh(disk)) && NamesOk(Dir(Fresh(disk)))
  {
    hide NewDirectory, SuperImage, RootImage, OneBit, WellFormed, NamesOk, InodeAt, Marked, MountResult, Entry;
    var d := Fresh(disk);
    SuperImageMounts(FormatSuper(|disk|));
    FreshRoot(disk);
    NewDirectoryGood();
    assert Dir(d) == NewDirectory();
    forall k: nat | k < DIR_ENTRIES_PER_BLOCK && Entry(Dir(d), k).Used()
      ensures Backed(d, Entry(Dir(d), k).inode) && InTable(d, Entry(Dir(d), k).inode) && k < 2
    {
      NewDirectoryEntries(k);
    }
  }
}
