/**
  `SFS` of src/fs/simple_fs.rs: every method reads 512-byte buffers from the device, changes them in
  place and writes them back. Each method is proved to do exactly what its plan says.
*/
module SimpleFs {
  import opened Bytes
  import opened Options
  import opened FsLayout
  import opened FsDevice
  import opened FsPlans
  import opened Bitmaps
  import opened FsInvariant
  import opened FsRuns
  import opened FsStart
  import opened FsLimits
  import opened FsDirectory

  datatype FileError =
    BlockReadError | DirectoryFull | BlockWriteError | FileNotFound | FileExists | CreationFailed
    | FileNoSpace | InvalidHandle | InvalidName | Corrupt

  datatype CreateResult = Created(handle: u64) | Failed(error: FileError) | Panicked

  /** The error mapping of `create_file`. */
  function CreateOutcome(r: Result<(u64, u64)>): CreateResult {
    match r
    case Ok(v) => Created(v.0)
    case Err(NameTooLong) => Failed(InvalidName)
    case Err(NoSpace) => Failed(FileNoSpace)
    case Err(CorruptLayout) => Failed(Corrupt)
    case Err(_) => Failed(CreationFailed)
    case Panic => Panicked
  }

  /**
    What a result of `create_file` says about the directory before and after, on a good disk; `done` is whether
    every access to the device worked.
  */
  predicate CreateMeaning(before: Disk, after: Disk, done: bool, name: seq<byte>, r: CreateResult) {
    if |name| == 0 || |name| > 52 then r == Failed(InvalidName) && after == before
    else if !done then r == Failed(CreationFailed)
    else if name in Listing(Dir(before)) then r == Failed(Corrupt) && after == before
    else if !HasFreeSlot(Dir(before)) || !HasFreeInode(before) then r == Failed(FileNoSpace) && after == before
    else
      && r.Created? && r.handle < 4096 && !Marked(before, r.handle)
      && Listing(Dir(after)) == Listing(Dir(before))[name := r.handle]
      && (TableBlock(r.handle) != DirBlock(|before|) ==>
            Marked(after, r.handle) && InodeAt(after, r.handle) == Some(EmptyFile()))
  }

  /** Where all accesses work, what went before is as on a device without failures. */
  lemma DoneIsReliable<T>(d: Disk, faults: seq<Fault>, p: Plan<T>)
    requires Exec(d, faults, p.steps).done
    ensures Perform(d, faults, p).disk == Perform(d, [], p).disk
    ensures Perform(d, faults, p).result == p.result == Perform(d, [], p).result
  {
    DoneInRange(d, faults, p.steps);
    ExecReliable(d, p.steps);
    ExecDone(d, [], p.steps);
  }

  lemma NoPlannedBlockError(d: Disk, name: seq<byte>)
    requires Good(d)
    ensures CreatePlan(d, FormatSuper(|d|), name).result != Err(BlockError)
    ensures |name| == 0 || |name| > 52 ==> CreatePlan(d, FormatSuper(|d|), name) == Plan([], Err(NameTooLong))
  {
    hide Anchored, WellFormed, Placed, Consistent, AsCreated, ScanDirectory, PutEntry;
    CreateOnAnchored(d, name);
  }

  /** On a good disk, whatever fails: the handle is the inode that the name is bound to; each error has its cause. */
  lemma CreateFileMeans(d: Disk, faults: seq<Fault>, name: seq<byte>)
    requires Good(d)
    ensures var p := CreatePlan(d, FormatSuper(|d|), name);
            var e := Perform(d, faults, p);
            CreateMeaning(d, e.disk, Exec(d, faults, p.steps).done, name, CreateOutcome(e.result))
  {
    hide Good, CreatePlan, Listing, HasFreeSlot, HasFreeInode, InodeAt, Marked, FirstClear;
    GoodSize(d);
    var p := CreatePlan(d, FormatSuper(|d|), name);
    NoPlannedBlockError(d, name);
    FreeInodeFound(d);
    CreateIsInsert(d, name);
    if Exec(d, faults, p.steps).done { DoneIsReliable(d, faults, p); }
  }

  method CopyInto(buffer: array<byte>, at: nat, source: seq<byte>)
    requires at + |source| <= buffer.Length
    modifies buffer
    ensures buffer[..] == Splice(old(buffer[..]), at, source)
  {
    forall i | 0 <= i < |source| {
      buffer[at + i] := source[i];
    }
    ghost var r := Splice(old(buffer[..]), at, source);
    forall i | 0 <= i < buffer.Length ensures buffer[i] == r[i] {
      if at <= i < at + |source| { assert r[at..at + |source|][i - at] == r[i]; }
    }
  }

  method ZeroBuffer() returns (buffer: array<byte>)
    ensures fresh(buffer) && buffer.Length == BLOCK_SIZE && buffer[..] == ZeroBlock()
  {
    buffer := new byte[BLOCK_SIZE](_ => 0);
  }

  /** The iterator over the entries of a directory block. */
  class DirEntryBlock {
    const block: array<byte>
    var idx: nat

    constructor (block: array<byte>)
      ensures this.block == block && idx == 0
    {
      this.block, idx := block, 0;
    }

    method Next() returns (e: Option<DirEntry>)
      requires block.Length == BLOCK_SIZE
      modifies this`idx
      ensures idx == if e.Some? then old(idx) + 1 else old(idx)
      ensures e == if old(idx) < DIR_ENTRIES_PER_BLOCK then Some(Entry(block[..], old(idx))) else None
    {
      if idx >= DIR_ENTRIES_PER_BLOCK { return None; }
      var start := idx * DIR_ENTRY_SIZE;
      assert block[..][start..start + DIR_ENTRY_SIZE] == block[start..start + DIR_ENTRY_SIZE];
      e := Some(DecodeEntry(block[start..start + DIR_ENTRY_SIZE]));
      idx := idx + 1;
    }
  }

  class SFS {
    const device: Device
    const superblock: SuperBlock

    constructor (device: Device, superblock: SuperBlock)
      ensures this.device == device && this.superblock == superblock
    {
      this.device, this.superblock := device, superblock;
    }

    static method Format(device: Device) returns (r: Result<SFS>)
      requires |device.disk| < 0x1_0000_0000_0000_0000
      modifies device
      ensures var e := Perform(old(device.disk), old(device.faults), FormatPlan(|old(device.disk)|));
              && device.disk == e.disk && device.faults == e.faults
              && match e.result
                 case Ok(sb) => r.Ok? && r.value.device == device && r.value.superblock == sb
                 case Err(error) => r == Err(error)
                 case Panic => r == Panic
    {
      var sb := FormatSuper(|device.disk|);
      if |device.disk| < sb.dataBlockStart { return Panic; }
      var buffer := ZeroBuffer();
      CopyInto(buffer, 0, EncodeSuper(sb));
      ghost var w0, w1 := Write(SUPERBLOCK_BLOCK, buffer[..]), Write(INODE_BITMAP_BLOCK, ZeroBlock());
      ghost var w2 := Write(DATA_BITMAP_BLOCK, ZeroBlock());
      assert FormatPlan(|device.disk|).steps == [w0] + ([w1] + [w2]);
      ExecAppend(device.disk, device.faults, [w0], [w1] + [w2]);
      var ok := device.WriteBlocks(SUPERBLOCK_BLOCK, buffer);
      if !ok { return Err(BlockError); }
      var empty := ZeroBuffer();
      ExecAppend(device.disk, device.faults, [w1], [w2]);
      ok := device.WriteBlocks(INODE_BITMAP_BLOCK, empty);
      if !ok { return Err(BlockError); }
      ok := device.WriteBlocks(DATA_BITMAP_BLOCK, empty);
      if !ok { return Err(BlockError); }
      var s := new SFS(device, sb);
      return Ok(s);
    }

    static method Mount(device: Device) returns (fs: Option<SFS>)
      modifies device
      ensures device.disk == old(device.disk) && device.faults == old(Later(device.faults))
      ensures var r := old(MountResult(MountBuffer(device.disk, Now(device.faults))));
              && (fs.Some? <==> r.Ok?)
              && (fs.Some? ==> fs.value.device == device && r == Ok(fs.value.superblock))
    {
      var buffer := ZeroBuffer();
      var ignored := device.ReadBlocks(SUPERBLOCK_BLOCK, buffer);
      assert buffer[..] == old(MountBuffer(device.disk, Now(device.faults)));
      assert buffer[..64] == buffer[..][..64];
      var sb := DecodeSuper(buffer[..64]);
      if sb.magicNumber != MAGIC_NUMBER { return None; }
      var s := new SFS(device, sb);
      return Some(s);
    }

    method AllocateInode() returns (r: Result<u64>)
      modifies device
      ensures var e := Perform(old(device.disk), old(device.faults), AllocateInodePlan(old(device.disk), superblock));
              e == Effect(device.disk, device.faults, r)
    {
      hide IsSet, SetBit;
      var buffer := ZeroBuffer();
      var ok := device.ReadBlocks(INODE_BITMAP_BLOCK, buffer);
      if !ok { return Err(BlockError); }
      var bitmap := new Bitmap(buffer);
      var free := bitmap.FindAndSetFirstFree();
      if free.None? { return Err(NoSpace); }
      ExecTwo(old(device.disk), old(device.faults), Read(INODE_BITMAP_BLOCK),
              Write(superblock.inodeBitmapBlock, buffer[..]));
      ok := device.WriteBlocks(superblock.inodeBitmapBlock, buffer);
      if !ok { return Err(BlockError); }
      return Ok(free.value);
    }

    method AllocateDataBlock() returns (r: Result<u64>)
      modifies device
      ensures var e := Perform(old(device.disk), old(device.faults), AllocateDataPlan(old(device.disk), superblock));
              e == Effect(device.disk, device.faults, r)
    {
      hide IsSet, SetBit;
      var buffer := ZeroBuffer();
      var ok := device.ReadBlocks(DATA_BITMAP_BLOCK, buffer);
      if !ok { return Err(BlockError); }
      var bitmap := new Bitmap(buffer);
      var free := bitmap.FindAndSetFirstFree();
      if free.None? { return Err(NoSpace); }
      ExecTwo(old(device.disk), old(device.faults), Read(DATA_BITMAP_BLOCK), Write(DATA_BITMAP_BLOCK, buffer[..]));
      ok := device.WriteBlocks(DATA_BITMAP_BLOCK, buffer);
      if !ok { return Err(BlockError); }
      if superblock.dataBlockStart + free.value >= 0x1_0000_0000_0000_0000 { return Panic; }
      return Ok(superblock.dataBlockStart + free.value);
    }

    method ReadInode(n: u64) returns (r: Result<Inode>)
      modifies device
      ensures var e := Perform(old(device.disk), old(device.faults), ReadInodePlan(old(device.disk), superblock, n));
              e == Effect(device.disk, device.faults, r)
    {
      var blockNum := superblock.inodeTableStartBlock + n / INODES_PER_BLOCK;
      if blockNum >= 0x1_0000_0000_0000_0000 { return Panic; }
      hide InodeSlot;
      var buffer := ZeroBuffer();
      var ok := device.ReadBlocks(blockNum, buffer);
      if !ok { return Err(BlockError); }
      var inode := InodeSlot(buffer[..], n % INODES_PER_BLOCK);
      return if inode.Some? then Ok(inode.value) else Err(BlockError);
    }

    method WriteInode(inode: Inode, n: u64) returns (r: Result<()>)
      modifies device
      ensures var e := Perform(old(device.disk), old(device.faults),
                               WriteInodePlan(old(device.disk), superblock, inode, n));
              e == Effect(device.disk, device.faults, r)
    {
      var blockNum := superblock.inodeTableStartBlock + n / INODES_PER_BLOCK;
      if blockNum >= 0x1_0000_0000_0000_0000 { return Panic; }
      var offset := n % INODES_PER_BLOCK * INODE_SIZE;
      var buffer := ZeroBuffer();
      var ok := device.ReadBlocks(blockNum, buffer);
      if !ok { return Err(BlockError); }
      CopyInto(buffer, offset, EncodeInode(inode));
      ExecTwo(old(device.disk), old(device.faults), Read(blockNum), Write(blockNum, buffer[..]));
      ok := device.WriteBlocks(blockNum, buffer);
      if !ok { return Err(BlockError); }
      return Ok(());
    }

    method WriteDirentIntoBlock(block: array<byte>, slot: nat, inode: u64, name: seq<byte>) returns (r: Result<()>)
      requires block.Length == BLOCK_SIZE && slot < DIR_ENTRIES_PER_BLOCK
      modifies block
      ensures r == if |name| > DIR_NAME_MAX then Err(NameTooLong) else Ok(())
      ensures block[..] == if r.Ok? then PutEntry(old(block[..]), slot, inode, name) else old(block[..])
    {
      if |name| > DIR_NAME_MAX { return Err(NameTooLong); }
      CopyInto(block, slot * DIR_ENTRY_SIZE, EncodeEntry(inode, name));
      return Ok(());
    }

    method FindFreeDirSlot(block: array<byte>) returns (r: Option<nat>)
      requires block.Length == BLOCK_SIZE
      ensures r == FreeSlot(block[..])
    {
      hide DecodeEntry;
      for i := 0 to DIR_ENTRIES_PER_BLOCK
        invariant FreeSlot(block[..]) == FreeSlot(block[..], i)
      {
        var start := i * DIR_ENTRY_SIZE;
        assert block[..][start..start + DIR_ENTRY_SIZE] == block[start..start + DIR_ENTRY_SIZE];
        var entry := DecodeEntry(block[start..start + DIR_ENTRY_SIZE]);
        if !entry.Used() || entry.inode == 0 { return Some(i); }
      }
      return None;
    }

    method InitRootDirectory() returns (r: Result<()>)
      modifies device
      ensures var e := Perform(old(device.disk), old(device.faults), InitRootPlan(old(device.disk), superblock));
              e == Effect(device.disk, device.faults, r)
    {
      ghost var disk, faults := device.disk, device.faults;
      ghost var first := [Read(INODE_BITMAP_BLOCK), Write(INODE_BITMAP_BLOCK, SetBit(At(disk, INODE_BITMAP_BLOCK), 0))];
      var buffer := ZeroBuffer();
      var ok := device.ReadBlocks(INODE_BITMAP_BLOCK, buffer);
      if !ok { return Err(BlockError); }
      if IsSet(buffer[..], 0) { SetBitAgain(buffer[..], 0); }
      var bitmap := new Bitmap(buffer);
      var already := bitmap.Set(0);
      ExecTwo(disk, faults, first[0], first[1]);
      ok := device.WriteBlocks(INODE_BITMAP_BLOCK, buffer);
      ghost var d1 := Apply(disk, first);
      ghost var alloc := AllocateDataPlan(d1, superblock);
      PerformPrefixed(disk, faults, first, AfterBitmap(d1, superblock));
      if !ok { return Err(BlockError); }
      r := InitRootRest(d1);
    }

    method InitRootRest(ghost d1: Disk) returns (r: Result<()>)
      requires device.disk == d1
      modifies device
      ensures var e := Perform(old(device.disk), old(device.faults), AfterBitmap(d1, superblock));
              e == Effect(device.disk, device.faults, r)
    {
      hide InitRootAt, FirstClear, SetBit;
      ghost var faults := device.faults;
      ghost var alloc := AllocateDataPlan(d1, superblock);
      var b := AllocateDataBlock();
      if alloc.result.Ok? {
        PerformPrefixed(d1, faults, alloc.steps, InitRootAt(Apply(d1, alloc.steps), superblock, alloc.result.value));
      }
      if b.Err? { return Err(b.error); }
      if b.Panic? { return Panic; }
      r := InitRootWrites(b.value);
    }

    method InitRootWrites(b: u64) returns (r: Result<()>)
      modifies device
      ensures var e := Perform(old(device.disk), old(device.faults), InitRootAt(old(device.disk), superblock, b));
              e == Effect(device.disk, device.faults, r)
    {
      hide NewInode, PutEntry, PutInode;
      ghost var disk, faults := device.disk, device.faults;
      ghost var w := WriteInodePlan(disk, superblock, NewInode(Directory, 2, b), 0);
      PerformPrefixed(disk, faults, w.steps, Plan([Write(b, NewDirectory())], Ok(())));
      var root := NewInode(Directory, 2, b);
      var written := WriteInode(root, 0);
      if !written.Ok? { return written; }
      var dirBlock := ZeroBuffer();
      var dot := WriteDirentIntoBlock(dirBlock, 0, 0, DOT);
      var dotdot := WriteDirentIntoBlock(dirBlock, 1, 0, DOTDOT);
      var ok := device.WriteBlocks(b, dirBlock);
      if !ok { return Err(BlockError); }
      return Ok(());
    }

    method AddRootDirEntry(inode: u64, name: seq<byte>) returns (r: Result<()>)
      modifies device
      ensures var e := Perform(old(device.disk), old(device.faults),
                               AddEntryPlan(old(device.disk), superblock, inode, name));
              e == Effect(device.disk, device.faults, r)
    {
      if |name| > DIR_NAME_MAX { return Err(NameTooLong); }
      ghost var disk, faults := device.disk, device.faults;
      ghost var plan := ReadInodePlan(disk, superblock, 0);
      if plan.result.Ok? {
        PerformPrefixed(disk, faults, plan.steps, AddUnder(disk, plan.result.value.directPointers[0], inode, name));
      }
      var root := ReadInode(0);
      if root.Err? { return Err(root.error); }
      if root.Panic? { return Panic; }
      var block := root.value.directPointers[0];
      if block == 0 { return Err(CorruptLayout); }
      ghost var faults1 := device.faults;
      var buffer := ZeroBuffer();
      var ok := device.ReadBlocks(block, buffer);
      if !ok { return Err(BlockError); }
      var slot := FindFreeDirSlot(buffer);
      if slot.None? { return Err(NoSpace); }
      var put := WriteDirentIntoBlock(buffer, slot.value, inode, name);
      ExecTwo(disk, faults1, Read(block), Write(block, buffer[..]));
      ok := device.WriteBlocks(block, buffer);
      if !ok { return Err(BlockError); }
      return Ok(());
    }

    /** The loop over the directory block: stops at a collision, remembers the first unused slot. */
    method FindSlot(buffer: array<byte>, name: seq<byte>) returns (r: Scan)
      requires buffer.Length == BLOCK_SIZE
      ensures r == ScanDirectory(buffer[..], name)
    {
      var emptySlotIndex: Option<nat> := None;
      var entries := new DirEntryBlock(buffer);
      var i := 0;
      while true
        invariant i == entries.idx <= DIR_ENTRIES_PER_BLOCK && entries.block == buffer
        invariant buffer[..] == old(buffer[..])
        invariant FirstHit(buffer[..], name) == FirstHit(buffer[..], name, i)
        invariant FirstUnused(buffer[..]) == if emptySlotIndex.Some? then emptySlotIndex else FirstUnused(buffer[..], i)
        decreases DIR_ENTRIES_PER_BLOCK - i
      {
        var entry := entries.Next();
        if entry.None? { break; }
        if entry.value.Used() {
          if entry.value.nameLen > DIR_NAME_MAX { return OutOfRange; }
          if entry.value.name[..entry.value.nameLen] == name { return Exists; }
        } else if emptySlotIndex.None? {
          emptySlotIndex := Some(i);
        }
        i := i + 1;
      }
      return if emptySlotIndex.Some? then Free(emptySlotIndex.value) else Full;
    }

    method CreateFileInRoot(name: seq<byte>) returns (r: Result<(u64, u64)>)
      modifies device
      ensures var e := Perform(old(device.disk), old(device.faults), CreatePlan(old(device.disk), superblock, name));
              e == Effect(device.disk, device.faults, r)
    {
      if |name| > DIR_NAME_MAX || |name| == 0 { return Err(NameTooLong); }
      ghost var disk, faults := device.disk, device.faults;
      ghost var plan := ReadInodePlan(disk, superblock, 0);
      if plan.result.Ok? {
        PerformPrefixed(disk, faults, plan.steps, CreateUnder(disk, superblock, plan.result.value, name));
      }
      var root := ReadInode(0);
      if root.Err? { return Err(root.error); }
      if root.Panic? { return Panic; }
      if root.value.mode != Directory { return Err(CorruptLayout); }
      var dir := root.value.directPointers[0];
      if dir == 0 { return Err(CorruptLayout); }
      var buffer := ZeroBuffer();
      PerformPrefixed(disk, device.faults, [Read(dir)], CreateIn(disk, superblock, dir, At(disk, dir), name));
      var ok := device.ReadBlocks(dir, buffer);
      if !ok { return Err(BlockError); }
      r := CreateInBlock(dir, buffer, name);
    }

    method CreateInBlock(dir: u64, buffer: array<byte>, name: seq<byte>) returns (r: Result<(u64, u64)>)
      requires buffer.Length == BLOCK_SIZE && GoodName(name)
      modifies device, buffer
      ensures var e := Perform(old(device.disk), old(device.faults),
                               CreateIn(old(device.disk), superblock, dir, old(buffer[..]), name));
              e == Effect(device.disk, device.faults, r)
    {
      var found := FindSlot(buffer, name);
      match found
      case OutOfRange => return Panic;
      case Exists => return Err(CorruptLayout);
      case Full => return Err(NoSpace);
      case Free(slot) =>
        ghost var disk, faults, entries := device.disk, device.faults, buffer[..];
        ghost var alloc := AllocateInodePlan(disk, superblock);
        if alloc.result.Ok? {
          PerformPrefixed(disk, faults, alloc.steps,
                          LinkFile(Apply(disk, alloc.steps), superblock, dir, entries, slot, alloc.result.value, name));
        }
        var index := AllocateInode();
        if index.Err? { return Err(index.error); }
        if index.Panic? { return Panic; }
        r := Link(dir, buffer, slot, index.value, name);
    }

    method Link(dir: u64, buffer: array<byte>, slot: nat, i: u64, name: seq<byte>) returns (r: Result<(u64, u64)>)
      requires buffer.Length == BLOCK_SIZE && slot < DIR_ENTRIES_PER_BLOCK && GoodName(name)
      modifies device, buffer
      ensures var e := Perform(old(device.disk), old(device.faults),
                               LinkFile(old(device.disk), superblock, dir, old(buffer[..]), slot, i, name));
              e == Effect(device.disk, device.faults, r)
    {
      var inode := NewInode(File, 1, 0);
      ghost var plan := WriteInodePlan(device.disk, superblock, inode, i);
      ghost var linked := PutEntry(buffer[..], slot, i, name);
      PerformPrefixed(device.disk, device.faults, plan.steps, Plan([Write(dir, linked)], Ok((i, dir))));
      var written := WriteInode(inode, i);
      if written.Panic? { return Panic; }
      if written.Err? { return Err(written.error); }
      var put := WriteDirentIntoBlock(buffer, slot, i, name);
      assert buffer[..] == linked;
      var ok := device.WriteBlocks(dir, buffer);
      if !ok { return Err(BlockError); }
      return Ok((i, dir));
    }

    method CreateFile(name: seq<byte>) returns (r: CreateResult)
      modifies device
      ensures var e := Perform(old(device.disk), old(device.faults), CreatePlan(old(device.disk), superblock, name));
              device.disk == e.disk && device.faults == e.faults && r == CreateOutcome(e.result)
      ensures Good(old(device.disk)) && superblock == FormatSuper(|old(device.disk)|) ==>
                var steps := CreatePlan(old(device.disk), superblock, name).steps;
                var done := Exec(old(device.disk), old(device.faults), steps).done;
                CreateMeaning(old(device.disk), device.disk, done, name, r)
    {
      hide Good, CreatePlan, CreateMeaning, CreateOutcome;
      if Good(device.disk) {
        GoodSize(device.disk);
        CreateFileMeans(device.disk, device.faults, name);
      }
      var created := CreateFileInRoot(name);
      return CreateOutcome(created);
    }
  }
}
