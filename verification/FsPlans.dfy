/**
  The plans of the file-system operations of src/fs/simple_fs.rs: which blocks each one reads and
  writes, in which order, and what it returns, as functions of the disk it starts from.
*/
module FsPlans {
  import opened Bytes
  import opened Options
  import opened FsLayout
  import opened FsDevice
  import opened Bitmaps

  /** `p` preceded by accesses whose outcome it already takes into account. */
  function Prefixed<T>(steps: seq<Access>, p: Plan<T>): Plan<T> {
    Plan(steps + p.steps, p.result)
  }

  /** An operation runs its first accesses and then, if they succeed, the rest on the disk they leave. */
  lemma PerformPrefixed<T>(disk: Disk, faults: seq<Fault>, steps: seq<Access>, p: Plan<T>)
    ensures var o := Exec(disk, faults, steps);
            Perform(disk, faults, Prefixed(steps, p))
            == if o.done then Perform(o.disk, o.faults, p) else Effect(o.disk, o.faults, Err(BlockError))
    ensures var o := Exec(disk, faults, steps); o.done ==> o.disk == Apply(disk, steps)
  {
    ExecAppend(disk, faults, steps, p.steps);
    if Exec(disk, faults, steps).done { ExecDone(disk, faults, steps); }
  }

  lemma ExecTwo(disk: Disk, faults: seq<Fault>, a: Access, b: Access)
    ensures var o := Exec(disk, faults, [a]);
            Exec(disk, faults, [a, b]) == if o.done then Exec(o.disk, o.faults, [b]) else o
  {
    assert [a] + [b] == [a, b];
    ExecAppend(disk, faults, [a], [b]);
  }

  // ---------------------------------------------------------------- format and mount

  /** The geometry of a new file system, where its areas fit on the device. */
  function FormatSuper(capacity: u64): SuperBlock {
    var tableBlocks := capacity / 10;
    var dataStart := INODE_TABLE_START_BLOCK + tableBlocks;
    SuperBlock(capacity, INODE_BITMAP_BLOCK, DATA_BITMAP_BLOCK, INODE_TABLE_START_BLOCK,
               tableBlocks * INODES_PER_BLOCK, dataStart,
               if dataStart <= capacity then capacity - dataStart else 0, MAGIC_NUMBER)
  }

  function SuperImage(sb: SuperBlock): Block {
    Splice(ZeroBlock(), 0, EncodeSuper(sb))
  }

  /** With fewer than three blocks the size of the data area would be negative: the subtraction panics. */
  function FormatPlan(capacity: u64): Plan<SuperBlock> {
    var sb := FormatSuper(capacity);
    if capacity < sb.dataBlockStart then Plan([], Panic) else
      Plan([Write(SUPERBLOCK_BLOCK, SuperImage(sb)), Write(INODE_BITMAP_BLOCK, ZeroBlock()),
            Write(DATA_BITMAP_BLOCK, ZeroBlock())], Ok(sb))
  }

  /** What `mount` finds in its zeroed buffer after reading block 0: it does not look at the read's outcome. */
  function MountBuffer(disk: Disk, f: Fault): Block {
    if |disk| == 0 then ZeroBlock() else if f.Works? then disk[0] else Torn(ZeroBlock(), disk[0], f.kept)
  }

  function MountResult(buffer: Block): Result<SuperBlock> {
    var sb := DecodeSuper(buffer[..64]);
    if sb.magicNumber != MAGIC_NUMBER then Err(InvalidSuperBlock) else Ok(sb)
  }

  // ---------------------------------------------------------------- bitmaps and inodes

  function AllocateInodePlan(disk: Disk, sb: SuperBlock): (p: Plan<u64>)
    ensures p.result.Ok? ==> p.result.value < 4096
  {
    var m := At(disk, INODE_BITMAP_BLOCK);
    match FirstClear(m)
    case None => Plan([Read(INODE_BITMAP_BLOCK)], Err(NoSpace))
    case Some(i) => Plan([Read(INODE_BITMAP_BLOCK), Write(sb.inodeBitmapBlock, SetBit(m, i))], Ok(i))
  }

  /** The block number is a 64-bit sum; overflow panics. */
  function AllocateDataPlan(disk: Disk, sb: SuperBlock): Plan<u64> {
    var m := At(disk, DATA_BITMAP_BLOCK);
    match FirstClear(m)
    case None => Plan([Read(DATA_BITMAP_BLOCK)], Err(NoSpace))
    case Some(i) =>
      Plan([Read(DATA_BITMAP_BLOCK), Write(DATA_BITMAP_BLOCK, SetBit(m, i))],
           if sb.dataBlockStart + i >= 0x1_0000_0000_0000_0000 then Panic else Ok(sb.dataBlockStart + i))
  }

  function InodeBlock(sb: SuperBlock, n: u64): nat {
    sb.inodeTableStartBlock + n / INODES_PER_BLOCK
  }

  function ReadInodePlan(disk: Disk, sb: SuperBlock, n: u64): Plan<Inode> {
    var b := InodeBlock(sb, n);
    if b >= 0x1_0000_0000_0000_0000 then Plan([], Panic) else
      Plan([Read(b)],
           match InodeSlot(At(disk, b), n % INODES_PER_BLOCK)
           case None => Err(BlockError)
           case Some(i) => Ok(i))
  }

  function WriteInodePlan(disk: Disk, sb: SuperBlock, i: Inode, n: u64): Plan<()> {
    var b := InodeBlock(sb, n);
    if b >= 0x1_0000_0000_0000_0000 then Plan([], Panic) else
      Plan([Read(b), Write(b, PutInode(At(disk, b), n % INODES_PER_BLOCK, i))], Ok(()))
  }

  // ---------------------------------------------------------------- the root directory

  function NewInode(mode: FileType, links: u16, firstBlock: u64): Inode {
    Inode(mode, 0, 0, links, 0, 0, 0, 0, seq(10, k => if k == 0 then firstBlock else 0), 0)
  }

  const DOT: seq<byte> := [46]
  const DOTDOT: seq<byte> := [46, 46]

  function NewDirectory(): Block {
    PutEntry(PutEntry(ZeroBlock(), 0, 0, DOT), 1, 0, DOTDOT)
  }

  function InitRootPlan(disk: Disk, sb: SuperBlock): Plan<()> {
    var first := [Read(INODE_BITMAP_BLOCK), Write(INODE_BITMAP_BLOCK, SetBit(At(disk, INODE_BITMAP_BLOCK), 0))];
    Prefixed(first, AfterBitmap(Apply(disk, first), sb))
  }

  function AfterBitmap(disk: Disk, sb: SuperBlock): Plan<()> {
    var alloc := AllocateDataPlan(disk, sb);
    match alloc.result
    case Ok(b) => Prefixed(alloc.steps, InitRootAt(Apply(disk, alloc.steps), sb, b))
    case Err(e) => Plan(alloc.steps, Err(e))
    case Panic => Plan(alloc.steps, Panic)
  }

  function InitRootAt(disk: Disk, sb: SuperBlock, b: u64): Plan<()> {
    var w := WriteInodePlan(disk, sb, NewInode(Directory, 2, b), 0);
    if w.result.Ok? then Prefixed(w.steps, Plan([Write(b, NewDirectory())], Ok(()))) else w
  }

  /** The name of an entry; `None` where slicing the name field would be out of range. */
  function EntryName(e: DirEntry): Option<seq<byte>> {
    if e.nameLen <= DIR_NAME_MAX && |e.name| == DIR_NAME_MAX then Some(e.name[..e.nameLen]) else None
  }

  /** The first slot from `k` on that is in use and has this name, or a name out of range. */
  function FirstHit(b: Block, name: seq<byte>, k: nat := 0): (r: Option<nat>)
    requires k <= DIR_ENTRIES_PER_BLOCK
    ensures r.Some? ==> k <= r.value < DIR_ENTRIES_PER_BLOCK && Hit(b, name, r.value)
    ensures forall j: nat | k <= j < (if r.Some? then r.value else DIR_ENTRIES_PER_BLOCK) :: !Hit(b, name, j)
    decreases |b| - k
  {
    if k == DIR_ENTRIES_PER_BLOCK then None else if Hit(b, name, k) then Some(k) else FirstHit(b, name, k + 1)
  }

  predicate Hit(b: Block, name: seq<byte>, k: nat)
    requires k < DIR_ENTRIES_PER_BLOCK
  {
    Entry(b, k).Used() && (EntryName(Entry(b, k)) == None || EntryName(Entry(b, k)) == Some(name))
  }

  function FirstUnused(b: Block, k: nat := 0): (r: Option<nat>)
    requires k <= DIR_ENTRIES_PER_BLOCK
    ensures r.Some? ==> k <= r.value < DIR_ENTRIES_PER_BLOCK && !Entry(b, r.value).Used()
    ensures forall j: nat | k <= j < (if r.Some? then r.value else DIR_ENTRIES_PER_BLOCK) :: Entry(b, j).Used()
    decreases |b| - k
  {
    if k == DIR_ENTRIES_PER_BLOCK then None else if !Entry(b, k).Used() then Some(k) else FirstUnused(b, k + 1)
  }

  datatype Scan = OutOfRange | Exists | Full | Free(slot: nat)

  /** The collision check and slot search of `create_file_in_root`. */
  function ScanDirectory(b: Block, name: seq<byte>): (r: Scan)
    ensures r.Free? ==> r.slot < DIR_ENTRIES_PER_BLOCK && !Entry(b, r.slot).Used()
  {
    match FirstHit(b, name)
    case Some(k) => if EntryName(Entry(b, k)) == None then OutOfRange else Exists
    case None => match FirstUnused(b) case None => Full case Some(k) => Free(k)
  }

  predicate GoodName(name: seq<byte>) {
    1 <= |name| <= DIR_NAME_MAX
  }

  function CreatePlan(disk: Disk, sb: SuperBlock, name: seq<byte>): Plan<(u64, u64)> {
    if !GoodName(name) then Plan([], Err(NameTooLong)) else
      var root := ReadInodePlan(disk, sb, 0);
      match root.result
      case Ok(i) => Prefixed(root.steps, CreateUnder(disk, sb, i, name))
      case Err(e) => Plan(root.steps, Err(e))
      case Panic => Plan(root.steps, Panic)
  }

  function CreateUnder(disk: Disk, sb: SuperBlock, root: Inode, name: seq<byte>): Plan<(u64, u64)>
    requires GoodName(name)
  {
    var dir := root.directPointers[0];
    if root.mode != Directory || dir == 0 then Plan([], Err(CorruptLayout)) else
      Prefixed([Read(dir)], CreateIn(disk, sb, dir, At(disk, dir), name))
  }

  function CreateIn(disk: Disk, sb: SuperBlock, dir: u64, entries: Block, name: seq<byte>): Plan<(u64, u64)>
    requires GoodName(name)
  {
    match ScanDirectory(entries, name)
    case OutOfRange => Plan([], Panic)
    case Exists => Plan([], Err(CorruptLayout))
    case Full => Plan([], Err(NoSpace))
    case Free(slot) =>
      var alloc := AllocateInodePlan(disk, sb);
      match alloc.result
      case Ok(i) => Prefixed(alloc.steps, LinkFile(Apply(disk, alloc.steps), sb, dir, entries, slot, i, name))
      case Err(e) => Plan(alloc.steps, Err(e))
      case Panic => Plan(alloc.steps, Panic)
  }

  function LinkFile(disk: Disk, sb: SuperBlock, dir: u64, entries: Block, slot: nat, i: u64, name: seq<byte>)
    : Plan<(u64, u64)>
    requires slot < DIR_ENTRIES_PER_BLOCK && GoodName(name)
  {
    WriteBoth(WriteInodePlan(disk, sb, NewInode(File, 1, 0), i), dir, PutEntry(entries, slot, i, name), i)
  }

  /** The inode first, then the directory block that names it. */
  function WriteBoth(inode: Plan<()>, dir: u64, entries: Block, i: u64): Plan<(u64, u64)> {
    match inode.result
    case Ok(_) => Prefixed(inode.steps, Plan([Write(dir, entries)], Ok((i, dir))))
    case Err(e) => Plan(inode.steps, Err(e))
    case Panic => Plan(inode.steps, Panic)
  }

  // ---------------------------------------------------------------- add_root_dir_entry

  /** `find_free_dir_slot` also takes a used slot whose inode is 0. */
  function FreeSlot(b: Block, k: nat := 0): (r: Option<nat>)
    requires k <= DIR_ENTRIES_PER_BLOCK
    ensures r.Some? ==> k <= r.value < DIR_ENTRIES_PER_BLOCK && Replaceable(Entry(b, r.value))
    ensures forall j: nat | k <= j < (if r.Some? then r.value else DIR_ENTRIES_PER_BLOCK) :: !Replaceable(Entry(b, j))
    decreases |b| - k
  {
    if k == DIR_ENTRIES_PER_BLOCK then None else if Replaceable(Entry(b, k)) then Some(k) else FreeSlot(b, k + 1)
  }

  predicate Replaceable(e: DirEntry) {
    !e.Used() || e.inode == 0
  }

  function AddEntryPlan(disk: Disk, sb: SuperBlock, inode: u64, name: seq<byte>): Plan<()> {
    if |name| > DIR_NAME_MAX then Plan([], Err(NameTooLong)) else
      var root := ReadInodePlan(disk, sb, 0);
      match root.result
      case Ok(i) => Prefixed(root.steps, AddUnder(disk, i.directPointers[0], inode, name))
      case Err(e) => Plan(root.steps, Err(e))
      case Panic => Plan(root.steps, Panic)
  }

  function AddUnder(disk: Disk, dir: u64, inode: u64, name: seq<byte>): Plan<()>
    requires |name| <= DIR_NAME_MAX
  {
    if dir == 0 then Plan([], Err(CorruptLayout)) else
      match FreeSlot(At(disk, dir))
      case None => Plan([Read(dir)], Err(NoSpace))
      case Some(k) => Plan([Read(dir), Write(dir, PutEntry(At(disk, dir), k, inode, name))], Ok(()))
  }
}
