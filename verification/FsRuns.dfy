/**
  Whole runs of the file system: any sequence of mounts and file creations, each of which may fail or
  be cut off by a power loss at any access to the device.
*/
module FsRuns {
  import opened Bytes
  import opened Options
  import opened FsLayout
  import opened FsDevice
  import opened FsPlans
  import opened FsInvariant
  import opened Bitmaps

  // ---------------------------------------------------------------- runs

  datatype Event =
    | Mount(fault: Fault)
    | Create(name: seq<byte>, faults: seq<Fault>)
    | Cut(name: seq<byte>, faults: seq<Fault>, at: nat)  // power is lost after `at` accesses of a creation

  datatype World = World(disk: Disk, mounted: Option<SuperBlock>)

  function Step(w: World, e: Event): World {
    match e
    case Mount(f) =>
      var r := MountResult(MountBuffer(w.disk, f));
      World(w.disk, if r.Ok? then Some(r.value) else None)
    case Create(name, faults) =>
      if w.mounted.None? then w else
        World(Perform(w.disk, faults, CreatePlan(w.disk, w.mounted.value, name)).disk, w.mounted)
    case Cut(name, faults, at) =>
      if w.mounted.None? then w else
        var steps := CreatePlan(w.disk, w.mounted.value, name).steps;
        World(Exec(w.disk, faults, steps[..if at < |steps| then at else |steps|]).disk, None)
  }

  function Run(w: World, events: seq<Event>): World
    decreases |events|
  {
    if events == [] then w else Run(Step(w, events[0]), events[1..])
  }

  lemma {:induction false} RunAppend(w: World, s: seq<Event>, t: seq<Event>)
    ensures Run(w, s + t) == Run(Run(w, s), t)
    decreases |s|
  {
    if s == [] {
      assert s + t == t;
    } else {
      assert (s + t)[0] == s[0] && (s + t)[1..] == s[1..] + t;
      RunAppend(Step(w, s[0]), s[1..], t);
    }
  }

  // ---------------------------------------------------------------- what a step can leave behind

  /** Faults that stop a transfer only after a number of bytes in `cuts`. */
  ghost predicate StopAt(cuts: iset<nat>, faults: seq<Fault>) {
    forall i :: 0 <= i < |faults| && faults[i].Fails? ==> faults[i].kept in cuts
  }

  predicate AnyPlace(p: nat) { true }

  ghost function Anywhere(): iset<nat> {
    iset p: nat | AnyPlace(p)
  }

  /** A directory write that stops here has set the flag of an entry in slot 3 or later, but not its whole name. */
  predicate SplitsName(p: nat) {
    3 * DIR_ENTRY_SIZE <= p < BLOCK_SIZE && p % DIR_ENTRY_SIZE >= 11
  }

  ghost predicate Harmless(cuts: iset<nat>) {
    forall p | p in cuts :: !SplitsName(p)
  }

  lemma AnywhereSplits()
    ensures !Harmless(Anywhere())
  {
    assert AnyPlace(203) && 203 in Anywhere() && SplitsName(203);
  }

  /** `p` holds now, after each access, and wherever a failing access may leave the disk. */
  ghost predicate Safe(p: Disk -> bool, cuts: iset<nat>, d: Disk, steps: seq<Access>)
    decreases |steps|
  {
    && p(d)
    && (steps == [] ||
        (SafeFault(p, cuts, d, steps[0]) && Safe(p, cuts, After(d, steps[0], Works), steps[1..])))
  }

  ghost predicate SafeFault(p: Disk -> bool, cuts: iset<nat>, d: Disk, a: Access) {
    forall kept: nat | kept in cuts :: p(After(d, a, Fails(kept)))
  }

  lemma {:induction false} SafeExec(p: Disk -> bool, cuts: iset<nat>, d: Disk,
                                    faults: seq<Fault>, steps: seq<Access>, n: nat)
    requires Safe(p, cuts, d, steps) && StopAt(cuts, faults) && n <= |steps|
    ensures p(Exec(d, faults, steps[..n]).disk)
    decreases |steps|
  {
    if n > 0 {
      var f := Now(faults);
      assert steps[..n][0] == steps[0] && steps[..n][1..] == steps[1..][..n - 1];
      if Succeeds(d, steps[0], f) {
        SafeExec(p, cuts, After(d, steps[0], Works), Later(faults), steps[1..], n - 1);
      } else if f.Fails? {
        assert p(After(d, steps[0], f));
      }
    }
  }

  lemma SafeRead(p: Disk -> bool, cuts: iset<nat>, d: Disk, id: nat, rest: seq<Access>)
    requires p(d) && Safe(p, cuts, d, rest)
    ensures Safe(p, cuts, d, [Read(id)] + rest)
  {
    assert ([Read(id)] + rest)[1..] == rest;
    assert After(d, Read(id), Works) == d;
  }

  lemma SafeWrite(p: Disk -> bool, cuts: iset<nat>, d: Disk, id: nat, b: Block, rest: seq<Access>)
    requires p(d) && id < |d| && Safe(p, cuts, d[id := b], rest)
    requires forall kept: nat | kept in cuts :: p(d[id := Torn(d[id], b, kept)])
    ensures Safe(p, cuts, d, [Write(id, b)] + rest)
  {
    assert ([Write(id, b)] + rest)[1..] == rest;
    assert After(d, Write(id, b), Works) == d[id := b];
    forall kept: nat | kept in cuts ensures p(After(d, Write(id, b), Fails(kept))) {
      assert After(d, Write(id, b), Fails(kept)) == d[id := Torn(d[id], b, kept)];
    }
  }

  // ---------------------------------------------------------------- the accesses of a creation

  function BitmapImage(d: Disk, i: nat): Block
    requires i < 4096
  {
    SetBit(At(d, INODE_BITMAP_BLOCK), i)
  }

  function TableBlock(n: nat): nat {
    INODE_TABLE_START_BLOCK + n / INODES_PER_BLOCK
  }

  function FileImage(d: Disk, i: nat): Block {
    PutInode(At(d, TableBlock(i)), i % INODES_PER_BLOCK, NewInode(File, 1, 0))
  }

  /** The accesses that follow once a slot and an inode are found. */
  function CreateWrites(d: Disk, dir: u64, entries: Block, i: u64): seq<Access>
    requires i < 4096
  {
    [Write(INODE_BITMAP_BLOCK, BitmapImage(d, i)), Read(TableBlock(i)), Write(TableBlock(i), FileImage(d, i)),
     Write(dir, entries)]
  }

  /** What `create_file_in_root` does in directory block `dir`, read off the directory and the bitmap. */
  function CreateCases(d: Disk, dir: u64, name: seq<byte>): Plan<(u64, u64)>
    requires GoodName(name)
  {
    match ScanDirectory(At(d, dir), name)
    case OutOfRange => Plan([], Panic)
    case Exists => Plan([], Err(CorruptLayout))
    case Full => Plan([], Err(NoSpace))
    case Free(slot) =>
      match FirstClear(At(d, INODE_BITMAP_BLOCK))
      case None => Plan([Read(INODE_BITMAP_BLOCK)], Err(NoSpace))
      case Some(i) =>
        Plan([Read(INODE_BITMAP_BLOCK)] + CreateWrites(d, dir, PutEntry(At(d, dir), slot, i, name), i), Ok((i, dir)))
  }

  predicate Standard(sb: SuperBlock) {
    sb.inodeBitmapBlock == INODE_BITMAP_BLOCK && sb.inodeTableStartBlock == INODE_TABLE_START_BLOCK
  }

  lemma LinkCase(d: Disk, sb: SuperBlock, dir: u64, entries: Block, i: u64)
    requires Standard(sb) && i < 4096 && |d| > 1
    ensures var d1 := d[INODE_BITMAP_BLOCK := BitmapImage(d, i)];
            Prefixed([Read(INODE_BITMAP_BLOCK), Write(INODE_BITMAP_BLOCK, BitmapImage(d, i))],
                     WriteBoth(WriteInodePlan(d1, sb, NewInode(File, 1, 0), i), dir, entries, i))
            == Plan([Read(INODE_BITMAP_BLOCK)] + CreateWrites(d, dir, entries, i), Ok((i, dir)))
  {
    hide BitmapImage, PutInode, NewInode;
    var d1 := d[INODE_BITMAP_BLOCK := BitmapImage(d, i)];
    assert At(d1, TableBlock(i)) == At(d, TableBlock(i));
    assert WriteInodePlan(d1, sb, NewInode(File, 1, 0), i)
        == Plan([Read(TableBlock(i)), Write(TableBlock(i), FileImage(d, i))], Ok(()));
  }

  lemma ApplyTwo(d: Disk, a: Access, b: Access)
    ensures Apply(d, [a, b]) == After(After(d, a, Works), b, Works)
  {
    assert [a, b][1..] == [b] && [b][1..] == [];
    assert Apply(After(d, a, Works), [b]) == After(After(d, a, Works), b, Works);
  }

  lemma AllocCase(d: Disk, sb: SuperBlock, i: nat)
    requires Standard(sb) && |d| > 1 && FirstClear(At(d, INODE_BITMAP_BLOCK)) == Some(i)
    ensures var steps := [Read(INODE_BITMAP_BLOCK), Write(INODE_BITMAP_BLOCK, BitmapImage(d, i))];
            && AllocateInodePlan(d, sb) == Plan(steps, Ok(i))
            && Apply(d, steps) == d[INODE_BITMAP_BLOCK := BitmapImage(d, i)]
  {
    ApplyTwo(d, Read(INODE_BITMAP_BLOCK), Write(INODE_BITMAP_BLOCK, BitmapImage(d, i)));
  }

  lemma CreateInCases(d: Disk, sb: SuperBlock, dir: u64, name: seq<byte>)
    requires GoodName(name) && Standard(sb) && |d| > 1
    ensures CreateIn(d, sb, dir, At(d, dir), name) == CreateCases(d, dir, name)
  {
    var b := At(d, dir);
    match ScanDirectory(b, name)
    case OutOfRange =>
    case Exists =>
    case Full =>
    case Free(slot) =>
      match FirstClear(At(d, INODE_BITMAP_BLOCK))
      case None =>
      case Some(i) =>
        AllocCase(d, sb, i);
        var d1 := d[INODE_BITMAP_BLOCK := BitmapImage(d, i)];
        assert LinkFile(d1, sb, dir, b, slot, i, name)
            == WriteBoth(WriteInodePlan(d1, sb, NewInode(File, 1, 0), i), dir, PutEntry(b, slot, i, name), i);
        LinkCase(d, sb, dir, PutEntry(b, slot, i, name), i);
  }

  /** What a creation does wherever the superblock and the root inode are in place. */
  lemma CreateOnAnchored(d: Disk, name: seq<byte>)
    requires Anchored(d)
    ensures CreatePlan(d, FormatSuper(|d|), name)
         == if !GoodName(name) then Plan([], Err(NameTooLong))
            else Prefixed([Read(INODE_TABLE_START_BLOCK)],
                          Prefixed([Read(DirBlock(|d|))], CreateCases(d, DirBlock(|d|), name)))
  {
    if GoodName(name) {
      var sb := FormatSuper(|d|);
      RootOnAnchored(d);
      CreateInCases(d, sb, DirBlock(|d|), name);
    }
  }

  lemma RootOnAnchored(d: Disk)
    requires Anchored(d)
    ensures ReadInodePlan(d, FormatSuper(|d|), 0) == Plan([Read(INODE_TABLE_START_BLOCK)], Ok(InodeAt(d, 0).value))
  {
  }

  // ---------------------------------------------------------------- a creation is safe at every access

  /** What a creation started on `c` guarantees of every disk it may leave; names need harmless cuts. */
  ghost predicate Sound(c: Disk, cuts: iset<nat>, d: Disk) {
    |d| == |c| && Good(d) && Keeps(c, d) && (Harmless(cuts) ==> NamesOk(Dir(d)))
  }

  /** The next inode to be handed out, if any, has its slot inside the inode table. */
  predicate Room(d: Disk) {
    var f := FirstClear(At(d, INODE_BITMAP_BLOCK));
    f.Some? ==> InTable(d, f.value)
  }

  lemma ClearIsUnnamed(d: Disk, i: nat)
    requires Good(d) && i < 4096 && !Marked(d, i)
    ensures !Named(d, i)
  {
  }

  /** Writes outside the directory keep its entries and names. */
  lemma SoundElsewhere(c: Disk, cuts: iset<nat>, d: Disk, e: Disk)
    requires Sound(c, cuts, d) && |e| == |d| && Good(e) && Dir(e) == Dir(d)
    ensures Sound(c, cuts, e)
  {
  }

  lemma SoundMark(c: Disk, cuts: iset<nat>, d: Disk, i: nat, kept: nat)
    requires Sound(c, cuts, d) && i < 4096
    ensures Sound(c, cuts, d[INODE_BITMAP_BLOCK := Torn(d[1], BitmapImage(d, i), kept)])
  {
    MarkKeepsGood(d, i, kept);
    SoundElsewhere(c, cuts, d, d[INODE_BITMAP_BLOCK := Torn(d[1], BitmapImage(d, i), kept)]);
  }

  lemma SoundInode(c: Disk, cuts: iset<nat>, d: Disk, i: nat, kept: nat)
    requires Sound(c, cuts, d) && !Named(d, i) && InTable(d, i)
    ensures Sound(c, cuts, d[TableBlock(i) := Torn(d[TableBlock(i)], FileImage(d, i), kept)])
  {
    InodeWriteKeepsGood(d, i, NewInode(File, 1, 0), kept);
    SoundElsewhere(c, cuts, d, d[TableBlock(i) := Torn(d[TableBlock(i)], FileImage(d, i), kept)]);
  }

  lemma NewNameDistinct(b: Block, k: nat, n: u64, name: seq<byte>)
    requires DistinctNames(b) && k < DIR_ENTRIES_PER_BLOCK && |name| <= DIR_NAME_MAX
    requires FirstHit(b, name).None?
    ensures DistinctNames(PutEntry(b, k, n, name))
  {
    PutEntrySlots(b, k, n, name);
    var c := PutEntry(b, k, n, name);
    assert EntryName(Entry(c, k)) == Some(name);
    forall j: nat | j < DIR_ENTRIES_PER_BLOCK && j != k && Entry(c, j).Used()
      ensures EntryName(Entry(c, j)) != Some(name)
    {
      assert !Hit(b, name, j);
    }
  }

  /** The first file's entry, torn inside its name: a zero byte follows, so it is neither "." nor "..". */
  lemma TornFirstName(b: Block, n: u64, name: seq<byte>, kept: nat)
    requires WellFormed(b) && NamesOk(b) && !Entry(b, 2).Used() && GoodName(name) && FirstHit(b, name).None?
    requires 2 * DIR_ENTRY_SIZE + 11 <= kept < 3 * DIR_ENTRY_SIZE
    ensures NamesOk(Torn(b, PutEntry(b, 2, n, name), kept))
  {
    hide Entry, PutEntry, Torn;
    var t := Torn(b, PutEntry(b, 2, n, name), kept);
    TornInName(b, 2, n, name, kept);
    forall j: nat | j < DIR_ENTRIES_PER_BLOCK && j != 2 ensures Entry(t, j) == Entry(b, j) {
      TornEntryElsewhere(b, 2, n, name, kept, j);
    }
    var m := if kept == 2 * DIR_ENTRY_SIZE + 11 then 0 else kept - 2 * DIR_ENTRY_SIZE - 12;
    var torn := EntryName(Entry(t, 2)).value;
    assert EntryName(Entry(b, 0)) == Some(DOT) && EntryName(Entry(b, 1)) == Some(DOTDOT);
    if |name| <= m {
      assert torn == name;
      assert !Hit(b, name, 0) && !Hit(b, name, 1);
    } else {
      assert torn[|name| - 1] == 0;
    }
  }

  /** Names stay distinct over a write of the directory that stops anywhere but inside the name of slot 3 or later. */
  lemma TornNames(b: Block, k: nat, n: u64, name: seq<byte>, kept: nat)
    requires WellFormed(b) && NamesOk(b) && GoodName(name)
    requires FirstHit(b, name).None? && FirstUnused(b) == Some(k) && !SplitsName(kept)
    ensures NamesOk(Torn(b, PutEntry(b, k, n, name), kept))
  {
    hide Entry, PutEntry, EntryName;
    var at, t := k * DIR_ENTRY_SIZE, Torn(b, PutEntry(b, k, n, name), kept);
    assert Entry(b, 0).Used() && Entry(b, 1).Used();
    forall j: nat | j < DIR_ENTRIES_PER_BLOCK && j != k ensures Entry(t, j) == Entry(b, j) {
      TornEntryElsewhere(b, k, n, name, kept, j);
    }
    if kept <= at + 10 {
      TornBeforeFlags(b, k, n, name, kept);
    } else if kept >= at + DIR_ENTRY_SIZE {
      assert t == PutEntry(b, k, n, name) by { hide EncodeEntry; TornBehind(b, k, n, name, kept); }
      NewNameDistinct(b, k, n, name);
      PutEntrySlots(b, k, n, name);
    } else {
      assert k == 2;
      TornFirstName(b, n, name, kept);
    }
  }

  /** A write that stops behind the changed slot is complete. */
  lemma TornBehind(b: Block, k: nat, n: u64, name: seq<byte>, kept: nat)
    requires k < DIR_ENTRIES_PER_BLOCK && |name| <= DIR_NAME_MAX && kept >= k * DIR_ENTRY_SIZE + DIR_ENTRY_SIZE
    ensures Torn(b, PutEntry(b, k, n, name), kept) == PutEntry(b, k, n, name)
  {
    hide EncodeEntry;
  }

  lemma SoundLink(c: Disk, cuts: iset<nat>, d: Disk, k: nat, i: u64, name: seq<byte>, kept: nat)
    requires Sound(c, cuts, d) && GoodName(name)
    requires FirstUnused(Dir(d)) == Some(k) && FirstHit(Dir(d), name).None?
    requires Backed(d, i) && InTable(d, i) && !Named(d, i) && InodeAt(d, i) == Some(EmptyFile())
    requires kept in cuts || kept == BLOCK_SIZE
    ensures Sound(c, cuts, d[DirBlock(|d|) := Torn(Dir(d), PutEntry(Dir(d), k, i, name), kept)])
  {
    hide Keeps, NamesOk, PutEntry, Backed, Named, Rooted, WellFormed, Consistent, Placed, AsCreated, Marked, Torn;
    var b := Dir(d);
    var t := Torn(b, PutEntry(b, k, i, name), kept);
    TornGains(b, k, i, name, kept);
    LinkKeepsGood(d, t, k, i);
    KeepsTransitive(c, d, d[DirBlock(|d|) := t]);
    if Harmless(cuts) { TornNames(b, k, i, name, kept); }
  }

  lemma KeepsTransitive(a: Disk, b: Disk, c: Disk)
    requires Keeps(a, b) && Keeps(b, c)
    ensures Keeps(a, c)
  {
    forall k: nat | k < DIR_ENTRIES_PER_BLOCK && Entry(Dir(a), k).Used() ensures Entry(Dir(c), k) == Entry(Dir(a), k) {
      assert Entry(Dir(b), k) == Entry(Dir(a), k);
    }
  }

  /** The disk after the bitmap write, and after the inode write. */
  function Allocated(d: Disk, i: nat): Disk
    requires i < 4096 && |d| > 1
  {
    d[INODE_BITMAP_BLOCK := BitmapImage(d, i)]
  }

  function Written(d: Disk, i: nat): Disk
    requires i < 4096 && |d| > 1 && TableBlock(i) < |d|
  {
    Allocated(d, i)[TableBlock(i) := FileImage(d, i)]
  }

  lemma WrittenMarked(d: Disk, i: nat)
    requires i < 4096 && |d| > 1 && TableBlock(i) < |d|
    ensures Marked(Written(d, i), i)
  {
    SetBitEffect(d[1], i, i);
    assert At(Written(d, i), INODE_BITMAP_BLOCK) == BitmapImage(d, i);
  }

  lemma NewFileFields()
    ensures NewInode(File, 1, 0) == EmptyFile()
  {
    assert NewInode(File, 1, 0).directPointers == EmptyFile().directPointers;
  }

  lemma WrittenFile(d: Disk, i: nat)
    requires i < 4096 && |d| > 1 && TableBlock(i) < |d|
    ensures InodeAt(Written(d, i), i) == Some(EmptyFile())
  {
    NewFileFields();
    assert At(Written(d, i), TableBlock(i)) == FileImage(d, i);
    PutInodeSlots(At(d, TableBlock(i)), i % INODES_PER_BLOCK, NewInode(File, 1, 0));
  }

  /** After both writes the new inode is allocated, a file, and named by no entry. */
  lemma WrittenSound(d: Disk, cuts: iset<nat>, i: nat)
    requires Sound(d, cuts, d) && i < 4096 && !Marked(d, i) && InTable(d, i)
    ensures Sound(d, cuts, Allocated(d, i)) && !Named(Allocated(d, i), i)
    ensures Sound(d, cuts, Written(d, i)) && !Named(Written(d, i), i)
    ensures FileImage(Allocated(d, i), i) == FileImage(d, i) && Dir(Written(d, i)) == Dir(d)
  {
    hide Keeps, NamesOk, Harmless, Rooted, WellFormed, Consistent, Placed, AsCreated, BitmapImage, Marked, PutInode;
    ClearIsUnnamed(d, i);
    SoundMark(d, cuts, d, i, BLOCK_SIZE);
    assert Dir(Allocated(d, i)) == Dir(d);
    SoundInode(d, cuts, Allocated(d, i), i, BLOCK_SIZE);
  }

  ghost function Sounds(c: Disk, cuts: iset<nat>): Disk -> bool {
    x => Sound(c, cuts, x)
  }

  lemma MarkSafe(c: Disk, cuts: iset<nat>, d: Disk, i: nat, rest: seq<Access>)
    requires Sound(c, cuts, d) && i < 4096
    requires Safe(Sounds(c, cuts), cuts, d[INODE_BITMAP_BLOCK := BitmapImage(d, i)], rest)
    ensures Safe(Sounds(c, cuts), cuts, d, [Write(INODE_BITMAP_BLOCK, BitmapImage(d, i))] + rest)
  {
    forall kept: nat ensures Sounds(c, cuts)(d[INODE_BITMAP_BLOCK := Torn(d[1], BitmapImage(d, i), kept)]) {
      SoundMark(c, cuts, d, i, kept);
    }
    SafeWrite(Sounds(c, cuts), cuts, d, INODE_BITMAP_BLOCK, BitmapImage(d, i), rest);
  }

  lemma InodeSafe(c: Disk, cuts: iset<nat>, d: Disk, i: nat, rest: seq<Access>)
    requires Sound(c, cuts, d) && !Named(d, i) && InTable(d, i)
    requires Safe(Sounds(c, cuts), cuts, d[TableBlock(i) := FileImage(d, i)], rest)
    ensures Safe(Sounds(c, cuts), cuts, d, [Read(TableBlock(i))] + ([Write(TableBlock(i), FileImage(d, i))] + rest))
  {
    var b := TableBlock(i);
    forall kept: nat ensures Sounds(c, cuts)(d[b := Torn(d[b], FileImage(d, i), kept)]) {
      SoundInode(c, cuts, d, i, kept);
    }
    SafeWrite(Sounds(c, cuts), cuts, d, b, FileImage(d, i), rest);
    SafeRead(Sounds(c, cuts), cuts, d, b, [Write(b, FileImage(d, i))] + rest);
  }

  lemma LinkSafe(c: Disk, cuts: iset<nat>, d: Disk, k: nat, i: u64, name: seq<byte>)
    requires Sound(c, cuts, d) && GoodName(name)
    requires FirstUnused(Dir(d)) == Some(k) && FirstHit(Dir(d), name).None?
    requires Backed(d, i) && InTable(d, i) && !Named(d, i) && InodeAt(d, i) == Some(EmptyFile())
    ensures Safe(Sounds(c, cuts), cuts, d, [Write(DirBlock(|d|), PutEntry(Dir(d), k, i, name))])
  {
    var dir, entries := DirBlock(|d|), PutEntry(Dir(d), k, i, name);
    forall kept: nat | kept in cuts
      ensures Sounds(c, cuts)(d[dir := Torn(d[dir], entries, kept)])
    {
      SoundLink(c, cuts, d, k, i, name, kept);
    }
    SoundLink(c, cuts, d, k, i, name, BLOCK_SIZE);
    assert Torn(d[dir], entries, BLOCK_SIZE) == entries;
    SafeWrite(Sounds(c, cuts), cuts, d, dir, entries, []);
    assert [Write(dir, entries)] + [] == [Write(dir, entries)];
  }

  lemma LinkWrittenSafe(d: Disk, cuts: iset<nat>, k: nat, i: u64, name: seq<byte>)
    requires Sound(d, cuts, d) && GoodName(name)
    requires FirstUnused(Dir(d)) == Some(k) && FirstHit(Dir(d), name).None?
    requires i < 4096 && !Marked(d, i) && InTable(d, i)
    ensures Safe(Sounds(d, cuts), cuts, Written(d, i), [Write(DirBlock(|d|), PutEntry(Dir(d), k, i, name))])
  {
    WrittenSound(d, cuts, i);
    WrittenFile(d, i);
    assert Backed(Written(d, i), i) by {
      WrittenMarked(d, i);
      assert i != 0;
    }
    LinkSafe(d, cuts, Written(d, i), k, i, name);
  }

  lemma CreateWritesSafe(d: Disk, cuts: iset<nat>, i: u64, link: Access)
    requires Sound(d, cuts, d) && i < 4096 && !Marked(d, i) && InTable(d, i)
    requires Safe(Sounds(d, cuts), cuts, Written(d, i), [link])
    ensures Safe(Sounds(d, cuts), cuts, d,
                 [Write(INODE_BITMAP_BLOCK, BitmapImage(d, i)), Read(TableBlock(i)),
                  Write(TableBlock(i), FileImage(d, i)), link])
  {
    hide Good, BitmapImage, FileImage, Keeps, NamesOk, Harmless;
    WrittenSound(d, cuts, i);
    InodeSafe(d, cuts, Allocated(d, i), i, [link]);
    var rest := [Read(TableBlock(i))] + ([Write(TableBlock(i), FileImage(d, i))] + [link]);
    MarkSafe(d, cuts, d, i, rest);
    assert [Write(INODE_BITMAP_BLOCK, BitmapImage(d, i))] + rest
        == [Write(INODE_BITMAP_BLOCK, BitmapImage(d, i)), Read(TableBlock(i)),
            Write(TableBlock(i), FileImage(d, i)), link];
  }

  /** Every access of a creation on a good disk, and every fault at it, leaves a sound disk. */
  lemma CreateSafe(d: Disk, cuts: iset<nat>, name: seq<byte>)
    requires Sound(d, cuts, d) && Room(d)
    ensures Safe(Sounds(d, cuts), cuts, d, CreatePlan(d, FormatSuper(|d|), name).steps)
  {
    CreateOnAnchored(d, name);
    if GoodName(name) {
      var q := CreateCases(d, DirBlock(|d|), name).steps;
      CasesSafe(d, cuts, name);
      SafeRead(Sounds(d, cuts), cuts, d, DirBlock(|d|), q);
      SafeRead(Sounds(d, cuts), cuts, d, INODE_TABLE_START_BLOCK, [Read(DirBlock(|d|))] + q);
    }
  }

  lemma CasesSafe(d: Disk, cuts: iset<nat>, name: seq<byte>)
    requires Sound(d, cuts, d) && Room(d) && GoodName(name)
    ensures Safe(Sounds(d, cuts), cuts, d, CreateCases(d, DirBlock(|d|), name).steps)
  {
    match ScanDirectory(Dir(d), name)
    case OutOfRange =>
    case Exists =>
    case Full =>
    case Free(slot) =>
      match FirstClear(At(d, INODE_BITMAP_BLOCK))
      case None =>
        SafeRead(Sounds(d, cuts), cuts, d, INODE_BITMAP_BLOCK, []);
        assert [Read(INODE_BITMAP_BLOCK)] + [] == [Read(INODE_BITMAP_BLOCK)];
      case Some(i) =>
        LinkWrittenSafe(d, cuts, slot, i, name);
        CreateWritesSafe(d, cuts, i, Write(DirBlock(|d|), PutEntry(Dir(d), slot, i, name)));
        SafeRead(Sounds(d, cuts), cuts, d, INODE_BITMAP_BLOCK,
                 CreateWrites(d, DirBlock(|d|), PutEntry(Dir(d), slot, i, name), i));
  }

  // ---------------------------------------------------------------- mounting

  lemma FourBytes(s: seq<byte>)
    requires |s| == 4
    ensures FromLE(s) == s[0] as int + 256 * (s[1] as int + 256 * (s[2] as int + 256 * (s[3] as int)))
  {
    assert s[1..][1..] == s[2..] && s[2..][1..] == s[3..] && s[3..][1..] == [];
    assert FromLE(s[3..]) == s[3];
    assert FromLE(s[2..]) == s[2] + 256 * FromLE(s[3..]);
    assert FromLE(s[1..]) == s[1] + 256 * FromLE(s[2..]);
  }

  lemma ThreeBytes(a: byte, b: byte, c: byte)
    ensures a as int + 256 * (b as int + 256 * (c as int)) < 0x100_0000
  {
  }

  /** The magic number ends the superblock: a partial transfer that brings it brings all the rest. */
  lemma MountTorn(b: Block, kept: nat)
    ensures var t := Torn(ZeroBlock(), b, kept);
            MountResult(t) == MountResult(b) || MountResult(t) == Err(InvalidSuperBlock)
  {
    var t := Torn(ZeroBlock(), b, kept);
    var s := t[..64];
    assert Parse(4, 2, s[56..])[0] == FromLE(s[56..][0..4]);
    if kept >= 60 {
      assert s[..56] == b[..64][..56];
      assert forall j | 0 <= j < 4 :: s[56..][0..4][j] == t[56 + j] == b[56 + j] == b[..64][56..][0..4][j];
      assert s[56..][0..4] == b[..64][56..][0..4];
      assert DecodeSuper(s) == DecodeSuper(b[..64]);
    } else {
      var m := s[56..][0..4];
      FourBytes(m);
      assert m[3] == t[59] == 0;
      ThreeBytes(m[0], m[1], m[2]);
      assert DecodeSuper(s).magicNumber == FromLE(m) != MAGIC_NUMBER;
    }
  }

  lemma MountOnAnchored(d: Disk, f: Fault)
    requires Anchored(d)
    ensures var r := MountResult(MountBuffer(d, f));
            && (r == Ok(FormatSuper(|d|)) || r == Err(InvalidSuperBlock))
            && (f.Works? ==> r.Ok?)
  {
    if f.Fails? { MountTorn(d[0], f.kept); }
  }

  // ---------------------------------------------------------------- the main theorems over runs

  /** The writes of the event stop only after a number of bytes in `cuts`. */
  ghost predicate EventStopsAt(cuts: iset<nat>, e: Event) {
    match e
    case Mount(_) => true
    case Create(_, faults) => StopAt(cuts, faults)
    case Cut(_, faults, _) => StopAt(cuts, faults)
  }

  ghost predicate RunStopsAt(cuts: iset<nat>, events: seq<Event>) {
    forall i :: 0 <= i < |events| ==> EventStopsAt(cuts, events[i])
  }

  lemma AnyRunStopsAnywhere(events: seq<Event>)
    ensures RunStopsAt(Anywhere(), events)
  {
  }

  ghost predicate WorldOk(w: World, cuts: iset<nat>) {
    && Good(w.disk) && (Harmless(cuts) ==> NamesOk(Dir(w.disk)))
    && (w.mounted.Some? ==> w.mounted.value == FormatSuper(|w.disk|))
  }

  lemma StepSound(w: World, e: Event, cuts: iset<nat>)
    requires WorldOk(w, cuts) && Room(w.disk) && EventStopsAt(cuts, e)
    ensures WorldOk(Step(w, e), cuts) && Sound(w.disk, cuts, Step(w, e).disk)
  {
    hide Anchored, WellFormed, Placed, Consistent, AsCreated, Keeps, NamesOk, CreatePlan, Harmless;
    KeepsItself(w.disk);
    match e
    case Mount(f) => MountOnAnchored(w.disk, f);
    case Create(name, faults) =>
      if w.mounted.Some? {
        var steps := CreatePlan(w.disk, w.mounted.value, name).steps;
        CreateSafe(w.disk, cuts, name);
        SafeExec(Sounds(w.disk, cuts), cuts, w.disk, faults, steps, |steps|);
        assert steps[..|steps|] == steps;
      }
    case Cut(name, faults, at) =>
      if w.mounted.Some? {
        var steps := CreatePlan(w.disk, w.mounted.value, name).steps;
        CreateSafe(w.disk, cuts, name);
        SafeExec(Sounds(w.disk, cuts), cuts, w.disk, faults, steps, if at < |steps| then at else |steps|);
      }
  }

  lemma KeepsItself(d: Disk)
    ensures Keeps(d, d)
  {
  }

  lemma LargeDiskHasRoom(d: Disk)
    requires |d| >= 10240
    ensures Room(d)
  {
  }

  /** Whatever fails, and wherever power is lost, every disk of a run is good and keeps all entries. */
  lemma {:induction false} RunSound(w: World, events: seq<Event>, cuts: iset<nat>)
    requires WorldOk(w, cuts) && |w.disk| >= 10240
    requires RunStopsAt(cuts, events)
    ensures WorldOk(Run(w, events), cuts) && Sound(w.disk, cuts, Run(w, events).disk)
    decreases |events|
  {
    hide Good, Keeps, NamesOk, Step, Harmless, EventStopsAt;
    KeepsItself(w.disk);
    if events != [] {
      LargeDiskHasRoom(w.disk);
      StepSound(w, events[0], cuts);
      var v := Step(w, events[0]);
      RunSound(v, events[1..], cuts);
      KeepsTransitive(w.disk, v.disk, Run(v, events[1..]).disk);
    }
  }
}
