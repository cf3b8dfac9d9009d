/**
  What the file system is to its callers: a superblock that every later mount finds again, an inode
  table that stores what is written to it, and a directory that is a finite map from names to inodes.
*/
module FsDirectory {
  import opened Bytes
  import opened Options
  import opened FsLayout
  import opened FsDevice
  import opened FsPlans
  import opened FsInvariant
  import opened FsRuns
  import opened FsStart
  import opened FsLimits
  import opened Bitmaps

  // ---------------------------------------------------------------- the inode table

  /**
    Writing inode `n` and reading any inode `m` back, under any superblock and on any disk: the inode
    written is the one read, every other index reads as before, and no other block changes.
  */
  lemma InodeTable(d: Disk, sb: SuperBlock, i: Inode, n: u64, m: u64)
    requires InodeBlock(sb, n) < 0x1_0000_0000_0000_0000 && InodeBlock(sb, m) < 0x1_0000_0000_0000_0000
    ensures var w := Perform(d, [], WriteInodePlan(d, sb, i, n));
            && (w.result == if InodeBlock(sb, n) < |d| then Ok(()) else Err(BlockError))
            && (w.result.Ok? ==>
                  && Perform(w.disk, [], ReadInodePlan(w.disk, sb, n)).result == Ok(i)
                  && (m == n || Perform(w.disk, [], ReadInodePlan(w.disk, sb, m)).result
                                == Perform(d, [], ReadInodePlan(d, sb, m)).result)
                  && (forall b: nat | b < |d| && b != InodeBlock(sb, n) :: w.disk[b] == d[b]))
            && (!w.result.Ok? ==> w.disk == d)
  {
    hide PutInode, InodeSlot;
    var b := InodeBlock(sb, n);
    ExecTwo(d, [], Read(b), Write(b, PutInode(At(d, b), n % INODES_PER_BLOCK, i)));
    var w := Perform(d, [], WriteInodePlan(d, sb, i, n));
    if b < |d| {
      assert w.disk == d[b := PutInode(d[b], n % INODES_PER_BLOCK, i)];
      PutInodeSlots(d[b], n % INODES_PER_BLOCK, i);
      ReadReliable(w.disk, sb, n);
      ReadReliable(w.disk, sb, m);
      ReadReliable(d, sb, m);
    }
  }

  /** An index whose block number overflows panics, and nothing is written. */
  lemma IndexOverflow(d: Disk, faults: seq<Fault>, sb: SuperBlock, i: Inode, n: u64)
    requires sb.inodeTableStartBlock + n / 4 > 0xFFFF_FFFF_FFFF_FFFF
    ensures Perform(d, faults, ReadInodePlan(d, sb, n)) == Effect(d, faults, Panic)
    ensures Perform(d, faults, WriteInodePlan(d, sb, i, n)) == Effect(d, faults, Panic)
  {
  }

  lemma ReadReliable(d: Disk, sb: SuperBlock, n: u64)
    requires InodeBlock(sb, n) < 0x1_0000_0000_0000_0000
    ensures var slot := InodeSlot(At(d, InodeBlock(sb, n)), n % INODES_PER_BLOCK);
            Perform(d, [], ReadInodePlan(d, sb, n)).result
            == if InodeBlock(sb, n) < |d| && slot.Some? then Ok(slot.value) else Err(BlockError)
  {
    hide InodeSlot;
    var s := [Read(InodeBlock(sb, n))];
    ExecReliable(d, s);
    assert InRange(d, s) <==> s[0].id < |d|;
  }

  // ---------------------------------------------------------------- the superblock

  lemma AnchoredFrame(c: Disk, d: Disk)
    requires Anchored(c) && |d| == |c| && At(d, SUPERBLOCK_BLOCK) == At(c, SUPERBLOCK_BLOCK)
    requires Marked(d, 0) && InodeAt(d, 0) == InodeAt(c, 0)
    ensures Anchored(d)
  {
    hide MountResult, InodeAt, Marked;
  }

  lemma AnchoredSize(d: Disk)
    requires Anchored(d)
    ensures 10 <= |d| < 0x1_0000_0000_0000_0000
  {
  }

  ghost function AnchoredLike(c: Disk): Disk -> bool {
    x => |x| == |c| && Anchored(x)
  }

  lemma AnchoredMark(d: Disk, i: nat, kept: nat)
    requires Anchored(d) && i < 4096
    ensures Anchored(d[INODE_BITMAP_BLOCK := Torn(d[1], BitmapImage(d, i), kept)])
  {
    var m := d[1];
    TornByte(m, i / 8, WithBit(m[i / 8], i % 8), kept);
    SetBitEffect(m, i, 0);
    AnchoredFrame(d, d[INODE_BITMAP_BLOCK := Torn(m, BitmapImage(d, i), kept)]);
  }

  lemma AnchoredInode(d: Disk, i: nat, kept: nat)
    requires Anchored(d) && i != 0 && TableBlock(i) < |d|
    ensures Anchored(d[TableBlock(i) := Torn(d[TableBlock(i)], FileImage(d, i), kept)])
  {
    hide PutInode, InodeSlot, MountResult;
    var e := d[TableBlock(i) := Torn(d[TableBlock(i)], FileImage(d, i), kept)];
    if TableBlock(i) == INODE_TABLE_START_BLOCK {
      TornInode(d[TableBlock(i)], i % INODES_PER_BLOCK, NewInode(File, 1, 0), kept, 0);
    }
    AnchoredFrame(d, e);
  }

  lemma AnchoredElsewhere(d: Disk, b: nat, block: Block)
    requires Anchored(d) && INODE_TABLE_START_BLOCK < b < |d|
    ensures Anchored(d[b := block])
  {
    AnchoredFrame(d, d[b := block]);
  }

  lemma AnchoredWrite(c: Disk, d: Disk, b: nat, block: Block, rest: seq<Access>)
    requires |d| == |c| && Anchored(d) && INODE_TABLE_START_BLOCK < b
    requires b < |d| ==> Safe(AnchoredLike(c), Anywhere(), d[b := block], rest)
    requires b >= |d| ==> Safe(AnchoredLike(c), Anywhere(), d, rest)
    ensures Safe(AnchoredLike(c), Anywhere(), d, [Write(b, block)] + rest)
  {
    hide Anchored;
    if b < |d| {
      forall kept: nat ensures AnchoredLike(c)(d[b := Torn(d[b], block, kept)]) {
        AnchoredElsewhere(d, b, Torn(d[b], block, kept));
      }
      SafeWrite(AnchoredLike(c), Anywhere(), d, b, block, rest);
    } else {
      assert ([Write(b, block)] + rest)[1..] == rest;
      assert After(d, Write(b, block), Works) == d;
      forall kept: nat ensures AnchoredLike(c)(After(d, Write(b, block), Fails(kept))) {
        assert After(d, Write(b, block), Fails(kept)) == d;
      }
    }
  }

  /** The inode and directory writes, whatever the size of the inode table. */
  lemma AnchoredWrites(c: Disk, d: Disk, i: u64, image: Block, entries: Block)
    requires |d| == |c| && Anchored(d) && i != 0 && image == FileImage(d, i)
    ensures Safe(AnchoredLike(c), Anywhere(), d,
                 [Read(TableBlock(i))] + ([Write(TableBlock(i), image)] + [Write(DirBlock(|c|), entries)]))
  {
    hide Anchored, FileImage;
    AnchoredSize(d);
    var b, link := TableBlock(i), [Write(DirBlock(|c|), entries)];
    if b < |d| {
      forall kept: nat ensures AnchoredLike(c)(d[b := Torn(d[b], image, kept)]) { AnchoredInode(d, i, kept); }
      AnchoredInode(d, i, BLOCK_SIZE);
      AnchoredLink(c, d[b := image], entries);
      SafeWrite(AnchoredLike(c), Anywhere(), d, b, image, link);
    } else {
      AnchoredLink(c, d, entries);
      AnchoredWrite(c, d, b, image, link);
    }
    SafeRead(AnchoredLike(c), Anywhere(), d, b, [Write(b, image)] + link);
  }

  lemma AnchoredLink(c: Disk, d: Disk, entries: Block)
    requires |d| == |c| && Anchored(d)
    ensures Safe(AnchoredLike(c), Anywhere(), d, [Write(DirBlock(|c|), entries)])
  {
    AnchoredElsewhere(d, DirBlock(|d|), entries);
    AnchoredWrite(c, d, DirBlock(|c|), entries, []);
    assert [Write(DirBlock(|c|), entries)] + [] == [Write(DirBlock(|c|), entries)];
  }

  lemma AnchoredCreate(d: Disk, name: seq<byte>)
    requires Anchored(d)
    ensures Safe(AnchoredLike(d), Anywhere(), d, CreatePlan(d, FormatSuper(|d|), name).steps)
  {
    hide Anchored, CreatePlan, ScanDirectory;
    CreateOnAnchored(d, name);
    if GoodName(name) {
      var q := CreateCases(d, DirBlock(|d|), name).steps;
      AnchoredCases(d, name);
      SafeRead(AnchoredLike(d), Anywhere(), d, DirBlock(|d|), q);
      SafeRead(AnchoredLike(d), Anywhere(), d, INODE_TABLE_START_BLOCK, [Read(DirBlock(|d|))] + q);
    }
  }

  lemma AnchoredCases(d: Disk, name: seq<byte>)
    requires Anchored(d) && GoodName(name)
    ensures Safe(AnchoredLike(d), Anywhere(), d, CreateCases(d, DirBlock(|d|), name).steps)
  {
    hide MountResult, Rooted, PutEntry, FileImage, BitmapImage;
    match ScanDirectory(Dir(d), name)
    case OutOfRange =>
    case Exists =>
    case Full =>
    case Free(slot) =>
      match FirstClear(At(d, INODE_BITMAP_BLOCK))
      case None =>
        SafeRead(AnchoredLike(d), Anywhere(), d, INODE_BITMAP_BLOCK, []);
        assert [Read(INODE_BITMAP_BLOCK)] + [] == [Read(INODE_BITMAP_BLOCK)];
      case Some(i) =>
        var entries := PutEntry(Dir(d), slot, i, name);
        AnchoredMarkSafe(d, i, entries);
        SafeRead(AnchoredLike(d), Anywhere(), d, INODE_BITMAP_BLOCK, CreateWrites(d, DirBlock(|d|), entries, i));
  }

  lemma AnchoredAllocated(d: Disk, i: nat)
    requires Anchored(d) && i < 4096
    ensures Anchored(Allocated(d, i)) && FileImage(Allocated(d, i), i) == FileImage(d, i)
  {
    hide MountResult, Rooted, Marked, PutInode, SetBit;
    AnchoredMark(d, i, BLOCK_SIZE);
  }

  lemma AnchoredMarkWrite(d: Disk, i: nat, rest: seq<Access>)
    requires Anchored(d) && i < 4096 && Safe(AnchoredLike(d), Anywhere(), Allocated(d, i), rest)
    ensures Safe(AnchoredLike(d), Anywhere(), d, [Write(INODE_BITMAP_BLOCK, BitmapImage(d, i))] + rest)
  {
    hide Anchored, BitmapImage, Anywhere, Torn, Safe;
    AnchoredSize(d);
    forall kept: nat ensures AnchoredLike(d)(d[INODE_BITMAP_BLOCK := Torn(d[1], BitmapImage(d, i), kept)]) {
      AnchoredMark(d, i, kept);
    }
    SafeWrite(AnchoredLike(d), Anywhere(), d, INODE_BITMAP_BLOCK, BitmapImage(d, i), rest);
  }

  lemma AnchoredMarkSafe(d: Disk, i: u64, entries: Block)
    requires Anchored(d) && i < 4096 && i != 0
    ensures Safe(AnchoredLike(d), Anywhere(), d, CreateWrites(d, DirBlock(|d|), entries, i))
  {
    hide Anchored, PutInode, BitmapImage, FileImage, Anywhere, Safe, CreateWrites, AnchoredLike;
    AnchoredSize(d);
    AnchoredAllocated(d, i);
    AnchoredWrites(d, Allocated(d, i), i, FileImage(d, i), entries);
    var rest := [Read(TableBlock(i))] + ([Write(TableBlock(i), FileImage(d, i))] + [Write(DirBlock(|d|), entries)]);
    AnchoredMarkWrite(d, i, rest);
    MarkComesFirst(d, DirBlock(|d|), entries, i);
  }

  lemma MarkComesFirst(d: Disk, dir: u64, entries: Block, i: u64)
    requires i < 4096
    ensures CreateWrites(d, dir, entries, i)
         == [Write(INODE_BITMAP_BLOCK, BitmapImage(d, i))]
            + ([Read(TableBlock(i))] + ([Write(TableBlock(i), FileImage(d, i))] + [Write(dir, entries)]))
  {
    hide BitmapImage, FileImage;
  }

  lemma {:induction false} AnchoredRun(w: World, events: seq<Event>)
    requires Anchored(w.disk) && (w.mounted.Some? ==> w.mounted.value == FormatSuper(|w.disk|))
    ensures var v := Run(w, events);
            && |v.disk| == |w.disk| && Anchored(v.disk)
            && (v.mounted.Some? ==> v.mounted.value == FormatSuper(|w.disk|))
    decreases |events|
  {
    hide Anchored, CreatePlan, MountResult, MountBuffer;
    if events != [] {
      var d, e := w.disk, events[0];
      match e {
        case Mount(f) => MountOnAnchored(d, f);
        case Create(name, faults) =>
          if w.mounted.Some? {
            var steps := CreatePlan(d, w.mounted.value, name).steps;
            AnchoredCreate(d, name);
            SafeExec(AnchoredLike(d), Anywhere(), d, faults, steps, |steps|);
            assert steps[..|steps|] == steps;
          }
        case Cut(name, faults, at) =>
          if w.mounted.Some? {
            var steps := CreatePlan(d, w.mounted.value, name).steps;
            AnchoredCreate(d, name);
            SafeExec(AnchoredLike(d), Anywhere(), d, faults, steps, if at < |steps| then at else |steps|);
          }
      }
      AnchoredRun(Step(w, e), events[1..]);
    }
  }

  /** After any run, on any device of at least 10 blocks, a mount finds what `format` wrote, or reports an error. */
  lemma MountRecovers(disk: Disk, formatFaults: seq<Fault>, initFaults: seq<Fault>, w: World,
                      events: seq<Event>, f: Fault)
    requires Started(disk, formatFaults, initFaults, w) && |disk| >= 10
    ensures var r := MountResult(MountBuffer(Run(w, events).disk, f));
            && (r == Ok(FormatSuper(|disk|)) || r == Err(InvalidSuperBlock))
            && (f.Works? ==> r.Ok?)
  {
    hide Anchored, Fresh, Started, MountResult, MountBuffer, WellFormed, Placed, Consistent, AsCreated, NamesOk;
    StartDisk(disk, formatFaults, initFaults, w);
    FreshGood(disk);
    FreshDirectory(disk);
    AnchoredRun(w, events);
    MountOnAnchored(Run(w, events).disk, f);
  }

  // ---------------------------------------------------------------- any disk, any superblock

  /** What the collision check and slot search make of any directory block. */
  lemma ScanExact(b: Block, name: seq<byte>)
    ensures match ScanDirectory(b, name)
            case OutOfRange => exists k: nat :: k < 8 && StopsAt(b, name, k) && Entry(b, k).nameLen > 52
            case Exists => exists k: nat :: k < 8 && StopsAt(b, name, k) && Entry(b, k).nameLen <= 52
            case Full => forall k: nat | k < 8 :: Passed(b, name, k) && Entry(b, k).flags % 2 == 1
            case Free(s) =>
              && s < 8 && Entry(b, s).flags % 2 == 0
              && (forall k: nat | k < s :: Entry(b, k).flags % 2 == 1) && forall k: nat | k < 8 :: Passed(b, name, k)
  {
    hide Entry;
    var h := FirstHit(b, name);
    var last := if h.Some? then h.value else 8;
    forall k: nat | k < last ensures Passed(b, name, k) { assert !Hit(b, name, k); }
    if h.Some? { assert Hit(b, name, h.value) && StopsAt(b, name, h.value); }
  }

  /** The entry is unused, or has a name in range that is another one. */
  predicate Passed(b: Block, name: seq<byte>, k: nat)
    requires k < 8
  {
    Entry(b, k).flags % 2 == 1 ==> Entry(b, k).nameLen <= 52 && Entry(b, k).name[..Entry(b, k).nameLen] != name
  }

  predicate StopsAt(b: Block, name: seq<byte>, k: nat)
    requires k < 8
  {
    !Passed(b, name, k) && forall j: nat | j < k :: Passed(b, name, j)
  }

  /** `find_free_dir_slot` picks the first entry that is unused or names inode 0. */
  lemma FreeSlotExact(b: Block)
    ensures var n := match FreeSlot(b) case Some(k) => k case None => 8;
            && (forall j: nat | j < n :: Entry(b, j).flags % 2 == 1 && Entry(b, j).inode != 0)
            && (n < 8 ==> Entry(b, n).flags % 2 == 0 || Entry(b, n).inode == 0)
  {
    hide Entry;
    var f := FreeSlot(b);
    forall j: nat | j < (if f.Some? then f.value else 8)
      ensures Entry(b, j).flags % 2 == 1 && Entry(b, j).inode != 0
    {
      assert !Replaceable(Entry(b, j));
    }
  }

  /** The root inode that a superblock leads to, if it is on the device. */
  function RootRead(d: Disk, sb: SuperBlock): Option<Inode> {
    if sb.inodeTableStartBlock < |d| then InodeSlot(d[sb.inodeTableStartBlock], 0) else None
  }

  /** A directory block off the device is a block error; a taken or unreadable name and a full block are refused. */
  lemma DirectoryRefusals(d: Disk, sb: SuperBlock, name: seq<byte>)
    requires 1 <= |name| <= 52 && RootRead(d, sb).Some?
    requires var root := RootRead(d, sb).value; root.mode == Directory && root.directPointers[0] != 0
    ensures var dir := RootRead(d, sb).value.directPointers[0];
            var r := Perform(d, [], CreatePlan(d, sb, name));
            if dir >= |d| then r == Effect(d, [], Err(BlockError)) else
            match ScanDirectory(d[dir], name)
            case OutOfRange => r == Effect(d, [], Panic)
            case Exists => r == Effect(d, [], Err(CorruptLayout))
            case Full => r == Effect(d, [], Err(NoSpace))
            case Free(_) => true
  {
    hide InodeSlot, ScanDirectory, AllocateInodePlan, LinkFile;
    var t, dir := sb.inodeTableStartBlock, RootRead(d, sb).value.directPointers[0];
    var q := CreateIn(d, sb, dir, At(d, dir), name);
    var steps := CreatePlan(d, sb, name).steps;
    assert steps == [Read(t)] + ([Read(dir)] + q.steps);
    ExecAppend(d, [], [Read(t)], [Read(dir)] + q.steps);
    ExecAppend(d, [], [Read(dir)], q.steps);
    RootFirst(d, sb, [Read(t)]);
    if dir < |d| { RootFirst(d, sb.(inodeTableStartBlock := dir), [Read(dir)]); }
  }

  /** Without a readable root inode both operations report a block error; without a directory there, corruption. */
  lemma RootRefusals(d: Disk, sb: SuperBlock, inode: u64, name: seq<byte>)
    requires 1 <= |name| <= 52
    ensures var root := RootRead(d, sb);
            var c, a := Perform(d, [], CreatePlan(d, sb, name)), Perform(d, [], AddEntryPlan(d, sb, inode, name));
            match root
            case None => c == Effect(d, [], Err(BlockError)) && a == Effect(d, [], Err(BlockError))
            case Some(i) =>
              && (i.mode != Directory || i.directPointers[0] == 0 ==> c == Effect(d, [], Err(CorruptLayout)))
              && (i.directPointers[0] == 0 ==> a == Effect(d, [], Err(CorruptLayout)))
  {
    hide InodeSlot, CreateIn, FreeSlot, PutEntry;
    var s := [Read(sb.inodeTableStartBlock)];
    ExecReliable(d, s);
    assert InRange(d, s) <==> s[0].id < |d|;
    RootFirst(d, sb, CreatePlan(d, sb, name).steps);
    RootFirst(d, sb, AddEntryPlan(d, sb, inode, name).steps);
  }

  lemma RootFirst(d: Disk, sb: SuperBlock, steps: seq<Access>)
    requires steps != [] && steps[0] == Read(sb.inodeTableStartBlock)
    ensures sb.inodeTableStartBlock >= |d| ==> Exec(d, [], steps) == Outcome(d, [], false)
    ensures sb.inodeTableStartBlock < |d| && |steps| == 1 ==> Exec(d, [], steps) == Outcome(d, [], true)
  {
    if |steps| == 1 { assert steps[1..] == []; }
  }

  // ---------------------------------------------------------------- entries over whole runs

  /**
    Over every run: inodes of used entries stay distinct, name lengths stay in range, no entry ever changes
    once it is there, the root inode and the inodes of the files are as they were created, and if failed
    writes stop at harmless places only, names stay distinct.
  */
  lemma EntriesOverRuns(disk: Disk, formatFaults: seq<Fault>, initFaults: seq<Fault>, w: World,
                        cuts: iset<nat>, s: seq<Event>, t: seq<Event>)
    requires Started(disk, formatFaults, initFaults, w) && |disk| >= 10240
    requires RunStopsAt(cuts, s + t)
    ensures var d := Run(w, s + t).disk;
            && WellFormed(Dir(d)) && Keeps(Run(w, s).disk, d) && (Harmless(cuts) ==> DistinctNames(Dir(d)))
            && |d| == |disk| && InodeAt(d, 0) == Some(RootOf(|disk|)) && AsCreated(d)
  {
    hide Fresh, Started, Keeps, Placed, Consistent, AsCreated, DistinctNames, Step, WellFormed, EventStopsAt, Harmless;
    hide MountResult, Marked, InodeAt, RootOf;
    StartDisk(disk, formatFaults, initFaults, w);
    FreshGood(disk);
    FreshDirectory(disk);
    assert RunStopsAt(cuts, s) by {
      forall i | 0 <= i < |s| ensures EventStopsAt(cuts, s[i]) { assert (s + t)[i] == s[i]; }
    }
    assert RunStopsAt(cuts, t) by {
      forall i | 0 <= i < |t| ensures EventStopsAt(cuts, t[i]) { assert (s + t)[|s| + i] == t[i]; }
    }
    RunSound(w, s, cuts);
    RunAppend(w, s, t);
    RunSound(Run(w, s), t, cuts);
  }

  /** A creation on a good disk never slices a name out of range or overflows. */
  lemma CreateNeverPanics(d: Disk, faults: seq<Fault>, name: seq<byte>)
    requires Good(d)
    ensures !Perform(d, faults, CreatePlan(d, FormatSuper(|d|), name)).result.Panic?
  {
    hide Anchored, CreatePlan, Placed, Consistent, AsCreated, Entry, Exec, PutEntry;
    CreateOnAnchored(d, name);
    NamesInRange(d);
  }

  lemma NamesInRange(d: Disk)
    requires Good(d)
    ensures forall k: nat | k < DIR_ENTRIES_PER_BLOCK :: Entry(Dir(d), k).Used() ==> EntryName(Entry(Dir(d), k)).Some?
  {
    hide Anchored, Placed, Consistent, AsCreated, Entry;
  }

  // ---------------------------------------------------------------- the directory as a map

  /** The used entries of the first `k` slots, as a map from names to inodes. */
  function Listing(b: Block, k: nat := DIR_ENTRIES_PER_BLOCK): map<seq<byte>, u64>
    requires k <= DIR_ENTRIES_PER_BLOCK
    decreases |b|, k
  {
    if k == 0 then map[] else
      var rest, e := Listing(b, k - 1), Entry(b, k - 1);
      if e.Used() && EntryName(e).Some? then rest[EntryName(e).value := e.inode] else rest
  }

  predicate ListedAt(b: Block, name: seq<byte>, k: nat)
    requires k < DIR_ENTRIES_PER_BLOCK
  {
    Entry(b, k).Used() && EntryName(Entry(b, k)) == Some(name)
  }

  lemma {:induction false} ListingKeys(b: Block, name: seq<byte>, k: nat)
    requires k <= DIR_ENTRIES_PER_BLOCK
    ensures name in Listing(b, k) <==> exists j: nat :: j < k && ListedAt(b, name, j)
    decreases k
  {
    hide Entry, EntryName;
    if k > 0 {
      ListingKeys(b, name, k - 1);
      if ListedAt(b, name, k - 1) { assert name in Listing(b, k); }
    }
  }

  /** Filling an unused slot with a name that is not listed adds exactly that name. */
  lemma {:induction false} ListingInsert(b: Block, c: Block, slot: nat, name: seq<byte>, n: u64, k: nat)
    requires k <= DIR_ENTRIES_PER_BLOCK && slot < DIR_ENTRIES_PER_BLOCK
    requires !Entry(b, slot).Used() && ListedAt(c, name, slot) && Entry(c, slot).inode == n
    requires forall j: nat | j < DIR_ENTRIES_PER_BLOCK && j != slot ::
               Entry(c, j) == Entry(b, j) && !ListedAt(b, name, j)
    ensures Listing(c, k) == if slot < k then Listing(b, k)[name := n] else Listing(b, k)
    decreases k
  {
    hide Entry, EntryName;
    if k > 0 {
      ListingInsert(b, c, slot, name, n, k - 1);
      if k - 1 != slot { assert Entry(c, k - 1) == Entry(b, k - 1) && !ListedAt(b, name, k - 1); }
    }
  }

  lemma HitIsListed(d: Disk, name: seq<byte>)
    requires Good(d)
    ensures FirstHit(Dir(d), name).Some? <==> name in Listing(Dir(d))
    ensures ScanDirectory(Dir(d), name) != OutOfRange
  {
    hide Anchored, WellFormed, Placed, Consistent, AsCreated, Entry;
    NamesInRange(d);
    ListingKeys(Dir(d), name, DIR_ENTRIES_PER_BLOCK);
    if name in Listing(Dir(d)) {
      var j: nat :| j < DIR_ENTRIES_PER_BLOCK && ListedAt(Dir(d), name, j);
      assert Hit(Dir(d), name, j);
    }
    var f := FirstHit(Dir(d), name);
    if f.Some? { assert ListedAt(Dir(d), name, f.value); }
  }

  predicate HasFreeSlot(b: Block) {
    exists k: nat :: k < DIR_ENTRIES_PER_BLOCK && !Entry(b, k).Used()
  }

  predicate HasFreeInode(d: Disk) {
    exists n: nat :: n < 4096 && !Marked(d, n)
  }

  lemma FreeSlotFound(b: Block)
    ensures FirstUnused(b).Some? <==> HasFreeSlot(b)
  {
    hide Entry;
  }

  lemma FreeInodeFound(d: Disk)
    ensures FirstClear(At(d, INODE_BITMAP_BLOCK)).Some? <==> HasFreeInode(d)
  {
    var m := At(d, INODE_BITMAP_BLOCK);
    var f := FirstClear(m);
    if f.Some? { assert !Marked(d, f.value); }
  }

  /** The inode that the next creation takes, and whether the block for it is on the device. */
  predicate NextOnDevice(d: Disk) {
    var f := FirstClear(At(d, INODE_BITMAP_BLOCK));
    f.Some? && TableBlock(f.value) < |d|
  }

  /** The error of a refused creation. */
  function Refusal(d: Disk, name: seq<byte>): FileSystemError {
    if !GoodName(name) then NameTooLong
    else if name in Listing(Dir(d)) then CorruptLayout
    else if HasFreeSlot(Dir(d)) && HasFreeInode(d) then BlockError
    else NoSpace
  }

  /**
    On a device that does not fail, a creation is an insertion into the directory map: which cases succeed,
    what is added, which error each refusal has, and that a refusal changes nothing, except that a block
    missing on the device costs the inode. The new inode is in place unless its slot is in the directory block.
  */
  lemma CreateIsInsert(d: Disk, name: seq<byte>)
    requires Good(d)
    ensures var r := Perform(d, [], CreatePlan(d, FormatSuper(|d|), name));
            && (r.result.Ok? <==>
                  GoodName(name) && name !in Listing(Dir(d)) && HasFreeSlot(Dir(d)) && NextOnDevice(d))
            && (r.result.Ok? ==>
                  var i := r.result.value.0;
                  && Listing(Dir(r.disk)) == Listing(Dir(d))[name := i]
                  && i < 4096 && !Marked(d, i)
                  && (TableBlock(i) != DirBlock(|d|) ==> Marked(r.disk, i) && InodeAt(r.disk, i) == Some(EmptyFile())))
            && (!r.result.Ok? ==>
                  && r.result == Err(Refusal(d, name))
                  && Listing(Dir(r.disk)) == Listing(Dir(d))
                  && (Refusal(d, name) != BlockError ==> r.disk == d))
  {
    hide Anchored, WellFormed, Placed, Consistent, AsCreated, Listing, CreatePlan, HasFreeSlot, HasFreeInode, Entry;
    hide FirstClear, FirstHit, FirstUnused;
    var b := Dir(d);
    HitIsListed(d, name);
    FreeSlotFound(b);
    FreeInodeFound(d);
    if !GoodName(name) || !ScanDirectory(b, name).Free? {
      CreateRefused(d, name);
      RefusedResult(d, name);
    } else {
      var slot := ScanDirectory(b, name).slot;
      match FirstClear(At(d, INODE_BITMAP_BLOCK))
      case None => NoInodeLeft(d, name);
      case Some(i) =>
        if TableBlock(i) < |d| { CreateInserts(d, name, slot, i); } else { CreateOffDevice(d, name, slot, i); }
    }
  }

  lemma RefusedResult(d: Disk, name: seq<byte>)
    requires Good(d) && !(GoodName(name) && ScanDirectory(Dir(d), name).Free?)
    ensures Perform(d, [], CreatePlan(d, FormatSuper(|d|), name)).result
         == if !GoodName(name) then Err(NameTooLong) else CreateCases(d, DirBlock(|d|), name).result
  {
    hide Anchored, WellFormed, Placed, Consistent, AsCreated, CreatePlan, ScanDirectory;
    CreateOnAnchored(d, name);
    AnchoredSize(d);
    if GoodName(name) {
      var s := [Read(INODE_TABLE_START_BLOCK)] + ([Read(DirBlock(|d|))] + []);
      assert CreatePlan(d, FormatSuper(|d|), name).steps == s;
      ExecReliable(d, s);
      assert s == [Read(INODE_TABLE_START_BLOCK), Read(DirBlock(|d|))];
    }
  }

  lemma NoInodeLeft(d: Disk, name: seq<byte>)
    requires Good(d) && GoodName(name) && ScanDirectory(Dir(d), name).Free?
    requires FirstClear(At(d, INODE_BITMAP_BLOCK)).None?
    ensures Perform(d, [], CreatePlan(d, FormatSuper(|d|), name)) == Effect(d, [], Err(NoSpace))
  {
    hide Anchored, WellFormed, Placed, Consistent, AsCreated, CreatePlan, ScanDirectory, FirstClear;
    CreateOnAnchored(d, name);
    AnchoredSize(d);
    var s := [Read(INODE_TABLE_START_BLOCK)] + ([Read(DirBlock(|d|))] + [Read(INODE_BITMAP_BLOCK)]);
    assert CreatePlan(d, FormatSuper(|d|), name).steps == s;
    ExecReliable(d, s);
    assert s == [Read(INODE_TABLE_START_BLOCK), Read(DirBlock(|d|)), Read(INODE_BITMAP_BLOCK)];
    ExecDone(d, [], s);
    ApplyThree(d, s[0], s[1], s[2]);
  }

  /** The inode's block is not on the device: the bitmap is written, then the read fails. */
  lemma CreateOffDevice(d: Disk, name: seq<byte>, slot: nat, i: u64)
    requires Good(d) && GoodName(name) && ScanDirectory(Dir(d), name) == Free(slot)
    requires FirstClear(At(d, INODE_BITMAP_BLOCK)) == Some(i) && TableBlock(i) >= |d|
    ensures var r := Perform(d, [], CreatePlan(d, FormatSuper(|d|), name));
            r.disk == Allocated(d, i) && r.result == Err(BlockError) && Dir(r.disk) == Dir(d)
  {
    hide Good, Anchored, CreatePlan, ScanDirectory, FirstClear, PutEntry, BitmapImage, FileImage, FormatSuper;
    GoodSize(d);
    CreateOnAnchored(d, name);
    var dir := DirBlock(|d|);
    var w := CreateWrites(d, dir, PutEntry(Dir(d), slot, i, name), i);
    var s := CreatePlan(d, FormatSuper(|d|), name).steps;
    assert s == [Read(INODE_TABLE_START_BLOCK)] + ([Read(dir)] + ([Read(INODE_BITMAP_BLOCK)] + w));
    OffDeviceExec(d, s, dir, w);
  }

  lemma OffDeviceExec(d: Disk, s: seq<Access>, dir: nat, w: seq<Access>)
    requires |d| > 3 && dir < |d| && |w| == 4 && w[0].id < |d| && w[1].Read? && w[1].id >= |d|
    requires s == [Read(INODE_TABLE_START_BLOCK)] + ([Read(dir)] + ([Read(INODE_BITMAP_BLOCK)] + w))
    ensures Exec(d, [], s) == Outcome(After(d, w[0], Works), [], false)
  {
    var a, b, c := Read(INODE_TABLE_START_BLOCK), Read(dir), Read(INODE_BITMAP_BLOCK);
    var first := [a, b, c, w[0]];
    assert s == first + w[1..];
    ExecReliable(d, first);
    ExecDone(d, [], first);
    ExecAppend(d, [], first, w[1..]);
    assert first == [a] + [b, c, w[0]];
    ApplyCons(d, a, [b, c, w[0]]);
    ApplyThree(d, b, c, w[0]);
  }

  lemma CreateInserts(d: Disk, name: seq<byte>, slot: nat, i: u64)
    requires Good(d) && GoodName(name) && ScanDirectory(Dir(d), name) == Free(slot)
    requires FirstClear(At(d, INODE_BITMAP_BLOCK)) == Some(i) && TableBlock(i) < |d|
    ensures var r := Perform(d, [], CreatePlan(d, FormatSuper(|d|), name));
            && r.result == Ok((i, DirBlock(|d|)))
            && Listing(Dir(r.disk)) == Listing(Dir(d))[name := i]
            && i < 4096 && !Marked(d, i)
            && (TableBlock(i) != DirBlock(|d|) ==> Marked(r.disk, i) && InodeAt(r.disk, i) == Some(EmptyFile()))
  {
    hide Anchored, WellFormed, Placed, Consistent, AsCreated, CreatePlan, Entry, PutEntry, Listing, Backed;
    var b := Dir(d);
    var c := PutEntry(b, slot, i, name);
    CreateReliable(d, name, slot, i);
    var e := Perform(d, [], CreatePlan(d, FormatSuper(|d|), name)).disk;
    AnchoredSize(d);
    assert Dir(e) == c;
    PutEntrySlots(b, slot, i, name);
    forall j: nat | j < DIR_ENTRIES_PER_BLOCK && j != slot ensures !ListedAt(b, name, j) {
      assert !Hit(b, name, j);
    }
    ListingInsert(b, c, slot, name, i, DIR_ENTRIES_PER_BLOCK);
    if TableBlock(i) != DirBlock(|d|) { CreatedInPlace(d, i, c); }
  }

  lemma CreatedInPlace(d: Disk, i: nat, entries: Block)
    requires Anchored(d) && i < 4096 && !Marked(d, i) && TableBlock(i) < |d| && TableBlock(i) != DirBlock(|d|)
    ensures var e := Written(d, i)[DirBlock(|d|) := entries];
            Marked(e, i) && InodeAt(e, i) == Some(EmptyFile())
  {
    hide MountResult, Rooted, InodeSlot, SetBit, FileImage, BitmapImage;
    var e := Written(d, i)[DirBlock(|d|) := entries];
    WrittenMarked(d, i);
    WrittenFile(d, i);
    assert At(e, INODE_BITMAP_BLOCK) == At(Written(d, i), INODE_BITMAP_BLOCK);
    assert At(e, TableBlock(i)) == At(Written(d, i), TableBlock(i));
    assert Marked(d, 0);
  }

  /** After every run without failures on at least 20 blocks the next inode is in the table. */
  lemma ReliableHasRoom(disk: Disk, formatFaults: seq<Fault>, initFaults: seq<Fault>, w: World, events: seq<Event>)
    requires Started(disk, formatFaults, initFaults, w) && |disk| >= 20 && Reliable(events)
    ensures var d := Run(w, events).disk;
            |d| == |disk| && Good(d) && Room(d) && HasFreeInode(d) && NextOnDevice(d)
            && DistinctNames(Dir(d))
  {
    hide Fresh, Started, FormatSuper, Step, Reliable, Good, DistinctNames, FirstClear;
    StartDisk(disk, formatFaults, initFaults, w);
    FreshTight(disk);
    FreshDirectory(disk);
    var n := TightRun(w, 1, events);
    var d := Run(w, events).disk;
    NextInode(d, n);
    FreeInodeFound(d);
  }

  /**
    So there a creation after any such run succeeds exactly when the name is good and new and a slot is free,
    adds one binding to an inode in place, and otherwise changes nothing.
  */
  lemma CreateAfterReliable(disk: Disk, formatFaults: seq<Fault>, initFaults: seq<Fault>, w: World,
                            events: seq<Event>, name: seq<byte>)
    requires Started(disk, formatFaults, initFaults, w) && |disk| >= 20 && Reliable(events)
    ensures var d := Run(w, events).disk;
            |d| == |disk| &&
            var r := Perform(d, [], CreatePlan(d, FormatSuper(|d|), name));
            && (r.result.Ok? <==> GoodName(name) && name !in Listing(Dir(d)) && HasFreeSlot(Dir(d)))
            && (r.result.Ok? ==>
                  && Listing(Dir(r.disk)) == Listing(Dir(d))[name := r.result.value.0]
                  && InodeAt(r.disk, r.result.value.0) == Some(EmptyFile()))
            && (!r.result.Ok? ==> r.disk == d)
  {
    hide Started, Reliable, Good, Listing, CreatePlan, HasFreeSlot, HasFreeInode, Backed, FirstClear, Run;
    ReliableHasRoom(disk, formatFaults, initFaults, w, events);
    CreateIsInsert(Run(w, events).disk, name);
    NextIsTaken(Run(w, events).disk, name);
  }

  /** The inode that a successful creation returns is the first clear one. */
  lemma NextIsTaken(d: Disk, name: seq<byte>)
    requires Good(d)
    ensures var r := Perform(d, [], CreatePlan(d, FormatSuper(|d|), name));
            r.result.Ok? ==> FirstClear(At(d, INODE_BITMAP_BLOCK)) == Some(r.result.value.0)
  {
    hide Good, CreatePlan, FirstClear, ScanDirectory, PutEntry;
    GoodSize(d);
    CreateOnAnchored(d, name);
  }

  // ---------------------------------------------------------------- add_root_dir_entry

  /** The slot that `find_free_dir_slot` picks is not in use, or already holds this very entry. */
  predicate PicksHarmless(b: Block, inode: u64, name: seq<byte>)
    requires |name| <= DIR_NAME_MAX
  {
    var s := FreeSlot(b);
    s.Some? && Entry(b, s.value).Used() ==>
      Entry(b, s.value) == DirEntry(inode, |name|, DIRENT_USED, name + seq(DIR_NAME_MAX - |name|, _ => 8))
  }

  /** `add_root_dir_entry` keeps every entry if and only if it refuses the name or picks a harmless slot. */
  lemma AddEntryKeeps(d: Disk, inode: u64, name: seq<byte>)
    requires Anchored(d)
    ensures var r := Perform(d, [], AddEntryPlan(d, FormatSuper(|d|), inode, name));
            && (Keeps(d, r.disk) <==> |name| > DIR_NAME_MAX || PicksHarmless(Dir(d), inode, name))
            && r.result == (if |name| > 52 then Err(NameTooLong)
                            else if FreeSlot(Dir(d)).None? then Err(NoSpace) else Ok(()))
  {
    hide Anchored, Entry, PutEntry, InodeAt;
    AnchoredSize(d);
    if |name| <= DIR_NAME_MAX {
      AddEntryEffect(d, inode, name);
      var dir, b := DirBlock(|d|), Dir(d);
      if FreeSlot(b).Some? {
        var k := FreeSlot(b).value;
        PutEntrySlots(b, k, inode, name);
        assert Dir(d[dir := PutEntry(b, k, inode, name)]) == PutEntry(b, k, inode, name);
      }
    }
  }

  lemma AddEntryOnAnchored(d: Disk, inode: u64, name: seq<byte>)
    requires Anchored(d) && |name| <= DIR_NAME_MAX
    ensures AddEntryPlan(d, FormatSuper(|d|), inode, name)
         == Prefixed([Read(INODE_TABLE_START_BLOCK)], AddUnder(d, DirBlock(|d|), inode, name))
  {
    hide AddUnder, MountResult, Marked, ReadInodePlan, InodeSlot;
    RootOnAnchored(d);
  }

  lemma AddEntryEffect(d: Disk, inode: u64, name: seq<byte>)
    requires Anchored(d) && |name| <= DIR_NAME_MAX
    ensures var r := Perform(d, [], AddEntryPlan(d, FormatSuper(|d|), inode, name));
            match FreeSlot(Dir(d))
            case None => r == Effect(d, [], Err(NoSpace))
            case Some(k) => r == Effect(d[DirBlock(|d|) := PutEntry(Dir(d), k, inode, name)], [], Ok(()))
  {
    hide FreeSlot, PutEntry, Anchored, AddEntryPlan, FormatSuper;
    var dir := DirBlock(|d|);
    AnchoredSize(d);
    AddEntryOnAnchored(d, inode, name);
    var q := AddUnder(d, dir, inode, name);
    var s := [Read(INODE_TABLE_START_BLOCK)] + q.steps;
    ExecReliable(d, s);
    assert InRange(d, s);
    ExecDone(d, [], s);
    ApplyCons(d, Read(INODE_TABLE_START_BLOCK), q.steps);
    if FreeSlot(Dir(d)).Some? {
      ApplyTwo(d, q.steps[0], q.steps[1]);
    } else {
      ApplyCons(d, q.steps[0], []);
      assert q.steps == [q.steps[0]] + [];
    }
  }

  /** On every good disk the slot it picks is that of ".", so the first call always destroys ".". */
  lemma AddEntryDestroysDot(d: Disk, inode: u64, name: seq<byte>)
    requires Good(d) && |name| <= DIR_NAME_MAX && inode != 0
    ensures FreeSlot(Dir(d)) == Some(0)
    ensures !Keeps(d, Perform(d, [], AddEntryPlan(d, FormatSuper(|d|), inode, name)).disk)
  {
    hide Anchored, Placed, Consistent, AsCreated, Entry, AddEntryPlan;
    AddEntryKeeps(d, inode, name);
    assert Replaceable(Entry(Dir(d), 0));
  }
}
