/**
  How large the device must be. The bitmap always has 4096 bits, whatever the size of the inode table,
  and the code leaves it to the caller that the two agree. Where they do not, an inode number beyond
  the table is written into the data area, that is, over the root directory.
*/
module FsLimits {
  import opened Bytes
  import opened Options
  import opened FsLayout
  import opened FsDevice
  import opened FsPlans
  import opened FsInvariant
  import opened FsRuns
  import opened FsStart
  import opened Bitmaps

  /** Read as an inode, the start of a directory block has the fill bytes of ".." as its file type. */
  lemma DirectoryIsNoInode(b: Block)
    requires Entry(b, 1) == DotEntry(DOTDOT)
    ensures InodeSlot(b, 0).None?
  {
    var s := b[0..INODE_SIZE];
    var name := Entry(b, 1).name;
    assert name == b[64..128][12..];
    assert name[44] == 8 && name[45] == 8;
    assert s[120..][0..2] == [8, 8];
    assert FromLE([8, 8]) == 8 + 256 * 8 by { TwoBytes(8, 8); }
    assert Parse(2, 4, s[120..])[0] == FromLE(s[120..][0..2]);
  }

  lemma TwoBytes(x: byte, y: byte)
    ensures FromLE([x, y]) == x + 256 * y
  {
    assert [x, y][1..] == [y] && [y][1..] == [];
    assert FromLE([y]) == y;
  }

  /** A creation on a reliable device, when a slot and an inode are found. */
  lemma CreateReliable(d: Disk, name: seq<byte>, slot: nat, i: u64)
    requires Good(d) && GoodName(name) && ScanDirectory(Dir(d), name) == Free(slot)
    requires FirstClear(At(d, INODE_BITMAP_BLOCK)) == Some(i) && TableBlock(i) < |d|
    ensures Perform(d, [], CreatePlan(d, FormatSuper(|d|), name))
         == Effect(Written(d, i)[DirBlock(|d|) := PutEntry(Dir(d), slot, i, name)], [], Ok((i, DirBlock(|d|))))
  {
    hide Good, Anchored, CreatePlan, ScanDirectory, FirstClear, PutEntry, BitmapImage, FileImage, FormatSuper;
    GoodSize(d);
    CreateOnAnchored(d, name);
    var s := CreatePlan(d, FormatSuper(|d|), name).steps;
    var writes := CreateWrites(d, DirBlock(|d|), PutEntry(Dir(d), slot, i, name), i);
    assert s == [Read(INODE_TABLE_START_BLOCK)] + ([Read(DirBlock(|d|))] + ([Read(INODE_BITMAP_BLOCK)] + writes));
    ExecReliable(d, s);
    assert InRange(d, s);
    ExecDone(d, [], s);
    ApplyCons(d, Read(INODE_TABLE_START_BLOCK), [Read(DirBlock(|d|))] + ([Read(INODE_BITMAP_BLOCK)] + writes));
    ApplyCons(d, Read(DirBlock(|d|)), [Read(INODE_BITMAP_BLOCK)] + writes);
    ApplyCons(d, Read(INODE_BITMAP_BLOCK), writes);
    ApplyWrites(d, PutEntry(Dir(d), slot, i, name), i);
  }

  lemma DotsComeFirst(d: Disk)
    requires Good(d)
    ensures Entry(Dir(d), 0) == DotEntry(DOT) && Entry(Dir(d), 1) == DotEntry(DOTDOT)
  {
  }

  lemma GoodSize(d: Disk)
    requires Good(d)
    ensures 10 <= |d| < 0x1_0000_0000_0000_0000 && Anchored(d)
  {
  }

  lemma ApplyWrites(d: Disk, entries: Block, i: u64)
    requires 10 <= |d| < 0x1_0000_0000_0000_0000 && i < 4096 && TableBlock(i) < |d|
    ensures Apply(d, CreateWrites(d, DirBlock(|d|), entries, i)) == Written(d, i)[DirBlock(|d|) := entries]
  {
    hide BitmapImage, FileImage;
    var s := CreateWrites(d, DirBlock(|d|), entries, i);
    assert s == [s[0]] + [s[1], s[2], s[3]];
    ApplyCons(d, s[0], [s[1], s[2], s[3]]);
    ApplyThree(Allocated(d, i), s[1], s[2], s[3]);
  }

  /** The first inode beyond the table: its slot is the start of the directory block. */
  lemma Overrun(d: Disk, name: seq<byte>, slot: nat, i: u64)
    requires Good(d) && GoodName(name) && ScanDirectory(Dir(d), name) == Free(slot)
    requires FirstClear(At(d, INODE_BITMAP_BLOCK)) == Some(i) && i == INODES_PER_BLOCK * (|d| / 10)
    ensures !Consistent(Perform(d, [], CreatePlan(d, FormatSuper(|d|), name)).disk)
  {
    hide Good, Anchored, ScanDirectory, FirstClear, PutEntry, Entry, InodeSlot, CreatePlan, BitmapImage, FileImage;
    GoodSize(d);
    DotsComeFirst(d);
    CreateReliable(d, name, slot, i);
    var entries := PutEntry(Dir(d), slot, i, name);
    var e := Written(d, i)[DirBlock(|d|) := entries];
    PutEntrySlots(Dir(d), slot, i, name);
    DirectoryIsNoInode(entries);
    assert Dir(e) == entries && Entry(Dir(e), slot).Used() && Entry(Dir(e), slot).inode == i;
    assert InodeAt(e, i) == InodeSlot(entries, 0);
  }

  // ---------------------------------------------------------------- lost inodes

  /** Bits 0 to m-1 of the inode bitmap are set and no others. */
  predicate Filled(d: Disk, m: nat) {
    forall n: nat | n < 4096 :: Marked(d, n) <==> n < m
  }

  lemma NextInode(d: Disk, m: nat)
    requires Filled(d, m) && m < 4096
    ensures FirstClear(At(d, INODE_BITMAP_BLOCK)) == Some(m)
  {
    var b := At(d, INODE_BITMAP_BLOCK);
    assert forall n: nat | n < 4096 :: IsSet(b, n) == Marked(d, n);
    FirstClearUnique(b, m);
  }

  lemma FillNext(d: Disk, m: nat)
    requires Filled(d, m) && m < 4096 && |d| > 1
    ensures Filled(Allocated(d, m), m + 1)
  {
    forall n: nat | n < 4096 ensures Marked(Allocated(d, m), n) <==> n < m + 1 {
      SetBitEffect(d[1], m, n);
      assert Marked(d, n) <==> n < m;
    }
  }

  lemma AllocatedGood(d: Disk, m: nat)
    requires Good(d) && m < 4096
    ensures Good(Allocated(d, m)) && Dir(Allocated(d, m)) == Dir(d)
  {
    MarkKeepsGood(d, m, BLOCK_SIZE);
  }

  /** The name "a". */
  const A: seq<byte> := [97]

  lemma EmptyDirectoryHasRoom()
    ensures ScanDirectory(NewDirectory(), A) == Free(2)
  {
    hide NewDirectory, Entry;
    forall k: nat | k < DIR_ENTRIES_PER_BLOCK
      ensures !Hit(NewDirectory(), A, k) && (Entry(NewDirectory(), k).Used() <==> k < 2)
    {
      NewDirectoryEntries(k);
      if k < 2 { assert EntryName(Entry(NewDirectory(), k)) == Some(if k == 0 then DOT else DOTDOT); }
    }
    assert FirstHit(NewDirectory(), A).None? && FirstUnused(NewDirectory()) == Some(2);
  }

  /** A creation whose fifth access fails: the inode is marked and lost. */
  function Leak(): Event {
    Create(A, [Works, Works, Works, Works, Fails(0)])
  }

  predicate Leaked(w: World, m: nat) {
    && Good(w.disk) && w.mounted == Some(FormatSuper(|w.disk|))
    && Dir(w.disk) == NewDirectory() && Filled(w.disk, m)
  }

  lemma LeakStep(w: World, m: nat)
    requires Leaked(w, m) && m < 4096
    ensures Leaked(Step(w, Leak()), m + 1) && |Step(w, Leak()).disk| == |w.disk|
  {
    hide Good, Anchored, CreatePlan, ScanDirectory, FirstClear, PutEntry, BitmapImage, FileImage, FormatSuper;
    hide Filled, NewDirectory;
    var d, dir := w.disk, DirBlock(|w.disk|);
    GoodSize(d);
    EmptyDirectoryHasRoom();
    NextInode(d, m);
    CreateOnAnchored(d, A);
    var writes := CreateWrites(d, dir, PutEntry(Dir(d), 2, m, A), m);
    var s := CreatePlan(d, FormatSuper(|d|), A).steps;
    assert s == [Read(INODE_TABLE_START_BLOCK)] + ([Read(dir)] + ([Read(INODE_BITMAP_BLOCK)] + writes));
    assert s == [Read(INODE_TABLE_START_BLOCK), Read(dir), Read(INODE_BITMAP_BLOCK), writes[0], writes[1]]
                + writes[2..];
    LeakExec(d, Read(INODE_TABLE_START_BLOCK), Read(dir), Read(INODE_BITMAP_BLOCK), writes[0], writes[1], writes[2..]);
    assert Step(w, Leak()).disk == Allocated(d, m);
    AllocatedGood(d, m);
    FillNext(d, m);
  }

  lemma LeakExec(d: Disk, r1: Access, r2: Access, r3: Access, w: Access, r4: Access, rest: seq<Access>)
    requires r1.Read? && r2.Read? && r3.Read? && r4.Read? && InRange(d, [r1, r2, r3, w])
    ensures Exec(d, [Works, Works, Works, Works, Fails(0)], [r1, r2, r3, w, r4] + rest).disk == After(d, w, Works)
  {
    var s := [r1, r2, r3, w, r4] + rest;
    var d1 := After(d, w, Works);
    var front := [r1, r2, r3, w];
    assert front[0].id < |d| && front[1].id < |d| && front[2].id < |d| && front[3].id < |d|;
    assert s[4..][0] == r4 && s[3..][0] == w && s[2..][0] == r3 && s[1..][0] == r2;
    assert s[3..][1..] == s[4..] && s[2..][1..] == s[3..] && s[1..][1..] == s[2..];
    var f := Fails(0);
    assert [Works, f][1..] == [f] && [Works, Works, f][1..] == [Works, f];
    assert [Works, Works, Works, f][1..] == [Works, Works, f];
    assert [Works, Works, Works, Works, f][1..] == [Works, Works, Works, f];
    assert Exec(d1, [f], s[4..]).disk == d1;
    assert Exec(d, [Works, f], s[3..]).disk == d1;
    assert Exec(d, [Works, Works, f], s[2..]).disk == d1;
    assert Exec(d, [Works, Works, Works, f], s[1..]).disk == d1;
  }

  lemma {:induction false} LeakRun(w: World, m: nat, j: nat)
    requires Leaked(w, m) && m + j <= 4096
    ensures var v := Run(w, seq(j, _ => Leak())); Leaked(v, m + j) && |v.disk| == |w.disk|
    decreases j
  {
    hide Leaked, Step;
    var events := seq(j, _ => Leak());
    if j > 0 {
      LeakStep(w, m);
      LeakRun(Step(w, Leak()), m + 1, j - 1);
      assert events[0] == Leak() && events[1..] == seq(j - 1, _ => Leak());
    }
  }

  lemma FreshFilled(disk: Disk)
    requires 4 <= |disk| < 0x1_0000_0000_0000_0000
    ensures Filled(Fresh(disk), 1)
  {
    hide RootImage, NewDirectory, SuperImage;
    var d := Fresh(disk);
    assert At(d, INODE_BITMAP_BLOCK) == OneBit();
    forall n: nat | n < 4096 ensures Marked(d, n) <==> n < 1 {
      SetBitEffect(ZeroBlock(), 0, n);
      assert ZeroBlock()[n / 8] == 0;
    }
  }

  /** On a device under 10240 blocks some run breaks consistency: creations that fail, then one that succeeds. */
  lemma SmallDiskBreaks(disk: Disk) returns (events: seq<Event>)
    requires 10 <= |disk| < 10240
    ensures !Consistent(Run(World(Fresh(disk), Some(FormatSuper(|disk|))), events).disk)
  {
    hide Consistent, Good, Anchored, Fresh, FormatSuper, Filled, CreatePlan, NewDirectory;
    var n := INODES_PER_BLOCK * (|disk| / 10);
    var w := World(Fresh(disk), Some(FormatSuper(|disk|)));
    FreshGood(disk);
    FreshFilled(disk);
    FreshDirectory(disk);
    var leaks := seq(n - 1, _ => Leak());
    LeakRun(w, 1, n - 1);
    var v := Run(w, leaks);
    EmptyDirectoryHasRoom();
    NextInode(v.disk, n);
    Overrun(v.disk, A, 2, n);
    events := leaks + [Create(A, [])];
    RunAppend(w, leaks, [Create(A, [])]);
    assert [Create(A, [])][1..] == [];
  }

  lemma FreshDirectory(disk: Disk)
    requires 4 <= |disk| < 0x1_0000_0000_0000_0000
    ensures |Fresh(disk)| == |disk| && Dir(Fresh(disk)) == NewDirectory()
  {
    hide RootImage, NewDirectory, SuperImage, OneBit;
  }

  /** Under 10 blocks there is no inode table at all: the new directory is its own inode. */
  lemma TinyDiskBreaks(disk: Disk, w: World) returns (events: seq<Event>)
    requires 4 <= |disk| < 10 && w.disk == Fresh(disk)
    ensures Reliable(events) && !Consistent(Run(w, events).disk)
  {
    events := [];
    hide RootImage, NewDirectory, SuperImage, OneBit, Entry, InodeSlot;
    var d := Fresh(disk);
    FreshDirectory(disk);
    NewDirectoryEntries(0);
    NewDirectoryEntries(1);
    DirectoryIsNoInode(NewDirectory());
    assert InodeAt(d, 0) == InodeSlot(NewDirectory(), 0);
    assert !Backed(d, Entry(Dir(d), 0).inode);
  }

  /**
    Crash consistency. Once `format` and `init_root_directory` have succeeded, every run of mounts and
    file creations, with any failures and cut off anywhere, keeps the disk consistent if and only if
    the device has at least 10240 blocks.
  */
  lemma CrashConsistency(disk: Disk, formatFaults: seq<Fault>, initFaults: seq<Fault>, w: World)
    requires Started(disk, formatFaults, initFaults, w)
    ensures (forall events: seq<Event> :: Consistent(Run(w, events).disk)) <==> |disk| >= 10240
  {
    hide Good, Anchored, Fresh, Started, FormatSuper, Consistent, NamesOk, Step;
    StartDisk(disk, formatFaults, initFaults, w);
    if |disk| >= 10240 {
      FreshGood(disk);
      FreshDirectory(disk);
      forall events: seq<Event> ensures Consistent(Run(w, events).disk) {
        AnyRunStopsAnywhere(events);
        AnywhereSplits();
        RunSound(w, events, Anywhere());
        GoodIsConsistent(Run(w, events).disk);
      }
    } else if |disk| >= 10 {
      var events := SmallDiskBreaks(disk);
      assert !Consistent(Run(w, events).disk);
    } else {
      var none := TinyDiskBreaks(disk, w);
      assert !Consistent(Run(w, none).disk);
    }
  }

  lemma GoodIsConsistent(d: Disk)
    requires Good(d)
    ensures Consistent(d)
  {
  }

  // ---------------------------------------------------------------- reliable devices

  predicate Reliable(events: seq<Event>) {
    forall i :: 0 <= i < |events| ==> events[i] == Mount(Works) || (events[i].Create? && events[i].faults == [])
  }

  /** On a device that never fails inodes and slots are handed out in step: no inode is lost. */
  predicate Tight(d: Disk, m: nat) {
    && Good(d) && NamesOk(Dir(d)) && 1 <= m < DIR_ENTRIES_PER_BLOCK && Filled(d, m)
    && forall k: nat | k < DIR_ENTRIES_PER_BLOCK :: Entry(Dir(d), k).Used() <==> k < m + 1
  }

  /** A free slot is the one after the last entry. */
  lemma TightScan(d: Disk, m: nat, name: seq<byte>)
    requires Tight(d, m)
    ensures var s := ScanDirectory(Dir(d), name); s.Free? ==> s.slot == m + 1
  {
    hide Good, Anchored, Filled, NamesOk, Entry;
    if m + 1 < DIR_ENTRIES_PER_BLOCK { assert !Entry(Dir(d), m + 1).Used(); }
  }

  lemma WrittenFilled(d: Disk, m: nat, b: Block)
    requires Filled(d, m) && m < 4096 && 10 <= |d| && TableBlock(m) < |d|
    ensures Filled(Written(d, m)[DirBlock(|d|) := b], m + 1)
  {
    hide FileImage, BitmapImage;
    FillNext(d, m);
    var e := Written(d, m)[DirBlock(|d|) := b];
    assert At(e, INODE_BITMAP_BLOCK) == At(Allocated(d, m), INODE_BITMAP_BLOCK);
    forall n: nat | n < 4096 ensures Marked(e, n) <==> n < m + 1 {
      assert Marked(e, n) == Marked(Allocated(d, m), n);
    }
  }

  lemma TightCreate(d: Disk, m: nat, name: seq<byte>)
    requires Tight(d, m) && GoodName(name) && ScanDirectory(Dir(d), name).Free? && InTable(d, m)
    ensures var e := Perform(d, [], CreatePlan(d, FormatSuper(|d|), name));
            && Tight(e.disk, m + 1) && |e.disk| == |d|
            && Dir(e.disk) == PutEntry(Dir(d), m + 1, m, name)
  {
    hide Good, Anchored, Filled, NamesOk, Entry, CreatePlan, FormatSuper, PutEntry, FirstClear, ScanDirectory;
    hide BitmapImage, FileImage;
    GoodSize(d);
    NextInode(d, m);
    TightScan(d, m, name);
    CreateReliable(d, name, m + 1, m);
    var e := Perform(d, [], CreatePlan(d, FormatSuper(|d|), name)).disk;
    assert Dir(e) == PutEntry(Dir(d), m + 1, m, name);
    PutEntrySlots(Dir(d), m + 1, m, name);
    WrittenFilled(d, m, Dir(e));
    assert Room(d);
    StepSound(World(d, Some(FormatSuper(|d|))), Create(name, []), iset{});
  }

  lemma TightGood(d: Disk, m: nat)
    requires Tight(d, m)
    ensures Good(d) && 1 <= m < DIR_ENTRIES_PER_BLOCK
  {
  }

  lemma TightStep(w: World, m: nat, e: Event)
    requires Tight(w.disk, m) && |w.disk| >= 20 && w.mounted == Some(FormatSuper(|w.disk|)) && Reliable([e])
    ensures var v := Step(w, e);
            && (Tight(v.disk, m) || Tight(v.disk, m + 1))
            && |v.disk| == |w.disk| && v.mounted == w.mounted
  {
    hide Good, Anchored, Tight, CreatePlan, FormatSuper, ScanDirectory, MountResult, MountBuffer, Exec;
    assert e == [e][0];
    var d := w.disk;
    TightGood(d, m);
    GoodSize(d);
    match e
    case Mount(f) => MountOnAnchored(d, f);
    case Create(name, _) =>
      if GoodName(name) && ScanDirectory(Dir(d), name).Free? {
        TightCreate(d, m, name);
      } else {
        CreateRefused(d, name);
      }
  }

  /** Without a good name and a free slot a creation only reads. */
  lemma CreateRefused(d: Disk, name: seq<byte>)
    requires Good(d) && !(GoodName(name) && ScanDirectory(Dir(d), name).Free?)
    ensures Perform(d, [], CreatePlan(d, FormatSuper(|d|), name)).disk == d
  {
    hide Good, Anchored, CreatePlan, ScanDirectory, FormatSuper;
    GoodSize(d);
    CreateOnAnchored(d, name);
    if GoodName(name) {
      var s := [Read(INODE_TABLE_START_BLOCK)] + ([Read(DirBlock(|d|))] + []);
      assert s == [Read(INODE_TABLE_START_BLOCK), Read(DirBlock(|d|))];
      ExecReliable(d, s);
      ExecDone(d, [], s);
      ApplyTwo(d, s[0], s[1]);
    }
  }

  lemma {:induction false} TightRun(w: World, m: nat, events: seq<Event>) returns (n: nat)
    requires Tight(w.disk, m) && |w.disk| >= 20 && w.mounted == Some(FormatSuper(|w.disk|)) && Reliable(events)
    ensures Tight(Run(w, events).disk, n) && |Run(w, events).disk| == |w.disk|
    decreases |events|
  {
    hide Tight, Step, FormatSuper;
    if events == [] {
      n := m;
    } else {
      assert Reliable([events[0]]) && Reliable(events[1..]);
      TightStep(w, m, events[0]);
      var v := Step(w, events[0]);
      n := TightRun(v, if Tight(v.disk, m) then m else m + 1, events[1..]);
    }
  }

  // ---------------------------------------------------------------- four files on fewer than 20 blocks

  /** The entry in slot `k` has a name of `k + 1` bytes. */
  predicate Lengths(b: Block) {
    forall k: nat | k < DIR_ENTRIES_PER_BLOCK :: Entry(b, k).Used() ==> Entry(b, k).nameLen == k + 1
  }

  function LongName(n: nat): seq<byte> {
    seq(n, _ => 97)
  }

  lemma LongNameIsNew(d: Disk, m: nat)
    requires Tight(d, m) && m < 7 && Lengths(Dir(d))
    ensures ScanDirectory(Dir(d), LongName(m + 2)) == Free(m + 1)
  {
    hide Good, Anchored, Filled, NamesOk, Entry;
    var name := LongName(m + 2);
    forall k: nat | k < DIR_ENTRIES_PER_BLOCK ensures !Hit(Dir(d), name, k) {
      var n := EntryName(Entry(Dir(d), k));
      assert Entry(Dir(d), k).Used() ==> n.Some? && |n.value| == k + 1;
    }
    assert FirstHit(Dir(d), name).None?;
    assert !Entry(Dir(d), m + 1).Used();
    TightScan(d, m, name);
  }

  lemma LongNameStep(d: Disk, m: nat)
    requires Tight(d, m) && m < 7 && Lengths(Dir(d)) && InTable(d, m)
    ensures var e := Perform(d, [], CreatePlan(d, FormatSuper(|d|), LongName(m + 2))).disk;
            Tight(e, m + 1) && Lengths(Dir(e)) && |e| == |d|
  {
    hide Good, Anchored, Filled, NamesOk, Entry, CreatePlan, FormatSuper, ScanDirectory, PutEntry;
    GoodSize(d);
    LongNameIsNew(d, m);
    TightCreate(d, m, LongName(m + 2));
    PutEntrySlots(Dir(d), m + 1, m, LongName(m + 2));
  }

  lemma FreshTight(disk: Disk)
    requires 10 <= |disk| < 0x1_0000_0000_0000_0000
    ensures Tight(Fresh(disk), 1) && Lengths(Dir(Fresh(disk)))
  {
    hide Good, Anchored, Filled, NamesOk, Entry, Fresh, NewDirectory;
    FreshGood(disk);
    FreshFilled(disk);
    FreshDirectory(disk);
    forall k: nat | k < DIR_ENTRIES_PER_BLOCK
      ensures (Entry(NewDirectory(), k).Used() <==> k < 2)
      ensures Entry(NewDirectory(), k).Used() ==> Entry(NewDirectory(), k).nameLen == k + 1
    {
      NewDirectoryEntries(k);
    }
  }

  /** With one block of inodes the fourth file takes inode 4, which is not in it. */
  lemma FourFilesBreak(disk: Disk) returns (events: seq<Event>)
    requires 10 <= |disk| < 20
    ensures Reliable(events) && !Consistent(Run(World(Fresh(disk), Some(FormatSuper(|disk|))), events).disk)
  {
    hide Tight, Lengths, Fresh, Consistent, CreatePlan, FormatSuper, ScanDirectory, FirstClear, LongName;
    hide Filled, Good, Anchored;
    var sb := FormatSuper(|disk|);
    var w := World(Fresh(disk), Some(sb));
    FreshTight(disk);
    FreshDirectory(disk);
    LongNameStep(w.disk, 1);
    var w1 := Step(w, Create(LongName(3), []));
    LongNameStep(w1.disk, 2);
    var w2 := Step(w1, Create(LongName(4), []));
    LongNameStep(w2.disk, 3);
    var w3 := Step(w2, Create(LongName(5), []));
    FourthFile(w3.disk);
    events := [Create(LongName(3), []), Create(LongName(4), []), Create(LongName(5), []), Create(LongName(6), [])];
    RunFour(w, events);
  }

  lemma FourthFile(d: Disk)
    requires Tight(d, 4) && Lengths(Dir(d)) && |d| / 10 == 1
    ensures !Consistent(Perform(d, [], CreatePlan(d, FormatSuper(|d|), LongName(6))).disk)
  {
    hide Lengths, Consistent, CreatePlan, FormatSuper, ScanDirectory, FirstClear, Filled, Good, Anchored;
    hide NamesOk, Entry;
    LongNameIsNew(d, 4);
    NextInode(d, 4);
    GoodSize(d);
    Overrun(d, LongName(6), 5, 4);
  }

  lemma RunFour(w: World, events: seq<Event>)
    requires |events| == 4
    ensures Run(w, events) == Step(Step(Step(Step(w, events[0]), events[1]), events[2]), events[3])
  {
    hide Step;
    var e := events;
    assert e[1..][0] == e[1] && e[1..][1..] == e[2..] && e[2..][0] == e[2] && e[2..][1..] == e[3..];
    assert e[3..][0] == e[3] && e[3..][1..] == [];
    var w3 := Step(Step(Step(w, e[0]), e[1]), e[2]);
    assert Run(w3, e[3..]) == Step(w3, e[3]);
    assert Run(Step(Step(w, e[0]), e[1]), e[2..]) == Run(w3, e[3..]);
    assert Run(Step(w, e[0]), e[1..]) == Run(Step(Step(w, e[0]), e[1]), e[2..]);
  }

  /** On a device that never fails, runs stay consistent if and only if it has at least 20 blocks. */
  lemma ReliableConsistency(disk: Disk, formatFaults: seq<Fault>, initFaults: seq<Fault>, w: World)
    requires Started(disk, formatFaults, initFaults, w)
    ensures (forall events: seq<Event> | Reliable(events) :: Consistent(Run(w, events).disk)) <==> |disk| >= 20
  {
    hide Fresh, Started, FormatSuper, Consistent, Step, Reliable, Good, Filled, NamesOk;
    StartDisk(disk, formatFaults, initFaults, w);
    if |disk| >= 20 {
      FreshTight(disk);
      FreshDirectory(disk);
      forall events: seq<Event> | Reliable(events) ensures Consistent(Run(w, events).disk) {
        var n := TightRun(w, 1, events);
        GoodIsConsistent(Run(w, events).disk);
      }
    } else if |disk| >= 10 {
      var events := FourFilesBreak(disk);
      assert !Consistent(Run(w, events).disk);
    } else {
      var none := TinyDiskBreaks(disk, w);
      assert !Consistent(Run(w, none).disk);
    }
  }
}
