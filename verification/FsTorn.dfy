/**
  Where a failed write may stop so that names stay distinct: not inside a name in slot 3 or later. There
  the new entry is already in use and its name continues with the zero bytes of the unused slot, so it can
  read as a name that is already taken.
*/
module FsTorn {
  import opened Bytes
  import opened Options
  import opened FsLayout
  import opened FsDevice
  import opened FsPlans
  import opened FsInvariant
  import opened FsRuns
  import opened FsStart
  import opened FsLimits
  import opened FsDirectory
  import opened Bitmaps

  // ---------------------------------------------------------------- a creation with a torn directory write

  /** Steps that work are all applied, and the faults behind them are left. */
  lemma {:induction false} ExecWorks(d: Disk, steps: seq<Access>, rest: seq<Fault>)
    requires InRange(d, steps)
    ensures Exec(d, seq(|steps|, _ => Works) + rest, steps) == Outcome(Apply(d, steps), rest, true)
    decreases |steps|
  {
    var f := seq(|steps|, _ => Works) + rest;
    if steps == [] {
      assert f == rest;
    } else {
      assert f[0] == Works && f[1..] == seq(|steps[1..]|, _ => Works) + rest;
      assert InRange(After(d, steps[0], Works), steps[1..]) by {
        forall i | 0 <= i < |steps[1..]| ensures steps[1..][i].id < |d| { assert steps[1..][i] == steps[i + 1]; }
      }
      ExecWorks(After(d, steps[0], Works), steps[1..], rest);
    }
  }

  /** A creation whose six first accesses work and whose directory write stops after `kept` bytes. */
  function TornCreate(name: seq<byte>, kept: nat): Event {
    Create(name, seq(6, _ => Works) + [Fails(kept)])
  }

  lemma TornCreateEffect(d: Disk, name: seq<byte>, slot: nat, i: u64, kept: nat)
    requires Good(d) && GoodName(name) && ScanDirectory(Dir(d), name) == Free(slot)
    requires FirstClear(At(d, INODE_BITMAP_BLOCK)) == Some(i) && InTable(d, i)
    ensures var faults := seq(6, _ => Works) + [Fails(kept)];
            var e := Perform(d, faults, CreatePlan(d, FormatSuper(|d|), name)).disk;
            |e| == |d| && Dir(e) == Torn(Dir(d), PutEntry(Dir(d), slot, i, name), kept)
  {
    hide Good, Anchored, CreatePlan, ScanDirectory, FirstClear, PutEntry, BitmapImage, FileImage, FormatSuper, Torn;
    GoodSize(d);
    CreateOnAnchored(d, name);
    var dir, faults := DirBlock(|d|), seq(6, _ => Works) + [Fails(kept)];
    var entries := PutEntry(Dir(d), slot, i, name);
    var w := CreateWrites(d, dir, entries, i);
    var first := [Read(INODE_TABLE_START_BLOCK), Read(dir), Read(INODE_BITMAP_BLOCK), w[0], w[1], w[2]];
    var s := CreatePlan(d, FormatSuper(|d|), name).steps;
    assert s == [Read(INODE_TABLE_START_BLOCK)] + ([Read(dir)] + ([Read(INODE_BITMAP_BLOCK)] + w));
    assert s == first + [Write(dir, entries)];
    ExecWorks(d, first, [Fails(kept)]);
    ExecAppend(d, faults, first, [Write(dir, entries)]);
    FirstSix(d, i, dir);
    var d2 := Written(d, i);
    assert Exec(d2, [Fails(kept)], [Write(dir, entries)]).disk == After(d2, Write(dir, entries), Fails(kept));
    assert d2[dir] == Dir(d);
  }

  lemma FirstSix(d: Disk, i: u64, dir: nat)
    requires i < 4096 && |d| > 3 && TableBlock(i) < |d|
    ensures Apply(d, [Read(INODE_TABLE_START_BLOCK), Read(dir), Read(INODE_BITMAP_BLOCK),
                      Write(INODE_BITMAP_BLOCK, BitmapImage(d, i)), Read(TableBlock(i)),
                      Write(TableBlock(i), FileImage(d, i))])
         == Written(d, i)
  {
    hide BitmapImage, FileImage;
    var a, b, c := Read(INODE_TABLE_START_BLOCK), Read(dir), Read(INODE_BITMAP_BLOCK);
    var w, r := Write(INODE_BITMAP_BLOCK, BitmapImage(d, i)), Read(TableBlock(i));
    var x := Write(TableBlock(i), FileImage(d, i));
    assert [a, b, c, w, r, x] == [a] + ([b] + ([c] + [w, r, x]));
    ApplyCons(d, a, [b] + ([c] + [w, r, x]));
    ApplyCons(d, b, [c] + [w, r, x]);
    ApplyCons(d, c, [w, r, x]);
    ApplyThree(d, w, r, x);
  }

  // ---------------------------------------------------------------- two names that a torn write confuses

  /** Two names that differ in their last byte only, behind the `m` bytes of a name that are written. */
  function X(m: nat): seq<byte> { seq(m, _ => 97) + [0] }

  function Y(m: nat): seq<byte> { seq(m, _ => 97) + [98] }

  /** How many bytes of the name a write that stops at `p` has transferred. */
  function NameBytes(p: nat): nat {
    if p % DIR_ENTRY_SIZE <= 12 then 0 else p % DIR_ENTRY_SIZE - 12
  }

  /** The old name bytes of the slot are zero, so the torn name reads as the other one. */
  lemma TornName(b: Block, k: nat, i: u64, p: nat)
    requires SplitsName(p) && k == p / DIR_ENTRY_SIZE && Entry(b, k).name == seq(DIR_NAME_MAX, _ => 0)
    ensures |Y(NameBytes(p))| <= DIR_NAME_MAX
    ensures var e := Entry(Torn(b, PutEntry(b, k, i, Y(NameBytes(p))), p), k);
            e.Used() && EntryName(e) == Some(X(NameBytes(p)))
  {
    hide Entry, PutEntry, Torn;
    var m := NameBytes(p);
    var x, y := X(m), Y(m);
    TornInName(b, k, i, y, p);
    var e := Entry(Torn(b, PutEntry(b, k, i, y), p), k);
    assert e.name[..m + 1] == x;
  }

  // ---------------------------------------------------------------- filling the slots before it

  /** A one-byte name for slot `j`. */
  function Filler(j: nat): seq<byte>
    requires j < DIR_ENTRIES_PER_BLOCK
  {
    [j]
  }

  /** Slots 2 to k-1 hold `x` and then one-byte names, and nothing was ever written behind them. */
  predicate StagedBlock(b: Block, k: nat, x: seq<byte>)
    requires 3 <= k < DIR_ENTRIES_PER_BLOCK
  {
    && EntryName(Entry(b, 2)) == Some(x)
    && (forall j: nat | 3 <= j < k :: EntryName(Entry(b, j)) == Some(Filler(j)))
    && (forall i | k * DIR_ENTRY_SIZE <= i < BLOCK_SIZE :: b[i] == 0)
  }

  predicate Staged(d: Disk, k: nat, x: seq<byte>) {
    3 <= k < DIR_ENTRIES_PER_BLOCK && Tight(d, k - 1) && StagedBlock(Dir(d), k, x)
  }

  lemma TightFirstClear(d: Disk, m: nat)
    requires Tight(d, m)
    ensures FirstClear(At(d, INODE_BITMAP_BLOCK)) == Some(m)
  {
    hide Good, NamesOk, Filled, Entry, FirstClear;
    NextInode(d, m);
  }

  lemma TightSlot(d: Disk, m: nat, k: nat)
    requires Tight(d, m) && k < DIR_ENTRIES_PER_BLOCK
    ensures Entry(Dir(d), k).Used() <==> k < m + 1
  {
    hide Good, NamesOk, Filled, Entry;
  }

  lemma DotNames(d: Disk)
    requires Good(d)
    ensures EntryName(Entry(Dir(d), 0)) == Some(DOT) && EntryName(Entry(Dir(d), 1)) == Some(DOTDOT)
  {
    hide Entry;
    DotsComeFirst(d);
  }

  /** A name other than those listed is new. */
  lemma StagedNew(d: Disk, k: nat, x: seq<byte>, name: seq<byte>)
    requires Staged(d, k, x) && name != x && name != DOT && name != DOTDOT
    requires forall j: nat | 3 <= j < k :: name != Filler(j)
    ensures ScanDirectory(Dir(d), name) == Free(k)
  {
    hide Entry, EntryName, Good, Tight;
    TightGood(d, k - 1);
    DotNames(d);
    forall j: nat | j < DIR_ENTRIES_PER_BLOCK ensures !Hit(Dir(d), name, j) { TightSlot(d, k - 1, j); }
    TightScan(d, k - 1, name);
    TightSlot(d, k - 1, k);
  }

  lemma StagedZero(d: Disk, k: nat, x: seq<byte>)
    requires Staged(d, k, x)
    ensures Entry(Dir(d), k).name == seq(DIR_NAME_MAX, _ => 0)
  {
    hide Tight, EntryName;
    var b, at := Dir(d), k * DIR_ENTRY_SIZE;
    assert b[at..at + DIR_ENTRY_SIZE][12..] == seq(DIR_NAME_MAX, _ => 0);
  }

  /** The first file. */
  lemma StageFirst(d: Disk, x: seq<byte>)
    requires Tight(d, 1) && Dir(d) == NewDirectory() && GoodName(x) && x != DOT && x != DOTDOT
    ensures var e := Perform(d, [], CreatePlan(d, FormatSuper(|d|), x)).disk;
            |e| == |d| && Staged(e, 3, x)
  {
    hide Good, Tight, Entry, PutEntry, NewDirectory, CreatePlan, FormatSuper, EntryName, ScanDirectory, DirBlock;
    TightGood(d, 1);
    GoodSize(d);
    FirstIsNew(d, x);
    TightCreate(d, 1, x);
    NewDirectoryZero();
    NewEntry(NewDirectory(), 2, 1, x);
  }

  lemma FirstIsNew(d: Disk, x: seq<byte>)
    requires Tight(d, 1) && x != DOT && x != DOTDOT
    ensures ScanDirectory(Dir(d), x) == Free(2)
  {
    hide Good, Tight, Entry, EntryName, DirBlock;
    TightGood(d, 1);
    DotNames(d);
    forall j: nat | j < DIR_ENTRIES_PER_BLOCK ensures !Hit(Dir(d), x, j) { TightSlot(d, 1, j); }
    TightScan(d, 1, x);
    TightSlot(d, 1, 2);
  }

  /** The entry just written has the name written, and the bytes behind its slot are as they were. */
  lemma NewEntry(b: Block, k: nat, i: u64, name: seq<byte>)
    requires k < DIR_ENTRIES_PER_BLOCK && |name| <= DIR_NAME_MAX
    ensures var c := PutEntry(b, k, i, name);
            && EntryName(Entry(c, k)) == Some(name)
            && (forall j: nat | j < DIR_ENTRIES_PER_BLOCK && j != k :: Entry(c, j) == Entry(b, j))
            && (forall j | (k + 1) * DIR_ENTRY_SIZE <= j < BLOCK_SIZE :: c[j] == b[j])
  {
    hide EncodeEntry, Entry;
    PutEntrySlots(b, k, i, name);
  }

  /** One more file. */
  lemma StageNext(d: Disk, k: nat, x: seq<byte>)
    requires Staged(d, k, x) && k + 1 < DIR_ENTRIES_PER_BLOCK && |d| >= 20 && x != Filler(k)
    ensures var e := Perform(d, [], CreatePlan(d, FormatSuper(|d|), Filler(k))).disk;
            |e| == |d| && Staged(e, k + 1, x)
  {
    hide Good, Tight, PutEntry, CreatePlan, FormatSuper, StagedBlock, ScanDirectory, InTable, DirBlock;
    SmallInTable(d, k - 1);
    var name := Filler(k);
    StagedNew(d, k, x, name);
    TightGood(d, k - 1);
    GoodSize(d);
    TightCreate(d, k - 1, name);
    StagedPut(Dir(d), k, x, k - 1);
  }

  lemma StagedPut(b: Block, k: nat, x: seq<byte>, i: u64)
    requires 3 <= k && k + 1 < DIR_ENTRIES_PER_BLOCK && StagedBlock(b, k, x)
    ensures StagedBlock(PutEntry(b, k, i, Filler(k)), k + 1, x)
  {
    hide Entry, PutEntry, EntryName;
    NewEntry(b, k, i, Filler(k));
  }

  /** The files with one-byte names for slots `j` to `k - 1`. */
  function Fillers(j: nat, k: nat): seq<Event>
    requires j <= k <= DIR_ENTRIES_PER_BLOCK
    decreases k - j
  {
    if j == k then [] else [Create(Filler(j), [])] + Fillers(j + 1, k)
  }

  lemma {:induction false} StageRun(w: World, j: nat, k: nat, x: seq<byte>)
    requires Staged(w.disk, j, x) && j <= k < DIR_ENTRIES_PER_BLOCK && |w.disk| >= 20
    requires w.mounted == Some(FormatSuper(|w.disk|)) && forall i: nat | j <= i < k :: x != Filler(i)
    ensures var v := Run(w, Fillers(j, k));
            |v.disk| == |w.disk| && v.mounted == w.mounted && Staged(v.disk, k, x)
    decreases k - j
  {
    hide Staged, FormatSuper, CreatePlan;
    if j < k {
      assert x != Filler(j);
      StageNext(w.disk, j, x);
      StageRun(Step(w, Create(Filler(j), [])), j + 1, k, x);
      assert Fillers(j, k)[1..] == Fillers(j + 1, k);
    }
  }

  // ---------------------------------------------------------------- the run that duplicates a name

  /** Fill the slots before the one that `p` lies in, then a creation whose directory write stops at `p`. */
  function Confusing(p: nat): seq<Event>
    requires SplitsName(p)
  {
    [Create(X(NameBytes(p)), [])] + Fillers(3, p / DIR_ENTRY_SIZE) + [TornCreate(Y(NameBytes(p)), p)]
  }

  lemma TwoEntries(b: Block, k: nat, i: u64, x: seq<byte>, y: seq<byte>, p: nat)
    requires 3 <= k < DIR_ENTRIES_PER_BLOCK && |y| <= DIR_NAME_MAX
    requires Entry(b, 2).Used() && EntryName(Entry(b, 2)) == Some(x)
    requires var e := Entry(Torn(b, PutEntry(b, k, i, y), p), k); e.Used() && EntryName(e) == Some(x)
    ensures !DistinctNames(Torn(b, PutEntry(b, k, i, y), p))
  {
    hide Entry, PutEntry, Torn, EntryName;
    TornEntryElsewhere(b, k, i, y, p, 2);
  }

  lemma YIsNew(m: nat, k: nat)
    requires k <= DIR_ENTRIES_PER_BLOCK
    ensures Y(m) != X(m) && Y(m) != DOT && Y(m) != DOTDOT && forall j: nat | 3 <= j < k :: Y(m) != Filler(j)
    ensures m + 1 <= DIR_NAME_MAX ==> GoodName(Y(m))
  {
    assert X(m)[m] == 0 && Y(m)[m] == 98 && DOT[0] == 46 && DOTDOT[1] == 46;
  }

  /** The last step: the new entry gets the name of the one in slot 2. */
  lemma TornStep(d: Disk, p: nat)
    requires SplitsName(p) && Staged(d, p / DIR_ENTRY_SIZE, X(NameBytes(p))) && |d| >= 20
    ensures var e := Step(World(d, Some(FormatSuper(|d|))), TornCreate(Y(NameBytes(p)), p)).disk;
            |e| == |d| && !DistinctNames(Dir(e))
  {
    hide Good, Filled, NamesOk, DistinctNames, Entry, PutEntry, Torn, CreatePlan, FormatSuper, EntryName, FirstClear;
    hide ScanDirectory, X, Y, Staged, Exec, InTable, DirBlock;
    var m, k := NameBytes(p), p / DIR_ENTRY_SIZE;
    var x, y := X(m), Y(m);
    StagedCreate(d, k, x, m);
    StagedZero(d, k, x);
    TornName(Dir(d), k, k - 1, p);
    TornCreateEffect(d, y, k, k - 1, p);
    StagedFirst(d, k, x);
    TwoEntries(Dir(d), k, k - 1, x, y, p);
  }

  lemma SmallInTable(d: Disk, i: nat)
    requires |d| >= 20 && i < 8
    ensures InTable(d, i)
  {
  }

  /** What the creation of the second name finds. */
  lemma StagedCreate(d: Disk, k: nat, x: seq<byte>, m: nat)
    requires Staged(d, k, x) && x == X(m) && |d| >= 20 && m + 1 <= DIR_NAME_MAX
    ensures Good(d) && GoodName(Y(m)) && ScanDirectory(Dir(d), Y(m)) == Free(k)
    ensures FirstClear(At(d, INODE_BITMAP_BLOCK)) == Some(k - 1) && InTable(d, k - 1)
    ensures |d| < 0x1_0000_0000_0000_0000
  {
    hide Good, Tight, FirstClear, ScanDirectory, StagedBlock, X, Y, InTable, DirBlock, GoodName;
    TightGood(d, k - 1);
    GoodSize(d);
    SmallInTable(d, k - 1);
    YIsNew(m, k);
    StagedNew(d, k, x, Y(m));
    TightFirstClear(d, k - 1);
  }

  lemma StagedFirst(d: Disk, k: nat, x: seq<byte>)
    requires Staged(d, k, x)
    ensures Entry(Dir(d), 2).Used() && EntryName(Entry(Dir(d), 2)) == Some(x)
  {
    hide Good, Filled, NamesOk, Entry, EntryName;
  }

  /** For each such place some run whose only failed write stops there leaves two entries of the same name. */
  lemma TornWriteDuplicatesName(disk: Disk, p: nat)
    requires 20 <= |disk| < 0x1_0000_0000_0000_0000 && SplitsName(p)
    ensures var w := World(Fresh(disk), Some(FormatSuper(|disk|)));
            !DistinctNames(Dir(Run(w, Confusing(p)).disk))
    ensures RunStopsAt(iset{p}, Confusing(p))
  {
    hide Tight, Staged, Fresh, FormatSuper, CreatePlan, NewDirectory, DistinctNames;
    var x, k := X(NameBytes(p)), p / DIR_ENTRY_SIZE;
    assert x[|x| - 1] == 0 && DOT[0] == 46 && DOTDOT[1] == 46;
    var w := World(Fresh(disk), Some(FormatSuper(|disk|)));
    FreshTight(disk);
    FreshDirectory(disk);
    StageFirst(w.disk, x);
    var first, last := Create(x, []), TornCreate(Y(NameBytes(p)), p);
    var w1 := Step(w, first);
    StageRun(w1, 3, k, x);
    var w2 := Run(w1, Fillers(3, k));
    TornStep(w2.disk, p);
    RunInThree(w, first, Fillers(3, k), last);
    FillersWork(iset{p}, 3, k);
  }

  lemma RunInThree(w: World, first: Event, middle: seq<Event>, last: Event)
    ensures Run(w, [first] + middle + [last]) == Step(Run(Step(w, first), middle), last)
  {
    hide Step;
    assert [first] + middle + [last] == [first] + (middle + [last]);
    assert ([first] + (middle + [last]))[1..] == middle + [last];
    RunAppend(Step(w, first), middle, [last]);
    assert [last][1..] == [];
  }

  lemma {:induction false} FillersWork(cuts: iset<nat>, j: nat, k: nat)
    requires j <= k <= DIR_ENTRIES_PER_BLOCK
    ensures RunStopsAt(cuts, Fillers(j, k))
    decreases k - j
  {
    if j < k { FillersWork(cuts, j + 1, k); }
  }

  /**
    For failed writes that may stop after the numbers of bytes in `cuts`: names stay distinct in every run if
    and only if none of these places lies inside a name in slot 3 or later.
  */
  lemma DistinctNamesIffHarmless(disk: Disk, formatFaults: seq<Fault>, initFaults: seq<Fault>, w: World,
                                 cuts: iset<nat>)
    requires Started(disk, formatFaults, initFaults, w) && |disk| >= 10240
    ensures (forall events: seq<Event> | RunStopsAt(cuts, events) :: DistinctNames(Dir(Run(w, events).disk)))
            <==> Harmless(cuts)
  {
    hide Started, Fresh, FormatSuper, DistinctNames, Good, Step, EventStopsAt, SplitsName;
    StartDisk(disk, formatFaults, initFaults, w);
    if Harmless(cuts) {
      forall events: seq<Event> | RunStopsAt(cuts, events) ensures DistinctNames(Dir(Run(w, events).disk)) {
        assert events + [] == events;
        EntriesOverRuns(disk, formatFaults, initFaults, w, cuts, events, []);
      }
    } else {
      var p :| p in cuts && SplitsName(p);
      TornWriteDuplicatesName(disk, p);
      MoreCuts(p, cuts, Confusing(p));
      assert !DistinctNames(Dir(Run(w, Confusing(p)).disk));
    }
  }

  lemma MoreCuts(p: nat, cuts: iset<nat>, events: seq<Event>)
    requires p in cuts && RunStopsAt(iset{p}, events)
    ensures RunStopsAt(cuts, events)
  {
    forall i | 0 <= i < |events| ensures EventStopsAt(cuts, events[i]) {
      assert EventStopsAt(iset{p}, events[i]);
    }
  }
}
