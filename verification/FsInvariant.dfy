/**
  What every disk of a running file system satisfies, and why each single write keeps it, even when
  the write is cut short anywhere inside the block.
*/
module FsInvariant {
  import opened Bytes
  import opened Options
  import opened FsLayout
  import opened FsDevice
  import opened FsPlans
  import opened Bitmaps

  /** The first data block: `init_root_directory` puts the root directory there. */
  function DirBlock(capacity: nat): (b: nat)
    ensures capacity >= 4 ==> 3 <= b < capacity
  {
    INODE_TABLE_START_BLOCK + capacity / 10
  }

  function Dir(d: Disk): Block {
    At(d, DirBlock(|d|))
  }

  predicate Marked(d: Disk, n: nat)
    requires n < 4096
  {
    IsSet(At(d, INODE_BITMAP_BLOCK), n)
  }

  function InodeAt(d: Disk, n: nat): Option<Inode> {
    InodeSlot(At(d, INODE_TABLE_START_BLOCK + n / INODES_PER_BLOCK), n % INODES_PER_BLOCK)
  }

  /** Inode `n` is allocated and is of the kind a directory entry for it promises. */
  predicate Backed(d: Disk, n: nat) {
    && n < 4096 && Marked(d, n)
    && InodeAt(d, n).Some? && InodeAt(d, n).value.mode == if n == 0 then Directory else File
  }

  /** Crash consistency: every used directory entry names an allocated inode of the right kind. */
  predicate Consistent(d: Disk) {
    forall k: nat | k < DIR_ENTRIES_PER_BLOCK :: Entry(Dir(d), k).Used() ==> Backed(d, Entry(Dir(d), k).inode)
  }

  function DotEntry(name: seq<byte>): DirEntry
    requires |name| <= DIR_NAME_MAX
  {
    DirEntry(0, |name|, DIRENT_USED, name + seq(DIR_NAME_MAX - |name|, _ => 8))
  }

  /** The root inode of a new file system: a directory with two links and one block. */
  function RootOf(capacity: u64): Inode
    requires capacity >= 4
  {
    Inode(Directory, 0, 0, 2, 0, 0, 0, 0, [DirBlock(capacity), 0, 0, 0, 0, 0, 0, 0, 0, 0], 0)
  }

  predicate Rooted(d: Disk)
    requires 4 <= |d| < 0x1_0000_0000_0000_0000
  {
    InodeAt(d, 0) == Some(RootOf(|d|))
  }

  /** The inode of a file that was just created: empty, with one link. */
  function EmptyFile(): Inode {
    Inode(File, 0, 0, 1, 0, 0, 0, 0, [0, 0, 0, 0, 0, 0, 0, 0, 0, 0], 0)
  }

  /** Every entry but "." and ".." names an empty file. */
  predicate AsCreated(d: Disk) {
    forall k: nat | 2 <= k < DIR_ENTRIES_PER_BLOCK ::
      Entry(Dir(d), k).Used() ==> InodeAt(d, Entry(Dir(d), k).inode) == Some(EmptyFile())
  }

  /** "." and ".." come first; every other used entry has its own non-zero inode and a name in range. */
  predicate WellFormed(b: Block) {
    && Entry(b, 0) == DotEntry(DOT) && Entry(b, 1) == DotEntry(DOTDOT)
    && (forall k: nat | 2 <= k < DIR_ENTRIES_PER_BLOCK ::
          Entry(b, k).Used() ==> Entry(b, k).inode != 0 && Entry(b, k).nameLen <= DIR_NAME_MAX)
    && (forall j: nat, k: nat | 2 <= j < k < DIR_ENTRIES_PER_BLOCK ::
          Entry(b, j).Used() && Entry(b, k).Used() ==> Entry(b, j).inode != Entry(b, k).inode)
  }

  predicate DistinctNames(b: Block) {
    forall j: nat, k: nat | j < k < DIR_ENTRIES_PER_BLOCK ::
      Entry(b, j).Used() && Entry(b, k).Used() ==> EntryName(Entry(b, j)) != EntryName(Entry(b, k))
  }

  /** As long as slot 2 is unused, so are the later ones, and the name bytes in it are zero. */
  predicate Untouched(b: Block) {
    !Entry(b, 2).Used() ==>
      && Entry(b, 2).name == seq(DIR_NAME_MAX, _ => 0)
      && forall k: nat | 2 <= k < DIR_ENTRIES_PER_BLOCK :: !Entry(b, k).Used()
  }

  predicate NamesOk(b: Block) {
    DistinctNames(b) && Untouched(b)
  }

  /** Inode `n` has a slot in the inode table, rather than in the data area behind it. */
  predicate InTable(d: Disk, n: nat) {
    n / INODES_PER_BLOCK < |d| / 10
  }

  predicate Placed(d: Disk) {
    forall k: nat | k < DIR_ENTRIES_PER_BLOCK :: Entry(Dir(d), k).Used() ==> InTable(d, Entry(Dir(d), k).inode)
  }

  /** The superblock mounts as `format` wrote it and inode 0 is the root directory. */
  predicate Anchored(d: Disk) {
    && 10 <= |d| < 0x1_0000_0000_0000_0000
    && MountResult(At(d, SUPERBLOCK_BLOCK)) == Ok(FormatSuper(|d|))
    && Marked(d, 0) && Rooted(d)
  }

  predicate Good(d: Disk) {
    Anchored(d) && WellFormed(Dir(d)) && Placed(d) && Consistent(d) && AsCreated(d)
  }

  /** Every entry in use on `c` is still there on `d`. */
  predicate Keeps(c: Disk, d: Disk) {
    forall k: nat | k < DIR_ENTRIES_PER_BLOCK :: Entry(Dir(c), k).Used() ==> Entry(Dir(d), k) == Entry(Dir(c), k)
  }

  // ---------------------------------------------------------------- writes outside the directory

  /** `n` belongs to the root directory or to a used entry. */
  predicate Named(d: Disk, n: nat) {
    n == 0 || exists k: nat :: k < DIR_ENTRIES_PER_BLOCK && Entry(Dir(d), k).Used() && Entry(Dir(d), k).inode == n
  }

  lemma GoodFrame(c: Disk, d: Disk)
    requires Good(c) && |d| == |c|
    requires At(d, SUPERBLOCK_BLOCK) == At(c, SUPERBLOCK_BLOCK) && Dir(d) == Dir(c)
    requires forall n: nat | n < 4096 && Marked(c, n) :: Marked(d, n)
    requires forall n: nat | Named(c, n) :: InodeAt(d, n) == InodeAt(c, n)
    ensures Good(d)
  {
    assert Named(c, 0);
    forall k: nat | k < DIR_ENTRIES_PER_BLOCK && Entry(Dir(d), k).Used()
      ensures Backed(d, Entry(Dir(d), k).inode)
    {
      assert Named(c, Entry(Dir(c), k).inode) && Backed(c, Entry(Dir(c), k).inode);
    }
    forall k: nat | 2 <= k < DIR_ENTRIES_PER_BLOCK && Entry(Dir(d), k).Used()
      ensures InodeAt(d, Entry(Dir(d), k).inode) == Some(EmptyFile())
    {
      assert Named(c, Entry(Dir(c), k).inode);
    }
  }

  /** A block with one changed byte cannot be torn. */
  lemma TornByte(a: Block, j: nat, x: byte, kept: nat)
    requires j < BLOCK_SIZE
    ensures Torn(a, a[j := x], kept) == if kept <= j then a else a[j := x]
  {
  }

  /** The bitmap write of `allocate_inode`. */
  lemma MarkKeepsGood(d: Disk, i: nat, kept: nat)
    requires Good(d) && i < 4096
    ensures Good(d[INODE_BITMAP_BLOCK := Torn(d[1], SetBit(d[1], i), kept)])
  {
    var m := d[1];
    var t := Torn(m, SetBit(m, i), kept);
    TornByte(m, i / 8, WithBit(m[i / 8], i % 8), kept);
    var e := d[INODE_BITMAP_BLOCK := t];
    forall n: nat | n < 4096 && Marked(d, n) ensures Marked(e, n) {
      SetBitEffect(m, i, n);
    }
    GoodFrame(d, e);
  }

  /** Bytes outside the written slot survive even a torn write. */
  lemma TornSplice(b: Block, at: nat, t: seq<byte>, kept: nat, lo: nat, hi: nat)
    requires at + |t| <= BLOCK_SIZE && lo <= hi <= BLOCK_SIZE
    requires hi <= at || at + |t| <= lo
    ensures Torn(b, Splice(b, at, t), kept)[lo..hi] == b[lo..hi]
  {
    var r := Torn(b, Splice(b, at, t), kept);
    forall i | lo <= i < hi ensures r[i] == b[i] { }
  }

  lemma TornInode(b: Block, k: nat, i: Inode, kept: nat, j: nat)
    requires k < INODES_PER_BLOCK && j < INODES_PER_BLOCK && j != k
    ensures InodeSlot(Torn(b, PutInode(b, k, i), kept), j) == InodeSlot(b, j)
  {
    TornSplice(b, k * INODE_SIZE, EncodeInode(i), kept, j * INODE_SIZE, j * INODE_SIZE + INODE_SIZE);
  }

  /** The inode write of `create_file_in_root`, whose inode nothing names yet. */
  lemma InodeWriteKeepsGood(d: Disk, n: nat, i: Inode, kept: nat)
    requires Good(d) && !Named(d, n) && InTable(d, n)
    ensures var b := INODE_TABLE_START_BLOCK + n / INODES_PER_BLOCK;
            Good(d[b := Torn(d[b], PutInode(d[b], n % INODES_PER_BLOCK, i), kept)])
  {
    hide PutInode, InodeSlot, Torn, WellFormed, Placed, Consistent, AsCreated, Rooted, MountResult, Entry, HasBit;
    var b := INODE_TABLE_START_BLOCK + n / INODES_PER_BLOCK;
    var e := d[b := Torn(d[b], PutInode(d[b], n % INODES_PER_BLOCK, i), kept)];
    forall m: nat | Named(d, m) ensures InodeAt(e, m) == InodeAt(d, m) {
      if INODE_TABLE_START_BLOCK + m / INODES_PER_BLOCK == b {
        TornInode(d[b], n % INODES_PER_BLOCK, i, kept, m % INODES_PER_BLOCK);
      }
    }
    GoodFrame(d, e);
  }

  // ---------------------------------------------------------------- the directory write

  /** The parity of a little-endian number is that of its first byte. */
  lemma LowBit(s: seq<byte>)
    requires s != []
    ensures FromLE(s) % 2 == s[0] % 2
  {
    var x: int, y: int := s[0], FromLE(s[1..]);
    assert FromLE(s) == x + 2 * (128 * y);
  }

  /** The flags follow the inode and the length: a torn new entry is either not in use or names its inode. */
  lemma TornEntry(b: Block, k: nat, inode: u64, name: seq<byte>, kept: nat)
    requires k < DIR_ENTRIES_PER_BLOCK && |name| <= DIR_NAME_MAX && !Entry(b, k).Used()
    ensures var e := Entry(Torn(b, PutEntry(b, k, inode, name), kept), k);
            e.Used() ==> e.inode == inode && e.nameLen == |name|
  {
    var written := PutEntry(b, k, inode, name);
    var t := Torn(b, written, kept);
    var at := k * DIR_ENTRY_SIZE;
    var s := t[at..at + DIR_ENTRY_SIZE];
    if kept <= at + 10 {
      var o := b[at..at + DIR_ENTRY_SIZE];
      assert s[10] == t[at + 10] == b[at + 10] == o[10];
      LowBit(s[10..12]);
      LowBit(o[10..12]);
    } else {
      var w := written[at..at + DIR_ENTRY_SIZE];
      EntryRoundTrip(inode, name);
      assert forall i | 0 <= i < 10 :: s[i] == t[at + i] == written[at + i] == w[i];
      assert s[..8] == w[..8] && s[8..10] == w[8..10];
    }
  }

  /** Up to offset 10 of its slot a torn entry stays unused, with the name bytes that were there. */
  lemma TornBeforeFlags(b: Block, k: nat, inode: u64, name: seq<byte>, kept: nat)
    requires k < DIR_ENTRIES_PER_BLOCK && |name| <= DIR_NAME_MAX && !Entry(b, k).Used()
    requires kept <= k * DIR_ENTRY_SIZE + 10
    ensures var e := Entry(Torn(b, PutEntry(b, k, inode, name), kept), k);
            !e.Used() && e.name == Entry(b, k).name
  {
    hide EncodeEntry, FromLE;
    var t, at := Torn(b, PutEntry(b, k, inode, name), kept), k * DIR_ENTRY_SIZE;
    var s, o := t[at..at + DIR_ENTRY_SIZE], b[at..at + DIR_ENTRY_SIZE];
    assert forall i | 10 <= i < DIR_ENTRY_SIZE :: s[i] == t[at + i] == b[at + i] == o[i];
    assert s[10..12] == o[10..12] && s[12..] == o[12..];
  }

  /** From offset 11 on it is in use, with its own length; its name is a part of the new one over the old bytes. */
  lemma TornInName(b: Block, k: nat, inode: u64, name: seq<byte>, kept: nat)
    requires k < DIR_ENTRIES_PER_BLOCK && |name| <= DIR_NAME_MAX
    requires k * DIR_ENTRY_SIZE + 11 <= kept < k * DIR_ENTRY_SIZE + DIR_ENTRY_SIZE
    ensures var e := Entry(Torn(b, PutEntry(b, k, inode, name), kept), k);
            var m := if kept == k * DIR_ENTRY_SIZE + 11 then 0 else kept - k * DIR_ENTRY_SIZE - 12;
            && e.Used() && e.nameLen == |name|
            && e.name == (name + seq(DIR_NAME_MAX - |name|, _ => 8))[..m] + Entry(b, k).name[m..]
  {
    hide EncodeEntry, ToLE;
    var written, at := PutEntry(b, k, inode, name), k * DIR_ENTRY_SIZE;
    var t := Torn(b, written, kept);
    var s, w, o := t[at..at + DIR_ENTRY_SIZE], written[at..at + DIR_ENTRY_SIZE], b[at..at + DIR_ENTRY_SIZE];
    EntryRoundTrip(inode, name);
    assert w == EncodeEntry(inode, name);
    forall i | 0 <= i < DIR_ENTRY_SIZE ensures s[i] == if at + i < kept then w[i] else o[i] {
      assert s[i] == t[at + i] && w[i] == written[at + i] && o[i] == b[at + i];
    }
    LowBit(s[10..12]);
    LowBit(w[10..12]);
    assert s[8..10] == w[8..10] && s[10] == w[10];
    var m := if kept == at + 11 then 0 else kept - at - 12;
    assert s[12..] == w[12..][..m] + o[12..][m..];
  }

  lemma TornEntryElsewhere(b: Block, k: nat, inode: u64, name: seq<byte>, kept: nat, j: nat)
    requires k < DIR_ENTRIES_PER_BLOCK && |name| <= DIR_NAME_MAX && j < DIR_ENTRIES_PER_BLOCK && j != k
    ensures Entry(Torn(b, PutEntry(b, k, inode, name), kept), j) == Entry(b, j)
  {
    TornSplice(b, k * DIR_ENTRY_SIZE, EncodeEntry(inode, name), kept,
               j * DIR_ENTRY_SIZE, j * DIR_ENTRY_SIZE + DIR_ENTRY_SIZE);
  }

  /** A directory block that differs from `b` in slot `k` only, which is unused or names `n` there. */
  predicate Gains(b: Block, c: Block, k: nat, n: nat)
    requires k < DIR_ENTRIES_PER_BLOCK
  {
    && (forall j: nat | j < DIR_ENTRIES_PER_BLOCK && j != k :: Entry(c, j) == Entry(b, j))
    && (Entry(c, k).Used() ==> Entry(c, k).inode == n && Entry(c, k).nameLen <= DIR_NAME_MAX)
  }

  lemma TornGains(b: Block, k: nat, n: u64, name: seq<byte>, kept: nat)
    requires k < DIR_ENTRIES_PER_BLOCK && |name| <= DIR_NAME_MAX && !Entry(b, k).Used()
    ensures Gains(b, Torn(b, PutEntry(b, k, n, name), kept), k, n)
  {
    TornEntry(b, k, n, name, kept);
    forall j: nat | j < DIR_ENTRIES_PER_BLOCK && j != k
      ensures Entry(Torn(b, PutEntry(b, k, n, name), kept), j) == Entry(b, j)
    {
      TornEntryElsewhere(b, k, n, name, kept, j);
    }
  }

  /** The directory write: the new entry's inode is already allocated, written and not named elsewhere. */
  lemma LinkKeepsGood(d: Disk, c: Block, k: nat, n: nat)
    requires Good(d) && k < DIR_ENTRIES_PER_BLOCK && !Entry(Dir(d), k).Used()
    requires Gains(Dir(d), c, k, n) && Backed(d, n) && InTable(d, n) && !Named(d, n)
    requires InodeAt(d, n) == Some(EmptyFile())
    ensures Good(d[DirBlock(|d|) := c]) && Keeps(d, d[DirBlock(|d|) := c])
  {
    hide Entry, InodeSlot, WellFormed, MountResult, HasBit;
    var e := d[DirBlock(|d|) := c];
    LinkWellFormed(d, c, k, n);
    assert Dir(e) == c && InodeAt(e, 0) == InodeAt(d, 0);
    forall j: nat | j < DIR_ENTRIES_PER_BLOCK && Entry(c, j).Used()
      ensures InTable(e, Entry(c, j).inode) && Backed(e, Entry(c, j).inode)
    {
      var m := Entry(c, j).inode;
      assert Backed(d, m) && InTable(d, m);
      assert InodeAt(e, m) == InodeAt(d, m);
    }
    forall j: nat | 2 <= j < DIR_ENTRIES_PER_BLOCK && Entry(c, j).Used()
      ensures InodeAt(e, Entry(c, j).inode) == Some(EmptyFile())
    {
      var m := Entry(c, j).inode;
      assert InTable(d, m) && InodeAt(e, m) == InodeAt(d, m);
    }
  }

  lemma LinkWellFormed(d: Disk, c: Block, k: nat, n: nat)
    requires WellFormed(Dir(d)) && k < DIR_ENTRIES_PER_BLOCK && !Entry(Dir(d), k).Used()
    requires Gains(Dir(d), c, k, n) && !Named(d, n)
    ensures WellFormed(c)
  {
    var b := Dir(d);
    forall j: nat | j < DIR_ENTRIES_PER_BLOCK && Entry(b, j).Used() ensures Entry(b, j).inode != n { }
  }
}
