/**
  The on-disk structures of src/fs/layout.rs and their conversions.

  Every structure is `repr(C)` over unaligned little-endian fields, so its byte form is the fields in
  declaration order with no padding.
*/
module FsLayout {
  import opened Bytes
  import opened Options

  const BLOCK_SIZE := 512
  const INODE_SIZE := 128
  const INODES_PER_BLOCK := 4
  const SUPERBLOCK_BLOCK := 0
  const INODE_BITMAP_BLOCK := 1
  const DATA_BITMAP_BLOCK := 2
  const INODE_TABLE_START_BLOCK := 3
  const DIR_ENTRY_SIZE := 64
  const DIR_NAME_MAX := 52
  const DIR_ENTRIES_PER_BLOCK := 8
  const DIRENT_USED := 1
  const MAGIC_NUMBER := 0xDEAD_BEEF

  type Block = b: seq<byte> | |b| == BLOCK_SIZE witness seq(BLOCK_SIZE, _ => 0)

  function ZeroBlock(): Block {
    seq(BLOCK_SIZE, _ => 0)
  }

  // ---------------------------------------------------------------- superblock

  datatype SuperBlock = SuperBlock(
    totalBlocks: u64,
    inodeBitmapBlock: u64,
    dataBitmapBlock: u64,
    inodeTableStartBlock: u64,
    inodeCount: u64,
    dataBlockStart: u64,
    dataBlockCount: u64,
    magicNumber: u32)

  function EncodeSuper(sb: SuperBlock): (s: seq<byte>)
    ensures |s| == 64
  {
    Fields(8, [sb.totalBlocks, sb.inodeBitmapBlock, sb.dataBitmapBlock, sb.inodeTableStartBlock,
               sb.inodeCount, sb.dataBlockStart, sb.dataBlockCount]) + Fields(4, [sb.magicNumber, 0])
  }

  function DecodeSuper(s: seq<byte>): SuperBlock
    requires |s| == 64
  {
    SpanValues();
    var q := Parse(8, 7, s[..56]);
    SuperBlock(q[0], q[1], q[2], q[3], q[4], q[5], q[6], Parse(4, 2, s[56..])[0])
  }

  lemma SuperRoundTrip(sb: SuperBlock)
    ensures DecodeSuper(EncodeSuper(sb)) == sb
  {
    SpanValues();
    var q := [sb.totalBlocks, sb.inodeBitmapBlock, sb.dataBitmapBlock, sb.inodeTableStartBlock,
              sb.inodeCount, sb.dataBlockStart, sb.dataBlockCount];
    FieldsRoundTrip(8, q);
    FieldsRoundTrip(4, [sb.magicNumber, 0]);
    assert EncodeSuper(sb)[..56] == Fields(8, q);
    assert EncodeSuper(sb)[56..] == Fields(4, [sb.magicNumber, 0]);
  }

  /** Which bytes hold which field. */
  lemma SuperBytes(sb: SuperBlock)
    ensures var s := EncodeSuper(sb);
            && s[0..8] == ToLE(8, sb.totalBlocks) && s[8..16] == ToLE(8, sb.inodeBitmapBlock)
            && s[16..24] == ToLE(8, sb.dataBitmapBlock) && s[24..32] == ToLE(8, sb.inodeTableStartBlock)
            && s[32..40] == ToLE(8, sb.inodeCount) && s[40..48] == ToLE(8, sb.dataBlockStart)
            && s[48..56] == ToLE(8, sb.dataBlockCount)
            && s[56..60] == ToLE(4, sb.magicNumber) && s[60..64] == ToLE(4, 0)
  {
    hide ToLE;
    var q: seq<nat> := [sb.totalBlocks, sb.inodeBitmapBlock, sb.dataBitmapBlock, sb.inodeTableStartBlock,
                        sb.inodeCount, sb.dataBlockStart, sb.dataBlockCount];
    var m: seq<nat> := [sb.magicNumber, 0];
    FieldsAt(8, q, 0);
    FieldsAt(8, q, 1);
    FieldsAt(8, q, 2);
    FieldsAt(8, q, 3);
    FieldsAt(8, q, 4);
    FieldsAt(8, q, 5);
    FieldsAt(8, q, 6);
    FieldsAt(4, m, 0);
    FieldsAt(4, m, 1);
    hide Fields;
    var f, g, s := Fields(8, q), Fields(4, m), EncodeSuper(sb);
    assert s == f + g;
    PartOfFirst(f, g, 0);
    PartOfFirst(f, g, 8);
    PartOfFirst(f, g, 16);
    PartOfFirst(f, g, 24);
    PartOfFirst(f, g, 32);
    PartOfFirst(f, g, 40);
    PartOfFirst(f, g, 48);
    assert s[56..60] == g[0..4] && s[60..64] == g[4..8];
  }

  lemma PartOfFirst(f: seq<byte>, g: seq<byte>, at: nat)
    requires at + 8 <= |f|
    ensures (f + g)[at..at + 8] == f[at..at + 8]
  {
  }

  // ---------------------------------------------------------------- inodes

  datatype FileType = Unknown | File | Directory

  function FileTypeCode(t: FileType): u16 {
    match t case Unknown => 0 case File => 1 case Directory => 2
  }

  function FileTypeOf(code: u16): Option<FileType> {
    if code == 0 then Some(Unknown) else if code == 1 then Some(File)
    else if code == 2 then Some(Directory) else None
  }

  type Pointers = p: seq<u64> | |p| == 10 witness seq(10, _ => 0)

  datatype Inode = Inode(
    mode: FileType,
    userId: u16,
    groupId: u16,
    linkCount: u16,
    sizeInBytes: u64,
    lastAccessTime: u64,
    lastModificationTime: u64,
    creationTime: u64,
    directPointers: Pointers,
    indirectPointer: u64)

  function InodeWords(i: Inode): (w: seq<u64>)
    ensures |w| == 15
  {
    [i.sizeInBytes, i.lastAccessTime, i.lastModificationTime, i.creationTime]
    + i.directPointers + [i.indirectPointer]
  }

  function EncodeInode(i: Inode): (s: seq<byte>)
    ensures |s| == INODE_SIZE
  {
    Fields(8, InodeWords(i)) + Fields(2, [FileTypeCode(i.mode), i.userId, i.groupId, i.linkCount])
  }

  function DecodeInode(s: seq<byte>): Option<Inode>
    requires |s| == INODE_SIZE
  {
    SpanValues();
    var w := Parse(8, 15, s[..120]);
    var h := Parse(2, 4, s[120..]);
    match FileTypeOf(h[0])
    case None => None
    case Some(mode) => Some(Inode(mode, h[1], h[2], h[3], w[0], w[1], w[2], w[3], w[4..14], w[14]))
  }

  lemma InodeParts(i: Inode)
    ensures Parse(8, 15, EncodeInode(i)[..120]) == InodeWords(i)
    ensures Parse(2, 4, EncodeInode(i)[120..]) == [FileTypeCode(i.mode), i.userId, i.groupId, i.linkCount]
  {
    SpanValues();
    var w: seq<nat> := InodeWords(i);
    var h: seq<nat> := [FileTypeCode(i.mode), i.userId, i.groupId, i.linkCount];
    assert EncodeInode(i)[..120] == Fields(8, w) && EncodeInode(i)[120..] == Fields(2, h);
    FieldsRoundTrip(8, w);
    FieldsRoundTrip(2, h);
  }

  lemma InodeRoundTrip(i: Inode)
    ensures DecodeInode(EncodeInode(i)) == Some(i)
  {
    InodeParts(i);
    assert InodeWords(i)[4..14] == i.directPointers;
  }

  /** Which bytes hold which field; the file types are 0, 1 and 2. */
  lemma InodeBytes(i: Inode, k: nat)
    requires k < 10
    ensures var s := EncodeInode(i);
            && s[0..8] == ToLE(8, i.sizeInBytes) && s[8..16] == ToLE(8, i.lastAccessTime)
            && s[16..24] == ToLE(8, i.lastModificationTime) && s[24..32] == ToLE(8, i.creationTime)
            && s[32 + 8 * k..40 + 8 * k] == ToLE(8, i.directPointers[k]) && s[112..120] == ToLE(8, i.indirectPointer)
    ensures var s := EncodeInode(i);
            && s[120..122] == [match i.mode case Unknown => 0 case File => 1 case Directory => 2, 0]
            && s[122..124] == ToLE(2, i.userId) && s[124..126] == ToLE(2, i.groupId)
            && s[126..128] == ToLE(2, i.linkCount)
  {
    hide ToLE, Fields, EncodeInode;
    InodeHeader(i);
    InodeWordBytes(i, 0);
    InodeWordBytes(i, 1);
    InodeWordBytes(i, 2);
    InodeWordBytes(i, 3);
    InodeWordBytes(i, 4 + k);
    InodeWordBytes(i, 14);
  }

  lemma InodeHeader(i: Inode)
    ensures var s := EncodeInode(i);
            && s[120..122] == [match i.mode case Unknown => 0 case File => 1 case Directory => 2, 0]
            && s[122..124] == ToLE(2, i.userId) && s[124..126] == ToLE(2, i.groupId)
            && s[126..128] == ToLE(2, i.linkCount)
  {
    SmallInTwo(FileTypeCode(i.mode));
    hide ToLE, EncodeInode;
    HeaderField(i, 0);
    HeaderField(i, 1);
    HeaderField(i, 2);
    HeaderField(i, 3);
  }

  lemma HeaderField(i: Inode, j: nat)
    requires j < 4
    ensures EncodeInode(i)[120 + 2 * j..122 + 2 * j]
         == ToLE(2, [FileTypeCode(i.mode), i.userId, i.groupId, i.linkCount][j])
  {
    hide ToLE, InodeWords, FileTypeCode;
    var h: seq<nat> := [FileTypeCode(i.mode), i.userId, i.groupId, i.linkCount];
    FieldsAt(2, h, j);
    hide Fields;
    var f, g := Fields(8, InodeWords(i)), Fields(2, h);
    PartOfSecond(f, g, 2 * j);
  }

  lemma PartOfSecond(f: seq<byte>, g: seq<byte>, at: nat)
    requires at + 2 <= |g|
    ensures (f + g)[|f| + at..|f| + at + 2] == g[at..at + 2]
  {
  }

  lemma SmallInTwo(x: nat)
    requires x < 256
    ensures ToLE(2, x) == [x, 0]
  {
    assert ToLE(1, x / 256) == [0];
  }

  lemma InodeWordBytes(i: Inode, j: nat)
    requires j < 15
    ensures EncodeInode(i)[8 * j..8 * j + 8] == ToLE(8, InodeWords(i)[j])
  {
    hide ToLE, InodeWords;
    var w: seq<nat> := InodeWords(i);
    FieldsAt(8, w, j);
    PartOfFirst(Fields(8, w), Fields(2, [FileTypeCode(i.mode), i.userId, i.groupId, i.linkCount]), 8 * j);
  }

  /** Bytes are an inode exactly when their file type is one of the three. */
  lemma InodeOrNot(s: seq<byte>)
    requires |s| == INODE_SIZE
    ensures DecodeInode(s).Some? <==> s[120] <= 2 && s[121] == 0
  {
    var t := s[120..];
    assert t[0..2] == [s[120], s[121]];
    assert [s[120], s[121]][1..] == [s[121]] && [s[121]][1..] == [];
    assert FromLE([s[121]]) == s[121];
    var low: int, high: int := s[120], s[121];
    assert Parse(2, 4, t)[0] == FromLE(t[0..2]) == low + 256 * high;
  }

  // ---------------------------------------------------------------- directory entries

  datatype DirEntry = DirEntry(inode: u64, nameLen: u16, flags: u16, name: seq<byte>) {
    /** `flags & DIRENT_USED != 0` */
    predicate Used() { flags % 2 == 1 }
  }

  function DecodeEntry(s: seq<byte>): (e: DirEntry)
    requires |s| == DIR_ENTRY_SIZE
    ensures |e.name| == DIR_NAME_MAX
  {
    SpanValues();
    FromLEBound(s[..8]);
    FromLEBound(s[8..10]);
    FromLEBound(s[10..12]);
    DirEntry(FromLE(s[..8]), FromLE(s[8..10]), FromLE(s[10..12]), s[12..])
  }

  /** A used entry; the bytes after the name hold the fill value 8 of the source. */
  function EncodeEntry(inode: u64, name: seq<byte>): (s: seq<byte>)
    requires |name| <= DIR_NAME_MAX
    ensures |s| == DIR_ENTRY_SIZE
  {
    ToLE(8, inode) + ToLE(2, |name|) + ToLE(2, DIRENT_USED) + (name + seq(DIR_NAME_MAX - |name|, _ => 8))
  }

  lemma EntryRoundTrip(inode: u64, name: seq<byte>)
    requires |name| <= DIR_NAME_MAX
    ensures DecodeEntry(EncodeEntry(inode, name))
         == DirEntry(inode, |name|, DIRENT_USED, name + seq(DIR_NAME_MAX - |name|, _ => 8))
  {
    SpanValues();
    LERoundTrip(8, inode);
    LERoundTrip(2, |name|);
    LERoundTrip(2, DIRENT_USED);
    var s := EncodeEntry(inode, name);
    assert s[..8] == ToLE(8, inode) && s[8..10] == ToLE(2, |name|) && s[10..12] == ToLE(2, DIRENT_USED);
    assert s[12..] == name + seq(DIR_NAME_MAX - |name|, _ => 8);
  }

  /** Which bytes hold which field: little-endian inode and length, the flag, the name, and the fill value. */
  lemma EntryBytes(inode: u64, name: seq<byte>, k: nat)
    requires |name| <= DIR_NAME_MAX && k < DIR_ENTRY_SIZE
    ensures var s := EncodeEntry(inode, name);
            s[k] == if k < 8 then inode / Span(k) % 256
                    else if k == 8 then |name| else if k == 9 then 0
                    else if k == 10 then 1 else if k == 11 then 0
                    else if k < 12 + |name| then name[k - 12] else 8
  {
    SmallInTwo(|name|);
    SmallInTwo(DIRENT_USED);
    hide ToLE;
    if k < 8 { ToLEByte(8, inode, k); }
  }

  // ---------------------------------------------------------------- slots inside a block

  /** The inode in slot `k` of an inode-table block. */
  function InodeSlot(b: Block, k: nat): Option<Inode>
    requires k < INODES_PER_BLOCK
  {
    DecodeInode(b[k * INODE_SIZE..k * INODE_SIZE + INODE_SIZE])
  }

  function PutInode(b: Block, k: nat, i: Inode): Block
    requires k < INODES_PER_BLOCK
  {
    Splice(b, k * INODE_SIZE, EncodeInode(i))
  }

  /** The entry in slot `k` of a directory block. */
  function Entry(b: Block, k: nat): (e: DirEntry)
    requires k < DIR_ENTRIES_PER_BLOCK
    ensures |e.name| == DIR_NAME_MAX
  {
    DecodeEntry(b[k * DIR_ENTRY_SIZE..k * DIR_ENTRY_SIZE + DIR_ENTRY_SIZE])
  }

  function PutEntry(b: Block, k: nat, inode: u64, name: seq<byte>): Block
    requires k < DIR_ENTRIES_PER_BLOCK && |name| <= DIR_NAME_MAX
  {
    Splice(b, k * DIR_ENTRY_SIZE, EncodeEntry(inode, name))
  }

  /** Writing one inode slot: that slot reads back, the other slots of the block are untouched. */
  lemma PutInodeSlots(b: Block, k: nat, i: Inode)
    requires k < INODES_PER_BLOCK
    ensures InodeSlot(PutInode(b, k, i), k) == Some(i)
    ensures forall j: nat | j < INODES_PER_BLOCK && j != k :: InodeSlot(PutInode(b, k, i), j) == InodeSlot(b, j)
  {
    InodeRoundTrip(i);
    forall j: nat | j < INODES_PER_BLOCK && j != k
      ensures InodeSlot(PutInode(b, k, i), j) == InodeSlot(b, j)
    {
      SpliceElsewhere(b, k * INODE_SIZE, EncodeInode(i), j * INODE_SIZE, j * INODE_SIZE + INODE_SIZE);
    }
  }

  lemma PutEntrySlots(b: Block, k: nat, inode: u64, name: seq<byte>)
    requires k < DIR_ENTRIES_PER_BLOCK && |name| <= DIR_NAME_MAX
    ensures Entry(PutEntry(b, k, inode, name), k)
         == DirEntry(inode, |name|, DIRENT_USED, name + seq(DIR_NAME_MAX - |name|, _ => 8))
    ensures forall j: nat | j < DIR_ENTRIES_PER_BLOCK && j != k ::
              Entry(PutEntry(b, k, inode, name), j) == Entry(b, j)
  {
    EntryRoundTrip(inode, name);
    forall j: nat | j < DIR_ENTRIES_PER_BLOCK && j != k
      ensures Entry(PutEntry(b, k, inode, name), j) == Entry(b, j)
    {
      SpliceElsewhere(b, k * DIR_ENTRY_SIZE, EncodeEntry(inode, name),
                      j * DIR_ENTRY_SIZE, j * DIR_ENTRY_SIZE + DIR_ENTRY_SIZE);
    }
  }
}
