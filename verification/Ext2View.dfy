/** The state that the bytes of a writable disk encode, and how each kind of block write changes it. */
module Ext2View {
  import opened Bytes
  import opened Ext2Disk
  import opened Ext2Pointers
  import opened Ext2Inodes
  import opened Ext2Bitmap

  const SUPERBLOCK := 1
  const DESCRIPTOR := 2

  function BlockBitmapNumber(md: Metadata, d: seq<Block>): u32
    requires Writable(md) && Sized(md, d)
  {
    Le32(d[DESCRIPTOR], 0)
  }

  function InodeBitmapNumber(md: Metadata, d: seq<Block>): u32
    requires Writable(md) && Sized(md, d)
  {
    Le32(d[DESCRIPTOR], 4)
  }

  function InodeTable(md: Metadata, d: seq<Block>): u32
    requires Writable(md) && Sized(md, d)
  {
    Le32(d[DESCRIPTOR], 8)
  }

  /** The four free counters: blocks and inodes, in the group descriptor and in the superblock. */
  datatype Counts = Counts(groupBlocks: nat, groupInodes: nat, superBlocks: nat, superInodes: nat)

  function CountsOf(descriptor: Block, superblock: Block): Counts
    requires |descriptor| == |superblock| == 1024
  {
    Counts(Le16(descriptor, 12), Le16(descriptor, 14), Le32(superblock, 12), Le32(superblock, 16))
  }

  /** The layout blocks of the single group, none of them inside another. */
  predicate Geometry(md: Metadata, d: seq<Block>)
    requires Writable(md) && Sized(md, d)
  {
    var bb, ib, it := BlockBitmapNumber(md, d), InodeBitmapNumber(md, d), InodeTable(md, d);
    && DESCRIPTOR < bb < md.blocksCount
    && DESCRIPTOR < ib < md.blocksCount
    && DESCRIPTOR < it && it + TableBlocks(md) <= md.blocksCount
    && bb != ib
    && !InTable(md, it, bb)
    && !InTable(md, it, ib)
  }

  predicate InTable(md: Metadata, it: nat, b: nat)
    requires Mounted(md)
  {
    it <= b < it + TableBlocks(md)
  }

  ghost function Layout(md: Metadata, bb: nat, ib: nat, it: nat): set<nat>
    requires Mounted(md)
  {
    {0, SUPERBLOCK, DESCRIPTOR, bb, ib} + set b: nat | b < it + TableBlocks(md) && InTable(md, it, b)
  }

  /** Inode `n` as the table holds it, before its pointers are checked. */
  function RawInode(md: Metadata, d: seq<Block>, n: nat): Inode
    requires Writable(md) && Sized(md, d) && Geometry(md, d) && 1 <= n <= md.inodesCount
  {
    SlotInTable(md, n);
    SlotInode(d[InodeTable(md, d) + (n - 1) / 8], (n - 1) % 8)
  }

  /** The inode in one of the eight slots of a table block. */
  function SlotInode(block: Block, slot: nat): Inode
    requires |block| == 1024 && slot < 8
  {
    Decode(block[128 * slot..128 * slot + 128])
  }

  lemma SlotInTable(md: Metadata, n: nat)
    requires Writable(md) && 1 <= n <= md.inodesCount
    ensures (n - 1) / 8 < TableBlocks(md)
  {
    var span := md.inodesPerGroup * md.inodeSize;
    assert span == md.inodesPerGroup * 128;
  }

  datatype Fs = Fs(
    md: Metadata,
    layout: set<nat>,
    used: set<nat>,
    live: set<nat>,
    inodes: map<nat, Inode>,
    counts: Counts,
    data: seq<Block>)

  predicate IsLive(md: Metadata, bitmap: Block, n: nat)
    requires Writable(md) && IsBitmap(bitmap)
  {
    1 <= n <= md.inodesCount && Marked(bitmap, n - 1)
  }

  ghost function LiveInodes(md: Metadata, bitmap: Block): set<nat>
    requires Writable(md) && IsBitmap(bitmap)
  {
    set n: nat | n <= md.inodesCount && IsLive(md, bitmap, n)
  }

  ghost function View(md: Metadata, d: seq<Block>): Fs
    requires Writable(md) && Sized(md, d) && Geometry(md, d)
  {
    var bb, ib, it := BlockBitmapNumber(md, d), InodeBitmapNumber(md, d), InodeTable(md, d);
    Fs(
      md,
      Layout(md, bb, ib, it),
      Used(md, d[bb]),
      LiveInodes(md, d[ib]),
      map n: nat | 1 <= n <= md.inodesCount :: RawInode(md, d, n),
      CountsOf(d[DESCRIPTOR], d[SUPERBLOCK]),
      d)
  }

  // ---------- What each block write does to the view ----------

  /** A write that leaves the first twelve bytes of the descriptor, and the inode table, alone. */
  lemma FrameInodes(md: Metadata, d: seq<Block>, d': seq<Block>)
    requires Writable(md) && Sized(md, d) && Sized(md, d') && Geometry(md, d)
    requires forall i :: 0 <= i < 12 ==> d'[DESCRIPTOR][i] == d[DESCRIPTOR][i]
    requires forall b: nat :: b < |d| && InTable(md, InodeTable(md, d), b) ==> d'[b] == d[b]
    ensures Geometry(md, d')
    ensures BlockBitmapNumber(md, d') == BlockBitmapNumber(md, d)
    ensures InodeBitmapNumber(md, d') == InodeBitmapNumber(md, d)
    ensures InodeTable(md, d') == InodeTable(md, d)
    ensures forall n: nat :: 1 <= n <= md.inodesCount ==> RawInode(md, d', n) == RawInode(md, d, n)
  {
    hide SlotInode, TableBlocks;
    forall n: nat | 1 <= n <= md.inodesCount
      ensures RawInode(md, d', n) == RawInode(md, d, n)
    {
      SlotInTable(md, n);
      assert InTable(md, InodeTable(md, d), InodeTable(md, d) + (n - 1) / 8);
    }
  }

  /** The view depends on the layout blocks alone, but for the data it shows. */
  lemma SameLayout(md: Metadata, d: seq<Block>, d': seq<Block>)
    requires Writable(md) && Sized(md, d) && Sized(md, d') && Geometry(md, d)
    requires forall b: nat :: b < |d| && b in View(md, d).layout ==> d'[b] == d[b]
    ensures Geometry(md, d') && View(md, d') == View(md, d).(data := d')
  {
    hide Used, LiveInodes, RawInode, TableBlocks, CountsOf;
    FrameInodes(md, d, d');
  }

  lemma WriteOutside(md: Metadata, d: seq<Block>, b: nat, block: Block)
    requires Writable(md) && Sized(md, d) && Geometry(md, d) && b < |d| && |block| == 1024
    requires b !in View(md, d).layout
    ensures Sized(md, d[b := block]) && Geometry(md, d[b := block])
    ensures View(md, d[b := block]) == View(md, d).(data := d[b := block])
  {
    hide Used, LiveInodes, RawInode, TableBlocks;
    FrameInodes(md, d, d[b := block]);
  }

  lemma WriteBlockBitmap(md: Metadata, d: seq<Block>, block: Block)
    requires Writable(md) && Sized(md, d) && Geometry(md, d) && |block| == 1024
    ensures var d' := d[BlockBitmapNumber(md, d) := block];
            Sized(md, d') && Geometry(md, d') && View(md, d') == View(md, d).(used := Used(md, block), data := d')
  {
    hide Used, LiveInodes, RawInode, TableBlocks;
    FrameInodes(md, d, d[BlockBitmapNumber(md, d) := block]);
  }

  lemma WriteInodeBitmap(md: Metadata, d: seq<Block>, block: Block)
    requires Writable(md) && Sized(md, d) && Geometry(md, d) && |block| == 1024
    ensures var d' := d[InodeBitmapNumber(md, d) := block];
            Sized(md, d') && Geometry(md, d') && View(md, d') == View(md, d).(live := LiveInodes(md, block), data := d')
  {
    hide Used, LiveInodes, RawInode, TableBlocks;
    FrameInodes(md, d, d[InodeBitmapNumber(md, d) := block]);
  }

  lemma WriteDescriptor(md: Metadata, d: seq<Block>, block: Block)
    requires Writable(md) && Sized(md, d) && Geometry(md, d) && |block| == 1024
    requires forall i :: 0 <= i < 12 ==> block[i] == d[DESCRIPTOR][i]
    ensures var d' := d[DESCRIPTOR := block];
            && Sized(md, d') && Geometry(md, d')
            && View(md, d') == View(md, d).(counts := CountsOf(block, d[SUPERBLOCK]), data := d')
  {
    hide Used, LiveInodes, RawInode, CountsOf, TableBlocks;
    FrameInodes(md, d, d[DESCRIPTOR := block]);
  }

  lemma WriteSuperblock(md: Metadata, d: seq<Block>, block: Block)
    requires Writable(md) && Sized(md, d) && Geometry(md, d) && |block| == 1024
    ensures var d' := d[SUPERBLOCK := block];
            && Sized(md, d') && Geometry(md, d')
            && View(md, d') == View(md, d).(counts := CountsOf(d[DESCRIPTOR], block), data := d')
  {
    hide Used, LiveInodes, RawInode, CountsOf, TableBlocks;
    FrameInodes(md, d, d[SUPERBLOCK := block]);
  }

  /** Rewriting one slot of a table block leaves the other seven inodes alone. */
  lemma OtherSlots(block: Block, slot: nat, raw: seq<byte>, other: nat)
    requires |block| == 1024 && slot < 8 && other < 8 && |raw| == 128
    ensures SlotInode(Splice(block, 128 * slot, raw), other) == if other == slot then Decode(raw) else SlotInode(block, other)
  {
    var s := Splice(block, 128 * slot, raw);
    if other == slot {
      assert s[128 * slot..128 * slot + 128] == raw;
    } else {
      assert s[128 * other..128 * other + 128] == block[128 * other..128 * other + 128];
    }
  }

  /** In the single group, inode `n` is slot `(n - 1) % 8` of table block `(n - 1) / 8`. */
  lemma Located(md: Metadata, n: nat)
    requires Writable(md) && 1 <= n <= md.inodesCount
    ensures (n - 1) / md.inodesPerGroup == 0
    ensures Blocks(md, TablePosition(md, n)) == (n - 1) / 8
    ensures Within(md, TablePosition(md, n)) == 128 * ((n - 1) % 8)
  {
    assert n - 1 < md.inodesPerGroup;
    Remainder(n - 1, md.inodesPerGroup);
    assert TablePosition(md, n) == (n - 1) * 128;
  }

  lemma Remainder(a: nat, b: nat)
    requires a < b
    ensures a / b == 0 && a % b == a
  {
  }

  lemma TableStartIs(md: Metadata, d: seq<Block>)
    requires Writable(md) && Sized(md, d) && Geometry(md, d)
    ensures TableStart(md, d, 0) == Ok(InodeTable(md, d) as nat)
  {
    assert Blocks(md, 32 * 0) == 0 && Within(md, 32 * 0) == 0;
  }

  /** `read_inode` gives the inode of the view, once its pointers are on the disk. */
  lemma ReadIsView(md: Metadata, d: seq<Block>, n: nat)
    requires Writable(md) && Sized(md, d) && Geometry(md, d) && 1 <= n <= md.inodesCount
    ensures ReadInode(md, d, n) ==
            if PointersOnDisk(md, RawInode(md, d, n)) then Ok(RawInode(md, d, n)) else Err(InvalidFilesystem)
  {
    hide PointersOnDisk, Decode, TableStart, Blocks, TableBlocks, InodeTable;
    Located(md, n);
    TableStartIs(md, d);
    SlotInTable(md, n);
  }

  /** The table block `write_inode_fields` writes: the old one with the slot of `n` re-encoded. */
  lemma StoreIs(md: Metadata, d: seq<Block>, n: nat, inode: Inode, isNew: bool)
    requires Writable(md) && Sized(md, d) && Geometry(md, d) && 1 <= n <= md.inodesCount && inode.size < U32_LIMIT
    ensures var slot, b := (n - 1) % 8, InodeTable(md, d) + (n - 1) / 8;
            && b < |d| && InTable(md, InodeTable(md, d), b)
            && StoreInode(md, d, n, inode, isNew) ==
               Ok((b, Splice(d[b], 128 * slot, Encode(d[b][128 * slot..128 * slot + 128], inode, isNew))))
  {
    hide Encode, TableStart, Blocks, TableBlocks, TablePosition, InodeTable;
    Located(md, n);
    TableStartIs(md, d);
    SlotInTable(md, n);
  }

  lemma WriteInode(md: Metadata, d: seq<Block>, n: nat, inode: Inode, isNew: bool)
    requires Writable(md) && Sized(md, d) && Geometry(md, d) && 1 <= n <= md.inodesCount && inode.size < U32_LIMIT
    ensures StoreInode(md, d, n, inode, isNew).Ok?
    ensures var (b, block) := StoreInode(md, d, n, inode, isNew).value;
            b < |d| && var d' := d[b := block];
            && InTable(md, InodeTable(md, d), b)
            && Sized(md, d') && Geometry(md, d')
            && View(md, d') == View(md, d).(inodes := View(md, d).inodes[n := inode], data := d')
  {
    hide Encode, Decode, StoreInode, SlotInode, TableBlocks, Used, LiveInodes, CountsOf;
    StoreIs(md, d, n, inode, isNew);
    var (b, block) := StoreInode(md, d, n, inode, isNew).value;
    var d' := d[b := block];
    var slot := (n - 1) % 8;
    var raw := d[b][128 * slot..128 * slot + 128];
    DecodeEncode(raw, inode, isNew);
    forall m: nat | 1 <= m <= md.inodesCount
      ensures RawInode(md, d', m) == if m == n then inode else RawInode(md, d, m)
    {
      SlotInTable(md, m);
      OtherSlots(d[b], slot, Encode(raw, inode, isNew), (m - 1) % 8);
    }
  }
}
