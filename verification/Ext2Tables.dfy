/** The allocation tables: reading them, moving the free counters, and giving blocks back. */
module Ext2Tables {
  import opened Bytes
  import opened Ext2Disk
  import opened Ext2Pointers
  import opened Ext2Owned
  import opened Ext2Inodes
  import opened Ext2Bitmap
  import opened Ext2View

  datatype Tables = Tables(
    blockBitmapNumber: u32,
    inodeBitmapNumber: u32,
    descriptor: Block,
    blockBitmap: Block,
    inodeBitmap: Block)

  function TablesOf(md: Metadata, d: seq<Block>): (r: Result<Tables>)
    requires Writable(md) && Sized(md, d)
    ensures r.Ok? ==> |r.value.descriptor| == |r.value.blockBitmap| == |r.value.inodeBitmap| == 1024
  {
    var bb, ib := BlockBitmapNumber(md, d), InodeBitmapNumber(md, d);
    if bb >= md.blocksCount || ib >= md.blocksCount then Err(InvalidFilesystem)
    else Ok(Tables(bb, ib, d[DESCRIPTOR], d[bb], d[ib]))
  }

  method ReadAllocationTables(disk: Disk, md: Metadata) returns (r: Result<Tables>)
    requires Writable(md) && Sized(md, disk.blocks)
    ensures Determined(disk.faulty, r, TablesOf(md, disk.blocks))
  {
    var descriptor :- disk.Read(md, md.firstDataBlock + 1);
    var bb, ib := Le32(descriptor, 0), Le32(descriptor, 4);
    if bb >= md.blocksCount || ib >= md.blocksCount {
      return Err(InvalidFilesystem);
    }
    var blockBitmap :- disk.Read(md, bb);
    var inodeBitmap :- disk.Read(md, ib);
    r := Ok(Tables(bb, ib, descriptor, blockBitmap, inodeBitmap));
  }

  // ---------- Counters ----------

  /** The descriptor and the superblock with both counters moved, if all four stay in range. */
  function Adjusted(descriptor: Block, superblock: Block, blocks: int, inodes: int): (r: Result<(Block, Block)>)
    requires |descriptor| == |superblock| == 1024
    ensures r.Ok? ==> |r.value.0| == |r.value.1| == 1024
  {
    var c := CountsOf(descriptor, superblock);
    if !(0 <= c.groupBlocks + blocks < U16_LIMIT) || !(0 <= c.groupInodes + inodes < U16_LIMIT) then Err(InvalidFilesystem)
    else if !(0 <= c.superBlocks + blocks < U32_LIMIT) || !(0 <= c.superInodes + inodes < U32_LIMIT) then Err(InvalidFilesystem)
    else
      Ok((Splice(Splice(descriptor, 12, Enc16(c.groupBlocks + blocks)), 14, Enc16(c.groupInodes + inodes)),
          Splice(Splice(superblock, 12, Enc32(c.superBlocks + blocks)), 16, Enc32(c.superInodes + inodes))))
  }

  function Moved(c: Counts, blocks: int, inodes: int): Counts
    requires 0 <= c.groupBlocks + blocks && 0 <= c.groupInodes + inodes
    requires 0 <= c.superBlocks + blocks && 0 <= c.superInodes + inodes
  {
    Counts(c.groupBlocks + blocks, c.groupInodes + inodes, c.superBlocks + blocks, c.superInodes + inodes)
  }

  lemma AdjustedMoves(descriptor: Block, superblock: Block, blocks: int, inodes: int)
    requires |descriptor| == |superblock| == 1024
    requires Adjusted(descriptor, superblock, blocks, inodes).Ok?
    ensures var (d, s) := Adjusted(descriptor, superblock, blocks, inodes).value;
            && CountsOf(d, s) == Moved(CountsOf(descriptor, superblock), blocks, inodes)
            && forall i :: 0 <= i < 12 ==> d[i] == descriptor[i]
  {
    hide Splice, Enc16, Enc32, Le16, Le32;
    var c := CountsOf(descriptor, superblock);
    var d1 := Splice(descriptor, 12, Enc16(c.groupBlocks + blocks));
    SpliceRead16(descriptor, 12, c.groupBlocks + blocks);
    SpliceRead16(d1, 14, c.groupInodes + inodes);
    SpliceKeeps16(d1, 14, Enc16(c.groupInodes + inodes), 12);
    var s1 := Splice(superblock, 12, Enc32(c.superBlocks + blocks));
    SpliceRead32(superblock, 12, c.superBlocks + blocks);
    SpliceRead32(s1, 16, c.superInodes + inodes);
    SpliceKeeps32(s1, 16, Enc32(c.superInodes + inodes), 12);
  }

  ghost predicate CountersMoved(md: Metadata, d: seq<Block>, d': seq<Block>, descriptor: Block, blocks: int, inodes: int)
    requires Writable(md) && Sized(md, d) && |descriptor| == 1024
  {
    if blocks == 0 && inodes == 0 then d' == d
    else
      var a := Adjusted(descriptor, d[SUPERBLOCK], blocks, inodes);
      a.Ok? && d' == d[DESCRIPTOR := a.value.0][SUPERBLOCK := a.value.1]
  }

  method UpdateFreeCounters(disk: Disk, md: Metadata, descriptor: Block, blocks: int, inodes: int, log: BlockTransaction?)
    returns (r: Result<()>)
    requires Writable(md) && Sized(md, disk.blocks) && |descriptor| == 1024
    requires log != null ==> log.Covers(disk.blocks)
    modifies disk, if log == null then {} else {log}
    ensures Sized(md, disk.blocks)
    ensures log != null ==> log.Covers(disk.blocks) && log.base == old(log.base)
    ensures r.Ok? ==> CountersMoved(md, old(disk.blocks), disk.blocks, descriptor, blocks, inodes)
    ensures r.Err? ==> disk.Fails(r.error) || r.error == InvalidFilesystem
    ensures r.Err? ==> disk.Fails(r.error) || Adjusted(descriptor, old(disk.blocks)[SUPERBLOCK], blocks, inodes).Err?
  {
    if blocks == 0 && inodes == 0 {
      return Ok(());
    }
    if !(0 <= Le16(descriptor, 12) + blocks < U16_LIMIT) || !(0 <= Le16(descriptor, 14) + inodes < U16_LIMIT) {
      return Err(InvalidFilesystem);
    }
    var superblock :- disk.Read(md, md.firstDataBlock);
    hide CountsOf;
    var adjusted :- Adjusted(descriptor, superblock, blocks, inodes);
    var _ :- Put(disk, md, log, md.firstDataBlock + 1, adjusted.0);
    r := Put(disk, md, log, md.firstDataBlock, adjusted.1);
  }

  /** On a well-laid-out disk the counter update changes the counters of the view and nothing else. */
  lemma CountersView(md: Metadata, d: seq<Block>, d': seq<Block>, blocks: int, inodes: int)
    requires Writable(md) && Sized(md, d) && Geometry(md, d)
    requires CountersMoved(md, d, d', d[DESCRIPTOR], blocks, inodes)
    ensures Sized(md, d') && Geometry(md, d')
    ensures var c := View(md, d).counts;
            && 0 <= c.groupBlocks + blocks && 0 <= c.groupInodes + inodes
            && 0 <= c.superBlocks + blocks && 0 <= c.superInodes + inodes
            && View(md, d') == View(md, d).(counts := Moved(c, blocks, inodes), data := d')
    ensures forall b: nat :: b < |d| && b !in View(md, d).layout ==> d'[b] == d[b]
  {
    hide CountsOf, Used, LiveInodes, RawInode, TableBlocks;
    if blocks != 0 || inodes != 0 {
      var a := Adjusted(d[DESCRIPTOR], d[SUPERBLOCK], blocks, inodes).value;
      AdjustedMoves(d[DESCRIPTOR], d[SUPERBLOCK], blocks, inodes);
      WriteDescriptor(md, d, a.0);
      WriteSuperblock(md, d[DESCRIPTOR := a.0], a.1);
    } else {
      assert Moved(View(md, d).counts, 0, 0) == View(md, d).counts;
    }
  }

  /** The counters of the view can move by so much. */
  predicate InRange(c: Counts, blocks: int, inodes: int) {
    && 0 <= c.groupBlocks + blocks < U16_LIMIT && 0 <= c.groupInodes + inodes < U16_LIMIT
    && 0 <= c.superBlocks + blocks < U32_LIMIT && 0 <= c.superInodes + inodes < U32_LIMIT
  }

  lemma CountersFit(md: Metadata, d: seq<Block>, blocks: int, inodes: int)
    requires Writable(md) && Sized(md, d) && Geometry(md, d)
    ensures Adjusted(d[DESCRIPTOR], d[SUPERBLOCK], blocks, inodes).Ok? <==> InRange(View(md, d).counts, blocks, inodes)
  {
    hide CountsOf, Used, LiveInodes, RawInode, TableBlocks;
  }

  // ---------- Giving blocks back ----------

  /** The blocks are in use, each listed once, and the counters can take them. */
  ghost predicate Freeable(md: Metadata, d: seq<Block>, blocks: seq<u32>) {
    && Writable(md) && Sized(md, d) && Geometry(md, d)
    && Set(blocks) <= View(md, d).used && Distinct(blocks) && InRange(View(md, d).counts, |blocks|, 0)
  }

  method FreeDataBlocks(disk: Disk, md: Metadata, blocks: seq<u32>, log: BlockTransaction) returns (r: Result<()>)
    requires Writable(md) && Sized(md, disk.blocks)
    requires log.Covers(disk.blocks)
    modifies disk, log
    ensures Sized(md, disk.blocks)
    ensures log.Covers(disk.blocks) && log.base == old(log.base)
    ensures r.Ok? && old(Geometry(md, disk.blocks)) ==> Freed(md, old(disk.blocks), disk.blocks, blocks)
    ensures r.Err? ==> disk.Fails(r.error) || r.error == InvalidFilesystem
    ensures r.Err? && old(Freeable(md, disk.blocks, blocks)) ==> disk.Fails(r.error)
  {
    hide CountsOf, Used, Adjusted;
    if |blocks| == 0 {
      assert Set([]) == {};
      return Ok(());
    }
    var tables :- ReadAllocationTables(disk, md);
    var bitmap :- FreeAll(md, tables.blockBitmap, blocks);
    ghost var d := disk.blocks;
    if Freeable(md, d, blocks) {
      CountersFit(md, d, |blocks|, 0);
    }
    var _ :- Put(disk, md, log, tables.blockBitmapNumber, bitmap);
    ghost var d1 := disk.blocks;
    r := UpdateFreeCounters(disk, md, tables.descriptor, |blocks|, 0, log);
    if r.Ok? && Geometry(md, d) {
      FreedView(md, d, d1, disk.blocks, bitmap, blocks);
    }
  }

  /** The view after the blocks were given back: fewer in use, the counters up, nothing else moved. */
  ghost predicate Freed(md: Metadata, d: seq<Block>, d': seq<Block>, blocks: seq<u32>)
    requires Writable(md) && Sized(md, d) && Sized(md, d') && Geometry(md, d)
  {
    && Geometry(md, d')
    && Set(blocks) <= View(md, d).used
    && View(md, d') == View(md, d).(used := View(md, d).used - Set(blocks), counts := Moved(View(md, d).counts, |blocks|, 0), data := d')
    && forall b: nat :: b < |d| && b !in View(md, d).layout ==> d'[b] == d[b]
  }

  lemma FreedView(md: Metadata, d: seq<Block>, d1: seq<Block>, d': seq<Block>, bitmap: Block, blocks: seq<u32>)
    requires Writable(md) && Sized(md, d) && Sized(md, d1) && Sized(md, d') && Geometry(md, d)
    requires |bitmap| == 1024 && Set(blocks) <= Used(md, d[BlockBitmapNumber(md, d)])
    requires Used(md, bitmap) == Used(md, d[BlockBitmapNumber(md, d)]) - Set(blocks)
    requires d1 == d[BlockBitmapNumber(md, d) := bitmap]
    requires CountersMoved(md, d1, d', d[DESCRIPTOR], |blocks|, 0)
    ensures Freed(md, d, d', blocks)
  {
    hide Used, LiveInodes, RawInode, CountsOf, TableBlocks, CountersMoved;
    WriteBlockBitmap(md, d, bitmap);
    CountersView(md, d1, d', |blocks|, 0);
  }

  // ---------- Storing an inode ----------

  ghost predicate InodeStored(md: Metadata, d: seq<Block>, d': seq<Block>, n: nat, inode: Inode, isNew: bool)
    requires Mounted(md) && Sized(md, d) && inode.size < U32_LIMIT
  {
    var s := StoreInode(md, d, n, inode, isNew);
    s.Ok? && s.value.0 < |d| && d' == d[s.value.0 := s.value.1]
  }

  lemma InodeStoredView(md: Metadata, d: seq<Block>, d': seq<Block>, n: nat, inode: Inode, isNew: bool)
    requires Writable(md) && Sized(md, d) && Sized(md, d') && Geometry(md, d)
    requires 1 <= n <= md.inodesCount && inode.size < U32_LIMIT
    requires InodeStored(md, d, d', n, inode, isNew)
    ensures Geometry(md, d')
    ensures View(md, d') == View(md, d).(inodes := View(md, d).inodes[n := inode], data := d')
    ensures forall b: nat :: b < |d| && b !in View(md, d).layout ==> d'[b] == d[b]
  {
    hide StoreInode, Used, LiveInodes, RawInode, CountsOf, TableBlocks;
    WriteInode(md, d, n, inode, isNew);
  }

  /** The inode with one link more or less; the counter is sixteen bits wide. */
  function Relinked(inode: Inode, increase: bool): Result<Inode> {
    if increase && inode.links == U16_LIMIT - 1 then Err(InvalidFilesystem)
    else if !increase && inode.links == 0 then Err(InvalidFilesystem)
    else if inode.size >= U32_LIMIT then Err(UnsupportedFeature)
    else Ok(inode.(links := if increase then inode.links + 1 else inode.links - 1))
  }

  method UpdateDirectoryLinkCount(disk: Disk, md: Metadata, n: nat, increase: bool) returns (r: Result<()>)
    requires Mounted(md) && Sized(md, disk.blocks)
    modifies disk
    ensures Sized(md, disk.blocks)
    ensures r.Ok? ==> LinksMoved(md, old(disk.blocks), disk.blocks, n, increase)
    ensures r.Err? && old(Relinkable(md, disk.blocks, n, increase)) ==> disk.Fails(r.error)
  {
    hide StoreInode, ReadInode, PointersOnDisk;
    if Relinkable(md, disk.blocks, n, increase) {
      RelinkStores(md, disk.blocks, n, increase);
    }
    var inode :- LoadInode(disk, md, n);
    var moved :- Relinked(inode, increase);
    r := WriteInodeFields(disk, md, n, moved, false, null);
  }

  /** The inode is sound and its link count can move. */
  ghost predicate Relinkable(md: Metadata, d: seq<Block>, n: nat, increase: bool) {
    && Writable(md) && Sized(md, d) && Geometry(md, d) && 1 <= n <= md.inodesCount
    && PointersOnDisk(md, View(md, d).inodes[n]) && Relinked(View(md, d).inodes[n], increase).Ok?
  }

  lemma RelinkStores(md: Metadata, d: seq<Block>, n: nat, increase: bool)
    requires Relinkable(md, d, n, increase)
    ensures ReadInode(md, d, n) == Ok(View(md, d).inodes[n])
    ensures var store := StoreInode(md, d, n, Relinked(View(md, d).inodes[n], increase).value, false);
            store.Ok? && store.value.0 < md.blocksCount
  {
    hide StoreInode, ReadInode, PointersOnDisk, Used, LiveInodes, Layout, CountsOf, RawInode, TableBlocks;
    ReadIsView(md, d, n);
    StoreIs(md, d, n, Relinked(View(md, d).inodes[n], increase).value, false);
  }

  ghost predicate LinksMoved(md: Metadata, d: seq<Block>, d': seq<Block>, n: nat, increase: bool)
    requires Mounted(md) && Sized(md, d)
  {
    var inode := ReadInode(md, d, n);
    && inode.Ok? && Relinked(inode.value, increase).Ok?
    && InodeStored(md, d, d', n, Relinked(inode.value, increase).value, false)
  }

  lemma LinksMovedView(md: Metadata, d: seq<Block>, d': seq<Block>, n: nat, increase: bool)
    requires Writable(md) && Sized(md, d) && Sized(md, d') && Geometry(md, d) && 1 <= n <= md.inodesCount
    requires LinksMoved(md, d, d', n, increase)
    ensures Geometry(md, d')
    ensures Relinked(View(md, d).inodes[n], increase).Ok?
    ensures View(md, d') == View(md, d).(inodes := View(md, d).inodes[n := Relinked(View(md, d).inodes[n], increase).value], data := d')
    ensures forall b: nat :: b < |d| && b !in View(md, d).layout ==> d'[b] == d[b]
  {
    hide ReadInode, InodeStored, Used, LiveInodes, CountsOf, TableBlocks, Layout;
    ReadIsView(md, d, n);
    InodeStoredView(md, d, d', n, Relinked(View(md, d).inodes[n], increase).value, false);
  }
}
