/** The commit of `write_file`: bitmaps, counters, inode and directory entry, all through one undo log. */
module Ext2Commit {
  import opened Bytes
  import opened Ext2Disk
  import opened Ext2Pointers
  import opened Ext2Records
  import opened Ext2Directory
  import opened Ext2Inodes
  import opened Ext2Bitmap
  import opened Ext2View
  import opened Ext2Tables

  /** What is to be committed. */
  datatype Intent = Intent(
    bitmap: Block,
    took: nat,
    isNew: bool,
    ino: nat,
    inode: Inode,
    dir: Inode,
    name: seq<byte>)
  {
    function BlockDelta(): int { var t: int := took; -t }
    function InodeDelta(): int { if isNew then -1 else 0 }
  }

  lemma LiveToggle(md: Metadata, bitmap: Block, n: nat)
    requires Writable(md) && IsBitmap(bitmap) && 1 <= n <= md.inodesCount
    ensures !Marked(bitmap, n - 1) ==> LiveInodes(md, Toggle(bitmap, n - 1)) == LiveInodes(md, bitmap) + {n}
    ensures Marked(bitmap, n - 1) ==> LiveInodes(md, Toggle(bitmap, n - 1)) == LiveInodes(md, bitmap) - {n}
  {
    hide Toggle, Marked;
    var after := Toggle(bitmap, n - 1);
    forall m: nat | 1 <= m <= md.inodesCount
      ensures IsLive(md, after, m) <==> (if m == n then !IsLive(md, bitmap, m) else IsLive(md, bitmap, m))
    {
      ToggleMarks(bitmap, n - 1, m - 1);
    }
  }

  /** The inode bitmap after `|=` of the bit of inode `n`. */
  function WithInode(bitmap: Block, n: nat): (s: Block)
    requires IsBitmap(bitmap) && 1 <= n <= 8192
    ensures |s| == 1024
  {
    if Marked(bitmap, n - 1) then bitmap else Toggle(bitmap, n - 1)
  }

  predicate Sensible(md: Metadata, tables: Tables, intent: Intent) {
    && Writable(md)
    && |tables.descriptor| == |tables.inodeBitmap| == |intent.bitmap| == 1024
    && tables.blockBitmapNumber < md.blocksCount && tables.inodeBitmapNumber < md.blocksCount
    && 1 <= intent.ino < U32_LIMIT
    && (intent.isNew ==> intent.ino <= md.inodesCount)
    && intent.inode.size < U32_LIMIT
    && |intent.name| < 256
  }

  method CommitBitmaps(disk: Disk, md: Metadata, tables: Tables, intent: Intent, log: BlockTransaction) returns (r: Result<()>)
    requires Sensible(md, tables, intent) && Sized(md, disk.blocks) && log.Covers(disk.blocks)
    modifies disk, log
    ensures Sized(md, disk.blocks) && log.Covers(disk.blocks) && log.base == old(log.base)
    ensures r.Ok? ==> BitmapsWritten(md, old(disk.blocks), disk.blocks, tables, intent)
    ensures r.Err? ==> disk.Fails(r.error)
  {
    if intent.took != 0 {
      var _ :- log.Write(disk, md, tables.blockBitmapNumber, intent.bitmap);
    }
    r := Ok(());
    if intent.isNew {
      r := log.Write(disk, md, tables.inodeBitmapNumber, WithInode(tables.inodeBitmap, intent.ino));
    }
  }

  ghost predicate BitmapsWritten(md: Metadata, d: seq<Block>, d': seq<Block>, tables: Tables, intent: Intent)
    requires Sensible(md, tables, intent) && Sized(md, d)
  {
    var d1 := if intent.took != 0 then d[tables.blockBitmapNumber := intent.bitmap] else d;
    d' == if intent.isNew then d1[tables.inodeBitmapNumber := WithInode(tables.inodeBitmap, intent.ino)] else d1
  }

  method Commit(disk: Disk, md: Metadata, tables: Tables, intent: Intent, log: BlockTransaction) returns (r: Result<()>)
    requires Sensible(md, tables, intent) && Sized(md, disk.blocks) && log.Covers(disk.blocks)
    modifies disk, log
    ensures Sized(md, disk.blocks) && log.Covers(disk.blocks) && log.base == old(log.base)
    ensures r.Ok? && old(Ready(md, disk.blocks, tables, intent)) ==> Committed(md, old(disk.blocks), disk.blocks, intent)
    ensures r.Err? && old(Ready(md, disk.blocks, tables, intent) && Affordable(md, disk.blocks, intent)) ==> disk.Fails(r.error)
  {
    hide Sensible, BitmapsWritten, CountersMoved, Committed, Ready, Affordable, StoreInode, AddEntry;
    ghost var d := disk.blocks;
    var _ :- CommitBitmaps(disk, md, tables, intent, log);
    ghost var d2 := disk.blocks;
    if Ready(md, d, tables, intent) && Affordable(md, d, intent) {
      CountersWillMove(md, d, d2, tables, intent);
    }
    var _ :- CommitCounters(disk, md, tables, intent, log);
    ghost var d3 := disk.blocks;
    if Ready(md, d, tables, intent) && Affordable(md, d, intent) {
      InodeWillStore(md, d, d2, d3, tables, intent);
    }
    var _ :- CommitInode(disk, md, tables, intent, log);
    ghost var d4 := disk.blocks;
    if Ready(md, d, tables, intent) && Affordable(md, d, intent) {
      EntryWillFit(md, d, d2, d3, d4, tables, intent);
    }
    r := CommitEntry(disk, md, tables, intent, log);
    if r.Ok? && Ready(md, d, tables, intent) {
      CommitView(md, d, d2, d3, d4, disk.blocks, tables, intent);
    }
  }

  method CommitCounters(disk: Disk, md: Metadata, tables: Tables, intent: Intent, log: BlockTransaction) returns (r: Result<()>)
    requires Sensible(md, tables, intent) && Sized(md, disk.blocks) && log.Covers(disk.blocks)
    modifies disk, log
    ensures Sized(md, disk.blocks) && log.Covers(disk.blocks) && log.base == old(log.base)
    ensures r.Ok? ==> CountersMoved(md, old(disk.blocks), disk.blocks, tables.descriptor, intent.BlockDelta(), intent.InodeDelta())
    ensures r.Err? ==> disk.Fails(r.error) || Adjusted(tables.descriptor, old(disk.blocks)[SUPERBLOCK], intent.BlockDelta(), intent.InodeDelta()).Err?
  {
    r := UpdateFreeCounters(disk, md, tables.descriptor, intent.BlockDelta(), intent.InodeDelta(), log);
  }

  method CommitInode(disk: Disk, md: Metadata, tables: Tables, intent: Intent, log: BlockTransaction) returns (r: Result<()>)
    requires Sensible(md, tables, intent) && Sized(md, disk.blocks) && log.Covers(disk.blocks)
    modifies disk, log
    ensures Sized(md, disk.blocks) && log.Covers(disk.blocks) && log.base == old(log.base)
    ensures r.Ok? ==> InodeStored(md, old(disk.blocks), disk.blocks, intent.ino, intent.inode, intent.isNew)
    ensures var store := StoreInode(md, old(disk.blocks), intent.ino, intent.inode, intent.isNew);
            r.Err? ==> disk.Fails(r.error) || store.Err? || store.value.0 >= md.blocksCount
  {
    r := WriteInodeFields(disk, md, intent.ino, intent.inode, intent.isNew, log);
  }

  method CommitEntry(disk: Disk, md: Metadata, tables: Tables, intent: Intent, log: BlockTransaction) returns (r: Result<()>)
    requires Sensible(md, tables, intent) && Sized(md, disk.blocks) && log.Covers(disk.blocks)
    modifies disk, log
    ensures Sized(md, disk.blocks) && log.Covers(disk.blocks) && log.base == old(log.base)
    ensures r.Ok? ==> EntryWritten(md, old(disk.blocks), disk.blocks, intent)
    ensures r.Err? ==> disk.Fails(r.error) || (intent.isNew && AddEntry(md, old(disk.blocks), intent.dir, intent.name, intent.ino, 1).Err?)
  {
    r := Ok(());
    if intent.isNew {
      r := AddDirectoryEntry(disk, md, intent.dir, intent.name, intent.ino, 1, log);
    }
  }

  ghost predicate EntryWritten(md: Metadata, d: seq<Block>, d': seq<Block>, intent: Intent)
    requires Mounted(md) && Sized(md, d) && |intent.name| < 256 && 1 <= intent.ino < U32_LIMIT
  {
    if intent.isNew then
      var a := AddEntry(md, d, intent.dir, intent.name, intent.ino, 1);
      a.Ok? && a.value.0 < |d| && d' == d[a.value.0 := a.value.1]
    else d' == d
  }

  // ---------- The committed state ----------

  /** The disk is well laid out, the tables were read from it, and the intent only takes what is free. */
  ghost predicate Ready(md: Metadata, d: seq<Block>, tables: Tables, intent: Intent)
    requires Sensible(md, tables, intent) && Sized(md, d)
  {
    && Geometry(md, d)
    && TablesOf(md, d) == Ok(tables)
    && intent.ino <= md.inodesCount
    && (intent.took == 0 ==> Used(md, intent.bitmap) == View(md, d).used)
    && (intent.isNew ==> intent.ino !in View(md, d).live && intent.dir.blocks[0] as nat !in View(md, d).layout)
  }

  ghost predicate Committed(md: Metadata, d: seq<Block>, d': seq<Block>, intent: Intent)
    requires Writable(md) && Sized(md, d) && Sized(md, d') && Geometry(md, d)
    requires |intent.bitmap| == 1024 && |intent.name| < 256 && 1 <= intent.ino < U32_LIMIT
  {
    var fs := View(md, d);
    && Geometry(md, d')
    && 0 <= fs.counts.groupBlocks + intent.BlockDelta() && 0 <= fs.counts.superBlocks + intent.BlockDelta()
    && 0 <= fs.counts.groupInodes + intent.InodeDelta() && 0 <= fs.counts.superInodes + intent.InodeDelta()
    && View(md, d') == fs.(used := Used(md, intent.bitmap),
                           live := if intent.isNew then fs.live + {intent.ino} else fs.live,
                           inodes := fs.inodes[intent.ino := intent.inode],
                           counts := Moved(fs.counts, intent.BlockDelta(), intent.InodeDelta()),
                           data := d')
    && (intent.isNew ==> AddEntry(md, d, intent.dir, intent.name, intent.ino, 1).Ok?)
    && (forall b: nat :: b < |d| && b !in fs.layout ==>
          d'[b] == if intent.isNew && b == intent.dir.blocks[0]
                   then AddEntry(md, d, intent.dir, intent.name, intent.ino, 1).value.1
                   else d[b])
  }

  /** The counters cover what is taken, and the directory has room for the name. */
  ghost predicate Affordable(md: Metadata, d: seq<Block>, intent: Intent) {
    && Writable(md) && Sized(md, d) && Geometry(md, d)
    && InRange(View(md, d).counts, intent.BlockDelta(), intent.InodeDelta())
    && (intent.isNew ==> |intent.name| < 256 && 1 <= intent.ino < U32_LIMIT && AddEntry(md, d, intent.dir, intent.name, intent.ino, 1).Ok?)
  }

  lemma CountersWillMove(md: Metadata, d: seq<Block>, d2: seq<Block>, tables: Tables, intent: Intent)
    requires Sensible(md, tables, intent) && Sized(md, d) && Sized(md, d2) && Ready(md, d, tables, intent) && Affordable(md, d, intent)
    requires BitmapsWritten(md, d, d2, tables, intent)
    ensures Adjusted(tables.descriptor, d2[SUPERBLOCK], intent.BlockDelta(), intent.InodeDelta()).Ok?
  {
    hide Used, BitmapsWritten, View, AddEntry, Adjusted;
    BitmapsView(md, d, d2, tables, intent);
    CountersFit(md, d2, intent.BlockDelta(), intent.InodeDelta());
  }

  lemma InodeWillStore(md: Metadata, d: seq<Block>, d2: seq<Block>, d3: seq<Block>, tables: Tables, intent: Intent)
    requires Sensible(md, tables, intent) && Sized(md, d) && Sized(md, d2) && Sized(md, d3) && Ready(md, d, tables, intent)
    requires BitmapsWritten(md, d, d2, tables, intent)
    requires CountersMoved(md, d2, d3, tables.descriptor, intent.BlockDelta(), intent.InodeDelta())
    ensures var store := StoreInode(md, d3, intent.ino, intent.inode, intent.isNew);
            store.Ok? && store.value.0 < md.blocksCount
  {
    hide Used, BitmapsWritten, CountersMoved, View, StoreInode, Encode;
    BitmapsView(md, d, d2, tables, intent);
    CountersView(md, d2, d3, intent.BlockDelta(), intent.InodeDelta());
    StoreIs(md, d3, intent.ino, intent.inode, intent.isNew);
  }

  lemma EntryWillFit(md: Metadata, d: seq<Block>, d2: seq<Block>, d3: seq<Block>, d4: seq<Block>, tables: Tables, intent: Intent)
    requires Sensible(md, tables, intent) && Sized(md, d) && Sized(md, d2) && Sized(md, d3) && Sized(md, d4)
    requires Ready(md, d, tables, intent) && Affordable(md, d, intent)
    requires BitmapsWritten(md, d, d2, tables, intent)
    requires CountersMoved(md, d2, d3, tables.descriptor, intent.BlockDelta(), intent.InodeDelta())
    requires InodeStored(md, d3, d4, intent.ino, intent.inode, intent.isNew)
    ensures intent.isNew ==> AddEntry(md, d4, intent.dir, intent.name, intent.ino, 1).Ok?
  {
    hide Used, CountersMoved, StoreInode, AddEntry, BitmapsWritten, InodeStored, View;
    BitmapsView(md, d, d2, tables, intent);
    CountersView(md, d2, d3, intent.BlockDelta(), intent.InodeDelta());
    InodeStoredView(md, d3, d4, intent.ino, intent.inode, intent.isNew);
    if intent.isNew {
      SameAdd(md, d, d4, intent);
    }
  }

  lemma CommitView(md: Metadata, d: seq<Block>, d2: seq<Block>, d3: seq<Block>, d4: seq<Block>, d': seq<Block>, tables: Tables, intent: Intent)
    requires Sensible(md, tables, intent) && Sized(md, d) && Sized(md, d2) && Sized(md, d3) && Sized(md, d4) && Sized(md, d')
    requires Ready(md, d, tables, intent)
    requires BitmapsWritten(md, d, d2, tables, intent)
    requires CountersMoved(md, d2, d3, tables.descriptor, intent.BlockDelta(), intent.InodeDelta())
    requires InodeStored(md, d3, d4, intent.ino, intent.inode, intent.isNew)
    requires EntryWritten(md, d4, d', intent)
    ensures Committed(md, d, d', intent)
  {
    hide Used, CountersMoved, StoreInode, AddEntry, BitmapsWritten, InodeStored, EntryWritten, View;
    BitmapsView(md, d, d2, tables, intent);
    CountersView(md, d2, d3, intent.BlockDelta(), intent.InodeDelta());
    InodeStoredView(md, d3, d4, intent.ino, intent.inode, intent.isNew);
    EntryView(md, d4, d', intent);
    if intent.isNew {
      SameAdd(md, d, d4, intent);
    }
  }

  lemma BitmapsView(md: Metadata, d: seq<Block>, d': seq<Block>, tables: Tables, intent: Intent)
    requires Sensible(md, tables, intent) && Sized(md, d) && Sized(md, d') && Ready(md, d, tables, intent)
    requires BitmapsWritten(md, d, d', tables, intent)
    ensures Geometry(md, d') && d'[DESCRIPTOR] == tables.descriptor
    ensures View(md, d') == View(md, d).(used := Used(md, intent.bitmap),
                                         live := if intent.isNew then View(md, d).live + {intent.ino} else View(md, d).live,
                                         data := d')
    ensures forall b: nat :: b < |d| && b !in View(md, d).layout ==> d'[b] == d[b]
  {
    hide Used, RawInode, CountsOf, TableBlocks, Marked, Toggle;
    var d1 := if intent.took != 0 then d[tables.blockBitmapNumber := intent.bitmap] else d;
    if intent.took != 0 {
      WriteBlockBitmap(md, d, intent.bitmap);
    }
    if intent.isNew {
      LiveToggle(md, tables.inodeBitmap, intent.ino);
      assert !IsLive(md, tables.inodeBitmap, intent.ino);
      hide LiveInodes;
      WriteInodeBitmap(md, d1, Toggle(tables.inodeBitmap, intent.ino - 1));
    }
  }

  lemma EntryView(md: Metadata, d: seq<Block>, d': seq<Block>, intent: Intent)
    requires Writable(md) && Sized(md, d) && Sized(md, d') && Geometry(md, d)
    requires |intent.name| < 256 && 1 <= intent.ino < U32_LIMIT
    requires EntryWritten(md, d, d', intent)
    requires intent.isNew ==> intent.dir.blocks[0] as nat !in View(md, d).layout
    ensures Geometry(md, d') && View(md, d') == View(md, d).(data := d')
    ensures intent.isNew ==> AddEntry(md, d, intent.dir, intent.name, intent.ino, 1).Ok?
    ensures forall b: nat :: b < |d| && b !in View(md, d).layout ==>
              d'[b] == if intent.isNew && b == intent.dir.blocks[0]
                       then AddEntry(md, d, intent.dir, intent.name, intent.ino, 1).value.1 else d[b]
  {
    hide AddFrom, Used, LiveInodes, RawInode, CountsOf, TableBlocks, Layout;
    if intent.isNew {
      var a := AddEntry(md, d, intent.dir, intent.name, intent.ino, 1).value;
      assert a.0 == intent.dir.blocks[0];
      WriteOutside(md, d, a.0, a.1);
    }
  }

  /** The directory block is still the one read before the commit began. */
  lemma SameAdd(md: Metadata, d: seq<Block>, d': seq<Block>, intent: Intent)
    requires Writable(md) && Sized(md, d) && Sized(md, d') && |intent.name| < 256 && 1 <= intent.ino < U32_LIMIT
    requires intent.dir.blocks[0] < |d| ==> d'[intent.dir.blocks[0]] == d[intent.dir.blocks[0]]
    ensures AddEntry(md, d', intent.dir, intent.name, intent.ino, 1) == AddEntry(md, d, intent.dir, intent.name, intent.ino, 1)
  {
    hide AddFrom;
  }
}
