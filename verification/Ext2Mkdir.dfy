/** `create_directory`: a block with the two dot entries, an inode, the bitmaps and a name. */
module Ext2Mkdir {
  import opened Bytes
  import opened Options
  import opened Ext2Disk
  import opened Ext2Pointers
  import opened Ext2Owned
  import opened Ext2Records
  import opened Ext2RecordProofs
  import opened Ext2Directory
  import opened Ext2Entries
  import opened Ext2Inodes
  import opened Ext2Path
  import opened Ext2Bitmap
  import opened Ext2View
  import opened Ext2State
  import opened Ext2Tree
  import opened Ext2Change
  import opened Ext2Files
  import opened Ext2Links
  import opened Ext2Layout
  import opened Ext2Tables
  import opened Ext2Commit
  import opened Ext2Reader
  import opened Ext2WriteProof
  import opened Ext2Refusal
  import opened Ext2Remove
  import opened Ext2Operations

  /** What is to be made: inode `ino` with the one block `b`, called `name` in `dir`. */
  datatype Making = Making(parent: nat, dir: Inode, name: Name, ino: nat, b: u32)

  const ONE_DOT: Name := [46]
  const TWO_DOTS: Name := [46, 46]

  function NewDirectory(b: u32): (inode: Inode)
    ensures inode.size == 1024
  {
    Inode(0x41ed, 2, 1024, 2, [b, 0, 0, 0, 0, 0, 0, 0, 0, 0, 0, 0], 0, 0)
  }

  // ---------- The block of an empty directory ----------

  function DotBlock(md: Metadata, self: u32, parent: u32): (s: Block)
    ensures |s| == 1024
  {
    EntryBytes(md, 12, ONE_DOT, self, 2) + EntryBytes(md, 1012, TWO_DOTS, parent, 2)
  }

  method FillDots(md: Metadata, self: u32, parent: u32) returns (s: Block)
    ensures s == DotBlock(md, self, parent)
  {
    hide EntryBytes;
    s := Zeros(1024);
    var first := FillRecord(md, 12, ONE_DOT, self, 2);
    var second := FillRecord(md, 1012, TWO_DOTS, parent, 2);
    s := Splice(s, 0, first);
    s := Splice(s, 12, second);
  }

  lemma DotsRead(md: Metadata, self: u32, parent: u32)
    requires self != 0 && parent != 0
    ensures var rs := Records(md, DotBlock(md, self, parent), 0, 1024);
            rs.Ok? && Live(rs.value) == [Entry(ONE_DOT, self, KeptKind(md, 2)), Entry(TWO_DOTS, parent, KeptKind(md, 2))]
  {
    hide EntryBytes, RecordAt;
    var s := DotBlock(md, self, parent);
    var one, two := EntryBytes(md, 12, ONE_DOT, self, 2), EntryBytes(md, 1012, TWO_DOTS, parent, 2);
    assert Splice(s, 0, one) == s && Splice(s, 12, two) == s;
    EntryReadsBack(md, s, 0, 12, ONE_DOT, self, 2);
    EntryReadsBack(md, s, 12, 1012, TWO_DOTS, parent, 2);
    var first, second := Record(self, 12, ONE_DOT, KeptKind(md, 2)), Record(parent, 1012, TWO_DOTS, KeptKind(md, 2));
    assert Records(md, s, 1024, 1024) == Ok([]);
    assert Records(md, s, 12, 1024) == Ok([second] + []);
    assert Records(md, s, 0, 1024) == Ok([first] + ([second] + []));
    LiveCons(first, [second] + []);
    LiveCons(second, []);
  }

  // ---------- The writes ----------

  /** The writes of `create_directory_in` after the data block, disk by disk. */
  ghost predicate Wrote(md: Metadata, d1: seq<Block>, d2: seq<Block>, d4: seq<Block>, d5: seq<Block>, d6: seq<Block>, d': seq<Block>,
                        tables: Tables, mk: Making, blockBitmap: Block, inodeBitmap: Block)
    requires Writable(md) && Sized(md, d1) && Sized(md, d2) && Sized(md, d4) && Sized(md, d5) && Sized(md, d6)
    requires |tables.descriptor| == 1024 && |mk.name| < 256 && mk.ino < U32_LIMIT
  {
    && InodeStored(md, d1, d2, mk.ino, NewDirectory(mk.b), true)
    && tables.blockBitmapNumber < |d2| && tables.inodeBitmapNumber < |d2|
    && d4 == d2[tables.blockBitmapNumber := blockBitmap][tables.inodeBitmapNumber := inodeBitmap]
    && CountersMoved(md, d4, d5, tables.descriptor, -1, -1)
    && LinksMoved(md, d5, d6, mk.parent, true)
    && var e := AddEntry(md, d6, mk.dir, mk.name, mk.ino, 2);
    && e.Ok? && e.value.0 < |d6| && d' == d6[e.value.0 := e.value.1]
  }

  /** The two bitmaps with one more inode and one more block. */
  ghost predicate Claimed(md: Metadata, tables: Tables, mk: Making, blockBitmap: Block, inodeBitmap: Block)
    requires Writable(md) && |tables.blockBitmap| == |tables.inodeBitmap| == 1024
  {
    && |blockBitmap| == |inodeBitmap| == 1024
    && 1 <= mk.ino <= md.inodesCount < U32_LIMIT && md.firstDataBlock <= mk.b < md.blocksCount
    && mk.ino !in LiveInodes(md, tables.inodeBitmap) && mk.b as nat !in Used(md, tables.blockBitmap)
    && LiveInodes(md, inodeBitmap) == LiveInodes(md, tables.inodeBitmap) + {mk.ino}
    && Used(md, blockBitmap) == Used(md, tables.blockBitmap) + {mk.b as nat}
  }

  method Claim(md: Metadata, tables: Tables) returns (r: Result<(nat, u32, Block, Block)>)
    requires Writable(md) && |tables.blockBitmap| == |tables.inodeBitmap| == 1024
    ensures r.Ok? ==> forall parent, dir, name ::
              Claimed(md, tables, Making(parent, dir, name, r.value.0, r.value.1), r.value.2, r.value.3)
    ensures r.Ok? ==> FreeBlocks(md, tables.blockBitmap) >= 1
    ensures r.Err? ==> r.error == NoSpace
    ensures r.Err? ==> FreeBlocks(md, tables.blockBitmap) == 0 || |LiveInodes(md, tables.inodeBitmap)| == md.inodesCount
  {
    hide Marked, Toggle, Used, FreeBlocks;
    var index := FindFreeBit(tables.inodeBitmap, md.inodesCount);
    if index.None? {
      AllLive(md, tables.inodeBitmap);
      return Err(NoSpace);
    }
    var ino := index.value + 1;
    var block :- AllocateDataBlock(md, tables.blockBitmap);
    TookSize(md, tables.blockBitmap, block.1, [block.0]);
    NeverMore(md, block.1);
    var updated := UpdateInodeBitmap(tables.inodeBitmap, ino, true);
    assert updated.Ok?;
    LiveToggle(md, tables.inodeBitmap, ino);
    assert !IsLive(md, tables.inodeBitmap, ino);
    assert Set([block.0]) == {block.0 as nat} by { SetAppend([], block.0); assert [] + [block.0] == [block.0]; }
    assert block.0 == [block.0][0];
    r := Ok((ino, block.0, block.1, updated.value));
  }

  method CreateDirectoryIn(disk: Disk, md: Metadata, parent: nat, dir: Inode, name: Name) returns (r: Result<()>, ghost mk: Making)
    requires Writable(md) && Sized(md, disk.blocks) && |name| < 256 && 1 <= parent <= md.inodesCount
    modifies disk
    ensures Sized(md, disk.blocks)
    ensures r.Ok? ==> EntrySpace(md, old(disk.blocks), dir, name).Ok?
    ensures r.Ok? ==> mk.parent == parent && mk.dir == dir && mk.name == name
    ensures r.Ok? && old(WellFormed(md, disk.blocks) && dir.blocks[0] as nat !in View(md, disk.blocks).layout
                         && dir.blocks[0] as nat in View(md, disk.blocks).used) ==>
              MadeOnDisk(md, old(disk.blocks), disk.blocks, mk)
    ensures old(Buildable(md, disk.blocks, parent, dir, name)) ==>
              Told(disk.faulty, r, BuildError(md, old(disk.blocks), dir, name), old(disk.blocks), disk.blocks)
  {
    hide EntrySpace, TablesOf, AddEntry, InodeStored, CountersMoved, LinksMoved, Claimed, DotBlock, Consistent, Geometry, View, MadeOnDisk, Buildable, Adjusted, StoreInode, Relinkable, FreeBlocks, BuildError;
    mk := Making(parent, dir, name, 0, 0);
    NoRoomToBuild(md, disk.blocks, parent, dir, name);
    var _ :- EnsureDirectoryEntrySpace(disk, md, dir, name);
    var tables :- ReadAllocationTables(disk, md);
    TablesOnDisk(md, disk.blocks);
    NothingToClaim(md, disk.blocks, parent, dir, name, tables);
    var claim :- Claim(md, tables);
    var (ino, b, blockBitmap, inodeBitmap) := claim;
    mk := Making(parent, dir, name, ino, b);
    assert Claimed(md, tables, mk, blockBitmap, inodeBitmap);
    ClaimNumbers(md, tables, mk, blockBitmap, inodeBitmap);
    ghost var d := disk.blocks;
    ghost var buildable := Buildable(md, d, parent, dir, name);
    if buildable {
      ClaimIsRoom(md, d, tables, mk, blockBitmap, inodeBitmap);
    }
    var dots := FillDots(md, ino, parent);
    var _ :- disk.Write(md, b, dots);
    ghost var d1 := disk.blocks;
    if buildable {
      StoreFitsMade(md, d, d1, tables, mk, blockBitmap, inodeBitmap);
    }
    var _ :- WriteInodeFields(disk, md, ino, NewDirectory(b), true, null);
    ghost var d2 := disk.blocks;
    assert InodeStored(md, d1, d2, ino, NewDirectory(b), true) by { StoredMeans(md, d1, d2, ino, NewDirectory(b)); }
    var _ :- disk.Write(md, tables.blockBitmapNumber, blockBitmap);
    var _ :- disk.Write(md, tables.inodeBitmapNumber, inodeBitmap);
    ghost var d4 := disk.blocks;
    if buildable {
      CountersFitMade(md, d, d1, d2, d4, tables, mk, blockBitmap, inodeBitmap);
    }
    var _ :- UpdateFreeCounters(disk, md, tables.descriptor, -1, -1, null);
    ghost var d5 := disk.blocks;
    if buildable {
      LinksFitMade(md, d, d1, d2, d4, d5, tables, mk, blockBitmap, inodeBitmap);
    }
    var _ :- UpdateDirectoryLinkCount(disk, md, parent, true);
    ghost var d6 := disk.blocks;
    if buildable {
      EntryFitsMade(md, d, d1, d2, d4, d5, d6, tables, mk, blockBitmap, inodeBitmap);
    }
    r := AddDirectoryEntry(disk, md, dir, name, ino, 2, null);
    if r.Ok? && WellFormed(md, d) {
      if dir.blocks[0] as nat !in View(md, d).layout && dir.blocks[0] as nat in View(md, d).used {
        MadeView(md, d, d1, d2, d4, d5, d6, disk.blocks, tables, mk, blockBitmap, inodeBitmap);
      }
    }
  }

  // ---------- No late errors ----------

  /** The errors that making a directory can report on a sound disk: no room for the name, no inode, no block. */
  ghost function BuildError(md: Metadata, d: seq<Block>, dir: Inode, name: Name): Option<Ext2Error>
    requires Writable(md) && Sized(md, d) && Geometry(md, d)
  {
    if EntrySpace(md, d, dir, name).Err? then Some(EntrySpace(md, d, dir, name).error)
    else if View(md, d).counts.groupInodes == 0 || View(md, d).counts.groupBlocks == 0 then Some(NoSpace)
    else None
  }

  /** A well-formed disk, on which the parent's link count can grow, and whose one block is its own. */
  ghost predicate Buildable(md: Metadata, d: seq<Block>, parent: nat, dir: Inode, name: Name) {
    && WellFormed(md, d)
    && 1 <= parent <= md.inodesCount && parent in View(md, d).live
    && (EntrySpace(md, d, dir, name).Ok? ==>
          && Relinkable(md, d, parent, true)
          && dir.blocks[0] as nat !in View(md, d).layout && dir.blocks[0] as nat in View(md, d).used)
  }

  lemma NoRoomToBuild(md: Metadata, d: seq<Block>, parent: nat, dir: Inode, name: Name)
    requires Writable(md) && Sized(md, d)
    ensures Buildable(md, d, parent, dir, name) ==> TablesOf(md, d).Ok?
    ensures Buildable(md, d, parent, dir, name) && EntrySpace(md, d, dir, name).Err? ==>
              BuildError(md, d, dir, name) == Some(EntrySpace(md, d, dir, name).error)
  {
    hide EntrySpace, Consistent, View, Geometry, TablesOf, Relinkable;
    if Buildable(md, d, parent, dir, name) {
      TablesSound(md, d);
    }
  }

  lemma NothingToClaim(md: Metadata, d: seq<Block>, parent: nat, dir: Inode, name: Name, tables: Tables)
    requires Writable(md) && Sized(md, d) && TablesOf(md, d) == Ok(tables) && EntrySpace(md, d, dir, name).Ok?
    ensures Buildable(md, d, parent, dir, name) ==>
              (FreeBlocks(md, tables.blockBitmap) == 0 || |LiveInodes(md, tables.inodeBitmap)| == md.inodesCount ==>
                 BuildError(md, d, dir, name) == Some(NoSpace))
  {
    hide EntrySpace, Holding, Apart, Tree, View, Geometry, TablesOf, Relinkable, Used, LiveInodes;
    if Buildable(md, d, parent, dir, name) {
      TablesSound(md, d);
      ViewData(md, d);
    }
  }

  lemma ClaimIsRoom(md: Metadata, d: seq<Block>, tables: Tables, mk: Making, blockBitmap: Block, inodeBitmap: Block)
    requires Buildable(md, d, mk.parent, mk.dir, mk.name) && EntrySpace(md, d, mk.dir, mk.name).Ok?
    requires TablesOf(md, d) == Ok(tables) && Claimed(md, tables, mk, blockBitmap, inodeBitmap)
    requires |tables.blockBitmap| == 1024 && FreeBlocks(md, tables.blockBitmap) >= 1
    ensures WellFormed(md, d) && BuildError(md, d, mk.dir, mk.name) == None && InRange(View(md, d).counts, -1, -1) && mk.ino != mk.parent
  {
    hide EntrySpace, Holding, Apart, Tree, View, Geometry, TablesOf, Relinkable, Used, LiveInodes;
    var fs := View(md, d);
    TablesSound(md, d);
    ViewData(md, d);
    LiveRoom(fs, mk.ino);
    LiveBound(fs);
  }

  lemma StoreFitsMade(md: Metadata, d: seq<Block>, d1: seq<Block>, tables: Tables, mk: Making, blockBitmap: Block, inodeBitmap: Block)
    requires WellFormed(md, d) && Sized(md, d1) && mk.ino < U32_LIMIT && 1 <= mk.parent < U32_LIMIT && mk.b < md.blocksCount
    requires TablesOf(md, d) == Ok(tables) && Claimed(md, tables, mk, blockBitmap, inodeBitmap)
    requires d1 == d[mk.b := DotBlock(md, mk.ino, mk.parent)]
    ensures var store := StoreInode(md, d1, mk.ino, NewDirectory(mk.b), true);
            store.Ok? && store.value.0 < md.blocksCount
  {
    hide Consistent, View, Geometry, TablesOf, Claimed, DotBlock, StoreInode, Encode;
    DotsOutside(md, d, d1, tables, mk, blockBitmap, inodeBitmap);
    ClaimNumbers(md, tables, mk, blockBitmap, inodeBitmap);
    StoreIs(md, d1, mk.ino, NewDirectory(mk.b), true);
  }

  /** The disks of a run up to the counters. */
  ghost predicate Marking(md: Metadata, d: seq<Block>, d1: seq<Block>, d2: seq<Block>, d4: seq<Block>, tables: Tables, mk: Making, blockBitmap: Block, inodeBitmap: Block) {
    && WellFormed(md, d) && Sized(md, d1) && Sized(md, d2) && Sized(md, d4)
    && mk.ino < U32_LIMIT && 1 <= mk.parent < U32_LIMIT && mk.b < md.blocksCount
    && TablesOf(md, d) == Ok(tables) && Claimed(md, tables, mk, blockBitmap, inodeBitmap)
    && d1 == d[mk.b := DotBlock(md, mk.ino, mk.parent)]
    && InodeStored(md, d1, d2, mk.ino, NewDirectory(mk.b), true)
    && tables.blockBitmapNumber < |d2| && tables.inodeBitmapNumber < |d2|
    && d4 == d2[tables.blockBitmapNumber := blockBitmap][tables.inodeBitmapNumber := inodeBitmap]
  }

  lemma MarkedView(md: Metadata, d: seq<Block>, d1: seq<Block>, d2: seq<Block>, d4: seq<Block>, tables: Tables, mk: Making, blockBitmap: Block, inodeBitmap: Block)
    requires Marking(md, d, d1, d2, d4, tables, mk, blockBitmap, inodeBitmap)
    ensures Geometry(md, d4) && d4[DESCRIPTOR] == tables.descriptor && View(md, d4).counts == View(md, d).counts
    ensures View(md, d4).layout == View(md, d).layout && View(md, d4).inodes == View(md, d).inodes[mk.ino := NewDirectory(mk.b)]
    ensures mk.b as nat !in View(md, d).used
    ensures forall b: nat :: b < |d| && b !in View(md, d).layout && b != mk.b ==> d4[b] == d[b]
  {
    hide Consistent, View, Geometry, TablesOf, Claimed, DotBlock, InodeStored, NewDirectory;
    DotsOutside(md, d, d1, tables, mk, blockBitmap, inodeBitmap);
    ClaimedView(md, d1, d2, d4, tables, mk, blockBitmap, inodeBitmap);
  }

  lemma CountersFitMade(md: Metadata, d: seq<Block>, d1: seq<Block>, d2: seq<Block>, d4: seq<Block>, tables: Tables, mk: Making, blockBitmap: Block, inodeBitmap: Block)
    requires Marking(md, d, d1, d2, d4, tables, mk, blockBitmap, inodeBitmap) && InRange(View(md, d).counts, -1, -1)
    ensures |tables.descriptor| == 1024 && Adjusted(tables.descriptor, d4[SUPERBLOCK], -1, -1).Ok?
  {
    hide Consistent, View, Geometry, TablesOf, Claimed, DotBlock, InodeStored, NewDirectory, Adjusted;
    MarkedView(md, d, d1, d2, d4, tables, mk, blockBitmap, inodeBitmap);
    CountersFit(md, d4, -1, -1);
  }

  lemma LinksFitMade(md: Metadata, d: seq<Block>, d1: seq<Block>, d2: seq<Block>, d4: seq<Block>, d5: seq<Block>, tables: Tables, mk: Making, blockBitmap: Block, inodeBitmap: Block)
    requires Marking(md, d, d1, d2, d4, tables, mk, blockBitmap, inodeBitmap) && Sized(md, d5)
    requires |tables.descriptor| == 1024 && CountersMoved(md, d4, d5, tables.descriptor, -1, -1)
    requires EntrySpace(md, d, mk.dir, mk.name).Ok? && Buildable(md, d, mk.parent, mk.dir, mk.name) && mk.parent != mk.ino
    ensures Relinkable(md, d5, mk.parent, true)
  {
    hide Consistent, View, Geometry, TablesOf, Claimed, DotBlock, InodeStored, NewDirectory, CountersMoved, PointersOnDisk, Relinked, EntrySpace;
    MarkedView(md, d, d1, d2, d4, tables, mk, blockBitmap, inodeBitmap);
    CountersView(md, d4, d5, -1, -1);
    ViewInodes(md, d);
  }

  lemma EntryFitsMade(md: Metadata, d: seq<Block>, d1: seq<Block>, d2: seq<Block>, d4: seq<Block>, d5: seq<Block>, d6: seq<Block>, tables: Tables, mk: Making, blockBitmap: Block, inodeBitmap: Block)
    requires Marking(md, d, d1, d2, d4, tables, mk, blockBitmap, inodeBitmap) && Sized(md, d5) && Sized(md, d6)
    requires |tables.descriptor| == 1024 && CountersMoved(md, d4, d5, tables.descriptor, -1, -1) && LinksMoved(md, d5, d6, mk.parent, true)
    requires EntrySpace(md, d, mk.dir, mk.name).Ok? && Buildable(md, d, mk.parent, mk.dir, mk.name) && |mk.name| < 256
    ensures AddEntry(md, d6, mk.dir, mk.name, mk.ino, 2).Ok?
  {
    hide Consistent, View, Geometry, TablesOf, Claimed, DotBlock, InodeStored, NewDirectory, CountersMoved, LinksMoved, Relinkable, EntrySpace, AddEntry;
    MarkedView(md, d, d1, d2, d4, tables, mk, blockBitmap, inodeBitmap);
    CountersView(md, d4, d5, -1, -1);
    LinksMovedView(md, d5, d6, mk.parent, true);
    ViewShape(md, d);
    ViewData(md, d);
    DirectoryOnDisk(View(md, d), mk.dir.blocks[0]);
    SpaceThenAdd(md, d, d6, mk.dir, mk.name, mk.ino, 2);
  }

  lemma DirectoryOnDisk(fs: Fs, b: nat)
    requires Shape(fs) && b in fs.used
    ensures b < |fs.data|
  {
  }

  lemma ClaimNumbers(md: Metadata, tables: Tables, mk: Making, blockBitmap: Block, inodeBitmap: Block)
    requires Writable(md) && |tables.blockBitmap| == |tables.inodeBitmap| == 1024
    requires Claimed(md, tables, mk, blockBitmap, inodeBitmap)
    ensures |blockBitmap| == |inodeBitmap| == 1024 && 1 <= mk.ino <= md.inodesCount < U32_LIMIT && mk.b < md.blocksCount
  {
    hide Used, LiveInodes;
  }

  lemma StoredMeans(md: Metadata, d: seq<Block>, d': seq<Block>, n: nat, inode: Inode)
    requires Mounted(md) && Sized(md, d) && inode.size < U32_LIMIT
    requires var s := StoreInode(md, d, n, inode, true); s.Ok? && s.value.0 < md.blocksCount && d' == d[s.value.0 := s.value.1]
    ensures InodeStored(md, d, d', n, inode, true)
  {
    hide StoreInode;
  }

  // ---------- The view after the writes ----------

  /** The new directory, seen in the whole state. */
  ghost predicate Made(fs: Fs, fs': Fs, mk: Making) {
    && Shape(fs) && Sized(fs.md, fs'.data) && |mk.name| < 256
    && mk.ino in fs.inodes && mk.parent in fs.inodes && mk.parent in fs'.inodes && mk.ino < U32_LIMIT && mk.parent < U32_LIMIT
    && 1 <= fs.counts.groupBlocks && 1 <= fs.counts.superBlocks && 1 <= fs.counts.groupInodes && 1 <= fs.counts.superInodes
    && fs' == fs.(used := fs.used + {mk.b as nat}, live := fs.live + {mk.ino},
                  inodes := fs.inodes[mk.ino := NewDirectory(mk.b)][mk.parent := fs'.inodes[mk.parent]],
                  counts := Moved(fs.counts, -1, -1), data := fs'.data)
    && (mk.parent != mk.ino ==>
          && SameBody(fs'.inodes[mk.parent], fs.inodes[mk.parent])
          && fs'.inodes[mk.parent].links == fs.inodes[mk.parent].links + 1)
    && mk.b as nat !in fs.used && mk.b as nat !in fs.layout && fs.md.firstDataBlock <= mk.b < fs.md.blocksCount
    && mk.ino !in fs.live
    && fs'.data[mk.b] == DotBlock(fs.md, mk.ino, mk.parent)
    && mk.dir.blocks[0] < fs.md.blocksCount
    && AddFrom(fs.md, fs.data[mk.dir.blocks[0]], 0, mk.name, mk.ino, 2) == Ok(fs'.data[mk.dir.blocks[0]])
    && (forall b: nat :: b < fs.md.blocksCount && b !in fs.layout && b != mk.b && b != mk.dir.blocks[0] ==> fs'.data[b] == fs.data[b])
  }

  ghost predicate MadeOnDisk(md: Metadata, d: seq<Block>, d': seq<Block>, mk: Making) {
    && Writable(md) && Sized(md, d) && Sized(md, d') && Geometry(md, d) && Geometry(md, d')
    && Made(View(md, d), View(md, d'), mk)
  }

  /** Storing the inode, then both bitmaps. */
  lemma ClaimedView(md: Metadata, d: seq<Block>, d2: seq<Block>, d4: seq<Block>, tables: Tables, mk: Making, blockBitmap: Block, inodeBitmap: Block)
    requires Writable(md) && Sized(md, d) && Sized(md, d2) && Sized(md, d4) && Geometry(md, d)
    requires TablesOf(md, d) == Ok(tables) && Claimed(md, tables, mk, blockBitmap, inodeBitmap)
    requires InodeStored(md, d, d2, mk.ino, NewDirectory(mk.b), true)
    requires tables.blockBitmapNumber < |d2| && tables.inodeBitmapNumber < |d2|
    requires d4 == d2[tables.blockBitmapNumber := blockBitmap][tables.inodeBitmapNumber := inodeBitmap]
    ensures Geometry(md, d4) && d4[DESCRIPTOR] == tables.descriptor
    ensures View(md, d4) == View(md, d).(used := View(md, d).used + {mk.b as nat}, live := View(md, d).live + {mk.ino},
                                         inodes := View(md, d).inodes[mk.ino := NewDirectory(mk.b)], data := d4)
    ensures mk.ino !in View(md, d).live && mk.b as nat !in View(md, d).used
    ensures forall b: nat :: b < |d| && b !in View(md, d).layout ==> d4[b] == d[b]
  {
    hide InodeStored, Used, LiveInodes, RawInode, CountsOf, TableBlocks, NewDirectory;
    InodeStoredView(md, d, d2, mk.ino, NewDirectory(mk.b), true);
    TablesKept(md, d, d2, mk.ino, NewDirectory(mk.b));
    WriteBlockBitmap(md, d2, blockBitmap);
    WriteInodeBitmap(md, d2[tables.blockBitmapNumber := blockBitmap], inodeBitmap);
  }

  lemma TablesKept(md: Metadata, d: seq<Block>, d': seq<Block>, n: nat, inode: Inode)
    requires Writable(md) && Sized(md, d) && Sized(md, d') && Geometry(md, d)
    requires 1 <= n <= md.inodesCount && inode.size < U32_LIMIT
    requires InodeStored(md, d, d', n, inode, true)
    ensures d'[DESCRIPTOR] == d[DESCRIPTOR]
  {
    hide StoreInode, Used, LiveInodes, RawInode, CountsOf, TableBlocks, View;
    WriteInode(md, d, n, inode, true);
  }

  lemma MadeView(md: Metadata, d: seq<Block>, d1: seq<Block>, d2: seq<Block>, d4: seq<Block>, d5: seq<Block>, d6: seq<Block>, d': seq<Block>,
                 tables: Tables, mk: Making, blockBitmap: Block, inodeBitmap: Block)
    requires WellFormed(md, d) && Sized(md, d1) && Sized(md, d2) && Sized(md, d4) && Sized(md, d5) && Sized(md, d6) && Sized(md, d')
    requires |mk.name| < 256 && 1 <= mk.parent <= md.inodesCount && mk.ino < U32_LIMIT && mk.b < md.blocksCount
    requires mk.dir.blocks[0] as nat !in View(md, d).layout && mk.dir.blocks[0] as nat in View(md, d).used
    requires TablesOf(md, d) == Ok(tables) && Claimed(md, tables, mk, blockBitmap, inodeBitmap)
    requires d1 == d[mk.b := DotBlock(md, mk.ino, mk.parent)]
    requires Wrote(md, d1, d2, d4, d5, d6, d', tables, mk, blockBitmap, inodeBitmap)
    ensures MadeOnDisk(md, d, d', mk)
  {
    hide Consistent, Claimed, InodeStored, CountersMoved, LinksMoved, AddFrom, View, Geometry, TablesOf, DotBlock, NewDirectory, Shape;
    DotsOutside(md, d, d1, tables, mk, blockBitmap, inodeBitmap);
    ClaimedView(md, d1, d2, d4, tables, mk, blockBitmap, inodeBitmap);
    CountersView(md, d4, d5, -1, -1);
    LinksMovedView(md, d5, d6, mk.parent, true);
    EntryOutside(md, d6, d', mk);
    ViewData(md, d);
    ViewData(md, d');
    ViewInodes(md, d);
    ViewShape(md, d);
    ClaimNumbers(md, tables, mk, blockBitmap, inodeBitmap);
    var fs, fs' := View(md, d), View(md, d');
    assert fs'.used == fs.used + {mk.b as nat};
    assert fs'.live == fs.live + {mk.ino};
    assert fs'.counts == Moved(fs.counts, -1, -1);
    assert fs'.inodes == fs.inodes[mk.ino := NewDirectory(mk.b)][mk.parent := fs'.inodes[mk.parent]];
    assert fs'.data[mk.b] == DotBlock(fs.md, mk.ino, mk.parent);
    assert AddFrom(fs.md, fs.data[mk.dir.blocks[0]], 0, mk.name, mk.ino, 2) == Ok(fs'.data[mk.dir.blocks[0]]);
  }

  lemma EntryOutside(md: Metadata, d: seq<Block>, d': seq<Block>, mk: Making)
    requires Writable(md) && Sized(md, d) && Sized(md, d') && Geometry(md, d) && |mk.name| < 256 && mk.ino < U32_LIMIT
    requires mk.dir.blocks[0] as nat !in View(md, d).layout
    requires var e := AddEntry(md, d, mk.dir, mk.name, mk.ino, 2); e.Ok? && e.value.0 < |d| && d' == d[e.value.0 := e.value.1]
    ensures Geometry(md, d') && View(md, d') == View(md, d).(data := d')
    ensures mk.dir.blocks[0] < |d| && AddFrom(md, d[mk.dir.blocks[0]], 0, mk.name, mk.ino, 2) == Ok(d'[mk.dir.blocks[0]])
    ensures forall b: nat :: b < |d| && b != mk.dir.blocks[0] ==> d'[b] == d[b]
  {
    hide AddFrom, View, Geometry;
    var e := AddEntry(md, d, mk.dir, mk.name, mk.ino, 2).value;
    WriteOutside(md, d, e.0, e.1);
  }

  /** The data block was free, so writing it changes no more than the data. */
  lemma DotsOutside(md: Metadata, d: seq<Block>, d1: seq<Block>, tables: Tables, mk: Making, blockBitmap: Block, inodeBitmap: Block)
    requires WellFormed(md, d) && Sized(md, d1) && mk.ino < U32_LIMIT && 1 <= mk.parent < U32_LIMIT && mk.b < md.blocksCount
    requires TablesOf(md, d) == Ok(tables) && Claimed(md, tables, mk, blockBitmap, inodeBitmap)
    requires d1 == d[mk.b := DotBlock(md, mk.ino, mk.parent)]
    ensures Geometry(md, d1) && View(md, d1) == View(md, d).(data := d1) && TablesOf(md, d1) == Ok(tables)
    ensures mk.b as nat !in View(md, d).layout && mk.b as nat !in View(md, d).used && md.firstDataBlock <= mk.b
  {
    hide Consistent, Geometry, View, TablesOf, Claimed, DotBlock;
    ClaimedFree(md, d, tables, mk, blockBitmap, inodeBitmap);
    assert Set([mk.b]) == {mk.b as nat} by { SetAppend([], mk.b); assert [] + [mk.b] == [mk.b]; }
    assert OnlyWrote(d, d1, [mk.b]);
    FreeWrites(md, d, d1, [mk.b]);
  }

  lemma ClaimedFree(md: Metadata, d: seq<Block>, tables: Tables, mk: Making, blockBitmap: Block, inodeBitmap: Block)
    requires Writable(md) && Sized(md, d) && Geometry(md, d)
    requires TablesOf(md, d) == Ok(tables) && Claimed(md, tables, mk, blockBitmap, inodeBitmap)
    ensures mk.b as nat !in View(md, d).used && md.firstDataBlock <= mk.b
  {
    hide Used, LiveInodes, RawInode, CountsOf, TableBlocks, Layout;
  }

  // ---------- The new directory as a change of state ----------

  ghost function ChangeOf(mk: Making): Change {
    Change(mk.ino, [mk.b], [], Some(mk.parent))
  }

  /** The directory that takes the name is one block long and has no such name. */
  ghost predicate Makeable(fs: Fs, mk: Making) {
    && Consistent(fs) && OneBlock(fs, mk.parent) && fs.inodes[mk.parent] == mk.dir
    && SafeComponent(mk.name) && FindName(Names(fs, mk.parent), mk.name) == None
  }

  lemma MadeInodes(fs: Fs, fs': Fs, mk: Making)
    requires Makeable(fs, mk) && Made(fs, fs', mk)
    ensures Shape(fs) && Shape(fs') && mk.parent != mk.ino && Set([mk.b]) == {mk.b as nat}
    ensures forall m :: m in fs.inodes && m != mk.ino ==> (m in fs'.live <==> m in fs.live) && SameInode(fs, fs', ChangeOf(mk), m)
    ensures OneBlock(fs', mk.parent) && SameBody(fs'.inodes[mk.parent], fs.inodes[mk.parent])
    ensures Directory(fs', mk.ino) && fs'.inodes[mk.ino] == NewDirectory(mk.b)
    ensures fs'.inodes[mk.ino].mode == 0x41ed && fs'.inodes[mk.ino].sectors == 2
    ensures Owns(fs', mk.ino) == [mk.b] && PointersOnDisk(fs.md, NewDirectory(mk.b)) && OneBlock(fs', mk.ino)
  {
    hide Consistent, Listed, AddFrom, DotBlock, Names, FindName, SafeComponent;
    SetAppend([], mk.b);
    assert [] + [mk.b] == [mk.b] && Set([]) == {};
    OnlyFirstListed(fs.md, fs'.data, NewDirectory(mk.b));
  }

  lemma MadeStep(fs: Fs, fs': Fs, mk: Making)
    requires Makeable(fs, mk) && Made(fs, fs', mk)
    ensures Step(fs, fs', ChangeOf(mk)) && CountersFollow(fs, fs', ChangeOf(mk))
  {
    hide Made, Makeable, Shape, Listed, NewDirectory, Owns, Owner, SameInode, PointersOnDisk, OneBlock, Proper, Set, DirectoryTouched;
    MadeInodes(fs, fs', mk);
    MadeBlocks(fs, fs', mk);
  }

  lemma MadeBlocks(fs: Fs, fs': Fs, mk: Making)
    requires Makeable(fs, mk) && Made(fs, fs', mk) && Set([mk.b]) == {mk.b as nat}
    ensures fs'.md == fs.md && fs'.layout == fs.layout && mk.ino in fs.inodes && !Owner(fs, mk.ino)
    ensures 1 <= mk.ino <= fs.md.inodesCount < U32_LIMIT && 1 <= mk.parent <= fs.md.inodesCount
    ensures mk.b < |fs'.data| && fs'.data[mk.b] == DotBlock(fs.md, mk.ino, mk.parent)
    ensures Owner(fs, mk.parent) && fs.inodes[mk.parent].blocks[0] != 0
    ensures Proper(fs.md, [mk.b]) && Distinct([mk.b]) && Set([mk.b]) !! fs.used && Set([mk.b]) !! fs.layout
    ensures forall b :: b in Set([mk.b]) ==> fs.md.firstDataBlock <= b
    ensures fs'.used == fs.used + Set([mk.b]) - Set([])
    ensures forall b: nat :: b < fs.md.blocksCount && b !in fs.layout && b !in Set([mk.b]) && !DirectoryTouched(fs, ChangeOf(mk), b) ==>
              fs'.data[b] == fs.data[b]
    ensures CountersFollow(fs, fs', ChangeOf(mk))
  {
    hide Consistent, Listed, AddFrom, DotBlock, Names, FindName, SafeComponent, NewDirectory;
    assert Set([]) == {};
  }

  /** The result of making a directory at a path: two dot entries, and one free block and inode fewer. */
  ghost predicate MadeAt(fs: Fs, fs': Fs, names: seq<Name>) {
    && Consistent(fs) && Consistent(fs')
    && Path(fs, ROOT_INODE, names) == None && names != []
    && SamePaths(fs, fs', Some(names))
    && var n, p := Path(fs', ROOT_INODE, names), Path(fs, ROOT_INODE, names[..|names| - 1]);
    && n.Some? && p.Some? && n.value < U32_LIMIT && p.value < U32_LIMIT
    && Directory(fs', n.value) && fs'.inodes[n.value].mode == 0x41ed && fs'.inodes[n.value].size == 1024
    && fs'.inodes[n.value].sectors == 2 && Names(fs', n.value) == [Entry(ONE_DOT, n.value, KeptKind(fs.md, 2)), Entry(TWO_DOTS, p.value, KeptKind(fs.md, 2))]
    && n.value !in fs.live && fs'.live == fs.live + {n.value}
    && |Owns(fs', n.value)| == 1 && Set(Owns(fs', n.value)) !! fs.used && fs'.used == fs.used + Set(Owns(fs', n.value))
    && KeepsCounts(fs, fs')
  }

  lemma MadeNames(fs: Fs, fs': Fs, mk: Making)
    requires Makeable(fs, mk) && Made(fs, fs', mk)
    ensures Shape(fs') && mk.ino < U32_LIMIT && mk.parent < U32_LIMIT
    ensures Names(fs', mk.ino) == [Entry(ONE_DOT, mk.ino, KeptKind(fs.md, 2)), Entry(TWO_DOTS, mk.parent, KeptKind(fs.md, 2))]
    ensures Directory(fs', mk.ino) && GoodDirectory(fs', mk.ino) && OnlyDots(Names(fs', mk.ino))
  {
    hide Made, Makeable, Shape, Listed, DotBlock, Records, Live, Entries, Owner, PointersOnDisk;
    MadeInodes(fs, fs', mk);
    MadeBlocks(fs, fs', mk);
    OneBlockNames(fs', mk.ino);
    DotsRead(fs.md, mk.ino, mk.parent);
  }

  lemma MadeLinked(fs: Fs, fs': Fs, mk: Making)
    requires Makeable(fs, mk) && Made(fs, fs', mk)
    ensures Linked(fs, fs', ChangeOf(mk), mk.parent, mk.name)
  {
    hide Made, Makeable, Listed, AddFrom, Names, FindName, SafeComponent, Entries, Set, NewDirectory, Step, CountersFollow, Shape, PointersOnDisk;
    MadeStep(fs, fs', mk);
    MadeNames(fs, fs', mk);
    MadeInodes(fs, fs', mk);
    MadeBlocks(fs, fs', mk);
    MakeableOpen(fs, mk);
    MadeLive(fs, fs', mk);
    EntryAdded(fs, fs', mk);
  }

  lemma MakeableOpen(fs: Fs, mk: Making)
    requires Makeable(fs, mk)
    ensures Consistent(fs) && OneBlock(fs, mk.parent) && fs.inodes[mk.parent] == mk.dir
    ensures SafeComponent(mk.name) && FindName(Names(fs, mk.parent), mk.name) == None && |mk.name| < 256
    ensures Entries(fs.md, fs.data, fs.inodes[mk.parent]).Ok?
  {
    hide Holding, Apart, Counted, Names, FindName, Entries, NameByte;
    assert GoodDirectory(fs, mk.parent);
  }

  lemma EntryAdded(fs: Fs, fs': Fs, mk: Making)
    requires Makeable(fs, mk) && Made(fs, fs', mk)
    requires OneBlock(fs', mk.parent) && SameBody(fs'.inodes[mk.parent], fs.inodes[mk.parent]) && fs'.md == fs.md && 1 <= mk.ino < U32_LIMIT
    ensures Entries(fs'.md, fs'.data, fs'.inodes[mk.parent]).Ok?
    ensures Inserted(Names(fs, mk.parent), Names(fs', mk.parent), Entry(mk.name, mk.ino, KeptKind(fs.md, 2)))
  {
    hide Consistent, AddFrom, Names, FindName, SafeComponent, Entries, NewDirectory, DotBlock, Inserted;
    MakeableOpen(fs, mk);
    EntryNames(fs, fs', mk.parent, mk.name, mk.ino, 2);
  }

  lemma MadeTheorem(fs: Fs, fs': Fs, mk: Making, above: seq<Name>)
    requires Makeable(fs, mk) && Made(fs, fs', mk) && Path(fs, ROOT_INODE, above) == Some(mk.parent)
    ensures MadeAt(fs, fs', above + [mk.name])
  {
    hide Made, Makeable, Consistent, Linked, Listed, Names, Path, SamePaths, ReadsAlike, KeepsCounts, Set, NewDirectory, Step, CountersFollow, Shape, PointersOnDisk;
    MadeStep(fs, fs', mk);
    MadeNames(fs, fs', mk);
    MadeInodes(fs, fs', mk);
    MadeBlocks(fs, fs', mk);
    MadeLinked(fs, fs', mk);
    MakeableOpen(fs, mk);
    LinkTheorem(fs, fs', ChangeOf(mk), mk.parent, above, mk.name);
    NoPathYet(fs, mk, above);
    MadeLive(fs, fs', mk);
    assert (above + [mk.name])[..|above + [mk.name]| - 1] == above;
    MadeCounts(fs, fs', mk);
  }

  lemma MadeCounts(fs: Fs, fs': Fs, mk: Making)
    requires Makeable(fs, mk) && Made(fs, fs', mk) && Linked(fs, fs', ChangeOf(mk), mk.parent, mk.name)
    requires Directory(fs', mk.ino) && fs'.inodes[mk.ino] == NewDirectory(mk.b) && Owns(fs', mk.ino) == [mk.b]
    ensures KeepsCounts(fs, fs')
  {
    hide Holding, Apart, Counted, Tree, Listed, AddFrom, Names, OnlyDots, SafeComponent, Entries, LinkCounts, SectorCounts, EntryKinds, Step, Inserted, OneBlock, DotBlock, FindName, GoodDirectory;
    if LinkCounts(fs) {
      CountsAfterLink(fs, fs', ChangeOf(mk), mk.parent, mk.name);
    }
    if EntryKinds(fs) {
      KindsAfterLink(fs, fs', ChangeOf(mk), mk.parent, mk.name);
    }
    if SectorCounts(fs) {
      SectorsKept(fs, fs', ChangeOf(mk));
    }
  }

  lemma MadeLive(fs: Fs, fs': Fs, mk: Making)
    requires Made(fs, fs', mk)
    ensures mk.ino !in fs.live && fs'.live == fs.live + {mk.ino} && fs'.used == fs.used + {mk.b as nat} && mk.b as nat !in fs.used
  {
  }

  lemma NoPathYet(fs: Fs, mk: Making, above: seq<Name>)
    requires Makeable(fs, mk) && Path(fs, ROOT_INODE, above) == Some(mk.parent)
    ensures Path(fs, ROOT_INODE, above + [mk.name]) == None
  {
    hide Consistent, Path, Names, FindName;
    assert Shape(fs);
    PathSnoc(fs, ROOT_INODE, above, mk.name);
    PathOne(fs, mk.parent, mk.name);
  }

  // ---------- create_directory ----------

  /** Why making a directory has to be refused; nothing if it does not. */
  ghost function MakeRefusal(fs: Fs, path: seq<byte>): Option<Ext2Error>
    requires Shape(fs)
  {
    var p := Place(fs, path);
    if p.Err? then Some(p.error)
    else if Child(fs, path).Some? then Some(AlreadyExists)
    else if p.value !in fs.inodes || Crowded(fs, p.value, FinalName(path)).Some? then
      (if p.value in fs.inodes then Crowded(fs, p.value, FinalName(path)) else Some(NotFound))
    else if fs.counts.groupInodes == 0 || fs.counts.groupBlocks == 0 then Some(NoSpace)
    else None
  }

  lemma MakeRefused(md: Metadata, d: seq<Block>, path: seq<byte>)
    requires Mounted(md) && Sized(md, d)
    ensures WellFormed(md, d) ==>
              && Shape(View(md, d))
              && (Parent(md, d, path).Err? ==> MakeRefusal(View(md, d), path) == Some(Parent(md, d, path).error))
              && (Parent(md, d, path).Ok? ==>
                    var (parent, dir, name) := Parent(md, d, path).value;
                    var child := FindChild(md, d, dir, name);
                    && child.Ok?
                    && (child.value.Some? ==> MakeRefusal(View(md, d), path) == Some(AlreadyExists))
                    && (child.value.None? ==> MakeRefusal(View(md, d), path) == BuildError(md, d, dir, name)))
  {
    hide Parent, FindChild, ReadInode, Consistent, View, Geometry, Place, Child, Names, FindName, Links, EntrySpace, Crowded, FinalName;
    if WellFormed(md, d) {
      ViewShape(md, d);
      ParentIsPlace(md, d, path);
      if Place(View(md, d), path).Ok? {
        ChildFacts(md, d, path);
        PlaceFacts(View(md, d), path);
        SpaceIsRoom(md, d, Place(View(md, d), path).value, FinalName(path));
      }
    }
  }

  /** A directory of one block has few entries, so its link count has room to grow. */
  lemma {:induction false} FewRecords(md: Metadata, block: Block, o: nat, valid: nat)
    requires o <= valid <= |block| && Records(md, block, o, valid).Ok?
    ensures 8 * |Records(md, block, o, valid).value| <= valid - o
    decreases valid - o
  {
    hide RecordAt;
    if o + 8 <= valid {
      var rec := RecordAt(md, block, o, valid).value;
      FewRecords(md, block, o + rec.len, valid);
    }
  }

  lemma {:induction false} FewLive(rs: seq<Record>)
    ensures |Live(rs)| <= |rs|
  {
    if rs != [] {
      FewLive(rs[1..]);
    }
  }

  lemma {:induction false} FewSubdirectories(fs: Fs, es: seq<Entry>)
    ensures Subdirectories(fs, es) <= |es|
  {
    if es != [] {
      FewSubdirectories(fs, es[1..]);
    }
  }

  lemma LinksCanGrow(md: Metadata, d: seq<Block>, p: nat)
    requires WellFormed(md, d) && LinkCounts(View(md, d)) && OneBlock(View(md, d), p)
    ensures Relinkable(md, d, p, true)
  {
    hide View, Apart, Counted, Tree, Names, Records, Live, Subdirectories, PointersOnDisk, Geometry;
    var fs := View(md, d);
    ViewData(md, d);
    assert RightCount(fs, p) && HoldsBlocks(fs, p);
    FirstPresent(md, d, p);
    OneBlockNames(fs, p);
    var rs := Records(md, d[fs.inodes[p].blocks[0]], 0, 1024).value;
    FewRecords(md, d[fs.inodes[p].blocks[0]], 0, 1024);
    FewLive(rs);
    FewSubdirectories(fs, Live(rs));
  }

  lemma BuildableFacts(md: Metadata, d: seq<Block>, path: seq<byte>, parent: nat, dir: Inode, name: Name)
    requires WellFormed(md, d) && LinkCounts(View(md, d))
    requires Parent(md, d, path) == Ok((parent, dir, name))
    ensures Buildable(md, d, parent, dir, name)
  {
    hide View, Consistent, Parent, Path, Geometry, EntrySpace, Relinkable, LinkCounts, Crowded, Place, FinalName;
    ViewShape(md, d);
    ParentIsPlace(md, d, path);
    PlaceFacts(View(md, d), path);
    ParentNumber(md, d, path, parent, dir, name);
    SpaceIsRoom(md, d, parent, name);
    if EntrySpace(md, d, dir, name).Ok? {
      LinksCanGrow(md, d, parent);
    }
  }

  /** Makes an empty directory at a path that led nowhere. */
  method CreateDirectory(disk: Disk, md: Metadata, path: seq<byte>) returns (r: Result<()>)
    requires Mounted(md) && Sized(md, disk.blocks)
    modifies disk
    ensures Sized(md, disk.blocks)
    ensures r.Ok? && WellFormed(md, old(disk.blocks)) ==>
              && WellFormed(md, disk.blocks)
              && MadeAt(View(md, old(disk.blocks)), View(md, disk.blocks), Components(path))
    ensures WellFormed(md, old(disk.blocks)) && LinkCounts(View(md, old(disk.blocks))) ==>
              Told(disk.faulty, r, MakeRefusal(View(md, old(disk.blocks)), path), old(disk.blocks), disk.blocks)
  {
    hide Parent, FindChild, EntrySpace, Geometry, Consistent, View, MadeAt, Components, MadeOnDisk, Makeable, MakeRefusal, BuildError, LinkCounts, Buildable;
    MakeRefused(md, disk.blocks, path);
    if !Writable(md) {
      return Err(UnsupportedFeature);
    }
    var found :- ResolveParent(disk, md, path);
    var (parent, dir, name) := found;
    var child :- FindDirectoryChild(disk, md, dir, name);
    if child.Some? {
      return Err(AlreadyExists);
    }
    ghost var d := disk.blocks;
    ParentNumber(md, d, path, parent, dir, name);
    if WellFormed(md, d) && LinkCounts(View(md, d)) {
      BuildableFacts(md, d, path, parent, dir, name);
    }
    ghost var mk;
    r, mk := CreateDirectoryIn(disk, md, parent, dir, name);
    if r.Ok? && WellFormed(md, d) {
      MakeableFacts(md, d, path, mk);
      FinishMaking(md, d, disk.blocks, path, mk);
    }
  }

  lemma ParentNumber(md: Metadata, d: seq<Block>, path: seq<byte>, n: nat, dir: Inode, name: Name)
    requires Writable(md) && Sized(md, d) && Parent(md, d, path) == Ok((n, dir, name))
    ensures 1 <= n <= md.inodesCount && |name| < 256
  {
    hide TableStart, FetchAt, TableBlocks, Walk, NameByte;
    WalkIsRead(md, d, ROOT_INODE, Components(ParentPath(path)));
  }

  lemma MakeableFacts(md: Metadata, d: seq<Block>, path: seq<byte>, mk: Making)
    requires WellFormed(md, d)
    requires Parent(md, d, path) == Ok((mk.parent, mk.dir, mk.name))
    requires FindChild(md, d, mk.dir, mk.name) == Ok(None) && EntrySpace(md, d, mk.dir, mk.name).Ok?
    ensures Makeable(View(md, d), mk)
    ensures mk.dir.blocks[0] as nat !in View(md, d).layout && mk.dir.blocks[0] as nat in View(md, d).used
  {
    hide Holding, Apart, Counted, Tree, View, Parent, FindChild, RoomFrom, Path, FindName, Names, SafeComponent;
    ParentFacts(md, d, path, mk.parent, mk.dir, mk.name);
    FindIsName(md, d, mk.parent, mk.name);
    OnlyBlockFacts(md, d, mk.parent, UnsupportedFeature);
  }

  lemma FinishMaking(md: Metadata, d: seq<Block>, d': seq<Block>, path: seq<byte>, mk: Making)
    requires WellFormed(md, d) && Sized(md, d') && MadeOnDisk(md, d, d', mk) && Makeable(View(md, d), mk)
    requires Parent(md, d, path) == Ok((mk.parent, mk.dir, mk.name))
    ensures WellFormed(md, d') && MadeAt(View(md, d), View(md, d'), Components(path))
  {
    hide Consistent, View, Parent, Made, Makeable, Path, Geometry, Components;
    ParentFacts(md, d, path, mk.parent, mk.dir, mk.name);
    MadeTheorem(View(md, d), View(md, d'), mk, Components(ParentPath(path)));
  }

  /** Making a directory and then removing it restores both bitmaps and all four counters. */
  lemma MakeRemoveRestores(fs: Fs, fs': Fs, fs'': Fs, names: seq<Name>)
    requires MadeAt(fs, fs', names) && RemovedAt(fs', fs'', names) && fs''.md == fs'.md == fs.md
    ensures fs''.used == fs.used && fs''.live == fs.live && fs''.counts == fs.counts
  {
    hide Holding, Apart, Tree, Path, Listed, SamePaths, ReadsAlike, KeepsCounts, Set, Names;
    assert fs''.used == fs.used;
    assert fs''.live == fs.live;
  }
}
