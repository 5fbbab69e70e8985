/** Removing a file or an empty directory: the entry, the bitmaps, the counters and the inode. */
module Ext2Remove {
  import opened Bytes
  import opened Options
  import opened Ext2Disk
  import opened Ext2Pointers
  import opened Ext2Owned
  import opened Ext2Records
  import opened Ext2RecordProofs
  import opened Ext2Directory
  import opened Ext2Entries
  import opened Ext2Inodes
  import opened Ext2Path
  import opened Ext2Bitmap
  import opened Ext2View
  import opened Ext2State
  import opened Ext2Tree
  import opened Ext2Change
  import opened Ext2Files
  import opened Ext2Links
  import opened Ext2Tables
  import opened Ext2Commit
  import opened Ext2Reader
  import opened Ext2WriteProof
  import opened Ext2Refusal

  const EMPTY_INODE := Inode(0, 0, 0, 0, [0, 0, 0, 0, 0, 0, 0, 0, 0, 0, 0, 0], 0, 0)

  /** What is to be removed: the entry `name` of `dir`, and inode `ino` with its blocks. */
  datatype Removal = Removal(parent: nat, dir: Inode, name: Name, ino: nat, inode: Inode, blocks: seq<u32>)

  function UpdateInodeBitmap(bitmap: Block, n: nat, live: bool): (r: Result<Block>)
    requires IsBitmap(bitmap) && n <= 8192
    ensures r.Ok? ==> IsBitmap(r.value)
  {
    if n == 0 || Marked(bitmap, n - 1) == live then Err(InvalidFilesystem) else Ok(Toggle(bitmap, n - 1))
  }

  /** The two bitmaps with the inode and its blocks given back. */
  method ReleaseBitmaps(md: Metadata, tables: Tables, rem: Removal) returns (r: Result<(Block, Block)>)
    requires Writable(md) && |tables.blockBitmap| == |tables.inodeBitmap| == 1024 && 1 <= rem.ino <= md.inodesCount
    ensures r.Ok? ==> |r.value.0| == |r.value.1| == 1024 && Released(md, tables, rem, r.value.0, r.value.1)
    ensures r.Err? ==> !(rem.ino in LiveInodes(md, tables.inodeBitmap) && Set(rem.blocks) <= Used(md, tables.blockBitmap) && Distinct(rem.blocks))
  {
    hide Toggle, Marked, Used, LiveInodes;
    LiveToggle(md, tables.inodeBitmap, rem.ino);
    LiveIsMarked(md, tables.inodeBitmap, rem.ino);
    var inodeBitmap :- UpdateInodeBitmap(tables.inodeBitmap, rem.ino, false);
    var blockBitmap :- FreeAll(md, tables.blockBitmap, rem.blocks);
    r := Ok((blockBitmap, inodeBitmap));
  }

  lemma LiveIsMarked(md: Metadata, bitmap: Block, n: nat)
    requires Writable(md) && IsBitmap(bitmap) && 1 <= n <= md.inodesCount
    ensures n in LiveInodes(md, bitmap) <==> Marked(bitmap, n - 1)
  {
    hide Marked;
    assert IsLive(md, bitmap, n) <==> Marked(bitmap, n - 1);
  }

  ghost predicate Released(md: Metadata, tables: Tables, rem: Removal, blockBitmap: Block, inodeBitmap: Block)
    requires Writable(md) && |tables.blockBitmap| == |tables.inodeBitmap| == 1024
  {
    && |blockBitmap| == |inodeBitmap| == 1024
    && Set(rem.blocks) <= Used(md, tables.blockBitmap)
    && Used(md, blockBitmap) == Used(md, tables.blockBitmap) - Set(rem.blocks)
    && LiveInodes(md, inodeBitmap) == LiveInodes(md, tables.inodeBitmap) - {rem.ino}
  }

  /** The directory entry and both bitmaps on the disk. */
  ghost predicate Unmarked(md: Metadata, d: seq<Block>, d': seq<Block>, tables: Tables, rem: Removal, blockBitmap: Block, inodeBitmap: Block)
    requires Mounted(md) && Sized(md, d)
  {
    var e := RemoveEntry(md, d, rem.dir, rem.name);
    && e.Ok? && e.value.0 < |d| && tables.blockBitmapNumber < |d| && tables.inodeBitmapNumber < |d|
    && d' == d[e.value.0 := e.value.1][tables.blockBitmapNumber := blockBitmap][tables.inodeBitmapNumber := inodeBitmap]
  }

  method Unmark(disk: Disk, md: Metadata, tables: Tables, rem: Removal, blockBitmap: Block, inodeBitmap: Block) returns (r: Result<()>)
    requires Writable(md) && Sized(md, disk.blocks) && |blockBitmap| == |inodeBitmap| == 1024
    requires tables.blockBitmapNumber < md.blocksCount && tables.inodeBitmapNumber < md.blocksCount
    modifies disk
    ensures Sized(md, disk.blocks)
    ensures r.Ok? ==> RemoveEntry(md, old(disk.blocks), rem.dir, rem.name).Ok?
    ensures r.Err? ==> disk.Fails(r.error) || (RemoveEntry(md, old(disk.blocks), rem.dir, rem.name) == Err(r.error) && disk.blocks == old(disk.blocks))
    ensures r.Ok? ==> Unmarked(md, old(disk.blocks), disk.blocks, tables, rem, blockBitmap, inodeBitmap)
  {
    hide RemoveEntry;
    var _ :- RemoveDirectoryEntry(disk, md, rem.dir, rem.name);
    var _ :- disk.Write(md, tables.blockBitmapNumber, blockBitmap);
    r := disk.Write(md, tables.inodeBitmapNumber, inodeBitmap);
  }

  method RemoveAllocations(disk: Disk, md: Metadata, rem: Removal) returns (r: Result<()>)
    requires Writable(md) && Sized(md, disk.blocks) && 1 <= rem.ino <= md.inodesCount && 1 <= rem.parent <= md.inodesCount
    modifies disk
    ensures Sized(md, disk.blocks)
    ensures r.Ok? ==> RemoveEntry(md, old(disk.blocks), rem.dir, rem.name).Ok?
    ensures r.Ok? && old(Geometry(md, disk.blocks) && rem.dir.blocks[0] as nat !in View(md, disk.blocks).layout) ==>
              Removed(md, old(disk.blocks), disk.blocks, rem)
    ensures old(Reducible(md, disk.blocks, rem)) ==> Told(disk.faulty, r, RemovalError(md, old(disk.blocks), rem), old(disk.blocks), disk.blocks)
  {
    hide Unmarked, Released, CountersMoved, InodeStored, LinksMoved, View, Geometry, Removed, TablesOf, Reducible, RemoveEntry, Adjusted, Relinkable, StoreInode;
    var expected: u16 := if rem.inode.IsDirectory() then 2 else 1;
    if rem.inode.links != expected {
      return Err(UnsupportedFeature);
    }
    ghost var d := disk.blocks;
    ReleaseFits(md, d, rem);
    var tables :- ReadAllocationTables(disk, md);
    TablesOnDisk(md, d);
    var bitmaps :- ReleaseBitmaps(md, tables, rem);
    var _ :- Unmark(disk, md, tables, rem, bitmaps.0, bitmaps.1);
    ghost var d3 := disk.blocks;
    CountersFitAfter(md, d, d3, tables, rem, bitmaps.0, bitmaps.1);
    var _ :- UpdateFreeCounters(disk, md, tables.descriptor, |rem.blocks|, 1, null);
    ghost var d4 := disk.blocks;
    InodeFitsAfter(md, d, d3, d4, tables, rem, bitmaps.0, bitmaps.1);
    var _ :- StoreEmpty(disk, md, rem.ino);
    ghost var d5 := disk.blocks;
    LinksFitAfter(md, d, d3, d4, d5, tables, rem, bitmaps.0, bitmaps.1);
    r := Ok(());
    if rem.inode.IsDirectory() {
      r := UpdateDirectoryLinkCount(disk, md, rem.parent, false);
    }
    if r.Ok? && Geometry(md, d) && rem.dir.blocks[0] as nat !in View(md, d).layout {
      RemovedView(md, d, d3, d4, d5, disk.blocks, tables, rem, bitmaps.0, bitmaps.1);
    }
  }

  method StoreEmpty(disk: Disk, md: Metadata, n: nat) returns (r: Result<()>)
    requires Mounted(md) && Sized(md, disk.blocks)
    modifies disk
    ensures Sized(md, disk.blocks)
    ensures r.Ok? ==> InodeStored(md, old(disk.blocks), disk.blocks, n, EMPTY_INODE, true)
    ensures var store := StoreInode(md, old(disk.blocks), n, EMPTY_INODE, true);
            r.Err? ==> disk.Fails(r.error) || store.Err? || store.value.0 >= md.blocksCount
  {
    r := WriteInodeFields(disk, md, n, EMPTY_INODE, true, null);
  }

  // ---------- No late errors ----------

  /** The result is what was to be expected, and an error that is not a fault came before any change. */
  predicate Told(faulty: bool, r: Result<()>, refusal: Option<Ext2Error>, before: seq<Block>, after: seq<Block>) {
    if r.Ok? then refusal == None else (faulty && Fault(r.error)) || (refusal == Some(r.error) && after == before)
  }

  /** The errors that a removal can report on a sound disk. */
  function RemovalError(md: Metadata, d: seq<Block>, rem: Removal): Option<Ext2Error>
    requires Mounted(md) && Sized(md, d)
  {
    if rem.inode.links != (if rem.inode.IsDirectory() then 2 else 1) then Some(UnsupportedFeature)
    else if RemoveEntry(md, d, rem.dir, rem.name).Err? then Some(RemoveEntry(md, d, rem.dir, rem.name).error)
    else None
  }

  /** What is to be removed is marked in use, the counters can move, and so can the parent's link count. */
  ghost predicate Reducible(md: Metadata, d: seq<Block>, rem: Removal) {
    && Writable(md) && Sized(md, d) && Geometry(md, d)
    && var fs := View(md, d);
    && 1 <= rem.ino <= md.inodesCount && 1 <= rem.parent <= md.inodesCount
    && rem.ino in fs.live && Set(rem.blocks) <= fs.used && Distinct(rem.blocks) && InRange(fs.counts, |rem.blocks|, 1)
    && (RemoveEntry(md, d, rem.dir, rem.name).Ok? ==>
          && rem.dir.blocks[0] as nat !in fs.layout && rem.parent != rem.ino
          && (rem.inode.IsDirectory() ==> Relinkable(md, d, rem.parent, false)))
  }

  lemma TablesOnDisk(md: Metadata, d: seq<Block>)
    requires Writable(md) && Sized(md, d) && TablesOf(md, d).Ok?
    ensures TablesOf(md, d).value.blockBitmapNumber < md.blocksCount && TablesOf(md, d).value.inodeBitmapNumber < md.blocksCount
  {
  }

  lemma ReleaseFits(md: Metadata, d: seq<Block>, rem: Removal)
    requires Writable(md) && Sized(md, d)
    ensures Reducible(md, d, rem) ==>
              && TablesOf(md, d).Ok?
              && rem.ino in LiveInodes(md, TablesOf(md, d).value.inodeBitmap)
              && Set(rem.blocks) <= Used(md, TablesOf(md, d).value.blockBitmap) && Distinct(rem.blocks)
  {
    hide View, Used, LiveInodes, Set, Distinct, TablesOf, RemoveEntry, Relinkable;
    if Reducible(md, d, rem) {
      TablesSound(md, d);
    }
  }

  lemma CountersFitAfter(md: Metadata, d: seq<Block>, d3: seq<Block>, tables: Tables, rem: Removal, blockBitmap: Block, inodeBitmap: Block)
    requires Writable(md) && Sized(md, d) && Sized(md, d3) && TablesOf(md, d) == Ok(tables)
    requires Released(md, tables, rem, blockBitmap, inodeBitmap) && Unmarked(md, d, d3, tables, rem, blockBitmap, inodeBitmap)
    requires RemoveEntry(md, d, rem.dir, rem.name).Ok?
    ensures Reducible(md, d, rem) ==> Adjusted(tables.descriptor, d3[SUPERBLOCK], |rem.blocks|, 1).Ok?
  {
    hide View, Released, Unmarked, Set, Distinct, TablesOf, RemoveEntry, Adjusted, Relinkable, Geometry;
    if Reducible(md, d, rem) {
      UnmarkedView(md, d, d3, tables, rem, blockBitmap, inodeBitmap);
      CountersFit(md, d3, |rem.blocks|, 1);
    }
  }

  lemma InodeFitsAfter(md: Metadata, d: seq<Block>, d3: seq<Block>, d4: seq<Block>, tables: Tables, rem: Removal, blockBitmap: Block, inodeBitmap: Block)
    requires Writable(md) && Sized(md, d) && Sized(md, d3) && Sized(md, d4) && TablesOf(md, d) == Ok(tables)
    requires Released(md, tables, rem, blockBitmap, inodeBitmap) && Unmarked(md, d, d3, tables, rem, blockBitmap, inodeBitmap)
    requires RemoveEntry(md, d, rem.dir, rem.name).Ok? && CountersMoved(md, d3, d4, tables.descriptor, |rem.blocks|, 1)
    ensures Reducible(md, d, rem) ==>
              var store := StoreInode(md, d4, rem.ino, EMPTY_INODE, true); store.Ok? && store.value.0 < md.blocksCount
  {
    hide View, Released, Unmarked, Set, Distinct, TablesOf, RemoveEntry, Relinkable, Geometry, CountersMoved, StoreInode, Encode;
    if Reducible(md, d, rem) {
      UnmarkedView(md, d, d3, tables, rem, blockBitmap, inodeBitmap);
      CountersView(md, d3, d4, |rem.blocks|, 1);
      StoreIs(md, d4, rem.ino, EMPTY_INODE, true);
    }
  }

  lemma LinksFitAfter(md: Metadata, d: seq<Block>, d3: seq<Block>, d4: seq<Block>, d5: seq<Block>, tables: Tables, rem: Removal, blockBitmap: Block, inodeBitmap: Block)
    requires Writable(md) && Sized(md, d) && Sized(md, d3) && Sized(md, d4) && Sized(md, d5) && TablesOf(md, d) == Ok(tables)
    requires Released(md, tables, rem, blockBitmap, inodeBitmap) && Unmarked(md, d, d3, tables, rem, blockBitmap, inodeBitmap)
    requires RemoveEntry(md, d, rem.dir, rem.name).Ok? && CountersMoved(md, d3, d4, tables.descriptor, |rem.blocks|, 1)
    requires InodeStored(md, d4, d5, rem.ino, EMPTY_INODE, true)
    ensures Reducible(md, d, rem) && rem.inode.IsDirectory() ==> Relinkable(md, d5, rem.parent, false)
  {
    hide View, Released, Unmarked, Set, Distinct, TablesOf, RemoveEntry, Geometry, CountersMoved, InodeStored, PointersOnDisk, Relinked;
    if Reducible(md, d, rem) && rem.inode.IsDirectory() {
      UnmarkedView(md, d, d3, tables, rem, blockBitmap, inodeBitmap);
      CountersView(md, d3, d4, |rem.blocks|, 1);
      InodeStoredView(md, d4, d5, rem.ino, EMPTY_INODE, true);
      ViewInodes(md, d);
    }
  }

  /** The inode table after a removal; a parent that loses a subdirectory loses a link. */
  ghost predicate InodesAfter(fs: Fs, fs': Fs, rem: Removal) {
    if rem.inode.IsDirectory() then
      && rem.parent in fs.inodes
      && fs'.inodes.Keys == fs.inodes.Keys + {rem.ino}
      && (forall m :: m in fs.inodes && m != rem.ino && m != rem.parent ==> fs'.inodes[m] == fs.inodes[m])
      && (rem.parent != rem.ino ==>
            && rem.parent in fs'.inodes && SameBody(fs'.inodes[rem.parent], fs.inodes[rem.parent])
            && fs'.inodes[rem.parent].links == fs.inodes[rem.parent].links - 1)
    else fs'.inodes == fs.inodes[rem.ino := EMPTY_INODE]
  }

  ghost predicate Removed(md: Metadata, d: seq<Block>, d': seq<Block>, rem: Removal)
    requires Writable(md) && Sized(md, d) && Sized(md, d') && Geometry(md, d)
  {
    var fs := View(md, d);
    && Geometry(md, d')
    && var fs' := View(md, d');
    && Set(rem.blocks) <= fs.used
    && fs' == fs.(used := fs.used - Set(rem.blocks), live := fs.live - {rem.ino}, inodes := fs'.inodes,
                  counts := Moved(fs.counts, |rem.blocks|, 1), data := d')
    && InodesAfter(fs, fs', rem)
    && RemoveEntry(md, d, rem.dir, rem.name).Ok?
    && (forall b: nat :: b < |d| && b !in fs.layout ==>
          d'[b] == if b == rem.dir.blocks[0] then RemoveEntry(md, d, rem.dir, rem.name).value.1 else d[b])
  }

  lemma RemovedView(md: Metadata, d: seq<Block>, d3: seq<Block>, d4: seq<Block>, d5: seq<Block>, d': seq<Block>,
                    tables: Tables, rem: Removal, blockBitmap: Block, inodeBitmap: Block)
    requires Writable(md) && Sized(md, d) && Sized(md, d3) && Sized(md, d4) && Sized(md, d5) && Sized(md, d') && Geometry(md, d)
    requires 1 <= rem.ino <= md.inodesCount && 1 <= rem.parent <= md.inodesCount
    requires rem.dir.blocks[0] as nat !in View(md, d).layout
    requires TablesOf(md, d) == Ok(tables) && Released(md, tables, rem, blockBitmap, inodeBitmap)
    requires Unmarked(md, d, d3, tables, rem, blockBitmap, inodeBitmap)
    requires CountersMoved(md, d3, d4, tables.descriptor, |rem.blocks|, 1)
    requires InodeStored(md, d4, d5, rem.ino, EMPTY_INODE, true)
    requires if rem.inode.IsDirectory() then LinksMoved(md, d5, d', rem.parent, false) else d' == d5
    ensures Removed(md, d, d', rem)
  {
    hide Unmarked, Released, CountersMoved, InodeStored, LinksMoved, View, Geometry, TablesOf, RemoveEntry, Set;
    UnmarkedView(md, d, d3, tables, rem, blockBitmap, inodeBitmap);
    CountersView(md, d3, d4, |rem.blocks|, 1);
    InodeStoredView(md, d4, d5, rem.ino, EMPTY_INODE, true);
    if rem.inode.IsDirectory() {
      LinksMovedView(md, d5, d', rem.parent, false);
    }
    ViewData(md, d);
    ViewData(md, d');
    ViewInodes(md, d);
  }

  lemma ViewInodes(md: Metadata, d: seq<Block>)
    requires Writable(md) && Sized(md, d) && Geometry(md, d)
    ensures forall n: nat :: n in View(md, d).inodes <==> 1 <= n <= md.inodesCount
  {
  }

  lemma UnmarkedView(md: Metadata, d: seq<Block>, d': seq<Block>, tables: Tables, rem: Removal, blockBitmap: Block, inodeBitmap: Block)
    requires Writable(md) && Sized(md, d) && Sized(md, d') && Geometry(md, d)
    requires rem.dir.blocks[0] as nat !in View(md, d).layout
    requires TablesOf(md, d) == Ok(tables) && Released(md, tables, rem, blockBitmap, inodeBitmap)
    requires Unmarked(md, d, d', tables, rem, blockBitmap, inodeBitmap)
    ensures Geometry(md, d') && d'[DESCRIPTOR] == tables.descriptor
    ensures Set(rem.blocks) <= View(md, d).used
    ensures View(md, d') == View(md, d).(used := View(md, d).used - Set(rem.blocks), live := View(md, d).live - {rem.ino}, data := d')
    ensures RemoveEntry(md, d, rem.dir, rem.name).Ok?
    ensures forall b: nat :: b < |d| && b !in View(md, d).layout ==>
              d'[b] == if b == rem.dir.blocks[0] then RemoveEntry(md, d, rem.dir, rem.name).value.1 else d[b]
  {
    hide RemoveFrom, Used, LiveInodes, RawInode, CountsOf, TableBlocks, Set;
    var e := RemoveEntry(md, d, rem.dir, rem.name).value;
    assert e.0 == rem.dir.blocks[0];
    WriteOutside(md, d, e.0, e.1);
    var d1 := d[e.0 := e.1];
    WriteBlockBitmap(md, d1, blockBitmap);
    var d2 := d1[tables.blockBitmapNumber := blockBitmap];
    WriteInodeBitmap(md, d2, inodeBitmap);
  }

  // ---------- The removal as a change of state ----------

  ghost function ChangeOf(rem: Removal): Change {
    Change(rem.ino, [], rem.blocks, Some(rem.parent))
  }

  /** The entry gone from the directory block, seen in the names of the directory. */
  lemma EntryGone(fs: Fs, fs': Fs, p: nat, name: Name)
    requires OneBlock(fs, p) && OneBlock(fs', p) && fs'.md == fs.md && SameBody(fs'.inodes[p], fs.inodes[p])
    requires Entries(fs.md, fs.data, fs.inodes[p]).Ok?
    requires RemoveFrom(fs.md, fs.data[fs.inodes[p].blocks[0]], 0, None, name) == Ok(fs'.data[fs.inodes[p].blocks[0]])
    ensures Entries(fs'.md, fs'.data, fs'.inodes[p]).Ok?
    ensures RemovedFirst(Names(fs, p), Names(fs', p), name)
  {
    hide RemoveFrom, Records, Live, RemovedFirst, Names, Entries;
    OneBlockNames(fs, p);
    OneBlockNames(fs', p);
    RemoveDeletes(fs.md, fs.data[fs.inodes[p].blocks[0]], name);
  }

  /** A removal of something the directory names, whose blocks are its own, and that holds no names itself. */
  ghost predicate Removable(fs: Fs, rem: Removal) {
    && Consistent(fs) && OneBlock(fs, rem.parent) && fs.inodes[rem.parent] == rem.dir
    && Owner(fs, rem.ino) && fs.inodes[rem.ino] == rem.inode && rem.ino != rem.parent
    && rem.blocks == Owns(fs, rem.ino)
    && SafeComponent(rem.name) && Links(fs, rem.parent, rem.name, rem.ino)
    && OnlyDots(Names(fs, rem.ino))
  }

  /** The state after a removal, on states. */
  ghost predicate Gone(fs: Fs, fs': Fs, rem: Removal) {
    && Shape(fs) && Sized(fs.md, fs'.data)
    && fs' == fs.(used := fs.used - Set(rem.blocks), live := fs.live - {rem.ino}, inodes := fs'.inodes, counts := fs'.counts, data := fs'.data)
    && fs'.counts.groupBlocks == fs.counts.groupBlocks + |rem.blocks| && fs'.counts.superBlocks == fs.counts.superBlocks + |rem.blocks|
    && fs'.counts.groupInodes == fs.counts.groupInodes + 1 && fs'.counts.superInodes == fs.counts.superInodes + 1
    && rem.ino in fs.inodes && rem.parent in fs.inodes && InodesAfter(fs, fs', rem)
    && rem.dir.blocks[0] < fs.md.blocksCount
    && RemoveFrom(fs.md, fs.data[rem.dir.blocks[0]], 0, None, rem.name) == Ok(fs'.data[rem.dir.blocks[0]])
    && (forall b: nat :: b < fs.md.blocksCount && b !in fs.layout && b != rem.dir.blocks[0] ==> fs'.data[b] == fs.data[b])
  }

  lemma GoneStep(fs: Fs, fs': Fs, rem: Removal)
    requires Removable(fs, rem) && Gone(fs, fs', rem)
    ensures Step(fs, fs', ChangeOf(rem)) && OneBlock(fs', rem.parent) && SameBody(fs'.inodes[rem.parent], fs.inodes[rem.parent])
    ensures CountersFollow(fs, fs', ChangeOf(rem))
  {
    hide Consistent, Listed, RemoveFrom, Names, Links, OnlyDots, SafeComponent;
    assert Set([]) == {};
    GoneInodes(fs, fs', rem);
    GoneParent(fs, fs', rem);
  }

  lemma GoneInodes(fs: Fs, fs': Fs, rem: Removal)
    requires Removable(fs, rem) && Gone(fs, fs', rem)
    ensures Shape(fs')
    ensures forall m :: m in fs.inodes && m != rem.ino ==> (m in fs'.live <==> m in fs.live) && SameInode(fs, fs', ChangeOf(rem), m)
  {
    hide Consistent, Listed, RemoveFrom, Names, Links, OnlyDots, SafeComponent, Set;
  }

  lemma GoneParent(fs: Fs, fs': Fs, rem: Removal)
    requires Removable(fs, rem) && Gone(fs, fs', rem) && Shape(fs')
    ensures OneBlock(fs', rem.parent) && SameBody(fs'.inodes[rem.parent], fs.inodes[rem.parent])
  {
    hide Tree, Counted, Listed, RemoveFrom, Names, Links, OnlyDots, SafeComponent;
    FirstListed(fs, rem.parent);
    assert Set(Owns(fs, rem.parent)) !! Set(Owns(fs, rem.ino));
  }

  /** The result of removing whatever was at a path. */
  ghost predicate RemovedAt(fs: Fs, fs': Fs, names: seq<Name>) {
    && Consistent(fs) && Consistent(fs')
    && Path(fs', ROOT_INODE, names) == None
    && SamePaths(fs, fs', Some(names))
    && (var n := Path(fs, ROOT_INODE, names);
        && n.Some? && Owner(fs, n.value)
        && fs'.used == fs.used - Set(Owns(fs, n.value))
        && fs'.live == fs.live - {n.value})
    && KeepsCounts(fs, fs')
  }

  /** Creating a file and then removing it restores both bitmaps and all four counters. */
  lemma CreateRemoveRestores(fs: Fs, fs': Fs, fs'': Fs, names: seq<Name>, contents: seq<byte>)
    requires Written(fs, fs', names, contents) && Path(fs, ROOT_INODE, names) == None
    requires RemovedAt(fs', fs'', names) && fs''.md == fs'.md == fs.md
    ensures fs''.used == fs.used && fs''.live == fs.live && fs''.counts == fs.counts
  {
    hide Holding, Apart, Tree, Path, Listed, SamePaths, ReadsAlike, KeepsCounts;
    var n := Path(fs', ROOT_INODE, names).value;
    assert n !in fs.live && fs.used + Set(Owns(fs', n)) - Set([]) == fs.used + Set(Owns(fs', n));
    assert fs''.used == fs.used;
    assert fs''.live == fs.live;
  }

  lemma GoneTheorem(fs: Fs, fs': Fs, rem: Removal, above: seq<Name>)
    requires Removable(fs, rem) && Gone(fs, fs', rem) && Path(fs, ROOT_INODE, above) == Some(rem.parent)
    ensures RemovedAt(fs, fs', above + [rem.name])
  {
    hide Holding, Apart, Counted, Listed, RemoveFrom, Names, OnlyDots, SafeComponent, Path, Entries, SamePaths, ReadsAlike, KeepsCounts, Set, Links, InodesAfter;
    GoneStep(fs, fs', rem);
    assert GoodDirectory(fs, rem.parent);
    EntryGone(fs, fs', rem.parent, rem.name);
    assert Unlinked(fs, fs', ChangeOf(rem), rem.parent, rem.name);
    UnlinkTheorem(fs, fs', ChangeOf(rem), rem.parent, above, rem.name);
    LinkedPath(fs, rem.parent, above, rem.name, rem.ino);
    GoneCounts(fs, fs', rem);
  }

  lemma GoneCounts(fs: Fs, fs': Fs, rem: Removal)
    requires Removable(fs, rem) && Gone(fs, fs', rem) && Unlinked(fs, fs', ChangeOf(rem), rem.parent, rem.name)
    ensures KeepsCounts(fs, fs')
  {
    hide Holding, Apart, Counted, Tree, Listed, RemoveFrom, Names, OnlyDots, SafeComponent, Entries, Set, Links, LinkCounts, SectorCounts, EntryKinds, Step, RemovedFirst, OneBlock;
    if LinkCounts(fs) {
      CountsAfterUnlink(fs, fs', ChangeOf(rem), rem.parent, rem.name);
    }
    if EntryKinds(fs) {
      KindsAfterUnlink(fs, fs', ChangeOf(rem), rem.parent, rem.name);
    }
    if SectorCounts(fs) {
      SectorsKept(fs, fs', ChangeOf(rem));
    }
  }

  // ---------- remove_file and remove_empty_directory ----------

  /** Both end here: what was found at the path, with the blocks it holds, is removed. */
  method Remove(disk: Disk, md: Metadata, path: seq<byte>, rem: Removal) returns (r: Result<()>)
    requires Writable(md) && Sized(md, disk.blocks)
    requires Parent(md, disk.blocks, path) == Ok((rem.parent, rem.dir, rem.name))
    requires FindChild(md, disk.blocks, rem.dir, rem.name) == Ok(Some(rem.ino))
    requires ReadInode(md, disk.blocks, rem.ino) == Ok(rem.inode)
    requires Listed(md, disk.blocks, rem.inode) == rem.blocks
    requires rem.inode.IsFile() || (rem.inode.IsDirectory() && Entries(md, disk.blocks, rem.inode).Ok? && OnlyDots(Entries(md, disk.blocks, rem.inode).value))
    modifies disk
    ensures Sized(md, disk.blocks)
    ensures r.Ok? && WellFormed(md, old(disk.blocks)) ==>
              && WellFormed(md, disk.blocks)
              && RemovedAt(View(md, old(disk.blocks)), View(md, disk.blocks), Components(path))
              && WasAt(View(md, old(disk.blocks)), Components(path), rem.inode)
    ensures WellFormed(md, old(disk.blocks)) && (rem.inode.IsDirectory() ==> LinkCounts(View(md, old(disk.blocks)))) ==>
              Told(disk.faulty, r, RemovalError(md, old(disk.blocks), rem), old(disk.blocks), disk.blocks)
  {
    hide Consistent, RemovedAt, WasAt, View, Geometry, Parent, FindChild, ReadInode, Listed, Entries, RemoveEntry, Removed, Told, RemovalError, Reducible, LinkCounts;
    ghost var d := disk.blocks;
    NumbersOnDisk(md, d, path, rem);
    if WellFormed(md, d) {
      ViewShape(md, d);
      if rem.inode.IsDirectory() ==> LinkCounts(View(md, d)) {
        ReducibleFacts(md, d, path, rem);
      }
    }
    r := RemoveAllocations(disk, md, rem);
    if r.Ok? && WellFormed(md, d) {
      RemovableFacts(md, d, path, rem);
      RemovedIsGone(md, d, disk.blocks, rem);
      ParentFacts(md, d, path, rem.parent, rem.dir, rem.name);
      GoneTheorem(View(md, d), View(md, disk.blocks), rem, Components(ParentPath(path)));
      RemovedWellFormed(md, d, disk.blocks, rem, Components(path));
      RemovableWas(View(md, d), rem, Components(ParentPath(path)));
    }
  }

  /** The path led to this inode, which holds no names of its own. */
  ghost predicate WasAt(fs: Fs, names: seq<Name>, inode: Inode) {
    && Shape(fs)
    && var n := Path(fs, ROOT_INODE, names);
    && n.Some? && n.value in fs.inodes && fs.inodes[n.value] == inode && OnlyDots(Names(fs, n.value))
  }

  lemma RemovableWas(fs: Fs, rem: Removal, above: seq<Name>)
    requires Removable(fs, rem) && Path(fs, ROOT_INODE, above) == Some(rem.parent)
    ensures WasAt(fs, above + [rem.name], rem.inode)
  {
    hide Holding, Apart, Counted, Listed, Names, OnlyDots, SafeComponent, Path, Links, Tree;
    LinkedPath(fs, rem.parent, above, rem.name, rem.ino);
  }

  lemma NumbersOnDisk(md: Metadata, d: seq<Block>, path: seq<byte>, rem: Removal)
    requires Writable(md) && Sized(md, d)
    requires Parent(md, d, path) == Ok((rem.parent, rem.dir, rem.name)) && ReadInode(md, d, rem.ino) == Ok(rem.inode)
    ensures 1 <= rem.ino <= md.inodesCount && 1 <= rem.parent <= md.inodesCount
  {
    hide TableStart, FetchAt, TableBlocks, Walk, SafeComponent;
    WalkIsRead(md, d, ROOT_INODE, Components(ParentPath(path)));
  }

  lemma RemovableFacts(md: Metadata, d: seq<Block>, path: seq<byte>, rem: Removal)
    requires WellFormed(md, d)
    requires Parent(md, d, path) == Ok((rem.parent, rem.dir, rem.name))
    requires FindChild(md, d, rem.dir, rem.name) == Ok(Some(rem.ino))
    requires ReadInode(md, d, rem.ino) == Ok(rem.inode)
    requires Listed(md, d, rem.inode) == rem.blocks
    requires rem.inode.IsFile() || (rem.inode.IsDirectory() && Entries(md, d, rem.inode).Ok? && OnlyDots(Entries(md, d, rem.inode).value))
    requires RemoveEntry(md, d, rem.dir, rem.name).Ok?
    ensures Removable(View(md, d), rem)
  {
    hide Holding, Apart, Counted, Tree, View, Parent, FindChild, ReadInode, Listed, Entries, RemoveFrom, Path, FindName, Links, SafeComponent;
    var fs := View(md, d);
    ParentFacts(md, d, path, rem.parent, rem.dir, rem.name);
    FindIsName(md, d, rem.parent, rem.name);
    ChildOwner(fs, rem.parent, rem.name, rem.ino);
    ReadOwner(md, d, rem.ino);
    ViewData(md, d);
    OnlyBlockFacts(md, d, rem.parent, UnsupportedFeature);
    NotOwnParent(fs, rem.parent, Components(ParentPath(path)), rem.name, rem.ino);
  }

  /** What the path leads to owns its blocks, whatever becomes of the entry. */
  lemma FoundOwner(md: Metadata, d: seq<Block>, path: seq<byte>, rem: Removal)
    requires WellFormed(md, d)
    requires Parent(md, d, path) == Ok((rem.parent, rem.dir, rem.name))
    requires FindChild(md, d, rem.dir, rem.name) == Ok(Some(rem.ino))
    requires ReadInode(md, d, rem.ino) == Ok(rem.inode) && Listed(md, d, rem.inode) == rem.blocks
    ensures var fs := View(md, d);
            && Owner(fs, rem.ino) && rem.blocks == Owns(fs, rem.ino)
            && Owner(fs, rem.parent) && fs.inodes[rem.parent] == rem.dir && Directory(fs, rem.parent)
  {
    hide Holding, Apart, Counted, Tree, View, Parent, FindChild, ReadInode, Listed, Path, FindName, Names, Links, SafeComponent;
    var fs := View(md, d);
    ParentFacts(md, d, path, rem.parent, rem.dir, rem.name);
    FindIsName(md, d, rem.parent, rem.name);
    ChildOwner(fs, rem.parent, rem.name, rem.ino);
    ReadOwner(md, d, rem.ino);
    ViewData(md, d);
  }

  lemma ReducibleFacts(md: Metadata, d: seq<Block>, path: seq<byte>, rem: Removal)
    requires WellFormed(md, d)
    requires Parent(md, d, path) == Ok((rem.parent, rem.dir, rem.name))
    requires FindChild(md, d, rem.dir, rem.name) == Ok(Some(rem.ino))
    requires ReadInode(md, d, rem.ino) == Ok(rem.inode)
    requires Listed(md, d, rem.inode) == rem.blocks
    requires rem.inode.IsFile() || (rem.inode.IsDirectory() && Entries(md, d, rem.inode).Ok? && OnlyDots(Entries(md, d, rem.inode).value))
    requires rem.inode.IsDirectory() ==> LinkCounts(View(md, d))
    ensures Reducible(md, d, rem)
  {
    hide Apart, Tree, View, Parent, FindChild, ReadInode, Listed, Entries, RemoveEntry, Links, Geometry, OnlyDots, PointersOnDisk, Distinct, Set, Names, SafeComponent, Subdirectories;
    var fs := View(md, d);
    ViewData(md, d);
    NumbersOnDisk(md, d, path, rem);
    FoundOwner(md, d, path, rem);
    assert HoldsBlocks(fs, rem.ino) && HoldsBlocks(fs, rem.parent);
    GivenBack(fs, rem.ino);
    if RemoveEntry(md, d, rem.dir, rem.name).Ok? {
      RemovableFacts(md, d, path, rem);
      if rem.inode.IsDirectory() {
        assert RightCount(fs, rem.parent);
      }
    }
  }

  /** Giving back what an inode owns, and the inode, keeps the counters in range. */
  lemma GivenBack(fs: Fs, n: nat)
    requires Consistent(fs) && Owner(fs, n)
    ensures InRange(fs.counts, |Owns(fs, n)|, 1)
  {
    hide Apart, Tree, Listed, PointersOnDisk;
    assert HoldsBlocks(fs, n);
    SetSize(Owns(fs, n));
    Subset(Set(Owns(fs, n)), fs.used);
    LiveBound(fs);
    Subset({n}, fs.live);
  }

  /** No directory contains itself. */
  lemma NotOwnParent(fs: Fs, p: nat, above: seq<Name>, name: Name, c: nat)
    requires Shape(fs) && Tree(fs) && Path(fs, ROOT_INODE, above) == Some(p) && SafeComponent(name) && Links(fs, p, name, c)
    ensures c != p
  {
    hide Path, Tree, SafeComponent, Links;
    LinkedPath(fs, p, above, name, c);
    if c == p {
      PathUnique(fs, above, above + [name], p);
    }
  }

  lemma RemovedIsGone(md: Metadata, d: seq<Block>, d': seq<Block>, rem: Removal)
    requires Writable(md) && Sized(md, d) && Sized(md, d') && Geometry(md, d)
    requires Removable(View(md, d), rem)
    requires rem.dir.blocks[0] as nat !in View(md, d).layout ==> Removed(md, d, d', rem)
    ensures Geometry(md, d') && Gone(View(md, d), View(md, d'), rem)
  {
    hide Consistent, View, RemoveFrom, InodesAfter, Links, OnlyDots, Set, Listed;
    ViewData(md, d);
    ViewData(md, d');
  }

  lemma RemovedWellFormed(md: Metadata, d: seq<Block>, d': seq<Block>, rem: Removal, names: seq<Name>)
    requires Writable(md) && Sized(md, d) && Sized(md, d') && Geometry(md, d) && Geometry(md, d')
    requires RemovedAt(View(md, d), View(md, d'), names)
    ensures WellFormed(md, d')
  {
  }
}
