/** Why a successful `write_file` replaces or creates exactly one file. */
module Ext2WriteProof {
  import opened Bytes
  import opened Numbers
  import opened Options
  import opened Ext2Disk
  import opened Ext2Pointers
  import opened Ext2Owned
  import opened Ext2Records
  import opened Ext2RecordProofs
  import opened Ext2Directory
  import opened Ext2Entries
  import opened Ext2Inodes
  import opened Ext2Path
  import opened Ext2Bitmap
  import opened Ext2View
  import opened Ext2State
  import opened Ext2Tree
  import opened Ext2Change
  import opened Ext2Files
  import opened Ext2Links
  import opened Ext2Plan
  import opened Ext2Tables
  import opened Ext2Layout
  import opened Ext2Commit
  import opened Ext2Reader

  /** What `write_file` has learned from the disk before it changes anything. */
  datatype Survey = Survey(
    parent: nat,
    dir: Inode,
    name: Name,
    existing: Option<(nat, Inode)>,
    oldBlocks: seq<u32>,
    tables: Tables)

  predicate Surveyed(md: Metadata, d: seq<Block>, path: seq<byte>, s: Survey)
    requires Writable(md) && Sized(md, d)
  {
    && Parent(md, d, path) == Ok((s.parent, s.dir, s.name))
    && TablesOf(md, d) == Ok(s.tables)
    && (s.existing.Some? ==>
          && FindChild(md, d, s.dir, s.name) == Ok(Some(s.existing.value.0))
          && ReadInode(md, d, s.existing.value.0) == Ok(s.existing.value.1)
          && s.existing.value.1.IsFile()
          && Collect(md, d, s.existing.value.1) == Ok(s.oldBlocks))
    && (s.existing.None? ==>
          && FindChild(md, d, s.dir, s.name) == Ok(None)
          && EntrySpace(md, d, s.dir, s.name).Ok?
          && s.oldBlocks == [])
  }

  /** The parent of a path on a well-formed disk is a directory of the tree. */
  lemma ParentFacts(md: Metadata, d: seq<Block>, path: seq<byte>, n: nat, dir: Inode, name: Name)
    requires WellFormed(md, d) && Parent(md, d, path) == Ok((n, dir, name))
    ensures var fs := View(md, d);
            && Path(fs, ROOT_INODE, Components(ParentPath(path))) == Some(n)
            && Directory(fs, n) && fs.inodes[n] == dir
            && SafeComponent(name)
            && Components(path) == Components(ParentPath(path)) + [name]
  {
    hide Walk, View, Holding, Apart, Counted, Path;
    var fs := View(md, d);
    var above := Components(ParentPath(path));
    WalkIsPath(md, d, ROOT_INODE, above);
    PathOwner(fs, ROOT_INODE, above);
    PathSplits(path);
  }

  /** The file that is to be replaced owns the blocks that will be freed. */
  lemma ExistingFacts(md: Metadata, d: seq<Block>, path: seq<byte>, s: Survey)
    requires WellFormed(md, d) && Surveyed(md, d, path, s) && s.existing.Some?
    ensures var fs := View(md, d);
            var ino := s.existing.value.0;
            && Owner(fs, ino) && fs.inodes[ino] == s.existing.value.1
            && s.oldBlocks == Owns(fs, ino)
            && Path(fs, ROOT_INODE, Components(path)) == Some(ino)
  {
    hide Walk, View, Holding, Apart, Counted, Path, FindChild, ReadInode, Names, FindName, Parent, SafeComponent, Listed, Tree, Links;
    var fs := View(md, d);
    var ino := s.existing.value.0;
    ParentFacts(md, d, path, s.parent, s.dir, s.name);
    FindIsName(md, d, s.parent, s.name);
    ChildOwner(fs, s.parent, s.name, ino);
    ReadOwner(md, d, ino);
    LinkedPath(fs, s.parent, Components(ParentPath(path)), s.name, ino);
    ViewData(md, d);
  }

  /** The directory that is to receive a new name has one full block, and no such name yet. */
  lemma NewFacts(md: Metadata, d: seq<Block>, path: seq<byte>, s: Survey)
    requires WellFormed(md, d) && Surveyed(md, d, path, s) && s.existing.None?
    ensures var fs := View(md, d);
            && FindName(Names(fs, s.parent), s.name) == None
            && OneBlock(fs, s.parent)
  {
    hide Walk, View, Holding, Apart, Counted, Path, FindChild, Names, FindName, Parent, SafeComponent, RoomFrom;
    var fs := View(md, d);
    ParentFacts(md, d, path, s.parent, s.dir, s.name);
    FindIsName(md, d, s.parent, s.name);
    OnlyBlockFacts(md, d, s.parent, UnsupportedFeature);
  }

  /** A directory of exactly one full block, which is its own. */
  ghost predicate OneBlock(fs: Fs, n: nat) {
    && Shape(fs) && Directory(fs, n)
    && fs.inodes[n].size == fs.md.blockSize
    && fs.inodes[n].blocks[0] != 0 && fs.inodes[n].blocks[0] < fs.md.blocksCount
    && fs.inodes[n].blocks[0] as nat !in fs.layout
    && fs.inodes[n].blocks[0] as nat in fs.used
  }

  lemma OnlyBlockFacts(md: Metadata, d: seq<Block>, n: nat, missing: Ext2Error)
    requires WellFormed(md, d) && Directory(View(md, d), n)
    requires OnlyBlock(md, View(md, d).inodes[n], missing).Ok?
    ensures OneBlock(View(md, d), n)
  {
    hide View, Apart, Counted, Entries, Names, Listed;
    var fs := View(md, d);
    ViewData(md, d);
    assert GoodDirectory(fs, n);
    assert HoldsBlocks(fs, n);
    FirstListed(fs, n);
  }

  /** The names of a one-block directory are those of its block. */
  lemma OneBlockNames(fs: Fs, n: nat)
    requires OneBlock(fs, n)
    ensures var rs := Records(fs.md, fs.data[fs.inodes[n].blocks[0]], 0, fs.md.blockSize);
            && (Entries(fs.md, fs.data, fs.inodes[n]).Ok? <==> rs.Ok?)
            && (rs.Ok? ==> Names(fs, n) == Live(rs.value))
  {
    hide Records, Live, Entries;
    OneBlockEntries(fs.md, fs.data, fs.inodes[n]);
  }

  // ---------- From the writes to the change ----------

  /** Writing into free blocks leaves the layout, and so the whole view but its data, as it was. */
  lemma FreeWrites(md: Metadata, d: seq<Block>, d': seq<Block>, taken: seq<u32>)
    requires WellFormed(md, d) && Sized(md, d')
    requires OnlyWrote(d, d', taken) && Set(taken) !! View(md, d).used
    requires forall b :: b in Set(taken) ==> md.firstDataBlock <= b
    ensures Geometry(md, d') && View(md, d') == View(md, d).(data := d')
    ensures Set(taken) !! View(md, d).layout
    ensures TablesOf(md, d') == TablesOf(md, d)
  {
    hide Tree, Apart, Counted, Used, LiveInodes, RawInode, CountsOf, TableBlocks;
    assert Set(taken) !! View(md, d).layout;
    SameLayout(md, d, d');
  }

  /** The state after commit and cleanup, in terms of the state in which the data had been written. */
  ghost function Outcome(fs: Fs, intent: Intent, freed: seq<u32>, data: seq<Block>): Fs
    requires Writable(fs.md) && |intent.bitmap| == 1024
    requires 0 <= fs.counts.groupBlocks + intent.BlockDelta() && 0 <= fs.counts.superBlocks + intent.BlockDelta()
    requires 0 <= fs.counts.groupInodes + intent.InodeDelta() && 0 <= fs.counts.superInodes + intent.InodeDelta()
  {
    fs.(used := Used(fs.md, intent.bitmap) - Set(freed),
        live := if intent.isNew then fs.live + {intent.ino} else fs.live,
        inodes := fs.inodes[intent.ino := intent.inode],
        counts := Moved(fs.counts, intent.BlockDelta() + |freed|, intent.InodeDelta()),
        data := data)
  }

  lemma FinalView(md: Metadata, d1: seq<Block>, d2: seq<Block>, d3: seq<Block>, intent: Intent, freed: seq<u32>)
    requires Writable(md) && Sized(md, d1) && Sized(md, d2) && Sized(md, d3) && Geometry(md, d1)
    requires |intent.bitmap| == 1024 && |intent.name| < 256 && 1 <= intent.ino < U32_LIMIT
    requires Committed(md, d1, d2, intent) && Freed(md, d2, d3, freed)
    ensures Geometry(md, d3)
    ensures var c := View(md, d1).counts;
            && 0 <= c.groupBlocks + intent.BlockDelta() && 0 <= c.superBlocks + intent.BlockDelta()
            && 0 <= c.groupInodes + intent.InodeDelta() && 0 <= c.superInodes + intent.InodeDelta()
    ensures View(md, d3) == Outcome(View(md, d1), intent, freed, d3)
    ensures intent.isNew ==> AddEntry(md, d1, intent.dir, intent.name, intent.ino, 1).Ok?
    ensures forall b: nat :: b < |d1| && b !in View(md, d1).layout ==>
              d3[b] == if intent.isNew && b == intent.dir.blocks[0]
                       then AddEntry(md, d1, intent.dir, intent.name, intent.ino, 1).value.1 else d1[b]
  {
    hide Used, AddEntry, Layout, LiveInodes, RawInode, CountsOf;
    ViewData(md, d1);
  }

  // ---------- The change, on states ----------

  /** The inode of a file laid out so: two sectors for each block it takes. */
  predicate IsPlanned(inode: Inode, plan: Plan, bytes: nat) {
    |Taken(plan)| < U32_LIMIT / 2 && inode == FileInode(plan, bytes, 2 * |Taken(plan)|)
  }

  /** A file has been laid out and committed: `fs'` is `fs` with inode `ino` holding the plan. */
  ghost predicate Laid(fs: Fs, fs': Fs, plan: Plan, contents: seq<byte>, inode: Inode, ch: Change) {
    && Shape(fs) && Sized(fs.md, fs'.data)
    && ch.took == Taken(plan) && ch.ino in fs.inodes
    && fs' == fs.(used := fs.used + Set(ch.took) - Set(ch.freed), live := fs.live + {ch.ino},
                  inodes := fs.inodes[ch.ino := inode], counts := fs'.counts, data := fs'.data)
    && Proper(fs.md, ch.took) && Set(ch.took) !! fs.used && Set(ch.took) !! fs.layout
    && (forall b :: b in Set(ch.took) ==> fs.md.firstDataBlock <= b)
    && Fits(plan, |contents|) && Stored(fs.md, fs'.data, plan, contents)
    && IsPlanned(inode, plan, |contents|)
    && ch.freed == (if Owner(fs, ch.ino) then Owns(fs, ch.ino) else [])
    && (ch.parent.Some? ==> OneBlock(fs, ch.parent.value) && ch.parent.value != ch.ino)
    && (forall b: nat :: b < fs.md.blocksCount && b !in fs.layout && b !in Set(ch.took) && !DirectoryTouched(fs, ch, b) ==>
          fs'.data[b] == fs.data[b])
  }

  lemma FilePointers(md: Metadata, plan: Plan, bytes: nat, sectors: u32)
    requires OnDisk(md, Taken(plan))
    ensures PointersOnDisk(md, FileInode(plan, bytes, sectors))
  {
    TakenOnDisk(md, plan);
  }

  /** The new inode owns exactly the blocks of the plan. */
  lemma LaidOwns(fs: Fs, fs': Fs, plan: Plan, contents: seq<byte>, inode: Inode, ch: Change)
    requires Laid(fs, fs', plan, contents, inode, ch)
    ensures Shape(fs') && Owner(fs', ch.ino) && fs'.inodes[ch.ino] == inode && inode.IsFile() && inode.size == |contents| && inode.links == 1 && inode.mode == 0x81a4
    ensures inode.sectors == 2 * |Owns(fs', ch.ino)|
    ensures PointersOnDisk(fs.md, inode)
    ensures Distinct(Owns(fs', ch.ino)) && Set(Owns(fs', ch.ino)) == Set(ch.took)
  {
    hide Stored, Taken, Listed, Distinct, PointersOnDisk, Window, Fits;
    var sectors: u32 := 2 * |Taken(plan)|;
    FilePointers(fs.md, plan, |contents|, sectors);
    ListedIsTaken(fs.md, fs'.data, plan, contents, sectors);
    SamePermutation(Listed(fs.md, fs'.data, inode), Taken(plan));
    assert |multiset(Listed(fs.md, fs'.data, inode))| == |multiset(Taken(plan))|;
    assert forall i :: 0 <= i < |ch.took| ==> ch.took[i] as nat in Set(ch.took);
    assert forall b :: b in Set(ch.took) ==> b < fs.md.blocksCount;
  }

  lemma LaidStep(fs: Fs, fs': Fs, plan: Plan, contents: seq<byte>, inode: Inode, ch: Change)
    requires Laid(fs, fs', plan, contents, inode, ch)
    ensures Step(fs, fs', ch)
  {
    LaidOwns(fs, fs', plan, contents, inode, ch);
    LaidOthers(fs, fs', plan, contents, inode, ch);
    hide Shape, Stored, Taken, Owns, Distinct, PointersOnDisk, Fits, FileInode, Set, Proper, DirectoryTouched, Window, SameInode, Owner, OneBlock;
  }

  lemma LaidOthers(fs: Fs, fs': Fs, plan: Plan, contents: seq<byte>, inode: Inode, ch: Change)
    requires Laid(fs, fs', plan, contents, inode, ch)
    ensures ch.parent.Some? ==> Owner(fs, ch.parent.value) && fs.inodes[ch.parent.value].blocks[0] != 0
    ensures forall m :: m in fs.inodes && m != ch.ino ==> (m in fs'.live <==> m in fs.live) && SameInode(fs, fs', ch, m)
  {
    hide Stored, Taken, Owns, Distinct, PointersOnDisk, Fits, FileInode, Set, Proper, DirectoryTouched, Window;
  }

  /** What the path reads once the file is laid out. */
  lemma LaidReads(fs: Fs, fs': Fs, plan: Plan, contents: seq<byte>, inode: Inode, ch: Change, names: seq<Name>, limit: nat)
    requires Laid(fs, fs', plan, contents, inode, ch) && Shape(fs')
    requires Path(fs', ROOT_INODE, names) == Some(ch.ino)
    ensures FileAt(fs', names, limit) == Some(Ok(contents[..Min(|contents|, limit)]))
  {
    LaidOwns(fs, fs', plan, contents, inode, ch);
    hide Stored, Taken, Listed, Distinct, PointersOnDisk, Fits, Set, ReadContents, Path, Window;
    var sectors: u32 := 2 * |Taken(plan)|;
    ContentsStored(fs.md, fs'.data, plan, contents, sectors, limit);
  }

  /** Replacing a file: everything consistent, the path reads the new contents, no other path changes. */
  lemma ReplaceLaid(fs: Fs, fs': Fs, plan: Plan, contents: seq<byte>, inode: Inode, ch: Change, names: seq<Name>)
    requires Consistent(fs) && Laid(fs, fs', plan, contents, inode, ch) && ch.parent == None
    requires Owner(fs, ch.ino) && fs.inodes[ch.ino].IsFile() && Path(fs, ROOT_INODE, names) == Some(ch.ino)
    requires CountersFollow(fs, fs', ch)
    ensures Written(fs, fs', names, contents)
  {
    hide Holding, Apart, Tree, Counted, Path, Stored, Taken, Fits, Set, FileAt, Listed;
    LaidOwns(fs, fs', plan, contents, inode, ch);
    LaidStep(fs, fs', plan, contents, inode, ch);
    ReplaceTheorem(fs, fs', ch, names);
    forall limit: nat ensures FileAt(fs', names, limit) == Some(Ok(contents[..Min(|contents|, limit)])) {
      LaidReads(fs, fs', plan, contents, inode, ch, names, limit);
    }
    assert Reallocated(fs, fs', names, |contents|);
    hide LinkCounts, SectorCounts, EntryKinds, Step, Laid, Written, SamePaths;
    if LinkCounts(fs) {
      CountsAfterReplace(fs, fs', ch);
    }
    if EntryKinds(fs) {
      KindsAfterReplace(fs, fs', ch);
    }
    if SectorCounts(fs) {
      SectorsKept(fs, fs', ch);
    }
  }

  /** The result of writing `contents` at a path. */
  ghost predicate Written(fs: Fs, fs': Fs, names: seq<Name>, contents: seq<byte>) {
    && Consistent(fs) && Consistent(fs')
    && (forall limit: nat :: FileAt(fs', names, limit) == Some(Ok(contents[..Min(|contents|, limit)])))
    && SamePaths(fs, fs', Some(names))
    && Reallocated(fs, fs', names, |contents|)
    && KeepsCounts(fs, fs')
  }

  /** The file's new blocks were free before; what it held before, and nothing else, has been given back. */
  ghost predicate Reallocated(fs: Fs, fs': Fs, names: seq<Name>, size: nat)
    requires Shape(fs) && Shape(fs')
  {
    var n := Path(fs', ROOT_INODE, names);
    && n.Some? && n.value in fs'.inodes && n.value in fs.inodes
    && fs'.inodes[n.value].size == size && fs'.inodes[n.value].mode == 0x81a4
    && fs'.inodes[n.value].sectors == 2 * |Owns(fs', n.value)|
    && Set(Owns(fs', n.value)) !! fs.used
    && (var was := if Owner(fs, n.value) then Owns(fs, n.value) else [];
        fs'.used == fs.used + Set(Owns(fs', n.value)) - Set(was))
    && fs'.live == fs.live + {n.value}
    && (n.value in fs.live ==> Path(fs, ROOT_INODE, names) == n)
  }

  /** The new entry of the directory block, seen in the names of the directory. */
  lemma EntryNames(fs: Fs, fs': Fs, p: nat, name: Name, ino: u32, kind: byte)
    requires OneBlock(fs, p) && OneBlock(fs', p) && fs'.md == fs.md && SameBody(fs'.inodes[p], fs.inodes[p])
    requires |name| < 256 && ino != 0
    requires Entries(fs.md, fs.data, fs.inodes[p]).Ok?
    requires AddFrom(fs.md, fs.data[fs.inodes[p].blocks[0]], 0, name, ino, kind) == Ok(fs'.data[fs.inodes[p].blocks[0]])
    ensures Entries(fs'.md, fs'.data, fs'.inodes[p]).Ok?
    ensures Inserted(Names(fs, p), Names(fs', p), Entry(name, ino, KeptKind(fs.md, kind)))
  {
    hide AddFrom, Records, Live, Inserted, Names, Entries;
    OneBlockNames(fs, p);
    OneBlockNames(fs', p);
    AddInserts(fs.md, fs.data[fs.inodes[p].blocks[0]], 0, name, ino, kind);
  }

  /** Creating a file: everything consistent, the path reads the contents, no other path changes. */
  lemma CreateLaid(fs: Fs, fs': Fs, plan: Plan, contents: seq<byte>, inode: Inode, ch: Change, p: nat, above: seq<Name>, name: Name)
    requires Consistent(fs) && Laid(fs, fs', plan, contents, inode, ch) && ch.parent == Some(p)
    requires ch.ino !in fs.live && ch.ino < U32_LIMIT && Path(fs, ROOT_INODE, above) == Some(p)
    requires SafeComponent(name) && FindName(Names(fs, p), name) == None
    requires AddFrom(fs.md, fs.data[fs.inodes[p].blocks[0]], 0, name, ch.ino, 1) == Ok(fs'.data[fs.inodes[p].blocks[0]])
    requires CountersFollow(fs, fs', ch)
    ensures Written(fs, fs', above + [name], contents)
  {
    hide Holding, Apart, Counted, Path, Stored, Taken, Fits, FileAt, Listed, AddFrom, Entries, Names, FindName, Set;
    LaidOwns(fs, fs', plan, contents, inode, ch);
    LaidStep(fs, fs', plan, contents, inode, ch);
    OneBlockKept(fs, fs', plan, contents, inode, ch, p);
    assert GoodDirectory(fs, p);
    EntryNames(fs, fs', p, name, ch.ino, 1);
    FileHasNoNames(fs', ch.ino);
    assert Linked(fs, fs', ch, p, name);
    LinkTheorem(fs, fs', ch, p, above, name);
    forall limit: nat ensures FileAt(fs', above + [name], limit) == Some(Ok(contents[..Min(|contents|, limit)])) {
      LaidReads(fs, fs', plan, contents, inode, ch, above + [name], limit);
    }
    assert Reallocated(fs, fs', above + [name], |contents|);
    CreateCounts(fs, fs', plan, contents, inode, ch, p, name);
  }

  lemma CreateCounts(fs: Fs, fs': Fs, plan: Plan, contents: seq<byte>, inode: Inode, ch: Change, p: nat, name: Name)
    requires Consistent(fs) && Laid(fs, fs', plan, contents, inode, ch) && Linked(fs, fs', ch, p, name) && inode.IsFile() && inode.links == 1
    requires Owner(fs', ch.ino) && RightSectors(fs', ch.ino)
    ensures KeepsCounts(fs, fs')
  {
    hide Holding, Apart, Counted, Tree, Stored, Taken, Fits, Listed, Entries, Names, Set, LinkCounts, SectorCounts, EntryKinds, RightSectors, Step, Proper, FileInode, OneBlock, Inserted;
    if LinkCounts(fs) {
      CountsAfterLink(fs, fs', ch, p, name);
    }
    if EntryKinds(fs) {
      KindsAfterLink(fs, fs', ch, p, name);
    }
    if SectorCounts(fs) {
      SectorsKept(fs, fs', ch);
    }
  }

  lemma FileHasNoNames(fs: Fs, n: nat)
    requires Shape(fs) && n in fs.inodes && fs.inodes[n].IsFile()
    ensures Names(fs, n) == [] && !Directory(fs, n)
  {
  }

  lemma OneBlockKept(fs: Fs, fs': Fs, plan: Plan, contents: seq<byte>, inode: Inode, ch: Change, p: nat)
    requires Laid(fs, fs', plan, contents, inode, ch) && Shape(fs') && ch.parent == Some(p) && ch.ino !in fs.live
    ensures OneBlock(fs', p) && SameBody(fs'.inodes[p], fs.inodes[p])
  {
    hide Stored, Taken, Fits, Listed, Proper;
    assert Set([]) == {};
  }

  // ---------- From the bytes to the change ----------

  /** The plan stays stored while only other blocks are written. */
  lemma StoredKept(md: Metadata, d: seq<Block>, d': seq<Block>, plan: Plan, contents: seq<byte>)
    requires Writable(md) && Sized(md, d) && Sized(md, d') && Fits(plan, |contents|) && OnDisk(md, Taken(plan))
    requires Stored(md, d, plan, contents)
    requires forall b: nat :: b < |d| && b in Set(Taken(plan)) ==> d'[b] == d[b]
    ensures Stored(md, d', plan, contents)
  {
    hide TableOf, ChunkOf, EncWords, Window;
    TakenOnDisk(md, plan);
    TakenMembers(plan);
    hide Set, Taken;
  }

  lemma TakenMembers(plan: Plan)
    ensures plan.single != 0 ==> plan.single as nat in Set(Taken(plan))
    ensures plan.double != 0 ==> plan.double as nat in Set(Taken(plan))
    ensures forall i :: 0 <= i < |plan.leaves| ==> plan.leaves[i] as nat in Set(Taken(plan))
    ensures forall i :: 0 <= i < |plan.data| ==> plan.data[i] as nat in Set(Taken(plan))
  {
    var a, b := IfNeeded(plan.single), IfNeeded(plan.double);
    TakenParts(plan);
    SetConcat(a + b + plan.leaves, plan.data);
    SetConcat(a + b, plan.leaves);
    SetConcat(a, b);
    PointerSets(plan);
    assert forall i :: 0 <= i < |plan.leaves| ==> plan.leaves[i] as nat in Set(plan.leaves);
    assert forall i :: 0 <= i < |plan.data| ==> plan.data[i] as nat in Set(plan.data);
  }

  /** The parts of a successful run that do not mention the disk after it. */
  ghost predicate Planned(md: Metadata, d: seq<Block>, s: Survey, plan: Plan, contents: seq<byte>, intent: Intent)
    requires Writable(md) && Sized(md, d) && Geometry(md, d)
  {
    && Fits(plan, |contents|) && Proper(md, Taken(plan))
    && |s.tables.blockBitmap| == |intent.bitmap| == 1024
    && Took(md, s.tables.blockBitmap, intent.bitmap, Taken(plan))
    && intent.took == |Taken(plan)| && intent.isNew == s.existing.None? && intent.dir == s.dir && intent.name == s.name
    && 1 <= intent.ino <= md.inodesCount < U32_LIMIT
    && IsPlanned(intent.inode, plan, |contents|)
    && (if s.existing.Some? then intent.ino == s.existing.value.0 else intent.ino !in View(md, d).live)
  }

  ghost function ChangeOf(s: Survey, plan: Plan, intent: Intent): Change {
    Change(intent.ino, Taken(plan), s.oldBlocks, if intent.isNew then Some(s.parent) else None)
  }

  lemma PlannedFacts(md: Metadata, d: seq<Block>, path: seq<byte>, s: Survey, plan: Plan, contents: seq<byte>, intent: Intent)
    requires WellFormed(md, d) && Surveyed(md, d, path, s) && Planned(md, d, s, plan, contents, intent)
    ensures var fs := View(md, d);
            && Set(Taken(plan)) !! fs.used
            && (forall b :: b in Set(Taken(plan)) ==> md.firstDataBlock <= b)
            && Used(md, intent.bitmap) == fs.used + Set(Taken(plan))
            && intent.ino in fs.inodes
            && s.oldBlocks == (if Owner(fs, intent.ino) then Owns(fs, intent.ino) else [])
            && (s.existing.Some? ==> intent.ino in fs.live)
            && (intent.isNew ==> OneBlock(fs, s.parent) && s.parent != intent.ino && fs.inodes[s.parent] == s.dir)
  {
    TablesUsed(md, d, s);
    TakenAbove(md, s, plan, intent);
    if s.existing.Some? {
      ExistingFacts(md, d, path, s);
    } else {
      NewFacts(md, d, path, s);
      ParentFacts(md, d, path, s.parent, s.dir, s.name);
    }
    hide Holding, Apart, Tree, Counted, Used, Surveyed, Taken, Fits, Proper, Took, FileInode, Layout, LiveInodes, RawInode, CountsOf, Set, Names, FindName;
  }

  lemma TablesUsed(md: Metadata, d: seq<Block>, s: Survey)
    requires Writable(md) && Sized(md, d) && Geometry(md, d) && TablesOf(md, d) == Ok(s.tables)
    ensures |s.tables.blockBitmap| == 1024 && Used(md, s.tables.blockBitmap) == View(md, d).used
  {
  }

  lemma TakenAbove(md: Metadata, s: Survey, plan: Plan, intent: Intent)
    requires Writable(md) && |s.tables.blockBitmap| == |intent.bitmap| == 1024
    requires Took(md, s.tables.blockBitmap, intent.bitmap, Taken(plan))
    ensures forall b :: b in Set(Taken(plan)) ==> md.firstDataBlock <= b
    ensures Set(Taken(plan)) !! Used(md, s.tables.blockBitmap)
    ensures Used(md, intent.bitmap) == Used(md, s.tables.blockBitmap) + Set(Taken(plan))
  {
    hide Used, Taken;
  }

  /** The disks of a run: before, with the data written, after the commit, after the cleanup. */
  ghost predicate Ran(md: Metadata, d: seq<Block>, d1: seq<Block>, d2: seq<Block>, d3: seq<Block>, s: Survey, plan: Plan, contents: seq<byte>, intent: Intent)
    requires Writable(md) && Sized(md, d) && Sized(md, d1) && Sized(md, d2) && Sized(md, d3)
    requires Fits(plan, |contents|) && Proper(md, Taken(plan)) && |intent.bitmap| == 1024 && 1 <= intent.ino < U32_LIMIT
  {
    && OnlyWrote(d, d1, Taken(plan)) && Stored(md, d1, plan, contents)
    && |intent.name| < 256
    && Geometry(md, d1) && Committed(md, d1, d2, intent) && Freed(md, d2, d3, s.oldBlocks)
  }

  /** The intent takes free blocks and gives back what its inode owned. */
  ghost predicate Fair(fs: Fs, s: Survey, plan: Plan, intent: Intent) {
    && Shape(fs) && Set(Taken(plan)) !! fs.used && Set(Taken(plan)) !! fs.layout
    && (forall b :: b in Set(Taken(plan)) ==> fs.md.firstDataBlock <= b)
    && |intent.bitmap| == 1024 && Used(fs.md, intent.bitmap) == fs.used + Set(Taken(plan))
    && intent.ino in fs.inodes
    && s.oldBlocks == (if Owner(fs, intent.ino) then Owns(fs, intent.ino) else [])
    && (intent.isNew ==> intent.ino !in fs.live)
    && (!intent.isNew ==> intent.ino in fs.live)
    && (intent.isNew ==> OneBlock(fs, s.parent) && s.parent != intent.ino && fs.inodes[s.parent] == s.dir)
    && intent.took == |Taken(plan)|
  }

  lemma OutcomeLaid(fs: Fs, fs': Fs, d1: seq<Block>, s: Survey, plan: Plan, contents: seq<byte>, intent: Intent)
    requires Fair(fs, s, plan, intent) && Sized(fs.md, fs'.data)
    requires Fits(plan, |contents|) && Proper(fs.md, Taken(plan)) && Stored(fs.md, fs'.data, plan, contents)
    requires IsPlanned(intent.inode, plan, |contents|)
    requires 0 <= fs.counts.groupBlocks + intent.BlockDelta() && 0 <= fs.counts.superBlocks + intent.BlockDelta()
    requires 0 <= fs.counts.groupInodes + intent.InodeDelta() && 0 <= fs.counts.superInodes + intent.InodeDelta()
    requires fs' == Outcome(fs.(data := d1), intent, s.oldBlocks, fs'.data)
    requires forall b: nat :: b < |fs.data| && b !in fs.layout && b !in Set(Taken(plan)) && !(intent.isNew && b == s.dir.blocks[0]) ==>
               fs'.data[b] == fs.data[b]
    ensures Laid(fs, fs', plan, contents, intent.inode, ChangeOf(s, plan, intent))
    ensures CountersFollow(fs, fs', ChangeOf(s, plan, intent))
  {
    hide Used, Stored, Fits, Proper, FileInode, Taken, Owns, Set;
    assert intent.ino in fs.live ==> fs.live + {intent.ino} == fs.live;
  }

  /** Where the run has got to: the final view, and what became of the blocks outside the layout. */
  ghost predicate Arrived(md: Metadata, d: seq<Block>, d1: seq<Block>, d3: seq<Block>, s: Survey, plan: Plan, intent: Intent)
    requires Writable(md) && Sized(md, d) && Sized(md, d1) && Sized(md, d3) && Geometry(md, d)
    requires |s.name| < 256 && 1 <= intent.ino < U32_LIMIT
  {
    var fs := View(md, d);
    && Fair(fs, s, plan, intent)
    && Geometry(md, d3)
    && 0 <= fs.counts.groupBlocks + intent.BlockDelta() && 0 <= fs.counts.superBlocks + intent.BlockDelta()
    && 0 <= fs.counts.groupInodes + intent.InodeDelta() && 0 <= fs.counts.superInodes + intent.InodeDelta()
    && View(md, d3) == Outcome(fs.(data := d1), intent, s.oldBlocks, d3)
    && (forall b: nat :: b < |d| && b in Set(Taken(plan)) ==> d3[b] == d1[b])
    && (forall b: nat :: b < |d| && b !in fs.layout && b !in Set(Taken(plan)) && !(intent.isNew && b == s.dir.blocks[0]) ==> d3[b] == d[b])
    && (intent.isNew ==> s.dir.blocks[0] < |d| && AddFrom(md, d[s.dir.blocks[0]], 0, s.name, intent.ino, 1) == Ok(d3[s.dir.blocks[0]]))
  }

  lemma RunArrives(md: Metadata, d: seq<Block>, d1: seq<Block>, d2: seq<Block>, d3: seq<Block>, s: Survey, plan: Plan, intent: Intent)
    requires Writable(md) && Sized(md, d) && Sized(md, d1) && Sized(md, d2) && Sized(md, d3) && Geometry(md, d)
    requires |s.name| < 256 && 1 <= intent.ino < U32_LIMIT && intent.dir == s.dir && intent.name == s.name
    requires Fair(View(md, d), s, plan, intent) && OnlyWrote(d, d1, Taken(plan))
    requires Geometry(md, d1) && View(md, d1) == View(md, d).(data := d1)
    requires Committed(md, d1, d2, intent) && Freed(md, d2, d3, s.oldBlocks)
    ensures Arrived(md, d, d1, d3, s, plan, intent)
  {
    hide Used, Committed, Freed, View, Taken, AddEntry, AddFrom, Owner, Set, Geometry, OnlyWrote, Outcome;
    FinalView(md, d1, d2, d3, intent, s.oldBlocks);
    ViewData(md, d);
    OutsideKept(md, d, d1, d3, s, plan, intent);
  }

  lemma RunLaid(md: Metadata, d: seq<Block>, d1: seq<Block>, d2: seq<Block>, d3: seq<Block>, path: seq<byte>, s: Survey, plan: Plan, contents: seq<byte>, intent: Intent)
    requires WellFormed(md, d) && Sized(md, d1) && Sized(md, d2) && Sized(md, d3)
    requires Surveyed(md, d, path, s) && Planned(md, d, s, plan, contents, intent)
    requires Ran(md, d, d1, d2, d3, s, plan, contents, intent)
    ensures Arrived(md, d, d1, d3, s, plan, intent)
    ensures Stored(md, d3, plan, contents)
  {
    PlannedFacts(md, d, path, s, plan, contents, intent);
    RunFair(md, d, d1, s, plan, contents, intent);
    assert OnDisk(md, Taken(plan));
    hide Surveyed, Consistent, Used, Committed, Freed, Stored, Fits, Proper, Took, FileInode, View, Taken, Fair, Set, Geometry, OnlyWrote;
    RunArrives(md, d, d1, d2, d3, s, plan, intent);
    hide Fair, Outcome, AddFrom;
    StoredKept(md, d1, d3, plan, contents);
  }

  lemma RunFair(md: Metadata, d: seq<Block>, d1: seq<Block>, s: Survey, plan: Plan, contents: seq<byte>, intent: Intent)
    requires WellFormed(md, d) && Sized(md, d1) && Planned(md, d, s, plan, contents, intent)
    requires OnlyWrote(d, d1, Taken(plan))
    requires var fs := View(md, d);
            && Set(Taken(plan)) !! fs.used
            && (forall b :: b in Set(Taken(plan)) ==> md.firstDataBlock <= b)
            && Used(md, intent.bitmap) == fs.used + Set(Taken(plan))
            && intent.ino in fs.inodes
            && s.oldBlocks == (if Owner(fs, intent.ino) then Owns(fs, intent.ino) else [])
            && (s.existing.Some? ==> intent.ino in fs.live)
            && (intent.isNew ==> OneBlock(fs, s.parent) && s.parent != intent.ino && fs.inodes[s.parent] == s.dir)
    ensures Fair(View(md, d), s, plan, intent)
    ensures Geometry(md, d1) && View(md, d1) == View(md, d).(data := d1)
  {
    hide Surveyed, Holding, Apart, Tree, Counted, Used, Fits, Proper, Took, FileInode, Taken, Owner, OneBlock, Set, View;
    ViewData(md, d);
    FreeWrites(md, d, d1, Taken(plan));
  }

  lemma OutsideKept(md: Metadata, d: seq<Block>, d1: seq<Block>, d3: seq<Block>, s: Survey, plan: Plan, intent: Intent)
    requires Writable(md) && Sized(md, d) && Sized(md, d1) && Sized(md, d3) && Geometry(md, d) && Geometry(md, d1)
    requires |s.name| < 256 && 1 <= intent.ino < U32_LIMIT
    requires OnlyWrote(d, d1, Taken(plan)) && View(md, d1).layout == View(md, d).layout
    requires Set(Taken(plan)) !! View(md, d).layout && Set(Taken(plan)) !! View(md, d).used
    requires intent.isNew ==> OneBlock(View(md, d), s.parent) && View(md, d).inodes[s.parent] == s.dir
    requires intent.isNew ==> AddEntry(md, d1, s.dir, s.name, intent.ino, 1).Ok?
    requires forall b: nat :: b < |d1| && b !in View(md, d1).layout ==>
              d3[b] == if intent.isNew && b == s.dir.blocks[0]
                       then AddEntry(md, d1, s.dir, s.name, intent.ino, 1).value.1 else d1[b]
    ensures forall b: nat :: b < |d| && b in Set(Taken(plan)) ==> d3[b] == d1[b]
    ensures forall b: nat :: b < |d| && b !in View(md, d).layout && b !in Set(Taken(plan)) && !(intent.isNew && b == s.dir.blocks[0]) ==> d3[b] == d[b]
    ensures intent.isNew ==> AddFrom(md, d[s.dir.blocks[0]], 0, s.name, intent.ino, 1) == Ok(d3[s.dir.blocks[0]])
  {
    hide View, Taken, Set, Owner, AddFrom;
  }

  lemma ArrivedLaid(md: Metadata, d: seq<Block>, d1: seq<Block>, d3: seq<Block>, s: Survey, plan: Plan, contents: seq<byte>, intent: Intent)
    requires Writable(md) && Sized(md, d) && Sized(md, d1) && Sized(md, d3) && Geometry(md, d)
    requires |s.name| < 256 && 1 <= intent.ino < U32_LIMIT
    requires Arrived(md, d, d1, d3, s, plan, intent)
    requires Fits(plan, |contents|) && Proper(md, Taken(plan)) && Stored(md, d3, plan, contents)
    requires IsPlanned(intent.inode, plan, |contents|)
    ensures Laid(View(md, d), View(md, d3), plan, contents, intent.inode, ChangeOf(s, plan, intent))
    ensures CountersFollow(View(md, d), View(md, d3), ChangeOf(s, plan, intent))
  {
    hide View, Laid, CountersFollow, Fits, Proper, AddFrom, Stored, Fair, Set, Taken, FileInode;
    ViewData(md, d);
    ViewData(md, d3);
    OutcomeLaid(View(md, d), View(md, d3), d1, s, plan, contents, intent);
  }

  /** A successful run on a well-formed disk writes exactly the file it was asked to write. */
  lemma WriteTheorem(md: Metadata, d: seq<Block>, d1: seq<Block>, d2: seq<Block>, d3: seq<Block>, path: seq<byte>, s: Survey, plan: Plan, contents: seq<byte>, intent: Intent)
    requires WellFormed(md, d) && Sized(md, d1) && Sized(md, d2) && Sized(md, d3)
    requires Surveyed(md, d, path, s) && Planned(md, d, s, plan, contents, intent)
    requires Ran(md, d, d1, d2, d3, s, plan, contents, intent)
    ensures WellFormed(md, d3) && Written(View(md, d), View(md, d3), Components(path), contents)
  {
    hide Holding, Apart, Tree, Counted, View, Laid, CountersFollow, Committed, Freed, Stored, Fits, Proper, Took, Path, Names, FindName, AddFrom, Components,
         Fair, Outcome, OnlyWrote, FileInode, Taken;
    RunLaid(md, d, d1, d2, d3, path, s, plan, contents, intent);
    ArrivedLaid(md, d, d1, d3, s, plan, contents, intent);
    var fs, ch := View(md, d), ChangeOf(s, plan, intent);
    ViewData(md, d);
    ViewData(md, d3);
    ParentFacts(md, d, path, s.parent, s.dir, s.name);
    if s.existing.Some? {
      ExistingFacts(md, d, path, s);
      ReplaceLaid(fs, View(md, d3), plan, contents, intent.inode, ch, Components(path));
    } else {
      NewFacts(md, d, path, s);
      CreateLaid(fs, View(md, d3), plan, contents, intent.inode, ch, s.parent, Components(ParentPath(path)), s.name);
    }
  }
}
