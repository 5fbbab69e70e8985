/** `write_file`: a shadow copy of the data, then a commit and a cleanup that can both be undone. */
module Ext2Writer {
  import opened Bytes
  import opened Options
  import opened Ext2Disk
  import opened Ext2Pointers
  import opened Ext2Owned
  import opened Ext2Directory
  import opened Ext2Entries
  import opened Ext2Inodes
  import opened Ext2Path
  import opened Ext2Bitmap
  import opened Ext2View
  import opened Ext2State
  import opened Ext2Tree
  import opened Ext2Files
  import opened Ext2Links
  import opened Ext2Plan
  import opened Ext2Tables
  import opened Ext2Layout
  import opened Ext2Commit
  import opened Ext2Reader
  import opened Ext2WriteProof
  import opened Ext2Refusal

  // ---------- Failure atomicity ----------

  /** The bitmap on the disk has a bit for block `b`, and it is clear. */
  ghost predicate MarkedFree(md: Metadata, d: seq<Block>, b: nat)
    requires Writable(md) && Sized(md, d)
  {
    && BlockBitmapNumber(md, d) < md.blocksCount
    && md.firstDataBlock <= b < md.blocksCount
    && !InUse(md, d[BlockBitmapNumber(md, d)], b)
  }

  /** Every block that was not marked free holds its old bytes. */
  ghost predicate KeptInUse(md: Metadata, d: seq<Block>, d': seq<Block>) {
    |d'| == |d| && (Writable(md) && Sized(md, d) ==> forall b: nat :: b < |d| && !MarkedFree(md, d, b) ==> d'[b] == d[b])
  }

  lemma TakenWereFree(md: Metadata, d: seq<Block>, d': seq<Block>, tables: Tables, bitmap: Block, taken: seq<u32>)
    requires Writable(md) && Sized(md, d) && TablesOf(md, d) == Ok(tables) && |bitmap| == 1024
    requires Took(md, tables.blockBitmap, bitmap, taken) && OnlyWrote(d, d', taken)
    ensures KeptInUse(md, d, d')
  {
    hide Distinct, Marked;
    forall b: nat | b < |d| && !MarkedFree(md, d, b) ensures d'[b] == d[b] {
      if b in Set(taken) {
        assert b !in Used(md, tables.blockBitmap);
      }
    }
  }

  /** A disk that keeps its blocks in use keeps every file. */
  lemma KeptIsUnnoticed(md: Metadata, d: seq<Block>, d': seq<Block>)
    requires WellFormed(md, d) && Sized(md, d') && KeptInUse(md, d, d')
    ensures WellFormed(md, d') && SamePaths(View(md, d), View(md, d'), None) && KeepsCounts(View(md, d), View(md, d'))
  {
    hide Holding, Tree, Apart, Counted, View, KeptInUse;
    KeptOwned(md, d, d');
    SameLayout(md, d, d');
    ViewData(md, d);
    ViewData(md, d');
    UnnoticedTheorem(View(md, d), View(md, d'));
    CountsUnnoticed(View(md, d), View(md, d'));
  }

  lemma KeptOwned(md: Metadata, d: seq<Block>, d': seq<Block>)
    requires WellFormed(md, d) && Sized(md, d') && KeptInUse(md, d, d')
    ensures forall b :: b in View(md, d).used || (b < |d| && b in View(md, d).layout) ==> d'[b] == d[b]
  {
    hide Tree, Apart, Counted, LiveInodes, Layout, RawInode, CountsOf;
    var fs := View(md, d);
    forall b | b in fs.used || (b < |d| && b in fs.layout) ensures d'[b] == d[b] {
      assert !MarkedFree(md, d, b);
    }
  }

  // ---------- Commit, cleanup and undo ----------

  /**
   * Commits the metadata and frees the old blocks. Any failure is undone, the cleanup on top of the
   * commit, and unless the undo itself fails the disk is then exactly what it was.
   */
  method CommitOrUndo(disk: Disk, md: Metadata, tables: Tables, intent: Intent, oldBlocks: seq<u32>)
    returns (r: Result<()>, ghost committed: seq<Block>)
    requires Sensible(md, tables, intent) && Sized(md, disk.blocks)
    modifies disk
    ensures Sized(md, disk.blocks) && Sized(md, committed)
    ensures r.Err? && r.error != RecoveryFailed ==> disk.blocks == old(disk.blocks)
    ensures r.Ok? && old(Ready(md, disk.blocks, tables, intent)) ==>
              Committed(md, old(disk.blocks), committed, intent) && Freed(md, committed, disk.blocks, oldBlocks)
    ensures r.Err? && old(Ready(md, disk.blocks, tables, intent) && Payable(md, disk.blocks, intent, oldBlocks)) ==>
              disk.faulty && (Fault(r.error) || r.error == RecoveryFailed)
  {
    hide Committed, Freed, Ready, Geometry, Payable, Freeable;
    committed := disk.blocks;
    var log := new BlockTransaction(disk);
    ghost var d := disk.blocks;
    PayableParts(md, d, intent, oldBlocks);
    r := Commit(disk, md, tables, intent, log);
    if r.Err? {
      var undone := log.Rollback(disk, md);
      if undone.Err? {
        r := undone;
      }
      return;
    }
    committed := disk.blocks;
    if Ready(md, d, tables, intent) && Payable(md, d, intent, oldBlocks) {
      CleanupWillFit(md, d, committed, tables, intent, oldBlocks);
    }
    var cleanup := new BlockTransaction(disk);
    r := FreeDataBlocks(disk, md, oldBlocks, cleanup);
    if r.Err? {
      var first := cleanup.Rollback(disk, md);
      var second := log.Rollback(disk, md);
      if first.Err? || second.Err? {
        r := Err(RecoveryFailed);
      }
    } else {
      assert old(Ready(md, disk.blocks, tables, intent)) ==> Geometry(md, committed) by {
        CommittedGeometry(md, old(disk.blocks), committed, tables, intent);
      }
    }
  }

  /** The commit is affordable, and the cleanup after it gives back blocks that are in use. */
  ghost predicate Payable(md: Metadata, d: seq<Block>, intent: Intent, oldBlocks: seq<u32>) {
    && Affordable(md, d, intent) && |intent.bitmap| == 1024
    && Set(oldBlocks) <= Used(md, intent.bitmap) && Distinct(oldBlocks)
    && InRange(View(md, d).counts, intent.BlockDelta() + |oldBlocks|, intent.InodeDelta())
  }

  lemma PayableParts(md: Metadata, d: seq<Block>, intent: Intent, oldBlocks: seq<u32>)
    ensures Payable(md, d, intent, oldBlocks) ==> Affordable(md, d, intent)
  {
    hide Affordable;
  }

  lemma CleanupWillFit(md: Metadata, d: seq<Block>, d2: seq<Block>, tables: Tables, intent: Intent, oldBlocks: seq<u32>)
    requires Sensible(md, tables, intent) && Sized(md, d) && Sized(md, d2) && Ready(md, d, tables, intent)
    requires Payable(md, d, intent, oldBlocks) && Committed(md, d, d2, intent)
    ensures Freeable(md, d2, oldBlocks)
  {
    hide Used, View, AddEntry, Set, Distinct;
  }

  lemma CommittedGeometry(md: Metadata, d: seq<Block>, d': seq<Block>, tables: Tables, intent: Intent)
    requires Sensible(md, tables, intent) && Sized(md, d) && Sized(md, d')
    ensures Ready(md, d, tables, intent) && Committed(md, d, d', intent) ==> Geometry(md, d')
  {
  }

  // ---------- write_file ----------

  /** Everything `write_file` reads before it decides to change anything. */
  method SurveyDisk(disk: Disk, md: Metadata, path: seq<byte>, length: nat) returns (r: Result<Survey>)
    requires Writable(md) && Sized(md, disk.blocks)
    ensures r.Ok? ==> Surveyed(md, disk.blocks, path, r.value) && length <= MAX_FILE_SIZE
    ensures Explained(disk.faulty, r, SurveyError(md, disk.blocks, path, length))
  {
    hide FindChild, ReadInode, Collect, EntrySpace, Walk;
    var found :- ResolveParent(disk, md, path);
    var (parent, dir, name) := found;
    if length > MAX_FILE_SIZE {
      return Err(UnsupportedFeature);
    }
    var existing: Option<(nat, Inode)> := None;
    var oldBlocks: seq<u32> := [];
    var child :- FindDirectoryChild(disk, md, dir, name);
    if child.Some? {
      var inode :- LoadInode(disk, md, child.value);
      if !inode.IsFile() {
        return Err(InvalidPath);
      }
      if inode.size > MAX_FILE_SIZE {
        return Err(UnsupportedFeature);
      }
      existing := Some((child.value, inode));
      oldBlocks :- CollectFileAllocations(disk, md, inode);
    } else {
      var _ :- EnsureDirectoryEntrySpace(disk, md, dir, name);
    }
    var tables :- ReadAllocationTables(disk, md);
    r := Ok(Survey(parent, dir, name, existing, oldBlocks, tables));
  }

  /** The number of the inode to write: the existing one, or the lowest free one. */
  method ChooseInode(md: Metadata, s: Survey) returns (r: Result<nat>)
    requires Writable(md) && |s.tables.inodeBitmap| == 1024
    ensures r.Ok? && s.existing.Some? ==> r.value == s.existing.value.0
    ensures r.Ok? && s.existing.None? ==> 1 <= r.value <= md.inodesCount && !Marked(s.tables.inodeBitmap, r.value - 1)
    ensures r.Err? ==> r.error == NoSpace && s.existing.None? && forall j: nat :: j < md.inodesCount ==> Marked(s.tables.inodeBitmap, j)
  {
    if s.existing.Some? {
      return Ok(s.existing.value.0);
    }
    var index := FindFreeBit(s.tables.inodeBitmap, md.inodesCount);
    if index.None? {
      return Err(NoSpace);
    }
    r := Ok(index.value + 1);
  }

  function IntentOf(s: Survey, plan: Plan, bitmap: Block, ino: nat, length: nat): Intent
    requires |Taken(plan)| < U32_LIMIT / 2
  {
    Intent(bitmap, |Taken(plan)|, s.existing.None?, ino, FileInode(plan, length, 2 * |Taken(plan)|), s.dir, s.name)
  }

  lemma TakenFacts(md: Metadata, before: Block, after: Block, plan: Plan, bytes: nat)
    requires Writable(md) && |before| == |after| == 1024 && Took(md, before, after, Taken(plan)) && Fits(plan, bytes)
    ensures |Taken(plan)| < 100000 && Proper(md, Taken(plan))
  {
    hide Used, Set, Distinct;
  }

  /** The intent built from a survey and a plan is one the survey allows. */
  lemma IntentPlanned(md: Metadata, d: seq<Block>, path: seq<byte>, s: Survey, plan: Plan, contents: seq<byte>, bitmap: Block, ino: nat)
    requires WellFormed(md, d) && Surveyed(md, d, path, s)
    requires |bitmap| == |s.tables.blockBitmap| == |s.tables.inodeBitmap| == 1024
    requires Fits(plan, |contents|) && Took(md, s.tables.blockBitmap, bitmap, Taken(plan)) && |Taken(plan)| < U32_LIMIT / 2
    requires Proper(md, Taken(plan))
    requires s.existing.Some? ==> ino == s.existing.value.0
    requires s.existing.None? ==> 1 <= ino <= md.inodesCount && !Marked(s.tables.inodeBitmap, ino - 1)
    ensures Planned(md, d, s, plan, contents, IntentOf(s, plan, bitmap, ino, |contents|))
  {
    hide Consistent, Took, Taken, Used, Fits, Proper, FileInode, Layout, RawInode, CountsOf, ReadInode, FindChild, Collect, Parent, EntrySpace, Marked;
    if s.existing.Some? {
      InodeNumber(md, d, ino);
    }
  }

  lemma InodeNumber(md: Metadata, d: seq<Block>, n: nat)
    requires Mounted(md) && Sized(md, d)
    ensures ReadInode(md, d, n).Ok? ==> 1 <= n <= md.inodesCount
  {
    hide TableStart, FetchAt, TableBlocks;
  }

  lemma ReadyToCommit(md: Metadata, d: seq<Block>, d1: seq<Block>, path: seq<byte>, s: Survey, plan: Plan, contents: seq<byte>, intent: Intent)
    requires WellFormed(md, d) && Sized(md, d1) && Surveyed(md, d, path, s) && Planned(md, d, s, plan, contents, intent)
    requires OnlyWrote(d, d1, Taken(plan)) && Sensible(md, s.tables, intent)
    ensures Ready(md, d1, s.tables, intent)
  {
    hide Consistent, Took, Used, Fits, Proper, FileInode, View, ReadInode, FindChild, Collect, Parent, EntrySpace, Taken, OnlyWrote, Owner, Owns, Shape, Set, TablesOf;
    PlannedFacts(md, d, path, s, plan, contents, intent);
    RunFair(md, d, d1, s, plan, contents, intent);
    FreeWrites(md, d, d1, Taken(plan));
    NothingTaken(Taken(plan));
  }

  lemma NothingTaken(blocks: seq<u32>)
    ensures |blocks| == 0 ==> Set(blocks) == {}
  {
  }

  lemma KeptSame(md: Metadata, d: seq<Block>)
    ensures KeptInUse(md, d, d)
  {
  }

  lemma SurveySizes(md: Metadata, d: seq<Block>, path: seq<byte>, s: Survey)
    requires Writable(md) && Sized(md, d) && Surveyed(md, d, path, s)
    ensures TablesOf(md, d) == Ok(s.tables)
    ensures |s.tables.descriptor| == |s.tables.blockBitmap| == |s.tables.inodeBitmap| == 1024
    ensures s.tables.blockBitmapNumber < md.blocksCount && s.tables.inodeBitmapNumber < md.blocksCount
    ensures |s.name| < 256
    ensures s.existing.Some? ==> 1 <= s.existing.value.0 <= md.inodesCount
  {
    hide FindChild, ReadInode, Collect, EntrySpace, Walk, NameByte;
    if s.existing.Some? {
      InodeNumber(md, d, s.existing.value.0);
    }
  }

  lemma FinishWrite(md: Metadata, d: seq<Block>, d1: seq<Block>, d2: seq<Block>, d3: seq<Block>, path: seq<byte>, s: Survey, plan: Plan, contents: seq<byte>, intent: Intent)
    requires WellFormed(md, d) && Sized(md, d1) && Sized(md, d2) && Sized(md, d3) && Surveyed(md, d, path, s)
    requires Planned(md, d, s, plan, contents, intent) && Sensible(md, s.tables, intent)
    requires OnlyWrote(d, d1, Taken(plan)) && Stored(md, d1, plan, contents)
    requires Ready(md, d1, s.tables, intent) ==> Committed(md, d1, d2, intent) && Freed(md, d2, d3, s.oldBlocks)
    ensures WellFormed(md, d3) && Written(View(md, d), View(md, d3), Components(path), contents)
  {
    hide Consistent, Committed, Freed, Stored, OnlyWrote, Fits, Proper, Took, Surveyed, Written, Taken, View, FileInode;
    ReadyToCommit(md, d, d1, path, s, plan, contents, intent);
    WriteTheorem(md, d, d1, d2, d3, path, s, plan, contents, intent);
  }

  /**
   * Creates or replaces the file at `path`. On any disk, an error other than a failed recovery
   * leaves every block that was in use untouched; on a well-formed disk no path then reads
   * differently, and a success makes exactly this path read exactly these contents.
   */
  method WriteFile(disk: Disk, md: Metadata, path: seq<byte>, contents: seq<byte>) returns (r: Result<()>)
    requires Mounted(md) && Sized(md, disk.blocks)
    modifies disk
    ensures Sized(md, disk.blocks)
    ensures r.Err? && r.error != RecoveryFailed ==> KeptInUse(md, old(disk.blocks), disk.blocks)
    ensures r.Err? && r.error != RecoveryFailed && WellFormed(md, old(disk.blocks)) ==>
              && WellFormed(md, disk.blocks)
              && SamePaths(View(md, old(disk.blocks)), View(md, disk.blocks), None)
              && KeepsCounts(View(md, old(disk.blocks)), View(md, disk.blocks))
    ensures r.Ok? && WellFormed(md, old(disk.blocks)) ==>
              && WellFormed(md, disk.blocks)
              && Written(View(md, old(disk.blocks)), View(md, disk.blocks), Components(path), contents)
    ensures WellFormed(md, old(disk.blocks)) ==> Explained(disk.faulty, r, WriteRefusal(View(md, old(disk.blocks)), path, |contents|))
    ensures WellFormed(md, old(disk.blocks)) && r == Err(RecoveryFailed) ==> disk.faulty
  {
    hide WriteRefusal, Consistent, Written, SamePaths, ReadsAlike, KeepsCounts, KeptInUse, Geometry;
    if WellFormed(md, disk.blocks) {
      ViewShape(md, disk.blocks);
      WriteRefusals(View(md, disk.blocks), path, |contents|);
    }
    r := WriteOrKeep(disk, md, path, contents);
    if r.Err? && r.error != RecoveryFailed && WellFormed(md, old(disk.blocks)) {
      KeptIsUnnoticed(md, old(disk.blocks), disk.blocks);
    }
  }

  method WriteOrKeep(disk: Disk, md: Metadata, path: seq<byte>, contents: seq<byte>) returns (r: Result<()>)
    requires Mounted(md) && Sized(md, disk.blocks)
    modifies disk
    ensures Sized(md, disk.blocks)
    ensures r.Err? && r.error != RecoveryFailed ==> KeptInUse(md, old(disk.blocks), disk.blocks)
    ensures r.Ok? && WellFormed(md, old(disk.blocks)) ==>
              && WellFormed(md, disk.blocks)
              && Written(View(md, old(disk.blocks)), View(md, disk.blocks), Components(path), contents)
    ensures WellFormed(md, old(disk.blocks)) ==> Explained(disk.faulty, r, WriteRefusal(View(md, old(disk.blocks)), path, |contents|))
  {
    hide WellFormed, Written, Surveyed, Took, Taken, Fits, Stored, OnlyWrote, Committed, Freed, Ready, Planned, Proper, IntentOf, KeptInUse, Sensible, Marked,
         WriteRefusal, SurveyError, FreeBlocks, BlocksNeeded, Payable;
    ghost var d := disk.blocks;
    KeptSame(md, d);
    if !Writable(md) {
      NotWellFormed(md, d);
      return Err(UnsupportedFeature);
    }
    SurveyRefuses(md, d, path, |contents|);
    var s :- SurveyDisk(disk, md, path, |contents|);
    SurveySizes(md, d, path, s);
    InodesRefuse(md, d, path, |contents|, s);
    var ino :- ChooseInode(md, s);
    BlocksRefuse(md, d, path, |contents|, s);
    var laid :- AllocatePlan(md, s.tables.blockBitmap, |contents|, disk.faulty);
    var (plan, bitmap) := laid;
    TakenFacts(md, s.tables.blockBitmap, bitmap, plan, |contents|);
    r := WritePlan(disk, md, plan, contents);
    ghost var d1 := disk.blocks;
    TakenWereFree(md, d, d1, s.tables, bitmap, Taken(plan));
    if r.Err? {
      return;
    }
    var intent := IntentOf(s, plan, bitmap, ino, |contents|);
    IntentSensible(md, s, plan, bitmap, ino, |contents|);
    ghost var committed;
    r, committed := CommitOrUndo(disk, md, s.tables, intent, s.oldBlocks);
    if WellFormed(md, d) {
      IntentPlanned(md, d, path, s, plan, contents, bitmap, ino);
      CommitIsPaid(md, d, d1, path, s, plan, contents, intent);
      WriteAccepted(md, d, path, |contents|, s, ino);
    }
    if r.Ok? && WellFormed(md, d) {
      FinishWrite(md, d, d1, committed, disk.blocks, path, s, plan, contents, intent);
    }
  }

  // ---------- Why a write is refused ----------

  lemma NotWellFormed(md: Metadata, d: seq<Block>)
    requires !Writable(md)
    ensures !WellFormed(md, d)
  {
  }

  lemma SurveyRefuses(md: Metadata, d: seq<Block>, path: seq<byte>, length: nat)
    requires Writable(md) && Sized(md, d)
    ensures WellFormed(md, d) && SurveyError(md, d, path, length).Some? ==>
              WriteRefusal(View(md, d), path, length) == SurveyError(md, d, path, length)
  {
    hide SurveyError, Unwritable, Consistent, View, Geometry, Child, BlocksNeeded;
    if WellFormed(md, d) {
      ViewShape(md, d);
      SurveyIsRight(md, d, path, length);
    }
  }

  /** The survey found a file exactly when the path has one. */
  lemma SurveyedChild(md: Metadata, d: seq<Block>, path: seq<byte>, length: nat, s: Survey)
    requires WellFormed(md, d) && Surveyed(md, d, path, s) && SurveyError(md, d, path, length).None?
    ensures Shape(View(md, d)) && Unwritable(View(md, d), path, length).None?
    ensures s.existing.None? <==> Child(View(md, d), path).None?
    ensures s.existing.None? ==> EntrySpace(md, d, s.dir, s.name).Ok?
    ensures Used(md, s.tables.blockBitmap) == View(md, d).used && LiveInodes(md, s.tables.inodeBitmap) == View(md, d).live
  {
    hide SurveyError, Unwritable, Consistent, View, Geometry, Parent, FindChild, ReadInode, Collect, EntrySpace, TablesOf, Place, Child, Names, FindName, Used, LiveInodes, Links;
    ViewShape(md, d);
    SurveyIsRight(md, d, path, length);
    TablesSound(md, d);
    ParentIsPlace(md, d, path);
    if Place(View(md, d), path).Ok? {
      ChildFacts(md, d, path);
    }
  }

  lemma InodesRefuse(md: Metadata, d: seq<Block>, path: seq<byte>, length: nat, s: Survey)
    requires Writable(md) && Sized(md, d) && Surveyed(md, d, path, s) && SurveyError(md, d, path, length).None?
    requires |s.tables.inodeBitmap| == 1024
    ensures WellFormed(md, d) && s.existing.None? && (forall j: nat :: j < md.inodesCount ==> Marked(s.tables.inodeBitmap, j)) ==>
              WriteRefusal(View(md, d), path, length) == Some(NoSpace)
  {
    hide SurveyError, Unwritable, Holding, Apart, Tree, View, Geometry, Child, Surveyed, BlocksNeeded, Marked;
    if WellFormed(md, d) && s.existing.None? && forall j: nat :: j < md.inodesCount ==> Marked(s.tables.inodeBitmap, j) {
      SurveyedChild(md, d, path, length, s);
      AllLive(md, s.tables.inodeBitmap);
      ViewData(md, d);
    }
  }

  lemma BlocksRefuse(md: Metadata, d: seq<Block>, path: seq<byte>, length: nat, s: Survey)
    requires Writable(md) && Sized(md, d) && Surveyed(md, d, path, s) && SurveyError(md, d, path, length).None?
    requires |s.tables.blockBitmap| == 1024
    ensures WellFormed(md, d) && FreeBlocks(md, s.tables.blockBitmap) < BlocksNeeded(length) ==>
              WriteRefusal(View(md, d), path, length) == Some(NoSpace)
  {
    hide SurveyError, Unwritable, Holding, Apart, Tree, View, Geometry, Child, Surveyed, BlocksNeeded, Used;
    if WellFormed(md, d) {
      SurveyedChild(md, d, path, length, s);
      ViewData(md, d);
    }
  }

  lemma WriteAccepted(md: Metadata, d: seq<Block>, path: seq<byte>, length: nat, s: Survey, ino: nat)
    requires WellFormed(md, d) && Surveyed(md, d, path, s) && SurveyError(md, d, path, length).None?
    requires |s.tables.blockBitmap| == |s.tables.inodeBitmap| == 1024 && BlocksNeeded(length) <= FreeBlocks(md, s.tables.blockBitmap)
    requires s.existing.None? ==> 1 <= ino <= md.inodesCount && !Marked(s.tables.inodeBitmap, ino - 1)
    ensures WriteRefusal(View(md, d), path, length) == None
  {
    hide SurveyError, Unwritable, Holding, Apart, Tree, View, Geometry, Child, Surveyed, BlocksNeeded, Used, Marked;
    SurveyedChild(md, d, path, length, s);
    ViewData(md, d);
    if s.existing.None? {
      SomeDead(md, s.tables.inodeBitmap, ino);
    }
  }

  lemma SomeDead(md: Metadata, bitmap: Block, n: nat)
    requires Writable(md) && |bitmap| == 1024 && 1 <= n <= md.inodesCount && !Marked(bitmap, n - 1)
    ensures |LiveInodes(md, bitmap)| < md.inodesCount
  {
    hide Marked;
    var all := set m: nat | m <= md.inodesCount && IsInode(md, m);
    RangeSize(1, md.inodesCount + 1, all);
    assert n in all && n !in LiveInodes(md, bitmap);
    Subset(LiveInodes(md, bitmap), all - {n});
  }

  /** On a well-formed disk nothing but a fault can stop the commit and the cleanup. */
  lemma CommitIsPaid(md: Metadata, d: seq<Block>, d1: seq<Block>, path: seq<byte>, s: Survey, plan: Plan, contents: seq<byte>, intent: Intent)
    requires WellFormed(md, d) && Sized(md, d1) && Surveyed(md, d, path, s) && Planned(md, d, s, plan, contents, intent)
    requires SurveyError(md, d, path, |contents|).None?
    requires OnlyWrote(d, d1, Taken(plan)) && Sensible(md, s.tables, intent)
    requires |s.tables.blockBitmap| == 1024 && |Taken(plan)| <= FreeBlocks(md, s.tables.blockBitmap)
    ensures Ready(md, d1, s.tables, intent) && Payable(md, d1, intent, s.oldBlocks)
  {
    hide Holding, Apart, Tree, Took, Used, Fits, Proper, FileInode, View, Surveyed, Taken, OnlyWrote, Owner, Owns, Set, SurveyError, EntrySpace, AddEntry, Geometry, Ready, Unwritable, Child, OneBlock, Distinct;
    ReadyToCommit(md, d, d1, path, s, plan, contents, intent);
    PlannedFacts(md, d, path, s, plan, contents, intent);
    RunFair(md, d, d1, s, plan, contents, intent);
    SurveyedChild(md, d, path, |contents|, s);
    ViewData(md, d);
    CountsCover(View(md, d), s, plan, intent);
    NameWillFit(md, d, d1, s, plan, intent);
  }

  /** The counters of a consistent state cover a plan that fits, and whatever is given back. */
  lemma CountsCover(fs: Fs, s: Survey, plan: Plan, intent: Intent)
    requires Consistent(fs) && Fair(fs, s, plan, intent) && |Taken(plan)| <= BlockCount(fs.md) - |fs.used|
    ensures InRange(fs.counts, intent.BlockDelta(), intent.InodeDelta())
    ensures InRange(fs.counts, intent.BlockDelta() + |s.oldBlocks|, intent.InodeDelta())
    ensures Distinct(s.oldBlocks) && Set(s.oldBlocks) <= fs.used + Set(Taken(plan))
  {
    hide Apart, Tree, Used, Taken, Listed, PointersOnDisk, OneBlock;
    if Owner(fs, intent.ino) {
      assert HoldsBlocks(fs, intent.ino);
    } else {
      assert Set([]) == {};
    }
    hide Distinct;
    SetSize(s.oldBlocks);
    Subset(Set(s.oldBlocks), fs.used);
    if intent.isNew {
      LiveRoom(fs, intent.ino);
    }
    LiveBound(fs);
  }

  lemma NameWillFit(md: Metadata, d: seq<Block>, d1: seq<Block>, s: Survey, plan: Plan, intent: Intent)
    requires Writable(md) && Sized(md, d) && Sized(md, d1) && Geometry(md, d) && Fair(View(md, d), s, plan, intent) && OnlyWrote(d, d1, Taken(plan))
    requires intent.isNew ==> EntrySpace(md, d, s.dir, s.name).Ok? && intent.dir == s.dir && intent.name == s.name && |s.name| < 256 && 1 <= intent.ino < U32_LIMIT
    ensures intent.isNew ==> AddEntry(md, d1, intent.dir, intent.name, intent.ino, 1).Ok?
  {
    hide View, Taken, Set, Geometry, EntrySpace, AddEntry, Used, Owner, Owns;
    if intent.isNew {
      ViewData(md, d);
      SpaceThenAdd(md, d, d1, s.dir, s.name, intent.ino, 1);
    }
  }

  lemma IntentSensible(md: Metadata, s: Survey, plan: Plan, bitmap: Block, ino: nat, length: nat)
    requires Writable(md) && |bitmap| == |s.tables.descriptor| == |s.tables.inodeBitmap| == 1024 && |Taken(plan)| < 100000
    requires s.tables.blockBitmapNumber < md.blocksCount && s.tables.inodeBitmapNumber < md.blocksCount
    requires |s.name| < 256 && 1 <= ino <= md.inodesCount && length <= MAX_FILE_SIZE
    ensures Sensible(md, s.tables, IntentOf(s, plan, bitmap, ino, length))
  {
    hide Taken;
  }
}
