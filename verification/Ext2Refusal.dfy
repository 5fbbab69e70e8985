/** When an operation has to be refused: told by the state alone, before anything is changed. */
module Ext2Refusal {
  import opened Bytes
  import opened Options
  import opened Ext2Disk
  import opened Ext2Pointers
  import opened Ext2Owned
  import opened Ext2Records
  import opened Ext2Directory
  import opened Ext2Entries
  import opened Ext2Inodes
  import opened Ext2Path
  import opened Ext2Bitmap
  import opened Ext2View
  import opened Ext2State
  import opened Ext2Tree
  import opened Ext2Plan
  import opened Ext2Tables
  import opened Ext2Layout
  import opened Ext2Reader
  import opened Ext2WriteProof

  const MAX_FILE_SIZE := BLOCK * MAX_BLOCKS

  /** Success when nothing stands against it; otherwise a fault of the machine, or the error that does. */
  predicate Explained<T>(faulty: bool, r: Result<T>, refusal: Option<Ext2Error>) {
    if r.Ok? then refusal == None else (faulty && (Fault(r.error) || r.error == RecoveryFailed)) || refusal == Some(r.error)
  }

  // ---------- Where a path's last name belongs ----------

  /** The directory that has, or could have, the last name of a path; or why there is none. */
  ghost function Place(fs: Fs, path: seq<byte>): Result<nat>
    requires Shape(fs)
  {
    var above := Components(ParentPath(path));
    if !SafeComponent(FinalName(path)) || !AllSafe(above) then Err(InvalidPath)
    else
      var n := Path(fs, ROOT_INODE, above);
      if n.None? then Err(NotFound) else if !Directory(fs, n.value) then Err(InvalidPath) else Ok(n.value)
  }

  /** What the place calls by the last name of the path. */
  ghost function Child(fs: Fs, path: seq<byte>): Option<nat>
    requires Shape(fs)
  {
    var p := Place(fs, path);
    if p.Err? then None
    else
      var c := FindName(Names(fs, p.value), FinalName(path));
      if c.None? then None else Some(c.value as nat)
  }

  lemma ParentIsPlace(md: Metadata, d: seq<Block>, path: seq<byte>)
    requires WellFormed(md, d)
    ensures var p, q := Parent(md, d, path), Place(View(md, d), path);
            if q.Err? then p == Err(q.error)
            else q.value in View(md, d).inodes && p == Ok((q.value, View(md, d).inodes[q.value], FinalName(path)))
  {
    hide Walk, View, Holding, Apart, Counted, Path, SafeComponent, Components, ParentPath, FinalName, GoodDirectory, Links;
    var fs := View(md, d);
    var above := Components(ParentPath(path));
    WalkIsPath(md, d, ROOT_INODE, above);
    PathOwner(fs, ROOT_INODE, above);
  }

  lemma PlaceFacts(fs: Fs, path: seq<byte>)
    requires Shape(fs) && Place(fs, path).Ok?
    ensures Directory(fs, Place(fs, path).value) && SafeComponent(FinalName(path))
    ensures Path(fs, ROOT_INODE, Components(ParentPath(path))) == Some(Place(fs, path).value)
  {
    hide Path, SafeComponent, Components, ParentPath, FinalName;
  }

  /** The child is a file or a directory, and both searches agree on it. */
  lemma ChildFacts(md: Metadata, d: seq<Block>, path: seq<byte>)
    requires WellFormed(md, d) && Place(View(md, d), path).Ok?
    ensures var fs := View(md, d);
            var p, c := Place(fs, path).value, Child(fs, path);
            && p in fs.inodes
            && FindChild(md, d, fs.inodes[p], FinalName(path)) == Ok(FindName(Names(fs, p), FinalName(path)))
            && (c.None? <==> FindName(Names(fs, p), FinalName(path)).None?)
            && (c.Some? ==> FindName(Names(fs, p), FinalName(path)) == Some(c.value))
            && (c.Some? ==> Owner(fs, c.value) && Links(fs, p, FinalName(path), c.value) && ReadInode(md, d, c.value) == Ok(fs.inodes[c.value]))
  {
    hide View, Holding, Apart, Counted, Tree, Path, SafeComponent, Components, ParentPath, FinalName, Place, FindChild, ReadInode, Names, FindName, Links;
    var fs := View(md, d);
    PlaceFacts(fs, path);
    var p := Place(fs, path).value;
    FindIsName(md, d, p, FinalName(path));
    var c := FindName(Names(fs, p), FinalName(path));
    if c.Some? {
      ChildOwner(fs, p, FinalName(path), c.value);
      ReadOwner(md, d, c.value);
    }
  }

  // ---------- Room in a directory ----------

  /** Why a directory cannot take another name: it has more than one block, or no record of it has room. */
  ghost function Crowded(fs: Fs, p: nat, name: Name): Option<Ext2Error>
    requires Shape(fs) && p in fs.inodes
  {
    if fs.inodes[p].size != fs.md.blockSize then Some(UnsupportedFeature)
    else if EntrySpace(fs.md, fs.data, fs.inodes[p], name).Err? then Some(NoSpace)
    else None
  }

  lemma {:induction false} ParsedRoom(md: Metadata, block: Block, o: nat, name: seq<byte>)
    requires o <= |block| && Records(md, block, o, |block|).Ok?
    ensures RoomFrom(md, block, o, name).Err? ==> RoomFrom(md, block, o, name).error == NoSpace
    decreases |block| - o
  {
    hide RecordAt, HasRoom, Align4;
    if o + 8 <= |block| {
      var rec := RecordAt(md, block, o, |block|);
      if rec.Ok? {
        ParsedRoom(md, block, o + rec.value.len, name);
      }
    }
  }

  lemma OneBlockCount(md: Metadata, inode: Inode)
    requires Writable(md) && inode.size % md.blockSize == 0
    ensures InodeBlockCount(md, inode) == Ok(1) <==> inode.size == md.blockSize
    ensures inode.size == md.blockSize ==> InodeBlockCount(md, inode).Ok?
  {
  }

  /** A directory of the invariant that is one block long has that block. */
  lemma FirstPresent(md: Metadata, d: seq<Block>, p: nat)
    requires WellFormed(md, d) && Directory(View(md, d), p) && View(md, d).inodes[p].size == md.blockSize
    ensures OneBlock(View(md, d), p)
    ensures Records(md, d[View(md, d).inodes[p].blocks[0]], 0, 1024).Ok?
  {
    hide View, Apart, Counted, Names, Listed, Records, Live, Links, Entries;
    var fs := View(md, d);
    ViewData(md, d);
    assert GoodDirectory(fs, p);
    OneBlockCount(md, fs.inodes[p]);
    NeedsFirst(md, d, fs.inodes[p]);
    OnlyBlockFacts(md, d, p, UnsupportedFeature);
    OneBlockNames(fs, p);
  }

  lemma NeedsFirst(md: Metadata, d: seq<Block>, dir: Inode)
    requires Mounted(md) && Sized(md, d) && InodeBlockCount(md, dir) == Ok(1) && Entries(md, d, dir).Ok?
    ensures dir.blocks[0] != 0
  {
    hide Records, Live, InodeBlockCount;
    assert BlockEntries(md, d, dir, 0).Ok?;
  }

  lemma SpaceIsRoom(md: Metadata, d: seq<Block>, p: nat, name: Name)
    requires WellFormed(md, d) && Directory(View(md, d), p)
    ensures var crowded, space := Crowded(View(md, d), p, name), EntrySpace(md, d, View(md, d).inodes[p], name);
            if crowded.Some? then space == Err(crowded.value) else space.Ok?
    ensures Crowded(View(md, d), p, name).None? ==> OneBlock(View(md, d), p)
  {
    hide View, Holding, Apart, Counted, Names, Listed, Records, RoomFrom, Entries, Links;
    var fs := View(md, d);
    ViewData(md, d);
    assert GoodDirectory(fs, p);
    OneBlockCount(md, fs.inodes[p]);
    if fs.inodes[p].size == md.blockSize {
      FirstPresent(md, d, p);
      var b := fs.inodes[p].blocks[0];
      assert OnlyBlock(md, fs.inodes[p], UnsupportedFeature) == Ok(b) && Load(md, d, b) == Ok(d[b]);
      ParsedRoom(md, d[b], 0, name);
      assert EntrySpace(md, d, fs.inodes[p], name) == RoomFrom(md, d[b], 0, name);
    } else {
      CountedBlocks(md, d, fs.inodes[p]);
    }
  }

  lemma CountedBlocks(md: Metadata, d: seq<Block>, dir: Inode)
    requires Mounted(md) && Sized(md, d) && Entries(md, d, dir).Ok?
    ensures InodeBlockCount(md, dir).Ok?
  {
    hide EntriesFrom, InodeBlockCount;
  }

  // ---------- write_file ----------

  /** What is wrong with writing at this path, whatever room there is on the disk. */
  ghost function Unwritable(fs: Fs, path: seq<byte>, length: nat): Option<Ext2Error>
    requires Shape(fs)
  {
    var p, c := Place(fs, path), Child(fs, path);
    if p.Err? then Some(p.error)
    else if length > MAX_FILE_SIZE then Some(UnsupportedFeature)
    else if c.None? then (if p.value in fs.inodes then Crowded(fs, p.value, FinalName(path)) else Some(NotFound))
    else if c.value !in fs.inodes || !fs.inodes[c.value].IsFile() then Some(InvalidPath)
    else if fs.inodes[c.value].size > MAX_FILE_SIZE then Some(UnsupportedFeature)
    else None
  }

  /** Why writing `length` bytes at a path has to be refused; nothing if it does not. */
  ghost function WriteRefusal(fs: Fs, path: seq<byte>, length: nat): Option<Ext2Error>
    requires Shape(fs)
  {
    var wrong := Unwritable(fs, path, length);
    if wrong.Some? then wrong
    else if Child(fs, path).None? && fs.counts.groupInodes == 0 then Some(NoSpace)
    else if fs.counts.groupBlocks < BlocksNeeded(length) then Some(NoSpace)
    else None
  }

  /** The errors that can stand against a write. */
  lemma WriteRefusals(fs: Fs, path: seq<byte>, length: nat)
    requires Shape(fs)
    ensures WriteRefusal(fs, path, length) in {None, Some(InvalidPath), Some(NotFound), Some(UnsupportedFeature), Some(NoSpace)}
  {
    hide Path, Components, ParentPath, FinalName, SafeComponent, Names, FindName, EntrySpace, BlocksNeeded, Shape;
  }

  /** The error the survey before a write must report. */
  function SurveyError(md: Metadata, d: seq<Block>, path: seq<byte>, length: nat): Option<Ext2Error>
    requires Writable(md) && Sized(md, d)
  {
    var parent := Parent(md, d, path);
    if parent.Err? then Some(parent.error)
    else if length > MAX_FILE_SIZE then Some(UnsupportedFeature)
    else
      var dir, name := parent.value.1, parent.value.2;
      var child := FindChild(md, d, dir, name);
      if child.Err? then Some(child.error)
      else if child.value.Some? then
        var inode := ReadInode(md, d, child.value.value);
        if inode.Err? then Some(inode.error)
        else if !inode.value.IsFile() then Some(InvalidPath)
        else if inode.value.size > MAX_FILE_SIZE then Some(UnsupportedFeature)
        else if Collect(md, d, inode.value).Err? then Some(Collect(md, d, inode.value).error)
        else if TablesOf(md, d).Err? then Some(TablesOf(md, d).error)
        else None
      else if EntrySpace(md, d, dir, name).Err? then Some(EntrySpace(md, d, dir, name).error)
      else if TablesOf(md, d).Err? then Some(TablesOf(md, d).error)
      else None
  }

  lemma CollectSound(md: Metadata, d: seq<Block>, n: nat)
    requires WellFormed(md, d) && Owner(View(md, d), n)
    ensures Collect(md, d, View(md, d).inodes[n]) ==
            if View(md, d).inodes[n].size > Capacity(md) * md.blockSize then Err(UnsupportedFeature) else Ok(Owns(View(md, d), n))
  {
    hide View, Apart, Counted, Tree, Listed, PointersOnDisk, Proper;
    ViewData(md, d);
    assert HoldsBlocks(View(md, d), n);
  }

  lemma TablesSound(md: Metadata, d: seq<Block>)
    requires Writable(md) && Sized(md, d) && Geometry(md, d)
    ensures TablesOf(md, d).Ok?
    ensures Used(md, TablesOf(md, d).value.blockBitmap) == View(md, d).used
    ensures LiveInodes(md, TablesOf(md, d).value.inodeBitmap) == View(md, d).live
  {
    hide Used, LiveInodes, RawInode, CountsOf, TableBlocks, Layout;
  }

  /** On a well-formed disk the survey finds exactly what is wrong with the path. */
  lemma SurveyIsRight(md: Metadata, d: seq<Block>, path: seq<byte>, length: nat)
    requires WellFormed(md, d)
    ensures SurveyError(md, d, path, length) == Unwritable(View(md, d), path, length)
  {
    hide View, Consistent, Parent, FindChild, ReadInode, Collect, EntrySpace, TablesOf, Place, Child, Crowded, Names, FindName, Geometry, Links;
    ViewShape(md, d);
    var fs := View(md, d);
    ParentIsPlace(md, d, path);
    TablesSound(md, d);
    if Place(fs, path).Ok? {
      var p := Place(fs, path).value;
      PlaceFacts(fs, path);
      ChildFacts(md, d, path);
      SpaceIsRoom(md, d, p, FinalName(path));
      if Child(fs, path).Some? {
        CollectSound(md, d, Child(fs, path).value);
        SameCapacity(md);
      }
    }
  }

  lemma SameCapacity(md: Metadata)
    requires Writable(md)
    ensures Capacity(md) * md.blockSize == MAX_FILE_SIZE
  {
  }

  // ---------- Numbers of a consistent state ----------

  predicate IsInode(md: Metadata, n: nat) {
    1 <= n <= md.inodesCount
  }

  lemma LiveBound(fs: Fs)
    requires Shape(fs)
    ensures |fs.live| <= fs.md.inodesCount <= 8192 && BlockCount(fs.md) <= 8192
  {
    var all := set m: nat | m <= fs.md.inodesCount && IsInode(fs.md, m);
    RangeSize(1, fs.md.inodesCount + 1, all);
    Subset(fs.live, all);
  }

  lemma LiveRoom(fs: Fs, n: nat)
    requires Shape(fs) && n in fs.inodes && n !in fs.live
    ensures |fs.live| < fs.md.inodesCount
  {
    var all := set m: nat | m <= fs.md.inodesCount && IsInode(fs.md, m);
    RangeSize(1, fs.md.inodesCount + 1, all);
    Subset(fs.live, all - {n});
  }

  lemma AllLive(md: Metadata, bitmap: Block)
    requires Writable(md) && |bitmap| == 1024 && forall j: nat :: j < md.inodesCount ==> Marked(bitmap, j)
    ensures |LiveInodes(md, bitmap)| == md.inodesCount
  {
    hide Marked;
    forall n: nat | 1 <= n <= md.inodesCount ensures IsLive(md, bitmap, n) {
      assert Marked(bitmap, n - 1);
    }
    RangeSize(1, md.inodesCount + 1, LiveInodes(md, bitmap));
  }
}
