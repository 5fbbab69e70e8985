/** `remove_file` and `remove_empty_directory`. */
module Ext2Operations {
  import opened Bytes
  import opened Options
  import opened Ext2Disk
  import opened Ext2Pointers
  import opened Ext2Owned
  import opened Ext2Directory
  import opened Ext2Entries
  import opened Ext2Inodes
  import opened Ext2Path
  import opened Ext2View
  import opened Ext2State
  import opened Ext2Tree
  import opened Ext2Change
  import opened Ext2Links
  import opened Ext2Records
  import opened Ext2RecordProofs
  import opened Ext2Reader
  import opened Ext2WriteProof
  import opened Ext2Refusal
  import opened Ext2Remove
  import opened Ext2Empty

  /** The entry at a path: its directory, its name, its inode. */
  method FindEntry(disk: Disk, md: Metadata, path: seq<byte>) returns (r: Result<Removal>)
    requires Mounted(md) && Sized(md, disk.blocks)
    ensures r.Ok? ==> var rem := r.value;
                      && Parent(md, disk.blocks, path) == Ok((rem.parent, rem.dir, rem.name))
                      && FindChild(md, disk.blocks, rem.dir, rem.name) == Ok(Some(rem.ino))
                      && ReadInode(md, disk.blocks, rem.ino) == Ok(rem.inode)
    ensures r.Err? && WellFormed(md, disk.blocks) ==> disk.Fails(r.error) || Missing(View(md, disk.blocks), path) == Some(r.error)
  {
    hide Parent, FindChild, ReadInode, WellFormed, Missing, Components, SafeComponent;
    MissingFacts(md, disk.blocks, path);
    var found :- ResolveParent(disk, md, path);
    var (parent, dir, name) := found;
    var child :- FindDirectoryChild(disk, md, dir, name);
    if child.None? {
      return Err(NotFound);
    }
    var inode :- LoadInode(disk, md, child.value);
    r := Ok(Removal(parent, dir, name, child.value, inode, []));
  }

  // ---------- Why a removal is refused ----------

  /** Why there is nothing at a path. */
  ghost function Missing(fs: Fs, path: seq<byte>): Option<Ext2Error>
    requires Shape(fs)
  {
    if Place(fs, path).Err? then Some(Place(fs, path).error)
    else if Child(fs, path).None? then Some(NotFound)
    else None
  }

  lemma MissingFacts(md: Metadata, d: seq<Block>, path: seq<byte>)
    requires Mounted(md) && Sized(md, d)
    ensures WellFormed(md, d) ==>
              && Shape(View(md, d))
              && (Parent(md, d, path).Err? ==> Missing(View(md, d), path) == Some(Parent(md, d, path).error))
              && (Parent(md, d, path).Ok? ==>
                    var dir, name := Parent(md, d, path).value.1, Parent(md, d, path).value.2;
                    var child := FindChild(md, d, dir, name);
                    && child.Ok?
                    && (if child.value.None? then Missing(View(md, d), path) == Some(NotFound)
                        else Missing(View(md, d), path) == None && ReadInode(md, d, child.value.value).Ok?))
  {
    hide Parent, FindChild, ReadInode, Consistent, View, Geometry, Place, Child, Names, FindName, Links;
    if WellFormed(md, d) {
      ViewShape(md, d);
      ParentIsPlace(md, d, path);
      if Place(View(md, d), path).Ok? {
        ChildFacts(md, d, path);
      }
    }
  }

  /** The entry that was found is the child of the place. */
  lemma FoundIsChild(md: Metadata, d: seq<Block>, path: seq<byte>, rem: Removal)
    requires WellFormed(md, d)
    requires Parent(md, d, path) == Ok((rem.parent, rem.dir, rem.name))
    requires FindChild(md, d, rem.dir, rem.name) == Ok(Some(rem.ino)) && ReadInode(md, d, rem.ino) == Ok(rem.inode)
    ensures var fs := View(md, d);
            && Shape(fs) && Place(fs, path) == Ok(rem.parent) && Child(fs, path) == Some(rem.ino)
            && Owner(fs, rem.ino) && fs.inodes[rem.ino] == rem.inode
            && Directory(fs, rem.parent) && fs.inodes[rem.parent] == rem.dir && FinalName(path) == rem.name
            && FindName(Names(fs, rem.parent), rem.name) == Some(rem.ino)
  {
    hide Parent, FindChild, ReadInode, Consistent, View, Geometry, Place, Child, Names, FindName, Links, FinalName, SafeComponent;
    ViewShape(md, d);
    ParentIsPlace(md, d, path);
    ChildFacts(md, d, path);
    PlaceFacts(View(md, d), path);
  }

  lemma {:induction false} NamedIsThere(es: seq<Entry>, name: Name)
    requires FindName(es, name).Some?
    ensures HasName(es, name)
  {
    FindNameFinds(es, name);
    var i :| 0 <= i < |es| && es[i].name == name && es[i].inode == FindName(es, name).value;
  }

  /** On a well-formed disk an entry that was found can be removed, if its directory has one block. */
  lemma EntryRemovable(md: Metadata, d: seq<Block>, p: nat, name: Name)
    requires WellFormed(md, d) && Directory(View(md, d), p) && FindName(Names(View(md, d), p), name).Some?
    ensures var e := RemoveEntry(md, d, View(md, d).inodes[p], name);
            if View(md, d).inodes[p].size == md.blockSize then e.Ok? else e == Err(UnsupportedFeature)
  {
    hide View, Holding, Apart, Counted, Names, FindName, Listed, Records, RemoveFrom, Entries, Links, Live, HasName;
    var fs := View(md, d);
    ViewData(md, d);
    assert GoodDirectory(fs, p);
    OneBlockCount(md, fs.inodes[p]);
    CountedBlocks(md, d, fs.inodes[p]);
    if fs.inodes[p].size == md.blockSize {
      FirstPresent(md, d, p);
      OneBlockNames(fs, p);
      NamedIsThere(Names(fs, p), name);
      RemoveFinds(md, d[fs.inodes[p].blocks[0]], 0, None, name);
    }
  }

  /** The error of the last stage, seen in the state. */
  lemma RemovalErrorIs(md: Metadata, d: seq<Block>, path: seq<byte>, rem: Removal)
    requires WellFormed(md, d)
    requires Parent(md, d, path) == Ok((rem.parent, rem.dir, rem.name))
    requires FindChild(md, d, rem.dir, rem.name) == Ok(Some(rem.ino)) && ReadInode(md, d, rem.ino) == Ok(rem.inode)
    ensures RemovalError(md, d, rem) ==
            if rem.inode.links != (if rem.inode.IsDirectory() then 2 else 1) || rem.dir.size != md.blockSize then Some(UnsupportedFeature) else None
  {
    hide Parent, FindChild, ReadInode, Consistent, View, Geometry, Place, Child, Names, FindName, RemoveEntry;
    FoundIsChild(md, d, path, rem);
    EntryRemovable(md, d, rem.parent, rem.name);
  }

  /** Why the removal of a file has to be refused; nothing if it does not. */
  ghost function FileRefusal(fs: Fs, path: seq<byte>): Option<Ext2Error>
    requires Shape(fs)
  {
    var p, c := Place(fs, path), Child(fs, path);
    if Missing(fs, path).Some? then Missing(fs, path)
    else if c.value !in fs.inodes || !fs.inodes[c.value].IsFile() then Some(InvalidPath)
    else if fs.inodes[c.value].size > MAX_FILE_SIZE then Some(UnsupportedFeature)
    else LastRefusal(fs, p.value, c.value, 1)
  }

  /** A second link, or a directory of several blocks, is more than the driver handles. */
  ghost function LastRefusal(fs: Fs, p: nat, c: nat, links: nat): Option<Ext2Error> {
    if c !in fs.inodes || fs.inodes[c].links != links || p !in fs.inodes || fs.inodes[p].size != fs.md.blockSize
    then Some(UnsupportedFeature) else None
  }

  /** A directory inode with its first block and no other. */
  predicate Plain(md: Metadata, inode: Inode) {
    && inode.size == md.blockSize && inode.single == 0 && inode.double == 0 && inode.blocks[0] != 0
    && forall i :: 1 <= i < 12 ==> inode.blocks[i] == 0
  }

  /** Why the removal of an empty directory has to be refused; nothing if it does not. */
  ghost function DirectoryRefusal(fs: Fs, path: seq<byte>): Option<Ext2Error>
    requires Shape(fs)
  {
    var p, c := Place(fs, path), Child(fs, path);
    if Missing(fs, path).Some? then Missing(fs, path)
    else if c.value !in fs.inodes || !fs.inodes[c.value].IsDirectory() then Some(InvalidPath)
    else if !AllClean(Names(fs, c.value)) then Some(UnsupportedFeature)
    else if !OnlyDots(Names(fs, c.value)) then Some(NotEmpty)
    else if !Plain(fs.md, fs.inodes[c.value]) then Some(UnsupportedFeature)
    else LastRefusal(fs, p.value, c.value, 2)
  }

  lemma FileRefused(md: Metadata, d: seq<Block>, path: seq<byte>, rem: Removal)
    requires WellFormed(md, d)
    requires Parent(md, d, path) == Ok((rem.parent, rem.dir, rem.name))
    requires FindChild(md, d, rem.dir, rem.name) == Ok(Some(rem.ino)) && ReadInode(md, d, rem.ino) == Ok(rem.inode)
    ensures Shape(View(md, d))
    ensures FileRefusal(View(md, d), path) ==
            if !rem.inode.IsFile() then Some(InvalidPath)
            else if rem.inode.size > Capacity(md) * md.blockSize then Some(UnsupportedFeature)
            else RemovalError(md, d, rem)
    ensures rem.inode.IsFile() ==> Collect(md, d, rem.inode).Ok? || (rem.inode.size > Capacity(md) * md.blockSize)
  {
    hide Parent, FindChild, ReadInode, Consistent, View, Geometry, Place, Child, Names, FindName, RemovalError, Collect;
    FoundIsChild(md, d, path, rem);
    RemovalErrorIs(md, d, path, rem);
    CollectSound(md, d, rem.ino);
    SameCapacity(md);
    ViewData(md, d);
  }

  /** The entries of a consistent state lead to files and directories. */
  lemma NamesSound(md: Metadata, d: seq<Block>, n: nat)
    requires WellFormed(md, d) && Directory(View(md, d), n)
    ensures Entries(md, d, View(md, d).inodes[n]) == Ok(Names(View(md, d), n))
    ensures AllSound(md, d, Names(View(md, d), n))
  {
    hide View, Holding, Apart, Counted, Entries, ReadInode, SafeComponent, IsDot;
    var fs := View(md, d);
    ViewData(md, d);
    assert GoodDirectory(fs, n);
    var es := Names(fs, n);
    forall i | 0 <= i < |es| ensures Sound(md, d, es[i]) {
      if !IsDot(es[i].name) {
        assert Named(es, es[i].name, es[i].inode);
        assert Links(fs, n, es[i].name, es[i].inode);
        ReadOwner(md, d, es[i].inode);
      }
    }
  }

  lemma DirectoryRefused(md: Metadata, d: seq<Block>, path: seq<byte>, rem: Removal)
    requires WellFormed(md, d)
    requires Parent(md, d, path) == Ok((rem.parent, rem.dir, rem.name))
    requires FindChild(md, d, rem.dir, rem.name) == Ok(Some(rem.ino)) && ReadInode(md, d, rem.ino) == Ok(rem.inode)
    ensures Shape(View(md, d))
    ensures !rem.inode.IsDirectory() ==> DirectoryRefusal(View(md, d), path) == Some(InvalidPath)
    ensures rem.inode.IsDirectory() ==>
              var es := Entries(md, d, rem.inode);
              && es.Ok? && AllSound(md, d, es.value)
              && DirectoryRefusal(View(md, d), path) ==
                 if !AllClean(es.value) then Some(UnsupportedFeature)
                 else if !OnlyDots(es.value) then Some(NotEmpty)
                 else if !Plain(md, rem.inode) then Some(UnsupportedFeature)
                 else RemovalError(md, d, rem)
  {
    hide Parent, FindChild, ReadInode, Consistent, View, Geometry, Place, Child, Names, FindName, RemovalError, Entries, AllSound, AllClean, OnlyDots, Plain;
    FoundIsChild(md, d, path, rem);
    RemovalErrorIs(md, d, path, rem);
    ViewData(md, d);
    if rem.inode.IsDirectory() {
      NamesSound(md, d, rem.ino);
    }
  }

  // ---------- The operations ----------

  /** Removes the regular file at a path. */
  method RemoveFile(disk: Disk, md: Metadata, path: seq<byte>) returns (r: Result<()>)
    requires Mounted(md) && Sized(md, disk.blocks)
    modifies disk
    ensures Sized(md, disk.blocks)
    ensures r.Ok? && WellFormed(md, old(disk.blocks)) ==>
              && WellFormed(md, disk.blocks)
              && RemovedAt(View(md, old(disk.blocks)), View(md, disk.blocks), Components(path))
              && exists inode: Inode :: inode.IsFile() && WasAt(View(md, old(disk.blocks)), Components(path), inode)
    ensures WellFormed(md, old(disk.blocks)) ==>
              Told(disk.faulty, r, FileRefusal(View(md, old(disk.blocks)), path), old(disk.blocks), disk.blocks)
  {
    hide Parent, FindChild, ReadInode, Listed, Entries, Geometry, Consistent, View, RemovedAt, Components, WasAt, FileRefusal, RemovalError, LinkCounts;
    FileMissing(md, disk.blocks, path);
    if !Writable(md) {
      return Err(UnsupportedFeature);
    }
    var rem :- FindEntry(disk, md, path);
    if WellFormed(md, disk.blocks) {
      FileRefused(md, disk.blocks, path, rem);
    }
    if !rem.inode.IsFile() {
      return Err(InvalidPath);
    }
    if rem.inode.size > Capacity(md) * md.blockSize {
      return Err(UnsupportedFeature);
    }
    var blocks :- CollectFileAllocations(disk, md, rem.inode);
    SameError(md, disk.blocks, rem, blocks);
    r := Remove(disk, md, path, rem.(blocks := blocks));
  }

  /** Removes the directory at a path, if it has no entries but the two dots. */
  method RemoveEmptyDirectory(disk: Disk, md: Metadata, path: seq<byte>) returns (r: Result<()>)
    requires Mounted(md) && Sized(md, disk.blocks)
    modifies disk
    ensures Sized(md, disk.blocks)
    ensures r.Ok? && WellFormed(md, old(disk.blocks)) ==>
              && WellFormed(md, disk.blocks)
              && RemovedAt(View(md, old(disk.blocks)), View(md, disk.blocks), Components(path))
              && exists inode: Inode :: inode.IsDirectory() && WasAt(View(md, old(disk.blocks)), Components(path), inode)
    ensures WellFormed(md, old(disk.blocks)) && LinkCounts(View(md, old(disk.blocks))) ==>
              Told(disk.faulty, r, DirectoryRefusal(View(md, old(disk.blocks)), path), old(disk.blocks), disk.blocks)
  {
    hide Parent, FindChild, ReadInode, Listed, Entries, Geometry, Consistent, View, RemovedAt, Components, OnlyDots, WasAt, DirectoryRefusal, RemovalError, LinkCounts, AllSound, AllClean;
    DirectoryMissing(md, disk.blocks, path);
    if !Writable(md) {
      return Err(UnsupportedFeature);
    }
    var rem :- FindEntry(disk, md, path);
    if WellFormed(md, disk.blocks) {
      DirectoryRefused(md, disk.blocks, path, rem);
    }
    if !rem.inode.IsDirectory() {
      return Err(InvalidPath);
    }
    var empty :- DirectoryIsEmpty(disk, md, rem.inode);
    if !empty {
      return Err(NotEmpty);
    }
    if rem.inode.size != md.blockSize || rem.inode.single != 0 || rem.inode.double != 0 || rem.inode.blocks[0] == 0
       || exists i :: 1 <= i < 12 && rem.inode.blocks[i] != 0 {
      return Err(UnsupportedFeature);
    }
    OnlyFirstListed(md, disk.blocks, rem.inode);
    SameError(md, disk.blocks, rem, [rem.inode.blocks[0]]);
    r := Remove(disk, md, path, rem.(blocks := [rem.inode.blocks[0]]));
  }

  lemma SameError(md: Metadata, d: seq<Block>, rem: Removal, blocks: seq<u32>)
    requires Mounted(md) && Sized(md, d)
    ensures RemovalError(md, d, rem.(blocks := blocks)) == RemovalError(md, d, rem)
  {
    hide RemoveEntry;
  }

  lemma FileMissing(md: Metadata, d: seq<Block>, path: seq<byte>)
    ensures WellFormed(md, d) ==> Shape(View(md, d)) && (Missing(View(md, d), path).Some? ==> FileRefusal(View(md, d), path) == Missing(View(md, d), path))
    ensures WellFormed(md, d) ==> Writable(md)
  {
    hide Consistent, View, Geometry, Missing, Place, Child;
    if WellFormed(md, d) {
      ViewShape(md, d);
    }
  }

  lemma DirectoryMissing(md: Metadata, d: seq<Block>, path: seq<byte>)
    ensures WellFormed(md, d) ==> Shape(View(md, d)) && (Missing(View(md, d), path).Some? ==> DirectoryRefusal(View(md, d), path) == Missing(View(md, d), path))
    ensures WellFormed(md, d) ==> Writable(md)
  {
    hide Consistent, View, Geometry, Missing, Place, Child, Names;
    if WellFormed(md, d) {
      ViewShape(md, d);
    }
  }

  lemma OnlyFirstListed(md: Metadata, d: seq<Block>, inode: Inode)
    requires Mounted(md) && Sized(md, d)
    requires inode.single == inode.double == 0 && inode.blocks[0] != 0
    requires forall i :: 1 <= i < 12 ==> inode.blocks[i] == 0
    ensures Listed(md, d, inode) == [inode.blocks[0]]
  {
    var ws: seq<u32> := inode.blocks;
    NonZeroNone(ws[1..]);
  }
}
