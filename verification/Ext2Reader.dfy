/** Reading by path: what the driver returns is what the consistent state holds. */
module Ext2Reader {
  import opened Bytes
  import opened Options
  import opened Ext2Disk
  import opened Ext2Pointers
  import opened Ext2Directory
  import opened Ext2Entries
  import opened Ext2Inodes
  import opened Ext2Path
  import opened Ext2Bitmap
  import opened Ext2View
  import opened Ext2State
  import opened Ext2Tree
  import opened Ext2Files

  /** A disk the write path accepts, whose contents satisfy the filesystem invariant. */
  ghost predicate WellFormed(md: Metadata, d: seq<Block>) {
    Writable(md) && Sized(md, d) && Geometry(md, d) && Consistent(View(md, d))
  }

  lemma ViewShape(md: Metadata, d: seq<Block>)
    requires WellFormed(md, d)
    ensures Shape(View(md, d))
  {
    hide Holding, Apart, Counted, Tree, View;
  }

  /** The inode a path leads to, as `lookup` and `find_inode_number` report it. */
  ghost function Reached(fs: Fs, n: Option<nat>): Option<(nat, Inode)> {
    if n.Some? && n.value in fs.inodes then Some((n.value, fs.inodes[n.value])) else None
  }

  lemma ReadOwner(md: Metadata, d: seq<Block>, n: nat)
    requires WellFormed(md, d) && Owner(View(md, d), n)
    ensures ReadInode(md, d, n) == Ok(View(md, d).inodes[n])
  {
    hide Tree, Apart, Counted, Used, LiveInodes, Layout, CountsOf, PointersOnDisk, ReadInode;
    assert HoldsBlocks(View(md, d), n);
    ReadIsView(md, d, n);
  }

  /** Searching a directory of a consistent state. */
  lemma FindIsName(md: Metadata, d: seq<Block>, n: nat, name: Name)
    requires WellFormed(md, d) && Owner(View(md, d), n)
    ensures FindChild(md, d, View(md, d).inodes[n], name) == Ok(FindName(Names(View(md, d), n), name))
  {
    hide Holding, Apart, Counted, Used, LiveInodes, Layout, CountsOf, Entries, FindName, RawInode;
    var fs := View(md, d);
    if Directory(fs, n) {
      assert GoodDirectory(fs, n);
      FindChildIsFind(md, d, fs.inodes[n], name);
    } else {
      EmptyFind(name);
    }
  }

  /** Walking a path on the disk follows the tree of the state, and never fails on it. */
  lemma {:induction false} WalkIsPath(md: Metadata, d: seq<Block>, n: nat, names: seq<Name>)
    requires WellFormed(md, d) && Owner(View(md, d), n)
    ensures Walk(md, d, n, names) == Ok(Reached(View(md, d), Path(View(md, d), n, names)))
    decreases |names|
  {
    hide FindChild, ReadInode, Names, FindName, SafeComponent, View, Tree, Holding, Apart, Counted;
    var fs := View(md, d);
    ReadOwner(md, d, n);
    if names == [] {
      assert n in fs.inodes;
    } else if SafeComponent(names[0]) {
      FindIsName(md, d, n, names[0]);
      if !fs.inodes[n].IsDirectory() {
        NoNames(fs, n, names[0]);
      } else {
        var c := FindName(Names(fs, n), names[0]);
        if c.Some? {
          ChildOwner(fs, n, names[0], c.value);
          WalkIsPath(md, d, c.value, names[1..]);
        }
      }
    }
  }

  lemma NoNames(fs: Fs, n: nat, name: Name)
    requires Shape(fs) && !Directory(fs, n)
    ensures FindName(Names(fs, n), name) == None
  {
  }

  lemma ChildOwner(fs: Fs, n: nat, name: Name, c: u32)
    requires Consistent(fs) && SafeComponent(name) && FindName(Names(fs, n), name) == Some(c)
    ensures Links(fs, n, name, c) && Owner(fs, c)
  {
    hide Names, FindName, Holding, Apart, Counted;
    StepIsLink(fs, n, name, c);
  }

  // ---------- read_file ----------

  function ReadPath(md: Metadata, d: seq<Block>, path: seq<byte>, limit: nat): Result<Option<(seq<byte>, nat)>>
    requires Mounted(md) && Sized(md, d)
  {
    var found :- Walk(md, d, ROOT_INODE, Components(path));
    if found.None? || !found.value.1.IsFile() then Ok(None)
    else
      var bytes :- ReadContents(md, d, found.value.1, limit);
      Ok(Some((bytes, found.value.1.size)))
  }

  /** `read_file`: the first `limit` bytes and the full size, or nothing. */
  method ReadFile(disk: Disk, md: Metadata, path: seq<byte>, limit: nat) returns (r: Result<Option<(seq<byte>, nat)>>)
    requires Mounted(md) && Sized(md, disk.blocks)
    ensures Determined(disk.faulty, r, ReadPath(md, disk.blocks, path, limit))
  {
    hide Walk, ReadContents;
    var found :- Lookup(disk, md, path);
    if found.None? || !found.value.1.IsFile() {
      return Ok(None);
    }
    var bytes :- ReadInodeContents(disk, md, found.value.1, limit);
    r := Ok(Some((bytes, found.value.1.size)));
  }

  /** The size of what a path leads to. */
  ghost function SizeAt(fs: Fs, names: seq<Name>): Option<nat>
    requires Shape(fs)
  {
    var n := Path(fs, ROOT_INODE, names);
    if n.Some? && n.value in fs.inodes then Some(fs.inodes[n.value].size) else None
  }

  /** On a well-formed disk, reading a path gives the contents of the file the tree has there. */
  lemma ReadPathIsFile(md: Metadata, d: seq<Block>, path: seq<byte>, limit: nat)
    requires WellFormed(md, d)
    ensures var file := FileAt(View(md, d), Components(path), limit);
            var read := ReadPath(md, d, path, limit);
            && (file.None? ==> read == Ok(None))
            && (file.Some? && file.value.Err? ==> read == Err(file.value.error))
            && (file.Some? && file.value.Ok? ==> read.Ok? && read.value.Some? && read.value.value.0 == file.value.value)
            && (file.Some? && file.value.Ok? ==> SizeAt(View(md, d), Components(path)) == Some(read.value.value.1))
  {
    hide Walk, ReadContents, Path, View, Holding, Apart, Counted;
    WalkIsPath(md, d, ROOT_INODE, Components(path));
    ViewData(md, d);
  }

  lemma ViewData(md: Metadata, d: seq<Block>)
    requires Writable(md) && Sized(md, d) && Geometry(md, d)
    ensures View(md, d).data == d && View(md, d).md == md
  {
  }
}
