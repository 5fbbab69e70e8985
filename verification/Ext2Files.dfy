/** What a path reads, and what linking, unlinking and replacing change of it. */
module Ext2Files {
  import opened Bytes
  import opened Options
  import opened Ext2Disk
  import opened Ext2Pointers
  import opened Ext2Owned
  import opened Ext2RecordProofs
  import opened Ext2Entries
  import opened Ext2Inodes
  import opened Ext2Path
  import opened Ext2View
  import opened Ext2State
  import opened Ext2Tree
  import opened Ext2Change

  /** The first `limit` bytes of the file at a path; nothing if no regular file is there. */
  ghost function FileAt(fs: Fs, names: seq<Name>, limit: nat): Option<Result<seq<byte>>>
    requires Shape(fs)
  {
    var n := Path(fs, ROOT_INODE, names);
    if n.Some? && n.value in fs.inodes && fs.inodes[n.value].IsFile()
    then Some(ReadContents(fs.md, fs.data, fs.inodes[n.value], limit))
    else None
  }

  /** A path leads to a directory. */
  ghost predicate DirectoryAt(fs: Fs, names: seq<Name>)
    requires Shape(fs)
  {
    var n := Path(fs, ROOT_INODE, names);
    n.Some? && Directory(fs, n.value)
  }

  /** A path leads to the same inode in both states, a directory in both or neither, and reads the same. */
  ghost predicate ReadsAlike(fs: Fs, fs': Fs, q: seq<Name>)
    requires Shape(fs) && Shape(fs')
  {
    && Path(fs', ROOT_INODE, q) == Path(fs, ROOT_INODE, q)
    && DirectoryAt(fs', q) == DirectoryAt(fs, q)
    && forall limit: nat :: FileAt(fs', q, limit) == FileAt(fs, q, limit)
  }

  /** The two states are the same at every path but `except`. */
  ghost predicate SamePaths(fs: Fs, fs': Fs, except: Option<seq<Name>>)
    requires Shape(fs) && Shape(fs')
  {
    forall q: seq<Name> :: Some(q) != except ==> ReadsAlike(fs, fs', q)
  }

  /** A file that is not the subject of a change keeps its contents. */
  lemma ContentsKept(fs: Fs, fs': Fs, ch: Change, m: nat, limit: nat)
    requires Step(fs, fs', ch) && Holding(fs) && Apart(fs)
    requires Owner(fs, m) && m != ch.ino && (fs.inodes[m].IsFile() ==> ch.parent != Some(m))
    ensures Owner(fs', m) && (fs'.inodes[m].IsFile() <==> fs.inodes[m].IsFile()) && (Directory(fs', m) <==> Directory(fs, m))
    ensures fs.inodes[m].IsFile() ==>
              ReadContents(fs'.md, fs'.data, fs'.inodes[m], limit) == ReadContents(fs.md, fs.data, fs.inodes[m], limit)
  {
    hide ReadContents, Listed, Proper, PointersOnDisk;
    OwnerKept(fs, fs', ch, m);
    if fs.inodes[m].IsFile() {
      OthersAgree(fs, fs', ch, m);
      ReadContentsAgree(fs.md, fs.data, fs'.data, fs.inodes[m], limit);
    }
  }

  /** When a path leads to the same inode, not the subject of the change, it reads the same. */
  lemma SameAt(fs: Fs, fs': Fs, ch: Change, q: seq<Name>)
    requires Step(fs, fs', ch) && Holding(fs) && Apart(fs) && Tree(fs)
    requires ch.parent.Some? ==> Directory(fs, ch.parent.value)
    requires Path(fs', ROOT_INODE, q) == Path(fs, ROOT_INODE, q) != Some(ch.ino)
    ensures ReadsAlike(fs, fs', q)
  {
    hide ReadContents, Path, Holding, Apart;
    PathOwner(fs, ROOT_INODE, q);
    var m := Path(fs, ROOT_INODE, q);
    if m.Some? {
      forall limit: nat ensures FileAt(fs', q, limit) == FileAt(fs, q, limit) {
        ContentsKept(fs, fs', ch, m.value, limit);
      }
      ContentsKept(fs, fs', ch, m.value, 0);
    }
  }

  lemma UniqueLast(fs: Fs, above: seq<Name>, name: Name, p: nat, q: seq<Name>)
    requires Shape(fs) && Tree(fs) && Path(fs, ROOT_INODE, above) == Some(p)
    requires q != [] && q[|q| - 1] == name && Path(fs, ROOT_INODE, q[..|q| - 1]) == Some(p)
    ensures q == above + [name]
  {
    hide Path;
    PathUnique(fs, above, q[..|q| - 1], p);
    assert q == q[..|q| - 1] + [q[|q| - 1]];
  }

  // ---------- The three changes, whole ----------

  /** The counters move with the bitmaps. */
  ghost predicate CountersFollow(fs: Fs, fs': Fs, ch: Change) {
    var blocks := |ch.freed| - |ch.took|;
    var inodes := (if ch.ino in fs.live then 1 else 0) - (if ch.ino in fs'.live then 1 else 0);
    && (fs'.live == fs.live + {ch.ino} || fs'.live == fs.live - {ch.ino})
    && fs'.counts.groupBlocks == fs.counts.groupBlocks + blocks
    && fs'.counts.superBlocks == fs.counts.superBlocks + blocks
    && fs'.counts.groupInodes == fs.counts.groupInodes + inodes
    && fs'.counts.superInodes == fs.counts.superInodes + inodes
  }

  /** Linking keeps the filesystem consistent, makes the new path lead to the new inode, and changes no other. */
  lemma LinkTheorem(fs: Fs, fs': Fs, ch: Change, p: nat, above: seq<Name>, name: Name)
    requires Consistent(fs) && Linked(fs, fs', ch, p, name) && CountersFollow(fs, fs', ch)
    requires Path(fs, ROOT_INODE, above) == Some(p)
    ensures Consistent(fs')
    ensures Path(fs', ROOT_INODE, above + [name]) == Some(ch.ino)
    ensures SamePaths(fs, fs', Some(above + [name]))
  {
    hide Holding, Apart, Tree, Counted, Step, Linked, Path, ReadsAlike;
    Opened(fs, fs', ch, p, name);
    HoldingKept(fs, fs', ch);
    ApartKept(fs, fs', ch);
    CountedKept(fs, fs', ch);
    TreeAfterLink(fs, fs', ch, p, name);
    NewPath(fs, fs', ch, p, above, name);
    forall q: seq<Name> | q != above + [name] ensures ReadsAlike(fs, fs', q) {
      OtherPathAfterLink(fs, fs', ch, p, above, name, q);
      SameAt(fs, fs', ch, q);
    }
  }

  lemma Opened(fs: Fs, fs': Fs, ch: Change, p: nat, name: Name)
    requires Linked(fs, fs', ch, p, name)
    ensures Step(fs, fs', ch) && Shape(fs) && Shape(fs') && ch.parent == Some(p) && Directory(fs, p)
  {
  }

  lemma NewPath(fs: Fs, fs': Fs, ch: Change, p: nat, above: seq<Name>, name: Name)
    requires Consistent(fs) && Linked(fs, fs', ch, p, name) && Path(fs, ROOT_INODE, above) == Some(p)
    ensures Path(fs', ROOT_INODE, above + [name]) == Some(ch.ino)
  {
    hide Holding, Apart, Counted, Step, Path, Names, FindName, Entries, Shape, Inserted, SafeComponent;
    PathAfterLink(fs, fs', ch, p, name, ROOT_INODE, above);
    if Path(fs', ROOT_INODE, above) != Some(p) {
      PathOwner(fs, ROOT_INODE, above);
      UniqueLast(fs, above, name, p, above);
      assert false;
    }
    PathSnoc(fs', ROOT_INODE, above, name);
    PathOne(fs', p, name);
    NameAfterLink(fs, fs', ch, p, name, p, name);
  }

  lemma OtherPathAfterLink(fs: Fs, fs': Fs, ch: Change, p: nat, above: seq<Name>, name: Name, q: seq<Name>)
    requires Consistent(fs) && Linked(fs, fs', ch, p, name) && Path(fs, ROOT_INODE, above) == Some(p)
    requires q != above + [name]
    ensures Path(fs', ROOT_INODE, q) == Path(fs, ROOT_INODE, q) != Some(ch.ino)
  {
    hide Holding, Apart, Counted, Step, Path, Names, FindName, Entries, Shape, Inserted, SafeComponent;
    PathAfterLink(fs, fs', ch, p, name, ROOT_INODE, q);
    PathOwner(fs, ROOT_INODE, q);
    if Path(fs', ROOT_INODE, q) != Path(fs, ROOT_INODE, q) {
      UniqueLast(fs, above, name, p, q);
    }
  }

  /** Unlinking keeps the filesystem consistent, makes the path lead nowhere, and changes no other. */
  lemma UnlinkTheorem(fs: Fs, fs': Fs, ch: Change, p: nat, above: seq<Name>, name: Name)
    requires Consistent(fs) && Unlinked(fs, fs', ch, p, name) && CountersFollow(fs, fs', ch)
    requires Path(fs, ROOT_INODE, above) == Some(p)
    ensures Consistent(fs')
    ensures Path(fs', ROOT_INODE, above + [name]) == None
    ensures SamePaths(fs, fs', Some(above + [name]))
  {
    hide Holding, Apart, Tree, Counted, Step, Unlinked, Path, ReadsAlike;
    OpenedUnlink(fs, fs', ch, p, name);
    HoldingKept(fs, fs', ch);
    ApartKept(fs, fs', ch);
    CountedKept(fs, fs', ch);
    TreeAfterUnlink(fs, fs', ch, p, name);
    GonePath(fs, fs', ch, p, above, name);
    forall q: seq<Name> | q != above + [name] ensures ReadsAlike(fs, fs', q) {
      OtherPathAfterUnlink(fs, fs', ch, p, above, name, q);
      SameAt(fs, fs', ch, q);
    }
  }

  lemma OpenedUnlink(fs: Fs, fs': Fs, ch: Change, p: nat, name: Name)
    requires Unlinked(fs, fs', ch, p, name)
    ensures Step(fs, fs', ch) && Shape(fs) && Shape(fs') && ch.parent == Some(p) && Directory(fs, p)
  {
  }

  /** A path that ends before the removed name is unaffected by its removal. */
  lemma GonePath(fs: Fs, fs': Fs, ch: Change, p: nat, above: seq<Name>, name: Name)
    requires Consistent(fs) && Unlinked(fs, fs', ch, p, name) && Path(fs, ROOT_INODE, above) == Some(p)
    ensures Path(fs', ROOT_INODE, above + [name]) == None
  {
    hide Holding, Apart, Counted, Step, Path, Names, FindName, Entries, Shape, RemovedFirst, SafeComponent;
    RootIsNot(fs, fs', ch, p, name);
    var q := above + [name];
    PathAfterUnlink(fs, fs', ch, p, name, ROOT_INODE, above);
    if Path(fs', ROOT_INODE, above) != Some(p) {
      UniqueLast(fs, above, name, p, above);
      assert false;
    }
    PathSnoc(fs', ROOT_INODE, above, name);
    PathOne(fs', p, name);
    NameAfterUnlink(fs, fs', ch, p, name, p, name);
  }

  lemma RootIsNot(fs: Fs, fs': Fs, ch: Change, p: nat, name: Name)
    requires Consistent(fs) && Unlinked(fs, fs', ch, p, name)
    ensures ch.ino != ROOT_INODE && Owner(fs, ROOT_INODE)
  {
    hide Holding, Apart, Counted, Step, Names, Entries, Shape, RemovedFirst, SafeComponent;
  }

  lemma OtherPathAfterUnlink(fs: Fs, fs': Fs, ch: Change, p: nat, above: seq<Name>, name: Name, q: seq<Name>)
    requires Consistent(fs) && Unlinked(fs, fs', ch, p, name) && Path(fs, ROOT_INODE, above) == Some(p)
    requires q != above + [name]
    ensures Path(fs', ROOT_INODE, q) == Path(fs, ROOT_INODE, q) != Some(ch.ino)
  {
    hide Holding, Apart, Counted, Step, Path, Names, FindName, Entries, Shape, RemovedFirst, SafeComponent, Links;
    RootIsNot(fs, fs', ch, p, name);
    PathAfterUnlink(fs, fs', ch, p, name, ROOT_INODE, q);
    if Path(fs', ROOT_INODE, q) != Path(fs, ROOT_INODE, q) {
      UniqueLast(fs, above, name, p, q);
    } else if Path(fs, ROOT_INODE, q) == Some(ch.ino) {
      LinkedPath(fs, p, above, name, ch.ino);
      PathUnique(fs, q, above + [name], ch.ino);
    }
  }

  /** A name in the directory at `above` is reached by one more step. */
  lemma LinkedPath(fs: Fs, p: nat, above: seq<Name>, name: Name, c: nat)
    requires Shape(fs) && Tree(fs) && Path(fs, ROOT_INODE, above) == Some(p) && SafeComponent(name) && Links(fs, p, name, c)
    ensures Path(fs, ROOT_INODE, above + [name]) == Some(c)
  {
    hide Path, Names, FindName, Tree, SafeComponent;
    PathSnoc(fs, ROOT_INODE, above, name);
    PathOne(fs, p, name);
    StepIsLink(fs, p, name, c);
  }

  /** Replacing a file keeps the filesystem consistent and every path, and changes no other file. */
  lemma ReplaceTheorem(fs: Fs, fs': Fs, ch: Change, names: seq<Name>)
    requires Consistent(fs) && Replaced(fs, fs', ch) && CountersFollow(fs, fs', ch)
    requires Path(fs, ROOT_INODE, names) == Some(ch.ino)
    ensures Consistent(fs')
    ensures Path(fs', ROOT_INODE, names) == Some(ch.ino)
    ensures SamePaths(fs, fs', Some(names))
  {
    hide Holding, Apart, Tree, Counted, Step, Path, ReadsAlike;
    HoldingKept(fs, fs', ch);
    ApartKept(fs, fs', ch);
    CountedKept(fs, fs', ch);
    TreeAfterReplace(fs, fs', ch);
    PathAfterReplace(fs, fs', ch, ROOT_INODE, names);
    forall q: seq<Name> | q != names ensures ReadsAlike(fs, fs', q) {
      PathAfterReplace(fs, fs', ch, ROOT_INODE, q);
      if Path(fs, ROOT_INODE, q) == Some(ch.ino) {
        PathUnique(fs, q, names, ch.ino);
      }
      SameAt(fs, fs', ch, q);
    }
  }

  // ---------- No change at all ----------

  /** The states differ only in the contents of blocks that are not in use. */
  ghost predicate SameInUse(fs: Fs, fs': Fs) {
    && Shape(fs) && Shape(fs')
    && fs' == fs.(data := fs'.data)
    && forall b :: b in fs.used ==> fs'.data[b] == fs.data[b]
  }

  lemma OwnedAgree(fs: Fs, fs': Fs, n: nat)
    requires SameInUse(fs, fs') && Holding(fs) && Owner(fs, n)
    ensures Agree(fs.data, fs'.data, Owns(fs, n))
    ensures Owns(fs', n) == Owns(fs, n)
  {
    hide Listed, Proper, PointersOnDisk;
    var s := Owns(fs, n);
    assert HoldsBlocks(fs, n);
    forall i | 0 <= i < |s| && s[i] < |fs.data| ensures fs.data[s[i]] == fs'.data[s[i]] {
      InSet(s, i);
    }
    ListedAgree(fs.md, fs.data, fs'.data, fs.inodes[n]);
  }

  lemma SameNames(fs: Fs, fs': Fs, n: nat)
    requires SameInUse(fs, fs') && Holding(fs)
    ensures Names(fs', n) == Names(fs, n) && (Directory(fs', n) <==> Directory(fs, n))
    ensures Directory(fs, n) ==> (GoodDirectory(fs', n) <==> GoodDirectory(fs, n))
  {
    hide Entries, Listed;
    if Directory(fs, n) {
      OwnedAgree(fs, fs', n);
      EntriesAgree(fs.md, fs.data, fs'.data, fs.inodes[n]);
    }
  }

  lemma {:induction false} SamePath(fs: Fs, fs': Fs, n: nat, q: seq<Name>)
    requires SameInUse(fs, fs') && Holding(fs)
    ensures Path(fs', n, q) == Path(fs, n, q)
    decreases |q|
  {
    hide Holding, Names, FindName, SafeComponent, GoodDirectory;
    if q != [] {
      SameNames(fs, fs', n);
      var c := FindName(Names(fs, n), q[0]);
      if c.Some? {
        SamePath(fs, fs', c.value, q[1..]);
      }
    }
  }

  /** What is not in use can change without anyone noticing. */
  lemma UnnoticedTheorem(fs: Fs, fs': Fs)
    requires Consistent(fs) && SameInUse(fs, fs')
    ensures Consistent(fs') && SamePaths(fs, fs', None)
  {
    hide Listed, Path, Names, Entries, ReadContents, PointersOnDisk, Proper;
    forall n: nat | Owner(fs', n) ensures HoldsBlocks(fs', n) && Owns(fs', n) == Owns(fs, n) {
      assert Owner(fs, n) && HoldsBlocks(fs, n);
      OwnedAgree(fs, fs', n);
    }
    SameTree(fs, fs');
    forall q: seq<Name> ensures ReadsAlike(fs, fs', q) {
      SameInUseAt(fs, fs', q);
    }
  }

  lemma SameInUseAt(fs: Fs, fs': Fs, q: seq<Name>)
    requires Consistent(fs) && SameInUse(fs, fs')
    ensures ReadsAlike(fs, fs', q)
  {
    hide Listed, Path, Names, Entries, ReadContents, PointersOnDisk, Proper, Counted, Apart, Holding;
    SamePath(fs, fs', ROOT_INODE, q);
    PathOwner(fs, ROOT_INODE, q);
    var n := Path(fs, ROOT_INODE, q);
    if n.Some? {
      OwnedAgree(fs, fs', n.value);
      forall limit: nat ensures FileAt(fs', q, limit) == FileAt(fs, q, limit) {
        ReadContentsAgree(fs.md, fs.data, fs'.data, fs.inodes[n.value], limit);
      }
    }
  }

  lemma SameTree(fs: Fs, fs': Fs)
    requires SameInUse(fs, fs') && Holding(fs) && Tree(fs)
    ensures Tree(fs')
  {
    hide Holding, Names, GoodDirectory, Shape;
    forall n: nat ensures Names(fs', n) == Names(fs, n) && (Directory(fs', n) <==> Directory(fs, n)) {
      SameNames(fs, fs', n);
    }
    forall n: nat | Directory(fs', n) ensures GoodDirectory(fs', n) {
      SameNames(fs, fs', n);
    }
    forall n: nat, a: Name, c: nat | Links(fs', n, a, c) ensures Links(fs, n, a, c) {}
    forall n: nat, a: Name, c: nat | Links(fs', n, a, c) ensures Owner(fs', c) && c != ROOT_INODE {
      assert Links(fs, n, a, c);
    }
  }
}
