/** The filesystem invariant: who owns which block, and what every change to the disk keeps of it. */
module Ext2State {
  import opened Bytes
  import opened Options
  import opened Ext2Disk
  import opened Ext2Pointers
  import opened Ext2Owned
  import opened Ext2Inodes
  import opened Ext2Bitmap
  import opened Ext2View

  ghost predicate Shape(fs: Fs) {
    && Writable(fs.md)
    && Sized(fs.md, fs.data)
    && (forall n :: n in fs.inodes <==> 1 <= n <= fs.md.inodesCount)
    && (forall n :: n in fs.live ==> 1 <= n <= fs.md.inodesCount)
    && (forall b :: b in fs.used ==> fs.md.firstDataBlock <= b < fs.md.blocksCount)
  }

  /** A live inode whose pointers are block numbers: a regular file or a directory. */
  ghost predicate Owner(fs: Fs, n: nat) {
    n in fs.live && n in fs.inodes && (fs.inodes[n].IsFile() || fs.inodes[n].IsDirectory())
  }

  ghost function Owns(fs: Fs, n: nat): seq<u32>
    requires Shape(fs) && n in fs.inodes
  {
    Listed(fs.md, fs.data, fs.inodes[n])
  }

  /** Every block an inode owns is on the disk, owned once, marked in use and no layout block. */
  ghost predicate HoldsBlocks(fs: Fs, n: nat)
    requires Shape(fs) && n in fs.inodes
  {
    && PointersOnDisk(fs.md, fs.inodes[n])
    && Proper(fs.md, Owns(fs, n))
    && Set(Owns(fs, n)) <= fs.used
    && Set(Owns(fs, n)) !! fs.layout
  }

  ghost predicate Holding(fs: Fs)
    requires Shape(fs)
  {
    && (forall b :: b in fs.layout && b != 0 ==> b in fs.used)
    && (forall n: nat :: Owner(fs, n) ==> HoldsBlocks(fs, n))
  }

  ghost predicate Apart(fs: Fs)
    requires Shape(fs)
  {
    forall n: nat, m: nat :: Owner(fs, n) && Owner(fs, m) && n != m ==> Set(Owns(fs, n)) !! Set(Owns(fs, m))
  }

  /** Both free counters, in both places, equal the number of clear bits. */
  ghost predicate Counted(fs: Fs)
    requires Shape(fs)
  {
    && fs.counts.groupBlocks == fs.counts.superBlocks == BlockCount(fs.md) - |fs.used|
    && fs.counts.groupInodes == fs.counts.superInodes == fs.md.inodesCount - |fs.live|
  }

  // ---------- One change ----------

  /**
   * A change of the disk by one operation on inode `ino`: blocks `took` are new to it, its old
   * blocks `freed` are given back, and of everyone else's blocks at most the one directory block
   * of `parent` is rewritten.
   */
  datatype Change = Change(ino: nat, took: seq<u32>, freed: seq<u32>, parent: Option<nat>)

  predicate SameBody(a: Inode, b: Inode) {
    a.(links := b.links) == b
  }

  ghost predicate DirectoryTouched(fs: Fs, ch: Change, b: nat)
    requires Shape(fs)
  {
    ch.parent.Some? && ch.parent.value in fs.inodes && b == fs.inodes[ch.parent.value].blocks[0]
  }

  /** Only the link count of the parent may move. */
  ghost predicate SameInode(fs: Fs, fs': Fs, ch: Change, m: nat)
    requires m in fs.inodes && m in fs'.inodes
  {
    if ch.parent == Some(m) then SameBody(fs'.inodes[m], fs.inodes[m]) else fs'.inodes[m] == fs.inodes[m]
  }

  ghost predicate Step(fs: Fs, fs': Fs, ch: Change) {
    && Shape(fs) && Shape(fs') && fs'.md == fs.md && fs'.layout == fs.layout
    && ch.ino in fs.inodes
    && (ch.parent.Some? ==> Owner(fs, ch.parent.value) && ch.parent.value != ch.ino && fs.inodes[ch.parent.value].blocks[0] != 0)
    && Proper(fs.md, ch.took) && Set(ch.took) !! fs.used && Set(ch.took) !! fs.layout
    && (forall b :: b in Set(ch.took) ==> fs.md.firstDataBlock <= b)
    && ch.freed == (if Owner(fs, ch.ino) then Owns(fs, ch.ino) else [])
    && fs'.used == fs.used + Set(ch.took) - Set(ch.freed)
    && (forall m :: m in fs.inodes && m != ch.ino ==> (m in fs'.live <==> m in fs.live) && SameInode(fs, fs', ch, m))
    && (forall b: nat :: b < fs.md.blocksCount && b !in fs.layout && b !in Set(ch.took) && !DirectoryTouched(fs, ch, b) ==>
          fs'.data[b] == fs.data[b])
    && (Owner(fs', ch.ino) ==>
          && PointersOnDisk(fs.md, fs'.inodes[ch.ino])
          && Distinct(Owns(fs', ch.ino)) && Set(Owns(fs', ch.ino)) == Set(ch.took))
    && (!Owner(fs', ch.ino) ==> ch.took == [])
  }

  lemma OwnerKept(fs: Fs, fs': Fs, ch: Change, m: nat)
    requires Step(fs, fs', ch) && m != ch.ino
    ensures Owner(fs', m) <==> Owner(fs, m)
  {
  }

  lemma InSet(s: seq<u32>, i: nat)
    requires i < |s|
    ensures s[i] as nat in Set(s)
  {
  }

  /** The blocks of every other inode but the parent hold the same bytes as before. */
  lemma OthersAgree(fs: Fs, fs': Fs, ch: Change, m: nat)
    requires Step(fs, fs', ch) && Holding(fs) && Apart(fs)
    requires Owner(fs, m) && m != ch.ino && ch.parent != Some(m)
    ensures Agree(fs.data, fs'.data, Owns(fs, m))
  {
    hide Listed, Proper, PointersOnDisk, SameBody;
    var s := Owns(fs, m);
    assert HoldsBlocks(fs, m);
    forall i | 0 <= i < |s| && s[i] < |fs.data| ensures fs.data[s[i]] == fs'.data[s[i]] {
      InSet(s, i);
      if DirectoryTouched(fs, ch, s[i]) {
        FirstListed(fs, ch.parent.value);
      }
    }
  }

  lemma FirstListed(fs: Fs, n: nat)
    requires Shape(fs) && n in fs.inodes && fs.inodes[n].blocks[0] != 0
    ensures Owns(fs, n) != [] && Owns(fs, n)[0] == fs.inodes[n].blocks[0]
    ensures fs.inodes[n].blocks[0] as nat in Set(Owns(fs, n))
  {
    hide SinglePart, DoublePart;
    InSet(Owns(fs, n), 0);
  }

  /** Rewriting the first data block of an inode does not change the list of its blocks. */
  lemma ListedDespiteFirst(md: Metadata, d: seq<Block>, d': seq<Block>, inode: Inode)
    requires Mounted(md) && Sized(md, d) && Sized(md, d')
    requires inode.blocks[0] != 0 && Distinct(Listed(md, d, inode))
    requires forall i :: 1 <= i < |Listed(md, d, inode)| && Listed(md, d, inode)[i] < |d| ==>
                           d[Listed(md, d, inode)[i]] == d'[Listed(md, d, inode)[i]]
    ensures Listed(md, d', inode) == Listed(md, d, inode)
  {
    var rest := inode.(blocks := inode.blocks[0 := 0]);
    WithoutFirst(md, d, inode, rest);
    WithoutFirst(md, d', inode, rest);
    hide Listed;
    var s := Listed(md, d, inode);
    assert forall i :: 0 <= i < |Listed(md, d, rest)| ==> Listed(md, d, rest)[i] == s[i + 1];
    ListedAgree(md, d, d', rest);
  }

  lemma WithoutFirst(md: Metadata, d: seq<Block>, inode: Inode, rest: Inode)
    requires Mounted(md) && Sized(md, d) && inode.blocks[0] != 0
    requires rest == inode.(blocks := inode.blocks[0 := 0])
    ensures Listed(md, d, inode) == [inode.blocks[0]] + Listed(md, d, rest)
  {
    hide Words, Leaves;
    var tail := inode.blocks[1..];
    assert rest.blocks[1..] == tail;
    assert NonZero(inode.blocks) == [inode.blocks[0]] + NonZero(tail);
    assert NonZero(rest.blocks) == NonZero(tail);
    var single, double := SinglePart(md, d, inode), DoublePart(md, d, inode);
    assert SinglePart(md, d, rest) == single && DoublePart(md, d, rest) == double;
    assert [inode.blocks[0]] + NonZero(tail) + single + double == [inode.blocks[0]] + (NonZero(tail) + single + double);
  }

  /** Every other owner lists the same blocks after the change. */
  lemma OwnsKept(fs: Fs, fs': Fs, ch: Change, m: nat)
    requires Step(fs, fs', ch) && Holding(fs) && Apart(fs)
    requires Owner(fs, m) && m != ch.ino
    ensures Owns(fs', m) == Owns(fs, m)
  {
    hide Proper, PointersOnDisk;
    SameList(fs.md, fs'.data, fs.inodes[m], fs'.inodes[m]);
    hide Listed;
    if ch.parent != Some(m) {
      OthersAgree(fs, fs', ch, m);
      ListedAgree(fs.md, fs.data, fs'.data, fs.inodes[m]);
    } else {
      var s := Owns(fs, m);
      ParentTail(fs, fs', ch);
      ListedDespiteFirst(fs.md, fs.data, fs'.data, fs.inodes[m]);
    }
  }

  lemma SameList(md: Metadata, d: seq<Block>, a: Inode, b: Inode)
    requires Mounted(md) && Sized(md, d) && SameBody(b, a)
    ensures Listed(md, d, a) == Listed(md, d, b)
  {
  }

  lemma ParentTail(fs: Fs, fs': Fs, ch: Change)
    requires Step(fs, fs', ch) && Holding(fs) && ch.parent.Some?
    ensures var s := Owns(fs, ch.parent.value);
            && Distinct(s)
            && forall i :: 1 <= i < |s| && s[i] < |fs.data| ==> fs.data[s[i]] == fs'.data[s[i]]
  {
    hide Listed, PointersOnDisk, SameBody;
    var p := ch.parent.value;
    var s := Owns(fs, p);
    assert HoldsBlocks(fs, p);
    FirstListed(fs, p);
    forall i | 1 <= i < |s| && s[i] < |fs.data| ensures fs.data[s[i]] == fs'.data[s[i]] {
      InSet(s, i);
      assert s[0] != s[i];
    }
  }

  // ---------- What a change keeps ----------

  lemma HoldingKept(fs: Fs, fs': Fs, ch: Change)
    requires Step(fs, fs', ch) && Holding(fs) && Apart(fs)
    ensures Holding(fs')
  {
    hide Listed, Distinct, SameBody, PointersOnDisk;
    assert Set(ch.freed) !! fs.layout by {
      if Owner(fs, ch.ino) { assert HoldsBlocks(fs, ch.ino); } else { assert ch.freed == []; }
    }
    forall n: nat | Owner(fs', n) ensures HoldsBlocks(fs', n) {
      if n == ch.ino {
        OwnHolds(fs, fs', ch);
      } else {
        OtherHolds(fs, fs', ch, n);
      }
    }
  }

  lemma OwnHolds(fs: Fs, fs': Fs, ch: Change)
    requires Step(fs, fs', ch) && Holding(fs) && Owner(fs', ch.ino)
    ensures HoldsBlocks(fs', ch.ino)
  {
    hide Listed, PointersOnDisk;
    var s := Owns(fs', ch.ino);
    forall i | 0 <= i < |s| ensures s[i] < fs.md.blocksCount {
      InSet(s, i);
      assert s[i] as nat in Set(ch.took);
    }
    if Owner(fs, ch.ino) {
      assert HoldsBlocks(fs, ch.ino);
    } else {
      assert Set(ch.freed) == {};
    }
  }

  lemma OtherHolds(fs: Fs, fs': Fs, ch: Change, n: nat)
    requires Step(fs, fs', ch) && Holding(fs) && Apart(fs) && Owner(fs', n) && n != ch.ino
    ensures HoldsBlocks(fs', n)
  {
    OwnerKept(fs, fs', ch, n);
    OwnsKept(fs, fs', ch, n);
    assert HoldsBlocks(fs, n);
    assert PointersOnDisk(fs.md, fs'.inodes[n]);
    hide Listed, PointersOnDisk, Distinct;
    if Owner(fs, ch.ino) {
      assert Set(Owns(fs, n)) !! Set(Owns(fs, ch.ino));
    } else {
      assert Set(ch.freed) == {};
    }
  }

  lemma ApartKept(fs: Fs, fs': Fs, ch: Change)
    requires Step(fs, fs', ch) && Holding(fs) && Apart(fs)
    ensures Apart(fs')
  {
    forall n: nat, m: nat | Owner(fs', n) && Owner(fs', m) && n != m
      ensures Set(Owns(fs', n)) !! Set(Owns(fs', m))
    {
      hide Listed, PointersOnDisk, Proper, SameBody;
      if n == ch.ino {
        ApartFromNew(fs, fs', ch, m);
      } else if m == ch.ino {
        ApartFromNew(fs, fs', ch, n);
      } else {
        OwnerKept(fs, fs', ch, n);
        OwnerKept(fs, fs', ch, m);
        OwnsKept(fs, fs', ch, n);
        OwnsKept(fs, fs', ch, m);
      }
    }
  }

  lemma ApartFromNew(fs: Fs, fs': Fs, ch: Change, m: nat)
    requires Step(fs, fs', ch) && Holding(fs) && Apart(fs)
    requires Owner(fs', ch.ino) && Owner(fs', m) && m != ch.ino
    ensures Set(Owns(fs', ch.ino)) !! Set(Owns(fs', m))
  {
    OwnerKept(fs, fs', ch, m);
    OwnsKept(fs, fs', ch, m);
    assert HoldsBlocks(fs, m);
  }

  /** The counters follow the bitmaps when they move by the blocks taken and freed. */
  lemma CountedKept(fs: Fs, fs': Fs, ch: Change)
    requires Step(fs, fs', ch) && Holding(fs) && Counted(fs)
    requires fs'.live == fs.live + {ch.ino} || fs'.live == fs.live - {ch.ino}
    requires var blocks := |ch.freed| - |ch.took|;
             var inodes := (if ch.ino in fs.live then 1 else 0) - (if ch.ino in fs'.live then 1 else 0);
             && fs'.counts.groupBlocks == fs.counts.groupBlocks + blocks
             && fs'.counts.superBlocks == fs.counts.superBlocks + blocks
             && fs'.counts.groupInodes == fs.counts.groupInodes + inodes
             && fs'.counts.superInodes == fs.counts.superInodes + inodes
    ensures Counted(fs')
  {
    hide Listed, PointersOnDisk, SameBody, Owner, Holding, Sized;
    BlocksCounted(fs, fs', ch);
    InodesCounted(fs, fs', ch.ino);
  }

  lemma BlocksCounted(fs: Fs, fs': Fs, ch: Change)
    requires Step(fs, fs', ch) && Holding(fs)
    ensures |fs'.used| == |fs.used| + |ch.took| - |ch.freed|
  {
    hide Listed, PointersOnDisk, SameBody;
    SetSize(ch.took);
    if Owner(fs, ch.ino) {
      assert HoldsBlocks(fs, ch.ino);
    }
    assert Distinct(ch.freed) && Set(ch.freed) <= fs.used;
    SetSize(ch.freed);
    CardinalityMoves(fs.used, Set(ch.took), Set(ch.freed));
  }

  lemma InodesCounted(fs: Fs, fs': Fs, n: nat)
    requires fs'.live == fs.live + {n} || fs'.live == fs.live - {n}
    ensures |fs'.live| == |fs.live| + (if n in fs'.live then 1 else 0) - (if n in fs.live then 1 else 0)
  {
    var rest := fs.live - {n};
    assert fs.live == if n in fs.live then rest + {n} else rest;
    assert fs'.live == if n in fs'.live then rest + {n} else rest;
  }

  lemma CardinalityMoves(s: set<nat>, plus: set<nat>, minus: set<nat>)
    requires plus !! s && minus <= s
    ensures |s + plus - minus| == |s| + |plus| - |minus|
  {
    assert |s + plus| == |s| + |plus|;
    assert (s + plus - minus) !! minus && (s + plus - minus) + minus == s + plus;
    assert |(s + plus - minus) + minus| == |s + plus - minus| + |minus|;
  }
}
