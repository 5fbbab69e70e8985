/**
 * What an inode says of itself: a directory has two links and one for each directory in it, a file has
 * one, and either has two sectors for each block it owns. And what a name says of it: its type.
 */
module Ext2Links {
  import opened Options
  import opened Ext2Records
  import opened Ext2RecordProofs
  import opened Ext2Entries
  import opened Ext2Path
  import opened Ext2View
  import opened Ext2State
  import opened Ext2Tree
  import opened Ext2Change
  import opened Ext2Files

  /** The entry is the name of a directory. */
  ghost predicate IsSub(fs: Fs, e: Entry) {
    !IsDot(e.name) && Directory(fs, e.inode)
  }

  ghost function One(fs: Fs, e: Entry): nat {
    if IsSub(fs, e) then 1 else 0
  }

  /** How many of the entries are names of directories. */
  ghost function Subdirectories(fs: Fs, es: seq<Entry>): nat {
    if es == [] then 0 else One(fs, es[0]) + Subdirectories(fs, es[1..])
  }

  ghost predicate RightCount(fs: Fs, n: nat)
    requires Shape(fs) && Owner(fs, n)
  {
    fs.inodes[n].links == if fs.inodes[n].IsDirectory() then 2 + Subdirectories(fs, Names(fs, n)) else 1
  }

  ghost predicate LinkCounts(fs: Fs)
    requires Shape(fs)
  {
    forall n: nat :: Owner(fs, n) ==> RightCount(fs, n)
  }

  ghost predicate RightSectors(fs: Fs, n: nat)
    requires Shape(fs) && Owner(fs, n)
  {
    fs.inodes[n].sectors == 2 * |Owns(fs, n)|
  }

  ghost predicate SectorCounts(fs: Fs)
    requires Shape(fs)
  {
    forall n: nat :: Owner(fs, n) ==> RightSectors(fs, n)
  }

  /** Every name in the list carries the type of what it leads to. */
  ghost predicate RightKinds(fs: Fs, es: seq<Entry>) {
    forall i :: 0 <= i < |es| && !IsDot(es[i].name) ==> es[i].kind == KindFor(fs, es[i].inode)
  }

  ghost predicate EntryKinds(fs: Fs)
    requires Shape(fs)
  {
    forall n: nat :: Directory(fs, n) ==> RightKinds(fs, Names(fs, n))
  }

  /** A change under which right link counts, sector counts and types stay right. */
  ghost predicate KeepsCounts(fs: Fs, fs': Fs) {
    && Shape(fs) && Shape(fs')
    && (LinkCounts(fs) ==> LinkCounts(fs'))
    && (SectorCounts(fs) ==> SectorCounts(fs'))
    && (EntryKinds(fs) ==> EntryKinds(fs'))
  }

  // ---------- Counting entries ----------

  lemma {:induction false} CountConcat(fs: Fs, a: seq<Entry>, b: seq<Entry>)
    ensures Subdirectories(fs, a + b) == Subdirectories(fs, a) + Subdirectories(fs, b)
  {
    hide One;
    if a == [] {
      assert a + b == b;
    } else {
      CountConcat(fs, a[1..], b);
      assert (a + b)[1..] == a[1..] + b;
    }
  }

  lemma CountOne(fs: Fs, e: Entry)
    ensures Subdirectories(fs, [e]) == One(fs, e)
  {
    hide One;
    assert [e][1..] == [];
  }

  lemma CountInserted(fs: Fs, before: seq<Entry>, after: seq<Entry>, e: Entry)
    requires Inserted(before, after, e)
    ensures Subdirectories(fs, after) == Subdirectories(fs, before) + One(fs, e)
  {
    hide Subdirectories, One;
    var k :| 0 <= k <= |before| && after == before[..k] + [e] + before[k..];
    assert before == before[..k] + before[k..];
    CountOne(fs, e);
    CountConcat(fs, before[..k], before[k..]);
    CountConcat(fs, before[..k], [e]);
    CountConcat(fs, before[..k] + [e], before[k..]);
  }

  lemma CountRemoved(fs: Fs, before: seq<Entry>, after: seq<Entry>, name: Name, e: Entry)
    requires RemovedFirst(before, after, name) && NamesDistinct(before) && e in before && e.name == name
    ensures Subdirectories(fs, before) == Subdirectories(fs, after) + One(fs, e)
  {
    hide Subdirectories, One;
    var k: nat :| IsFirst(before, k, name) && after == before[..k] + before[k + 1..];
    var i :| 0 <= i < |before| && before[i] == e;
    assert i == k;
    assert before == before[..k] + [e] + before[k + 1..];
    CountOne(fs, e);
    CountConcat(fs, before[..k], before[k + 1..]);
    CountConcat(fs, before[..k], [e]);
    CountConcat(fs, before[..k] + [e], before[k + 1..]);
  }

  lemma {:induction false} CountSame(fs: Fs, fs': Fs, es: seq<Entry>)
    requires forall i :: 0 <= i < |es| ==> One(fs', es[i]) == One(fs, es[i])
    ensures Subdirectories(fs', es) == Subdirectories(fs, es)
  {
    hide One;
    if es != [] {
      CountSame(fs, fs', es[1..]);
    }
  }

  lemma {:induction false} CountDots(fs: Fs, es: seq<Entry>)
    requires OnlyDots(es)
    ensures Subdirectories(fs, es) == 0
  {
    if es != [] {
      CountDots(fs, es[1..]);
    }
  }

  // ---------- What each change keeps ----------

  lemma DirectoryKept(fs: Fs, fs': Fs, ch: Change, m: nat)
    requires Step(fs, fs', ch) && m != ch.ino
    ensures Directory(fs', m) <==> Directory(fs, m)
  {
    OwnerKept(fs, fs', ch, m);
  }

  /** Where no name leads to the inode that changes, the count of directories stays. */
  lemma CountKept(fs: Fs, fs': Fs, ch: Change, es: seq<Entry>)
    requires Step(fs, fs', ch) && forall i :: 0 <= i < |es| && !IsDot(es[i].name) ==> es[i].inode as nat != ch.ino
    ensures Subdirectories(fs', es) == Subdirectories(fs, es)
  {
    hide Step, IsDot, Directory;
    forall i | 0 <= i < |es| ensures One(fs', es[i]) == One(fs, es[i]) {
      if !IsDot(es[i].name) {
        DirectoryKept(fs, fs', ch, es[i].inode);
      }
    }
    CountSame(fs, fs', es);
  }

  /** In a directory that names no such inode. */
  lemma NotNamedHere(fs: Fs, n: nat, ino: nat)
    requires Shape(fs) && forall a: Name :: !Links(fs, n, a, ino)
    ensures forall i :: 0 <= i < |Names(fs, n)| && !IsDot(Names(fs, n)[i].name) ==> Names(fs, n)[i].inode as nat != ino
  {
    hide Names, IsDot, Shape;
    var es := Names(fs, n);
    forall i | 0 <= i < |es| && !IsDot(es[i].name) ensures es[i].inode as nat != ino {
      assert Named(es, es[i].name, es[i].inode);
      assert !Links(fs, n, es[i].name, ino);
    }
  }

  lemma OtherCount(fs: Fs, fs': Fs, ch: Change, n: nat)
    requires Step(fs, fs', ch) && Holding(fs) && Apart(fs) && n != ch.ino && ch.parent != Some(n) && Owner(fs', n)
    requires forall a: Name :: !Links(fs, n, a, ch.ino)
    requires LinkCounts(fs)
    ensures RightCount(fs', n)
  {
    hide Names, Subdirectories, Holding, Apart, Shape, Links;
    OwnerKept(fs, fs', ch, n);
    assert RightCount(fs, n);
    NamesKept(fs, fs', ch, n);
    NotNamedHere(fs, n, ch.ino);
    CountKept(fs, fs', ch, Names(fs, n));
  }

  lemma DeadUnnamed(fs: Fs, n: nat, ino: nat)
    requires Shape(fs) && Tree(fs) && ino !in fs.live
    ensures forall a: Name :: !Links(fs, n, a, ino)
  {
    hide Links, GoodDirectory;
  }

  lemma CountsAfterLink(fs: Fs, fs': Fs, ch: Change, p: nat, name: Name)
    requires Consistent(fs) && LinkCounts(fs) && Linked(fs, fs', ch, p, name)
    requires fs'.inodes[ch.ino].links == if Directory(fs', ch.ino) then 2 else 1
    requires fs'.inodes[p].links == fs.inodes[p].links + if Directory(fs', ch.ino) then 1 else 0
    ensures LinkCounts(fs')
  {
    hide Holding, Apart, Counted, Tree, Step, Subdirectories, Names, Inserted, Links, GoodDirectory, RightCount, FindName, SafeComponent, OnlyDots, Shape;
    forall n: nat | Owner(fs', n) ensures RightCount(fs', n) {
      DeadUnnamed(fs, n, ch.ino);
      if n == ch.ino {
        NewCount(fs', n);
      } else if n == p {
        ParentCountLinked(fs, fs', ch, p, name);
      } else {
        OtherCount(fs, fs', ch, n);
      }
    }
  }

  lemma NewCount(fs: Fs, n: nat)
    requires Shape(fs) && Owner(fs, n) && OnlyDots(Names(fs, n)) && fs.inodes[n].links == if Directory(fs, n) then 2 else 1
    ensures RightCount(fs, n)
  {
    hide Names, Shape;
    CountDots(fs, Names(fs, n));
  }

  lemma ParentCountLinked(fs: Fs, fs': Fs, ch: Change, p: nat, name: Name)
    requires Consistent(fs) && LinkCounts(fs) && Linked(fs, fs', ch, p, name)
    requires fs'.inodes[p].links == fs.inodes[p].links + if Directory(fs', ch.ino) then 1 else 0
    ensures Owner(fs', p) && RightCount(fs', p)
  {
    hide Holding, Apart, Counted, Step, Subdirectories, Names, Inserted, Links, GoodDirectory, FindName, NameByte, Shape, Tree;
    assert RightCount(fs, p);
    DeadUnnamed(fs, p, ch.ino);
    NotNamedHere(fs, p, ch.ino);
    CountKept(fs, fs', ch, Names(fs, p));
    CountInserted(fs', Names(fs, p), Names(fs', p), Entry(name, ch.ino, KindFor(fs', ch.ino)));
  }

  lemma CountsAfterUnlink(fs: Fs, fs': Fs, ch: Change, p: nat, name: Name)
    requires Consistent(fs) && LinkCounts(fs) && Unlinked(fs, fs', ch, p, name)
    requires fs'.inodes[p].links == fs.inodes[p].links - if Directory(fs, ch.ino) then 1 else 0
    ensures LinkCounts(fs')
  {
    hide Holding, Apart, Counted, Tree, Step, Subdirectories, Names, RemovedFirst, Links, GoodDirectory, RightCount, SafeComponent, OnlyDots, Shape;
    forall n: nat | Owner(fs', n) ensures RightCount(fs', n) {
      assert n != ch.ino;
      if n == p {
        ParentCountUnlinked(fs, fs', ch, p, name);
      } else {
        NamedOnce(fs, p, name, ch.ino, n);
        OtherCount(fs, fs', ch, n);
      }
    }
  }

  lemma NamedOnce(fs: Fs, p: nat, name: Name, c: nat, n: nat)
    requires Shape(fs) && Tree(fs) && Links(fs, p, name, c)
    ensures forall a: Name :: Links(fs, n, a, c) ==> n == p && a == name
  {
    hide Links, GoodDirectory;
  }

  lemma ParentCountUnlinked(fs: Fs, fs': Fs, ch: Change, p: nat, name: Name)
    requires Consistent(fs) && LinkCounts(fs) && Unlinked(fs, fs', ch, p, name)
    requires fs'.inodes[p].links == fs.inodes[p].links - if Directory(fs, ch.ino) then 1 else 0
    ensures Owner(fs', p) && RightCount(fs', p)
  {
    hide Holding, Apart, Counted, Step, Subdirectories, Names, RemovedFirst, GoodDirectory, NameByte, Shape, Tree, NamesDistinct;
    assert RightCount(fs, p);
    NamesGood(fs, p);
    NamedOnce(fs, p, name, ch.ino, p);
    forall a: Name ensures !Links(fs', p, a, ch.ino) {
      LinksAfterUnlink(fs, fs', ch, p, name, p, a, ch.ino);
    }
    NotNamedHere(fs', p, ch.ino);
    CountKept(fs, fs', ch, Names(fs', p));
    var i :| 0 <= i < |Names(fs, p)| && Names(fs, p)[i].name == name && Names(fs, p)[i].inode == ch.ino;
    CountRemoved(fs, Names(fs, p), Names(fs', p), name, Names(fs, p)[i]);
  }

  lemma CountsAfterReplace(fs: Fs, fs': Fs, ch: Change)
    requires Consistent(fs) && LinkCounts(fs) && Replaced(fs, fs', ch) && fs'.inodes[ch.ino].links == 1
    ensures LinkCounts(fs')
  {
    hide Holding, Apart, Counted, Tree, Subdirectories, Names, Shape;
    forall n: nat | Owner(fs', n) ensures RightCount(fs', n) {
      NamesAfterReplace(fs, fs', ch, n);
      assert RightCount(fs, n);
      forall e: Entry ensures One(fs', e) == One(fs, e) {
        NamesAfterReplace(fs, fs', ch, e.inode);
      }
      CountSame(fs, fs', Names(fs, n));
    }
  }

  /** A change that leaves the right sector count in its own inode leaves it right in all. */
  lemma SectorsKept(fs: Fs, fs': Fs, ch: Change)
    requires Step(fs, fs', ch) && Holding(fs) && Apart(fs) && SectorCounts(fs)
    requires Owner(fs', ch.ino) ==> RightSectors(fs', ch.ino)
    ensures SectorCounts(fs')
  {
    hide Holding, Apart, Owns;
    forall n: nat | Owner(fs', n) ensures RightSectors(fs', n) {
      if n != ch.ino {
        OwnerKept(fs, fs', ch, n);
        OwnsKept(fs, fs', ch, n);
        assert RightSectors(fs, n);
      }
    }
  }

  lemma SectorsUnnoticed(fs: Fs, fs': Fs)
    requires SameInUse(fs, fs') && Holding(fs) && SectorCounts(fs)
    ensures SectorCounts(fs')
  {
    hide Holding, Owns;
    forall n: nat | Owner(fs', n) ensures RightSectors(fs', n) {
      assert Owner(fs, n) && RightSectors(fs, n);
      OwnedAgree(fs, fs', n);
    }
  }

  /** Where no name leads to the inode that changes, the types stay right. */
  lemma KindsStay(fs: Fs, fs': Fs, ch: Change, es: seq<Entry>)
    requires Step(fs, fs', ch) && RightKinds(fs, es)
    requires forall i :: 0 <= i < |es| && !IsDot(es[i].name) ==> es[i].inode as nat != ch.ino
    ensures RightKinds(fs', es)
  {
    hide IsDot, Directory, Shape;
    forall i | 0 <= i < |es| && !IsDot(es[i].name) ensures es[i].kind == KindFor(fs', es[i].inode) {
      DirectoryKept(fs, fs', ch, es[i].inode);
    }
  }

  lemma KindsAfterLink(fs: Fs, fs': Fs, ch: Change, p: nat, name: Name)
    requires Consistent(fs) && EntryKinds(fs) && Linked(fs, fs', ch, p, name)
    ensures EntryKinds(fs')
  {
    hide Holding, Apart, Counted, Tree, Step, Names, Inserted, Links, GoodDirectory, RightKinds, FindName, SafeComponent, OnlyDots, Shape;
    forall n: nat | Directory(fs', n) ensures RightKinds(fs', Names(fs', n)) {
      if n == ch.ino {
        DotsHaveNoKind(fs', Names(fs', n));
      } else {
        DirectoryKept(fs, fs', ch, n);
        DeadUnnamed(fs, n, ch.ino);
        NotNamedHere(fs, n, ch.ino);
        KindsStay(fs, fs', ch, Names(fs, n));
        if n == p {
          KindInserted(fs', Names(fs, p), Names(fs', p), Entry(name, ch.ino, KindFor(fs', ch.ino)));
        } else {
          NamesKept(fs, fs', ch, n);
        }
      }
    }
  }

  lemma DotsHaveNoKind(fs: Fs, es: seq<Entry>)
    requires OnlyDots(es)
    ensures RightKinds(fs, es)
  {
  }

  lemma KindInserted(fs: Fs, before: seq<Entry>, after: seq<Entry>, e: Entry)
    requires Inserted(before, after, e) && RightKinds(fs, before) && e.kind == KindFor(fs, e.inode)
    ensures RightKinds(fs, after)
  {
    hide Inserted, IsDot, KindFor;
    forall i | 0 <= i < |after| && !IsDot(after[i].name) ensures after[i].kind == KindFor(fs, after[i].inode) {
      InsertedMembers(before, after, e, after[i]);
    }
  }

  lemma KindRemoved(fs: Fs, before: seq<Entry>, after: seq<Entry>, name: Name)
    requires RemovedFirst(before, after, name) && NamesDistinct(before) && RightKinds(fs, before)
    ensures RightKinds(fs, after)
  {
    hide RemovedFirst, IsDot, KindFor, NamesDistinct;
    forall i | 0 <= i < |after| && !IsDot(after[i].name) ensures after[i].kind == KindFor(fs, after[i].inode) {
      RemovedMembers(before, after, name, after[i]);
    }
  }

  lemma NoLongerNamed(fs: Fs, fs': Fs, ch: Change, p: nat, name: Name, n: nat)
    requires Consistent(fs) && Unlinked(fs, fs', ch, p, name)
    ensures forall a: Name :: !Links(fs', n, a, ch.ino)
  {
    hide Holding, Apart, Counted, Tree, Step, Names, RemovedFirst, Links, SafeComponent, OnlyDots, Shape;
    NamedOnce(fs, p, name, ch.ino, n);
    forall a: Name ensures !Links(fs', n, a, ch.ino) {
      LinksAfterUnlink(fs, fs', ch, p, name, n, a, ch.ino);
    }
  }

  lemma KindsAfterReplace(fs: Fs, fs': Fs, ch: Change)
    requires Consistent(fs) && EntryKinds(fs) && Replaced(fs, fs', ch)
    ensures EntryKinds(fs')
  {
    hide Holding, Apart, Counted, Tree, Names, Shape, IsDot;
    forall n: nat | Directory(fs', n) ensures RightKinds(fs', Names(fs', n)) {
      NamesAfterReplace(fs, fs', ch, n);
      assert RightKinds(fs, Names(fs, n));
      forall c: nat ensures KindFor(fs', c) == KindFor(fs, c) {
        NamesAfterReplace(fs, fs', ch, c);
      }
    }
  }

  lemma KindsAfterUnlink(fs: Fs, fs': Fs, ch: Change, p: nat, name: Name)
    requires Consistent(fs) && EntryKinds(fs) && Unlinked(fs, fs', ch, p, name)
    ensures EntryKinds(fs')
  {
    hide Holding, Apart, Counted, Tree, Step, Names, RemovedFirst, Links, GoodDirectory, RightKinds, SafeComponent, OnlyDots, Shape, NamesDistinct;
    forall n: nat | Directory(fs', n) ensures RightKinds(fs', Names(fs', n)) {
      assert n != ch.ino;
      DirectoryKept(fs, fs', ch, n);
      if n == p {
        NamesGood(fs, p);
        KindRemoved(fs, Names(fs, p), Names(fs', p), name);
      } else {
        NamesKept(fs, fs', ch, n);
      }
      NoLongerNamed(fs, fs', ch, p, name, n);
      NotNamedHere(fs', n, ch.ino);
      KindsStay(fs, fs', ch, Names(fs', n));
    }
  }

  lemma KindsUnnoticed(fs: Fs, fs': Fs)
    requires Consistent(fs) && SameInUse(fs, fs') && EntryKinds(fs)
    ensures EntryKinds(fs')
  {
    hide Holding, Apart, Counted, Tree, Names, Shape, IsDot;
    forall n: nat | Directory(fs', n) ensures RightKinds(fs', Names(fs', n)) {
      SameNames(fs, fs', n);
      assert RightKinds(fs, Names(fs, n));
      forall c: nat ensures KindFor(fs', c) == KindFor(fs, c) {
        SameNames(fs, fs', c);
      }
    }
  }

  lemma CountsUnnoticed(fs: Fs, fs': Fs)
    requires Consistent(fs) && SameInUse(fs, fs')
    ensures KeepsCounts(fs, fs')
  {
    hide Holding, Apart, Counted, Tree, Subdirectories, Names, Shape, SectorCounts, EntryKinds;
    if SectorCounts(fs) {
      SectorsUnnoticed(fs, fs');
    }
    if EntryKinds(fs) {
      KindsUnnoticed(fs, fs');
    }
    if LinkCounts(fs) {
      forall n: nat | Owner(fs', n) ensures RightCount(fs', n) {
        assert RightCount(fs, n);
        SameNames(fs, fs', n);
        CountSame(fs, fs', Names(fs, n));
      }
    }
  }
}
