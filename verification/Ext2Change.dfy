/** Linking a new name, unlinking one, and replacing a file: what each keeps of the tree. */
module Ext2Change {
  import opened Bytes
  import opened Options
  import opened Ext2Disk
  import opened Ext2Owned
  import opened Ext2Records
  import opened Ext2RecordProofs
  import opened Ext2Entries
  import opened Ext2Inodes
  import opened Ext2Path
  import opened Ext2View
  import opened Ext2State
  import opened Ext2Tree

  /** Directories away from the change define the same names. */
  lemma NamesKept(fs: Fs, fs': Fs, ch: Change, m: nat)
    requires Step(fs, fs', ch) && Holding(fs) && Apart(fs)
    requires m != ch.ino && ch.parent != Some(m)
    ensures Names(fs', m) == Names(fs, m)
    ensures Directory(fs', m) <==> Directory(fs, m)
    ensures Directory(fs, m) ==> (GoodDirectory(fs', m) <==> GoodDirectory(fs, m))
  {
    hide Entries, Listed, Proper, PointersOnDisk;
    OwnerKept(fs, fs', ch, m);
    if Directory(fs, m) {
      OthersAgree(fs, fs', ch, m);
      EntriesAgree(fs.md, fs.data, fs'.data, fs.inodes[m]);
    }
  }

  /** A directory with nothing but the two dot entries. */
  predicate OnlyDots(es: seq<Entry>) {
    forall i :: 0 <= i < |es| ==> IsDot(es[i].name)
  }

  lemma OnlyDotsFind(es: seq<Entry>, name: Name)
    requires OnlyDots(es) && SafeComponent(name)
    ensures FindName(es, name) == None
  {
    FindNameFinds(es, name);
  }

  // ---------- Linking ----------

  ghost predicate Linked(fs: Fs, fs': Fs, ch: Change, p: nat, name: Name) {
    && Step(fs, fs', ch) && ch.parent == Some(p)
    && Shape(fs) && Shape(fs') && fs'.md == fs.md && p != ch.ino && 1 <= ch.ino <= fs.md.inodesCount < U32_LIMIT
    && Directory(fs, p) && Directory(fs', p)
    && ch.ino !in fs.live && Owner(fs', ch.ino)
    && SafeComponent(name) && FindName(Names(fs, p), name) == None
    && Entries(fs'.md, fs'.data, fs'.inodes[p]).Ok?
    && Inserted(Names(fs, p), Names(fs', p), Entry(name, ch.ino, KindFor(fs', ch.ino)))
    && OnlyDots(Names(fs', ch.ino))
    && (Directory(fs', ch.ino) ==> GoodDirectory(fs', ch.ino))
  }

  lemma InsertedMembers(before: seq<Entry>, after: seq<Entry>, e: Entry, x: Entry)
    requires Inserted(before, after, e)
    ensures x in after <==> x in before || x == e
  {
    var k :| 0 <= k <= |before| && after == before[..k] + [e] + before[k..];
    assert before == before[..k] + before[k..];
  }

  lemma NamedMember(es: seq<Entry>, a: Name, c: u32)
    ensures Named(es, a, c) <==> exists k: byte :: Entry(a, c, k) in es
  {
    if Named(es, a, c) {
      var i :| 0 <= i < |es| && es[i].name == a && es[i].inode == c;
      assert Entry(a, c, es[i].kind) in es;
    }
  }

  lemma InsertedNamed(before: seq<Entry>, after: seq<Entry>, e: Entry, a: Name, c: u32)
    requires Inserted(before, after, e)
    ensures Named(after, a, c) <==> Named(before, a, c) || (a == e.name && c == e.inode)
  {
    hide Inserted, Named;
    NamedMember(before, a, c);
    NamedMember(after, a, c);
    forall k: byte ensures Entry(a, c, k) in after <==> Entry(a, c, k) in before || Entry(a, c, k) == e {
      InsertedMembers(before, after, e, Entry(a, c, k));
    }
    assert a == e.name && c == e.inode ==> Entry(a, c, e.kind) == e;
  }

  lemma RemovedNamed(before: seq<Entry>, after: seq<Entry>, name: Name, a: Name, c: u32)
    requires RemovedFirst(before, after, name) && NamesDistinct(before)
    ensures Named(after, a, c) <==> Named(before, a, c) && a != name
  {
    hide RemovedFirst, Named, NamesDistinct;
    NamedMember(before, a, c);
    NamedMember(after, a, c);
    forall k: byte ensures Entry(a, c, k) in after <==> Entry(a, c, k) in before && a != name {
      RemovedMembers(before, after, name, Entry(a, c, k));
    }
  }

  lemma InsertedDistinct(before: seq<Entry>, after: seq<Entry>, e: Entry)
    requires Inserted(before, after, e) && NamesDistinct(before) && FindName(before, e.name) == None
    ensures NamesDistinct(after)
  {
    var k :| 0 <= k <= |before| && after == before[..k] + [e] + before[k..];
    NotNamed(before, e.name);
    hide FindName;
    assert forall i :: 0 <= i < |after| ==> after[i] == if i < k then before[i] else if i == k then e else before[i - 1];
  }

  lemma {:induction false} NotNamed(es: seq<Entry>, name: Name)
    requires FindName(es, name) == None
    ensures forall i :: 0 <= i < |es| ==> es[i].name != name
  {
    if es != [] {
      NotNamed(es[1..], name);
      assert forall i :: 1 <= i < |es| ==> es[i] == es[1..][i - 1];
    }
  }

  lemma InsertedKnown(md: Metadata, before: seq<Entry>, after: seq<Entry>, e: Entry)
    requires Inserted(before, after, e) && InodesKnown(md, before) && e.inode <= md.inodesCount
    ensures InodesKnown(md, after)
  {
    forall i | 0 <= i < |after| ensures after[i].inode <= md.inodesCount {
      InsertedMembers(before, after, e, after[i]);
    }
  }

  /** After linking, the names are the old ones and the new one. */
  lemma LinksAfterLink(fs: Fs, fs': Fs, ch: Change, p: nat, name: Name, n: nat, a: Name, c: nat)
    requires Linked(fs, fs', ch, p, name) && Holding(fs) && Apart(fs)
    ensures Links(fs', n, a, c) <==> Links(fs, n, a, c) || (n == p && a == name && c == ch.ino)
  {
    hide Step, Shape, Names, Holding, Apart, Inserted, GoodDirectory, Owner, FindName, NameByte;
    assert !IsDot(name);
    hide SafeComponent, IsDot;
    if n == ch.ino {
      DeadNames(fs, ch.ino);
      NoLinks(fs', n, a, c);
    } else if n == p {
      if c < U32_LIMIT {
        InsertedNamed(Names(fs, p), Names(fs', p), Entry(name, ch.ino, KindFor(fs', ch.ino)), a, c);
      }
    } else {
      NamesKept(fs, fs', ch, n);
    }
  }

  lemma NoLinks(fs: Fs, n: nat, a: Name, c: nat)
    requires Shape(fs) && OnlyDots(Names(fs, n))
    ensures !Links(fs, n, a, c)
  {
    hide Names;
  }

  lemma DeadNames(fs: Fs, n: nat)
    requires Shape(fs) && n !in fs.live
    ensures Names(fs, n) == []
  {
  }

  lemma ParentGood(fs: Fs, fs': Fs, ch: Change, p: nat, name: Name)
    requires Linked(fs, fs', ch, p, name) && Tree(fs)
    ensures GoodDirectory(fs', p)
  {
    hide Entries, Inserted, FindName, Listed, Proper, PointersOnDisk, DirectoryTouched;
    assert GoodDirectory(fs, p);
    var e := Entry(name, ch.ino, KindFor(fs', ch.ino));
    InsertedDistinct(Names(fs, p), Names(fs', p), e);
    InsertedKnown(fs.md, Names(fs, p), Names(fs', p), e);
  }

  lemma TreeAfterLink(fs: Fs, fs': Fs, ch: Change, p: nat, name: Name)
    requires Linked(fs, fs', ch, p, name) && Holding(fs) && Apart(fs) && Tree(fs)
    ensures Tree(fs')
  {
    hide Links, GoodDirectory, Step, Shape, Holding, Apart, Inserted, Names, SafeComponent, FindName, OnlyDots;
    RootKept(fs, fs', ch);
    forall n: nat | Directory(fs', n) ensures GoodDirectory(fs', n) {
      if n == p {
        ParentGood(fs, fs', ch, p, name);
      } else if n != ch.ino {
        NamesKept(fs, fs', ch, n);
      }
    }
    forall n: nat, a: Name, c: nat | Links(fs', n, a, c) ensures Owner(fs', c) && c != ROOT_INODE {
      LinksAfterLink(fs, fs', ch, p, name, n, a, c);
      if c != ch.ino {
        OwnerKept(fs, fs', ch, c);
      }
    }
    forall n: nat, a: Name, m: nat, b: Name, c: nat | Links(fs', n, a, c) && Links(fs', m, b, c) ensures n == m && a == b {
      LinksAfterLink(fs, fs', ch, p, name, n, a, c);
      LinksAfterLink(fs, fs', ch, p, name, m, b, c);
    }
  }

  lemma RootKept(fs: Fs, fs': Fs, ch: Change)
    requires Step(fs, fs', ch) && Directory(fs, ROOT_INODE) && ch.ino != ROOT_INODE
    ensures Directory(fs', ROOT_INODE)
  {
    OwnerKept(fs, fs', ch, ROOT_INODE);
  }

  /** The one path that linking can change is the new name's own. */
  lemma {:induction false} PathAfterLink(fs: Fs, fs': Fs, ch: Change, p: nat, name: Name, n: nat, q: seq<Name>)
    requires Linked(fs, fs', ch, p, name) && Holding(fs) && Apart(fs) && Tree(fs) && Owner(fs, n)
    ensures Path(fs', n, q) == Path(fs, n, q) ||
            (q != [] && q[|q| - 1] == name && Path(fs, n, q[..|q| - 1]) == Some(p) && Path(fs', n, q) == Some(ch.ino))
    decreases |q|
  {
    hide Step, Shape, Names, FindName, Holding, Apart, Inserted, SafeComponent, Links, GoodDirectory;
    if q != [] && SafeComponent(q[0]) {
      NameAfterLink(fs, fs', ch, p, name, n, q[0]);
      var c := FindName(Names(fs, n), q[0]);
      if n == p && q[0] == name {
        if |q| > 1 {
          DeadEnd(fs', ch.ino, q[1..]);
        } else {
          assert q[..0] == [];
        }
      } else if c.Some? {
        StepIsLink(fs, n, q[0], c.value);
        PathAfterLink(fs, fs', ch, p, name, c.value, q[1..]);
        if |q| > 1 {
          assert q[..|q| - 1][1..] == q[1..][..|q| - 2];
        }
      }
    }
  }

  lemma NameAfterLink(fs: Fs, fs': Fs, ch: Change, p: nat, name: Name, n: nat, a: Name)
    requires Linked(fs, fs', ch, p, name) && Holding(fs) && Apart(fs) && Tree(fs) && Owner(fs, n) && SafeComponent(a)
    ensures FindName(Names(fs', n), a) == if n == p && a == name then Some(ch.ino) else FindName(Names(fs, n), a)
    ensures n == p && a == name ==> FindName(Names(fs, n), a) == None
  {
    hide Step, Shape, Names, Holding, Apart, SafeComponent, Links, Inserted, FindName, NamesDistinct, Tree, GoodDirectory, Entries;
    if n == p {
      var e := Entry(name, ch.ino, KindFor(fs', ch.ino));
      NamesGood(fs, p);
      InsertedDistinct(Names(fs, p), Names(fs', p), e);
      SameFind(Names(fs, p), Names(fs', p), e, a);
    } else {
      NotIno(fs, fs', ch, p, name, n);
      NamesKept(fs, fs', ch, n);
    }
  }

  lemma NotIno(fs: Fs, fs': Fs, ch: Change, p: nat, name: Name, n: nat)
    requires Linked(fs, fs', ch, p, name) && Owner(fs, n)
    ensures n != ch.ino
  {
  }

  lemma SameFind(before: seq<Entry>, after: seq<Entry>, e: Entry, a: Name)
    requires Inserted(before, after, e) && NamesDistinct(before) && NamesDistinct(after)
    ensures FindName(after, a) == if a == e.name then Some(e.inode) else FindName(before, a)
  {
    hide Inserted, NamesDistinct, FindName;
    InsertedNamed(before, after, e, e.name, e.inode);
    FindNameIff(after, e.name, e.inode);
    FindNameFinds(before, a);
    FindNameFinds(after, a);
    if a != e.name {
      if FindName(before, a).Some? {
        var c := FindName(before, a).value;
        InsertedNamed(before, after, e, a, c);
        FindNameIff(after, a, c);
      } else if FindName(after, a).Some? {
        InsertedNamed(before, after, e, a, FindName(after, a).value);
      }
    }
  }

  /** Nothing lies below a file or an empty directory. */
  lemma DeadEnd(fs: Fs, n: nat, q: seq<Name>)
    requires Shape(fs) && OnlyDots(Names(fs, n)) && q != []
    ensures Path(fs, n, q) == None
  {
    hide Names, SafeComponent, FindName;
    if SafeComponent(q[0]) {
      OnlyDotsFind(Names(fs, n), q[0]);
    }
  }

  // ---------- Unlinking ----------

  ghost predicate Unlinked(fs: Fs, fs': Fs, ch: Change, p: nat, name: Name) {
    && Step(fs, fs', ch) && ch.parent == Some(p)
    && Shape(fs) && Shape(fs') && fs'.md == fs.md && p != ch.ino && 1 <= ch.ino <= fs.md.inodesCount < U32_LIMIT
    && Directory(fs, p) && Directory(fs', p)
    && Owner(fs, ch.ino) && ch.ino !in fs'.live
    && SafeComponent(name) && Links(fs, p, name, ch.ino)
    && Entries(fs'.md, fs'.data, fs'.inodes[p]).Ok?
    && RemovedFirst(Names(fs, p), Names(fs', p), name)
    && OnlyDots(Names(fs, ch.ino))
  }

  lemma RemovedMembers(before: seq<Entry>, after: seq<Entry>, name: Name, x: Entry)
    requires RemovedFirst(before, after, name) && NamesDistinct(before)
    ensures x in after <==> x in before && x.name != name
  {
    var k: nat :| IsFirst(before, k, name) && after == before[..k] + before[k + 1..];
    assert before == before[..k] + [before[k]] + before[k + 1..];
    if x in before[..k] {
      var i :| 0 <= i < k && before[i] == x;
    }
    if x in before[k + 1..] {
      var i :| 0 <= i < |before[k + 1..]| && before[k + 1..][i] == x;
      assert before[k + 1 + i] == x;
    }
  }

  lemma RemovedDistinct(before: seq<Entry>, after: seq<Entry>, name: Name)
    requires RemovedFirst(before, after, name) && NamesDistinct(before)
    ensures NamesDistinct(after)
    ensures forall md: Metadata :: InodesKnown(md, before) ==> InodesKnown(md, after)
  {
    var k: nat :| IsFirst(before, k, name) && after == before[..k] + before[k + 1..];
    assert forall i :: 0 <= i < |after| ==> after[i] == if i < k then before[i] else before[i + 1];
  }

  /** After unlinking, the names are the old ones but for the removed one. */
  lemma LinksAfterUnlink(fs: Fs, fs': Fs, ch: Change, p: nat, name: Name, n: nat, a: Name, c: nat)
    requires Unlinked(fs, fs', ch, p, name) && Holding(fs) && Apart(fs) && Tree(fs)
    ensures Links(fs', n, a, c) <==> Links(fs, n, a, c) && !(n == p && a == name)
  {
    hide Step, Shape, Names, Holding, Apart, RemovedFirst, GoodDirectory, Owner, NameByte, SafeComponent, IsDot, Tree, NamesDistinct;
    if n == ch.ino {
      DeadNames(fs', ch.ino);
      NoLinks(fs, n, a, c);
    } else if n == p {
      NamesGood(fs, p);
      if c < U32_LIMIT {
        RemovedNamed(Names(fs, p), Names(fs', p), name, a, c);
      }
    } else {
      NamesKept(fs, fs', ch, n);
    }
  }

  lemma ParentGoodUnlinked(fs: Fs, fs': Fs, ch: Change, p: nat, name: Name)
    requires Unlinked(fs, fs', ch, p, name) && Tree(fs)
    ensures GoodDirectory(fs', p)
  {
    hide Entries, RemovedFirst, FindName, Listed, Proper, PointersOnDisk, DirectoryTouched;
    assert GoodDirectory(fs, p);
    RemovedDistinct(Names(fs, p), Names(fs', p), name);
  }

  lemma TreeAfterUnlink(fs: Fs, fs': Fs, ch: Change, p: nat, name: Name)
    requires Unlinked(fs, fs', ch, p, name) && Holding(fs) && Apart(fs) && Tree(fs)
    ensures Tree(fs')
  {
    hide Links, GoodDirectory, Step, Shape, Holding, Apart, RemovedFirst, Names, SafeComponent, FindName, OnlyDots;
    RootKept(fs, fs', ch);
    forall n: nat | Directory(fs', n) ensures GoodDirectory(fs', n) {
      if n == p {
        ParentGoodUnlinked(fs, fs', ch, p, name);
      } else {
        NamesKept(fs, fs', ch, n);
      }
    }
    forall n: nat, a: Name, c: nat | Links(fs', n, a, c) ensures Owner(fs', c) && c != ROOT_INODE {
      LinksAfterUnlink(fs, fs', ch, p, name, n, a, c);
      OwnerKept(fs, fs', ch, c);
    }
    forall n: nat, a: Name, m: nat, b: Name, c: nat | Links(fs', n, a, c) && Links(fs', m, b, c) ensures n == m && a == b {
      LinksAfterUnlink(fs, fs', ch, p, name, n, a, c);
      LinksAfterUnlink(fs, fs', ch, p, name, m, b, c);
    }
  }

  lemma NameAfterUnlink(fs: Fs, fs': Fs, ch: Change, p: nat, name: Name, n: nat, a: Name)
    requires Unlinked(fs, fs', ch, p, name) && Holding(fs) && Apart(fs) && Tree(fs)
    requires Owner(fs, n) && n != ch.ino && SafeComponent(a)
    ensures FindName(Names(fs', n), a) == if n == p && a == name then None else FindName(Names(fs, n), a)
    ensures n == p && a == name ==> FindName(Names(fs, n), a) == Some(ch.ino)
  {
    hide Step, Shape, Names, Holding, Apart, RemovedFirst, FindName, SafeComponent, NamesDistinct, Tree, GoodDirectory, Entries;
    if n == p {
      NamesGood(fs, p);
      SameFindRemoved(Names(fs, p), Names(fs', p), name, a);
      StepIsLink(fs, p, name, ch.ino);
    } else {
      NamesKept(fs, fs', ch, n);
    }
  }

  lemma SameFindRemoved(before: seq<Entry>, after: seq<Entry>, name: Name, a: Name)
    requires RemovedFirst(before, after, name) && NamesDistinct(before)
    ensures FindName(after, a) == if a == name then None else FindName(before, a)
  {
    RemovedDistinct(before, after, name);
    hide RemovedFirst, NamesDistinct, FindName;
    FindNameFinds(before, a);
    FindNameFinds(after, a);
    if FindName(after, a).Some? {
      var c := FindName(after, a).value;
      RemovedNamed(before, after, name, a, c);
      FindNameIff(before, a, c);
    } else if FindName(before, a).Some? {
      RemovedNamed(before, after, name, a, FindName(before, a).value);
    }
  }

  /** The one path that unlinking can change is the removed name's own, which then leads nowhere. */
  lemma {:induction false} PathAfterUnlink(fs: Fs, fs': Fs, ch: Change, p: nat, name: Name, n: nat, q: seq<Name>)
    requires Unlinked(fs, fs', ch, p, name) && Holding(fs) && Apart(fs) && Tree(fs) && Owner(fs, n) && n != ch.ino
    ensures Path(fs', n, q) == Path(fs, n, q) ||
            (q != [] && q[|q| - 1] == name && Path(fs, n, q[..|q| - 1]) == Some(p) && Path(fs', n, q) == None)
    decreases |q|
  {
    hide Step, Shape, Names, FindName, Holding, Apart, RemovedFirst, SafeComponent, Links, GoodDirectory;
    if q != [] && SafeComponent(q[0]) {
      NameAfterUnlink(fs, fs', ch, p, name, n, q[0]);
      var c := FindName(Names(fs, n), q[0]);
      if n == p && q[0] == name {
        if |q| > 1 {
          DeadEnd(fs, ch.ino, q[1..]);
        } else {
          assert q[..0] == [];
        }
      } else if c.Some? {
        StepIsLink(fs, n, q[0], c.value);
        PathAfterUnlink(fs, fs', ch, p, name, c.value, q[1..]);
        if |q| > 1 {
          assert q[..|q| - 1][1..] == q[1..][..|q| - 2];
        }
      }
    }
  }

  // ---------- Replacing ----------

  ghost predicate Replaced(fs: Fs, fs': Fs, ch: Change) {
    && Step(fs, fs', ch) && ch.parent == None
    && Shape(fs) && Shape(fs') && fs'.md == fs.md
    && Owner(fs, ch.ino) && fs.inodes[ch.ino].IsFile()
    && Owner(fs', ch.ino) && fs'.inodes[ch.ino].IsFile()
  }

  /** A file that changes its contents changes no directory at all. */
  lemma NamesAfterReplace(fs: Fs, fs': Fs, ch: Change, n: nat)
    requires Replaced(fs, fs', ch) && Holding(fs) && Apart(fs)
    ensures Names(fs', n) == Names(fs, n) && (Owner(fs', n) <==> Owner(fs, n))
    ensures Directory(fs', n) <==> Directory(fs, n)
    ensures Directory(fs, n) ==> (GoodDirectory(fs', n) <==> GoodDirectory(fs, n))
  {
    hide Step, Holding, Apart, Entries;
    if n != ch.ino {
      NamesKept(fs, fs', ch, n);
      OwnerKept(fs, fs', ch, n);
    }
  }

  lemma TreeAfterReplace(fs: Fs, fs': Fs, ch: Change)
    requires Replaced(fs, fs', ch) && Holding(fs) && Apart(fs) && Tree(fs)
    ensures Tree(fs')
  {
    hide Step, Shape, Holding, Apart, Names, GoodDirectory, Owner;
    NamesAfterReplace(fs, fs', ch, ROOT_INODE);
    forall n: nat | Directory(fs', n) ensures GoodDirectory(fs', n) {
      NamesAfterReplace(fs, fs', ch, n);
    }
    forall n: nat, a: Name, c: nat | Links(fs', n, a, c) ensures Links(fs, n, a, c) {
      NamesAfterReplace(fs, fs', ch, n);
    }
    forall n: nat, a: Name, c: nat | Links(fs', n, a, c) ensures Owner(fs', c) && c != ROOT_INODE {
      NamesAfterReplace(fs, fs', ch, c);
    }
  }

  lemma {:induction false} PathAfterReplace(fs: Fs, fs': Fs, ch: Change, n: nat, q: seq<Name>)
    requires Replaced(fs, fs', ch) && Holding(fs) && Apart(fs)
    ensures Path(fs', n, q) == Path(fs, n, q)
    decreases |q|
  {
    hide Step, Holding, Apart, Names, FindName, SafeComponent, GoodDirectory;
    if q != [] {
      NamesAfterReplace(fs, fs', ch, n);
      var c := FindName(Names(fs, n), q[0]);
      if c.Some? {
        PathAfterReplace(fs, fs', ch, c.value, q[1..]);
      }
    }
  }
}
