/** The directory tree: every file has one name, and a change of one name leaves every other path alone. */
module Ext2Tree {
  import opened Bytes
  import opened Options
  import opened Ext2Records
  import opened Ext2Entries
  import opened Ext2Path
  import opened Ext2View
  import opened Ext2State

  ghost predicate Directory(fs: Fs, n: nat) {
    Owner(fs, n) && fs.inodes[n].IsDirectory()
  }

  predicate NamesDistinct(es: seq<Entry>) {
    forall i, j :: 0 <= i < j < |es| ==> es[i].name != es[j].name
  }

  /** The names directory `n` defines; none if it cannot be parsed. */
  ghost function Names(fs: Fs, n: nat): seq<Entry>
    requires Shape(fs)
  {
    if Directory(fs, n) then
      var es := Entries(fs.md, fs.data, fs.inodes[n]);
      if es.Ok? then es.value else []
    else []
  }

  /** The type byte for a name of inode `c`: 2 for a directory, 1 for a file. */
  ghost function KindFor(fs: Fs, c: nat): byte {
    KeptKind(fs.md, if Directory(fs, c) then 2 else 1)
  }

  ghost predicate GoodDirectory(fs: Fs, n: nat)
    requires Shape(fs) && Directory(fs, n)
  {
    && Entries(fs.md, fs.data, fs.inodes[n]).Ok?
    && InodesKnown(fs.md, Names(fs, n))
    && NamesDistinct(Names(fs, n))
    && fs.inodes[n].size % fs.md.blockSize == 0
  }

  /** Some entry gives this name to this inode. */
  predicate Named(es: seq<Entry>, name: Name, c: u32) {
    exists i :: 0 <= i < |es| && es[i].name == name && es[i].inode == c
  }

  /** Directory `n` calls inode `c` by `name`. The dot entries are not names. */
  ghost predicate Links(fs: Fs, n: nat, name: Name, c: nat)
    requires Shape(fs)
  {
    c < U32_LIMIT && Named(Names(fs, n), name, c) && !IsDot(name)
  }

  /** Every name leads to a file or directory, the root has no name, and nothing has two. */
  ghost predicate Tree(fs: Fs)
    requires Shape(fs)
  {
    && Directory(fs, ROOT_INODE)
    && (forall n: nat :: Directory(fs, n) ==> GoodDirectory(fs, n))
    && (forall n: nat, name: Name, c: nat :: Links(fs, n, name, c) ==> Owner(fs, c) && c != ROOT_INODE)
    && (forall n: nat, a: Name, m: nat, b: Name, c: nat :: Links(fs, n, a, c) && Links(fs, m, b, c) ==> n == m && a == b)
  }

  /** The whole invariant of the filesystem. */
  ghost predicate Consistent(fs: Fs) {
    Shape(fs) && Holding(fs) && Apart(fs) && Counted(fs) && Tree(fs)
  }

  // ---------- Paths ----------

  /** The inode that `names` lead to from inode `n`. */
  ghost function Path(fs: Fs, n: nat, names: seq<Name>): Option<nat>
    requires Shape(fs)
    decreases |names|
  {
    if names == [] then Some(n)
    else if !SafeComponent(names[0]) then None
    else
      var c := FindName(Names(fs, n), names[0]);
      if c.None? then None else Path(fs, c.value, names[1..])
  }

  lemma {:induction false} FindNameFinds(es: seq<Entry>, name: Name)
    ensures FindName(es, name).Some? ==> Named(es, name, FindName(es, name).value)
    ensures FindName(es, name).None? ==> forall c: u32 :: !Named(es, name, c)
  {
    if es != [] {
      FindNameFinds(es[1..], name);
      forall c: u32 ensures Named(es, name, c) <==> (es[0].name == name && es[0].inode == c) || Named(es[1..], name, c) {
        NamedSplit(es, name, c);
      }
    }
  }

  lemma NamedSplit(es: seq<Entry>, name: Name, c: u32)
    requires es != []
    ensures Named(es, name, c) <==> (es[0].name == name && es[0].inode == c) || Named(es[1..], name, c)
  {
    assert forall i :: 0 <= i < |es| - 1 ==> es[1..][i] == es[i + 1];
    if Named(es, name, c) {
      var i :| 0 <= i < |es| && es[i].name == name && es[i].inode == c;
      assert i > 0 ==> es[1..][i - 1].name == name;
    }
  }

  lemma FindNameIff(es: seq<Entry>, name: Name, c: u32)
    requires NamesDistinct(es)
    ensures FindName(es, name) == Some(c) <==> Named(es, name, c)
  {
    FindNameFinds(es, name);
    if Named(es, name, c) && FindName(es, name).Some? {
      var i :| 0 <= i < |es| && es[i].name == name && es[i].inode == c;
      var j :| 0 <= j < |es| && es[j].name == name && es[j].inode == FindName(es, name).value;
      assert i == j;
    }
  }

  lemma NamesGood(fs: Fs, n: nat)
    requires Shape(fs) && Tree(fs)
    ensures NamesDistinct(Names(fs, n))
  {
    hide Entries;
    if Directory(fs, n) {
      assert GoodDirectory(fs, n);
    }
  }

  /** One step of a path is one link. */
  lemma StepIsLink(fs: Fs, n: nat, name: Name, c: nat)
    requires Shape(fs) && Tree(fs) && SafeComponent(name)
    ensures c < U32_LIMIT ==> (FindName(Names(fs, n), name) == Some(c) <==> Links(fs, n, name, c))
    ensures Links(fs, n, name, c) ==> c < U32_LIMIT
  {
    hide Names, Tree;
    NamesGood(fs, n);
    if c < U32_LIMIT {
      FindNameIff(Names(fs, n), name, c);
    }
  }

  lemma {:induction false} PathOwner(fs: Fs, n: nat, names: seq<Name>)
    requires Shape(fs) && Tree(fs) && Owner(fs, n)
    ensures Path(fs, n, names).Some? ==> Owner(fs, Path(fs, n, names).value)
    decreases |names|
  {
    hide Names, FindName, SafeComponent, Owner;
    if names != [] && SafeComponent(names[0]) {
      var c := FindName(Names(fs, n), names[0]);
      if c.Some? {
        StepIsLink(fs, n, names[0], c.value);
        PathOwner(fs, c.value, names[1..]);
      }
    }
  }

  lemma {:induction false} PathSnoc(fs: Fs, n: nat, names: seq<Name>, last: Name)
    requires Shape(fs)
    ensures Path(fs, n, names + [last]) ==
            if Path(fs, n, names).Some? then Path(fs, Path(fs, n, names).value, [last]) else None
    decreases |names|
  {
    hide Names, FindName, SafeComponent;
    if names == [] {
      assert names + [last] == [last];
    } else {
      assert (names + [last])[1..] == names[1..] + [last];
      var c := FindName(Names(fs, n), names[0]);
      if c.Some? {
        PathSnoc(fs, c.value, names[1..], last);
      }
    }
  }

  lemma PathOne(fs: Fs, n: nat, last: Name)
    requires Shape(fs)
    ensures Path(fs, n, [last]) ==
            if SafeComponent(last) && FindName(Names(fs, n), last).Some? then Some(FindName(Names(fs, n), last).value as nat) else None
  {
    hide Names, FindName, SafeComponent;
    assert [last][1..] == [];
  }

  /** The last step of a path that leads somewhere. */
  lemma LastLink(fs: Fs, names: seq<Name>, m: nat)
    requires Shape(fs) && Tree(fs) && names != [] && Path(fs, ROOT_INODE, names) == Some(m)
    ensures var front := names[..|names| - 1];
            && Path(fs, ROOT_INODE, front).Some?
            && SafeComponent(names[|names| - 1])
            && Links(fs, Path(fs, ROOT_INODE, front).value, names[|names| - 1], m)
  {
    hide Names, FindName, SafeComponent, Tree, Links;
    var front, last := names[..|names| - 1], names[|names| - 1];
    assert names == front + [last];
    PathSnoc(fs, ROOT_INODE, front, last);
    PathOne(fs, Path(fs, ROOT_INODE, front).value, last);
    StepIsLink(fs, Path(fs, ROOT_INODE, front).value, last, m);
  }

  /** No file or directory can be reached by two paths. */
  lemma {:induction false} PathUnique(fs: Fs, a: seq<Name>, b: seq<Name>, m: nat)
    requires Shape(fs) && Tree(fs)
    requires Path(fs, ROOT_INODE, a) == Some(m) && Path(fs, ROOT_INODE, b) == Some(m)
    ensures a == b
    decreases |a| + |b|
  {
    hide Links, SafeComponent, Names, FindName;
    if a != [] {
      LastLink(fs, a, m);
    }
    if b != [] {
      LastLink(fs, b, m);
    }
    if a != [] && b != [] {
      var fa, fb := a[..|a| - 1], b[..|b| - 1];
      PathUnique(fs, fa, fb, Path(fs, ROOT_INODE, fa).value);
      assert a == fa + [a[|a| - 1]] && b == fb + [b[|b| - 1]];
    }
  }
}
