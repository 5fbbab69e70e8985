/** Paths: splitting them into components and walking them from the root directory. */
module Ext2Path {
  import opened Bytes
  import opened Options
  import opened Ext2Disk
  import opened Ext2Pointers
  import opened Ext2Inodes
  import opened Ext2Directory

  const ROOT_INODE := 2
  const SLASH: byte := 47

  type Name = seq<byte>

  function Slash(s: seq<byte>): (i: nat)
    ensures i <= |s|
    ensures forall j :: 0 <= j < i ==> s[j] != SLASH
    ensures i < |s| ==> s[i] == SLASH
  {
    if s == [] || s[0] == SLASH then 0 else 1 + Slash(s[1..])
  }

  /** The pieces between slashes, empty ones included. */
  function Split(s: seq<byte>): (parts: seq<Name>)
    decreases |s|
  {
    var i := Slash(s);
    if i == |s| then [s] else [s[..i]] + Split(s[i + 1..])
  }

  function NonEmpty(parts: seq<Name>): seq<Name> {
    if parts == [] then []
    else if parts[0] == [] then NonEmpty(parts[1..])
    else [parts[0]] + NonEmpty(parts[1..])
  }

  function Components(path: seq<byte>): seq<Name> {
    NonEmpty(Split(path))
  }

  predicate NameByte(b: byte) {
    48 <= b <= 57 || 65 <= b <= 90 || 97 <= b <= 122 || b == 46 || b == 95 || b == 45
  }

  predicate IsDot(name: Name) {
    name == [46] || name == [46, 46]
  }

  predicate SafeComponent(name: Name) {
    && 0 < |name| <= 255
    && !IsDot(name)
    && forall i :: 0 <= i < |name| ==> NameByte(name[i])
  }

  predicate AllSafe(names: seq<Name>) {
    forall i :: 0 <= i < |names| ==> SafeComponent(names[i])
  }

  lemma {:induction false} SplitJoin(a: seq<byte>, b: seq<byte>)
    ensures Split(a + [SLASH] + b) == Split(a) + Split(b)
    decreases |a|
  {
    var s := a + [SLASH] + b;
    var i := Slash(a);
    if i == |a| {
      FirstSlash(s, i);
      assert s[..i] == a && s[i + 1..] == b;
    } else {
      FirstSlash(s, i);
      assert s[..i] == a[..i];
      assert s[i + 1..] == a[i + 1..] + [SLASH] + b;
      SplitJoin(a[i + 1..], b);
    }
  }

  lemma FirstSlash(s: seq<byte>, i: nat)
    requires i < |s| && s[i] == SLASH && forall j :: 0 <= j < i ==> s[j] != SLASH
    ensures Slash(s) == i
  {
  }

  lemma {:induction false} NonEmptyJoin(a: seq<Name>, b: seq<Name>)
    ensures NonEmpty(a + b) == NonEmpty(a) + NonEmpty(b)
  {
    if a == [] {
      assert a + b == b;
    } else {
      NonEmptyJoin(a[1..], b);
      assert (a + b)[1..] == a[1..] + b && (a + b)[0] == a[0];
    }
  }

  lemma ComponentsJoin(a: seq<byte>, b: seq<byte>)
    ensures Components(a + [SLASH] + b) == Components(a) + Components(b)
  {
    SplitJoin(a, b);
    NonEmptyJoin(Split(a), Split(b));
  }

  /** The names one after the other, each after a slash. */
  function Spelled(names: seq<Name>): seq<byte> {
    if names == [] then [] else Spelled(names[..|names| - 1]) + [SLASH] + names[|names| - 1]
  }

  lemma OneComponent(name: Name)
    requires SLASH !in name
    ensures Components(name) == if name == [] then [] else [name]
  {
    assert Slash(name) == |name|;
    assert Split(name) == [name];
    assert NonEmpty([name][1..]) == [];
  }

  /** A path spelled from names has just these components. */
  lemma {:induction false} SpelledBack(names: seq<Name>)
    requires forall i :: 0 <= i < |names| ==> names[i] != [] && SLASH !in names[i]
    ensures Components(Spelled(names)) == names
  {
    if names == [] {
      OneComponent([]);
    } else {
      var front, last := names[..|names| - 1], names[|names| - 1];
      SpelledBack(front);
      ComponentsJoin(Spelled(front), last);
      OneComponent(last);
    }
  }

  /** Where `resolve_parent` cuts a path: at the last slash. */
  function LastSlash(s: seq<byte>): (i: nat)
    ensures i <= |s|
    ensures i < |s| ==> s[i] == SLASH && forall j :: i < j < |s| ==> s[j] != SLASH
    ensures i == |s| ==> forall j :: 0 <= j < |s| ==> s[j] != SLASH
    decreases |s|
  {
    if s == [] then 0
    else
      var tail := LastSlash(s[1..]);
      if tail < |s| - 1 then tail + 1 else if s[0] == SLASH then 0 else |s|
  }

  function ParentPath(path: seq<byte>): seq<byte> {
    if LastSlash(path) < |path| then path[..LastSlash(path)] else []
  }

  function FinalName(path: seq<byte>): Name {
    if LastSlash(path) < |path| then path[LastSlash(path) + 1..] else path
  }

  /** A path is its parent's components followed by its final name. */
  lemma PathSplits(path: seq<byte>)
    requires FinalName(path) != []
    ensures Components(path) == Components(ParentPath(path)) + [FinalName(path)]
  {
    var parent, name := ParentPath(path), FinalName(path);
    OneComponent(name);
    if LastSlash(path) < |path| {
      assert path == parent + [SLASH] + name;
      ComponentsJoin(parent, name);
    } else {
      OneComponent([]);
    }
  }

  // ---------- Walking ----------

  /** The inode reached from inode `n` along `names`, with its number. */
  function Walk(md: Metadata, d: seq<Block>, n: nat, names: seq<Name>): Result<Option<(nat, Inode)>>
    requires Mounted(md) && Sized(md, d)
    decreases |names|
  {
    var inode :- ReadInode(md, d, n);
    if names == [] then Ok(Some((n, inode)))
    else if !SafeComponent(names[0]) || !inode.IsDirectory() then Ok(None)
    else
      var child :- FindChild(md, d, inode, names[0]);
      if child.None? then Ok(None) else Walk(md, d, child.value, names[1..])
  }

  method Lookup(disk: Disk, md: Metadata, path: seq<byte>) returns (r: Result<Option<(nat, Inode)>>)
    requires Mounted(md) && Sized(md, disk.blocks)
    ensures Determined(disk.faulty, r, Walk(md, disk.blocks, ROOT_INODE, Components(path)))
  {
    hide FindChild, ReadInode, SafeComponent;
    var n: nat := ROOT_INODE;
    var inode :- LoadInode(disk, md, n);
    var parts := Split(path);
    assert parts[0..] == parts;
    for i := 0 to |parts|
      invariant ReadInode(md, disk.blocks, n) == Ok(inode)
      invariant Walk(md, disk.blocks, ROOT_INODE, Components(path)) == Walk(md, disk.blocks, n, NonEmpty(parts[i..]))
    {
      assert parts[i..][1..] == parts[i + 1..];
      if parts[i] != [] {
        ghost var rest := NonEmpty(parts[i..]);
        assert rest[0] == parts[i] && rest[1..] == NonEmpty(parts[i + 1..]);
        if !SafeComponent(parts[i]) || !inode.IsDirectory() {
          return Ok(None);
        }
        var child :- FindDirectoryChild(disk, md, inode, parts[i]);
        if child.None? {
          return Ok(None);
        }
        n := child.value;
        inode :- LoadInode(disk, md, n);
      } else {
        assert NonEmpty(parts[i..]) == NonEmpty(parts[i + 1..]);
      }
    }
    assert NonEmpty(parts[|parts|..]) == [];
    r := Ok(Some((n, inode)));
  }

  /** The directory a path's last name is to be found in, or created in. */
  function Parent(md: Metadata, d: seq<Block>, path: seq<byte>): Result<(nat, Inode, Name)>
    requires Mounted(md) && Sized(md, d)
  {
    var name, above := FinalName(path), Components(ParentPath(path));
    if !SafeComponent(name) || !AllSafe(above) then Err(InvalidPath)
    else
      var found :- Walk(md, d, ROOT_INODE, above);
      if found.None? then Err(NotFound)
      else if !found.value.1.IsDirectory() then Err(InvalidPath)
      else Ok((found.value.0, found.value.1, name))
  }

  lemma WalkIsRead(md: Metadata, d: seq<Block>, n: nat, names: seq<Name>)
    requires Mounted(md) && Sized(md, d)
    ensures var w := Walk(md, d, n, names);
            w.Ok? && w.value.Some? ==> ReadInode(md, d, w.value.value.0) == Ok(w.value.value.1)
    decreases |names|
  {
    hide ReadInode, FindChild, SafeComponent;
    if names != [] && ReadInode(md, d, n).Ok? {
      var child := FindChild(md, d, ReadInode(md, d, n).value, names[0]);
      if child.Ok? && child.value.Some? {
        WalkIsRead(md, d, child.value.value, names[1..]);
      }
    }
  }

  method ResolveParent(disk: Disk, md: Metadata, path: seq<byte>) returns (r: Result<(nat, Inode, Name)>)
    requires Mounted(md) && Sized(md, disk.blocks)
    ensures Determined(disk.faulty, r, Parent(md, disk.blocks, path))
  {
    hide Walk, SafeComponent, ReadInode;
    var name, above := FinalName(path), ParentPath(path);
    if !SafeComponent(name) {
      return Err(InvalidPath);
    }
    if !AllSafe(Components(above)) {
      return Err(InvalidPath);
    }
    var parentNumber: nat := ROOT_INODE;
    WalkIsRead(md, disk.blocks, ROOT_INODE, Components(above));
    if above == [] || above == [SLASH] {
      RootWalk(md, disk.blocks, above);
    } else {
      var parent :- Lookup(disk, md, above);
      if parent.None? {
        return Err(NotFound);
      }
      if !parent.value.1.IsDirectory() {
        return Err(InvalidPath);
      }
      var again :- Lookup(disk, md, above);
      parentNumber := again.value.0;
    }
    var inode :- LoadInode(disk, md, parentNumber);
    if !inode.IsDirectory() {
      return Err(InvalidPath);
    }
    r := Ok((parentNumber, inode, name));
  }

  lemma RootWalk(md: Metadata, d: seq<Block>, above: seq<byte>)
    requires Mounted(md) && Sized(md, d) && (above == [] || above == [SLASH])
    ensures Components(above) == []
    ensures Walk(md, d, ROOT_INODE, Components(above)) ==
            var i := ReadInode(md, d, ROOT_INODE); if i.Ok? then Ok(Some((ROOT_INODE, i.value))) else Err(i.error)
  {
    hide ReadInode;
    assert Split([]) == [[]];
    assert [SLASH][..0] == [] && [SLASH][1..] == [];
    var one: seq<Name> := [[]];
    assert Split([SLASH]) == one + one;
    assert NonEmpty(one) == [];
    NonEmptyJoin(one, one);
  }
}
