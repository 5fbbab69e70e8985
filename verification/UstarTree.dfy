/** A validated archive is a tree of files and directories, whatever the order of its entries. */
module UstarTree {
  import opened Bytes
  import opened Options
  import opened Ustar

  // ---------- Validation ----------

  /** Two entries that may stand in one archive: different names, and no file above another entry. */
  predicate Compatible(a: TarEntry, b: TarEntry) {
    a.name != b.name && (IsParent(a.name, b.name) ==> a.isDir) && (IsParent(b.name, a.name) ==> b.isDir)
  }

  predicate AllCompatible(es: seq<TarEntry>) {
    forall i, j :: 0 <= i < j < |es| ==> Compatible(es[i], es[j])
  }

  /** What `validate` accepts: the whole chain is readable, short enough and a tree, and only zeros follow. */
  predicate Accepted(archive: seq<byte>) {
    && archive != [] && |archive| <= MAX_ARCHIVE && |archive| % BLOCK == 0
    && var es := EntriesFrom(archive, 0);
    && es.Ok? && |es.value| <= MAX_FILES && AllCompatible(es.value)
    && EndFrom(archive, 0) <= |archive| && AllZero(archive[EndFrom(archive, 0)..])
  }

  /** Compares a new entry with all the ones before it, reading them again. */
  method CheckAgainst(archive: seq<byte>, entry: TarEntry, offset: nat, ghost seen: seq<TarEntry>) returns (r: Result<()>)
    requires Chain(archive, 0, seen, offset)
    ensures r.Ok? <==> forall k :: 0 <= k < |seen| ==> Compatible(seen[k], entry)
    ensures r.Err? ==> r.error == InvalidArchive
  {
    hide EntryAt, IsParent;
    var at: nat := 0;
    ghost var k := 0;
    assert seen[0..] == seen;
    while at < offset
      invariant k <= |seen| && Chain(archive, at, seen[k..], offset)
      invariant forall i :: 0 <= i < k ==> Compatible(seen[i], entry)
      decreases |seen| - k
    {
      ChainEntries(archive, at, seen[k..], offset);
      assert seen[k..][1..] == seen[k + 1..];
      var previous := ReadEntry(archive, at);
      if !Compatible(previous.value.value, entry) {
        assert !Compatible(seen[k], entry);
        return Err(InvalidArchive);
      }
      at, k := previous.value.value.next, k + 1;
    }
    ChainEntries(archive, at, seen[k..], offset);
    r := Ok(());
  }

  method IsZeroFrom(archive: seq<byte>, offset: nat) returns (zero: bool)
    requires offset <= |archive|
    ensures zero <==> AllZero(archive[offset..])
  {
    for i := offset to |archive|
      invariant forall j :: offset <= j < i ==> archive[j] == 0
    {
      if archive[i] != 0 {
        assert archive[offset..][i - offset] != 0;
        return false;
      }
    }
    assert forall j :: 0 <= j < |archive| - offset ==> archive[offset..][j] == archive[offset + j];
    zero := true;
  }

  /** Entries met so far are a beginning of the whole list. */
  lemma MetSoFar(archive: seq<byte>, seen: seq<TarEntry>, offset: nat, e: TarEntry)
    requires Chain(archive, 0, seen, offset) && EntryAt(archive, offset) == Ok(Some(e))
    ensures Chain(archive, 0, seen + [e], e.next)
    ensures EntriesFrom(archive, 0).Ok? ==> seen + [e] <= EntriesFrom(archive, 0).value
  {
    hide EntryAt;
    ChainSnoc(archive, 0, seen, offset, e);
    ChainEntries(archive, 0, seen + [e], e.next);
  }

  lemma Refuted(es: seq<TarEntry>, seen: seq<TarEntry>, e: TarEntry)
    requires seen + [e] <= es && AllCompatible(es)
    ensures AllCompatible(seen + [e]) && forall k :: 0 <= k < |seen| ==> Compatible(seen[k], e)
  {
    hide Compatible;
    assert forall i :: 0 <= i < |seen + [e]| ==> es[i] == (seen + [e])[i];
    forall k | 0 <= k < |seen| ensures Compatible(seen[k], e) {
      assert Compatible(es[k], es[|seen|]);
    }
  }

  lemma MoreCompatible(seen: seq<TarEntry>, e: TarEntry)
    requires AllCompatible(seen) && forall k :: 0 <= k < |seen| ==> Compatible(seen[k], e)
    ensures AllCompatible(seen + [e])
  {
    hide Compatible;
  }

  method Validate(archive: seq<byte>) returns (r: Result<()>)
    ensures r.Ok? <==> Accepted(archive)
  {
    hide EntryAt, Compatible, AllZero, AllCompatible, Chain;
    if archive == [] || |archive| > MAX_ARCHIVE || |archive| % BLOCK != 0 {
      return Err(InvalidArchive);
    }
    var offset, count := 0, 0;
    ghost var seen: seq<TarEntry> := [];
    Nothing(archive);
    while true
      invariant Chain(archive, 0, seen, offset) && |seen| == count <= MAX_FILES && AllCompatible(seen)
      invariant offset <= |archive|
      decreases |archive| - offset
    {
      ChainEntries(archive, 0, seen, offset);
      var entry := ReadEntry(archive, offset);
      if entry.Err? {
        return Err(entry.error);
      }
      if entry.value.None? {
        assert seen + [] == seen;
        var zero := IsZeroFrom(archive, offset);
        return if zero then Ok(()) else Err(InvalidArchive);
      }
      var e := entry.value.value;
      MetSoFar(archive, seen, offset, e);
      count := count + 1;
      if count > MAX_FILES {
        return Err(TooManyFiles);
      }
      var check := CheckAgainst(archive, e, offset, seen);
      if Accepted(archive) {
        Refuted(EntriesFrom(archive, 0).value, seen, e);
      }
      if check.Err? {
        return check;
      }
      MoreCompatible(seen, e);
      seen := seen + [e];
      offset := e.next;
    }
  }

  /** An archive of zero blocks is accepted, and is empty. */
  lemma ZeroArchive(blocks: nat)
    requires 1 <= blocks <= MAX_ARCHIVE / BLOCK
    ensures Accepted(Zeros(BLOCK * blocks)) && EntriesFrom(Zeros(BLOCK * blocks), 0) == Ok([])
  {
    var archive := Zeros(BLOCK * blocks);
    assert AllZero(archive[0..BLOCK]);
    assert EntryAt(archive, 0) == Ok(None);
  }

  lemma Nothing(archive: seq<byte>)
    ensures Chain(archive, 0, [], 0) && AllCompatible([])
  {
  }

  // ---------- Looking up ----------

  /** The entries of an accepted archive. */
  function Entries(archive: seq<byte>): seq<TarEntry>
    requires Accepted(archive)
  {
    EntriesFrom(archive, 0).value
  }

  /** The path is the root, is listed as a directory, or has something below it. */
  ghost predicate IsDirectory(es: seq<TarEntry>, path: seq<byte>) {
    path == [] || exists i :: 0 <= i < |es| && MakesDirectory(es[i], path)
  }

  predicate MakesDirectory(e: TarEntry, path: seq<byte>) {
    (e.name == path && e.isDir) || IsParent(path, e.name)
  }

  /** What `directory_exists` answers, without regard to the order of the entries. */
  ghost predicate Exists(es: seq<TarEntry>, path: seq<byte>) {
    SafePath(path, true) && IsDirectory(es, path)
  }

  method DirectoryExists(archive: seq<byte>, path: seq<byte>) returns (r: Result<bool>)
    ensures Accepted(archive) ==> r == Ok(Exists(Entries(archive), path))
  {
    hide EntryAt, SafeComponents;
    if !SafePath(path, true) {
      return Ok(false);
    }
    if path == [] {
      return Ok(true);
    }
    ghost var es := ListOf(archive);
    var offset: nat := 0;
    ghost var k := 0;
    assert es[0..] == es;
    while true
      invariant offset <= |archive|
      invariant Accepted(archive) ==> k <= |es| && EntriesFrom(archive, offset) == Ok(es[k..])
      invariant Accepted(archive) ==> forall i :: 0 <= i < k ==> !MakesDirectory(es[i], path)
      decreases |archive| - offset
    {
      hide AllCompatible, IsParent;
      var entry :- ReadEntry(archive, offset);
      if entry.None? {
        assert Accepted(archive) ==> k == |es| && !IsDirectory(es, path);
        return Ok(false);
      }
      if Accepted(archive) {
        assert es[k..][0] == es[k] && es[k..][1..] == es[k + 1..];
        OnlyThisOne(es, k, path);
        assert IsParent(path, es[k].name) ==> MakesDirectory(es[k], path) && IsDirectory(es, path);
      }
      if entry.value.name == path {
        return Ok(entry.value.isDir);
      }
      if IsParent(path, entry.value.name) {
        return Ok(true);
      }
      offset, k := entry.value.next, k + 1;
    }
  }

  ghost function ListOf(archive: seq<byte>): seq<TarEntry> {
    if Accepted(archive) then Entries(archive) else []
  }

  /** Nothing lies below a file, so a file's path is not a directory. */
  lemma OnlyThisOne(es: seq<TarEntry>, k: nat, path: seq<byte>)
    requires AllCompatible(es) && k < |es| && path != []
    ensures es[k].name == path ==> (IsDirectory(es, path) <==> es[k].isDir)
  {
    if es[k].name != path {
    } else if es[k].isDir {
      assert MakesDirectory(es[k], path);
    } else {
      forall i | 0 <= i < |es| ensures !MakesDirectory(es[i], path) {
        if i < k {
          assert Compatible(es[i], es[k]);
        } else if k < i {
          assert Compatible(es[k], es[i]);
        }
      }
    }
  }

  /** The one file with this name, if there is one. */
  method ReadFile(archive: seq<byte>, name: seq<byte>) returns (r: Result<Option<seq<byte>>>)
    ensures Accepted(archive) ==> r.Ok? && Found(Entries(archive), name, r.value)
  {
    hide EntryAt, SafeComponents;
    ghost var es := ListOf(archive);
    if !SafePath(name, false) {
      if Accepted(archive) {
        forall k | 0 <= k < |es| ensures es[k].name != name {
          EntrySafe(archive, 0, k);
        }
      }
      return Ok(None);
    }
    var offset: nat := 0;
    ghost var k := 0;
    assert es[0..] == es;
    while true
      invariant offset <= |archive|
      invariant Accepted(archive) ==> k <= |es| && EntriesFrom(archive, offset) == Ok(es[k..])
      invariant Accepted(archive) ==> forall i :: 0 <= i < k && es[i].name == name ==> es[i].isDir
      decreases |archive| - offset
    {
      var entry :- ReadEntry(archive, offset);
      if entry.None? {
        return Ok(None);
      }
      assert Accepted(archive) ==> es[k..][0] == es[k] && es[k..][1..] == es[k + 1..];
      if !entry.value.isDir && entry.value.name == name {
        return Ok(Some(entry.value.data));
      }
      offset, k := entry.value.next, k + 1;
    }
  }

  /** The answer is the contents of a file with this name, or there is no such file. */
  ghost predicate Found(es: seq<TarEntry>, name: seq<byte>, data: Option<seq<byte>>) {
    && (data.Some? ==> exists k :: 0 <= k < |es| && es[k].name == name && !es[k].isDir && es[k].data == data.value)
    && (data.None? ==> forall k :: 0 <= k < |es| && es[k].name == name ==> es[k].isDir)
  }

  /** Names are unique, so at most one answer is right. */
  lemma FoundOnce(es: seq<TarEntry>, name: seq<byte>, a: Option<seq<byte>>, b: Option<seq<byte>>)
    requires AllCompatible(es) && Found(es, name, a) && Found(es, name, b)
    ensures a == b
  {
    if a.Some? && b.Some? {
      var i :| 0 <= i < |es| && es[i].name == name && !es[i].isDir && es[i].data == a.value;
      var j :| 0 <= j < |es| && es[j].name == name && !es[j].isDir && es[j].data == b.value;
      NamesUnique(es, i, j);
    }
  }

  lemma NamesUnique(es: seq<TarEntry>, i: nat, j: nat)
    requires AllCompatible(es) && i < |es| && j < |es|
    ensures es[i].name == es[j].name ==> i == j
  {
    assert i < j ==> Compatible(es[i], es[j]);
    assert j < i ==> Compatible(es[j], es[i]);
  }

  lemma NameSafe(archive: seq<byte>, offset: nat)
    ensures var e := EntryAt(archive, offset);
            e.Ok? && e.value.Some? ==> SafeComponents(e.value.value.name) && e.value.value.name != []
  {
    hide Octal, Checksum, Field, SafeComponents;
  }

  lemma {:induction false} EntrySafe(archive: seq<byte>, offset: nat, k: nat)
    requires EntriesFrom(archive, offset).Ok? && k < |EntriesFrom(archive, offset).value|
    ensures SafeComponents(EntriesFrom(archive, offset).value[k].name) && EntriesFrom(archive, offset).value[k].name != []
    decreases k
  {
    hide EntryAt, SafeComponents;
    var e := EntryAt(archive, offset).value.value;
    if k == 0 {
      NameSafe(archive, offset);
    } else {
      EntrySafe(archive, e.next, k - 1);
    }
  }

  // ---------- Listing a directory ----------

  datatype Visit = Visit(name: seq<byte>, isDir: bool, size: nat)

  function Join(directory: seq<byte>, child: seq<byte>): seq<byte> {
    if directory == [] then child else directory + [SLASH] + child
  }

  /** The part of a name below a directory. */
  function Relative(directory: seq<byte>, name: seq<byte>): Option<seq<byte>> {
    if directory == [] then Some(name)
    else if |name| <= |directory| + 1 || !IsParent(directory, name) then None
    else Some(name[|directory| + 1..])
  }

  function ChildEntry(e: TarEntry, directory: seq<byte>): Option<Visit> {
    var relative := Relative(directory, e.name);
    if relative.None? then None
    else
      var i := FirstSlash(relative.value);
      var isDir := i < |relative.value| || e.isDir;
      Some(Visit(relative.value[..i], isDir, if isDir then 0 else |e.data|))
  }

  /** The entry lies at or below this child of the directory. */
  predicate Names(e: TarEntry, directory: seq<byte>, child: seq<byte>) {
    ChildEntry(e, directory).Some? && ChildEntry(e, directory).value.name == child
  }

  lemma ChildJoins(e: TarEntry, directory: seq<byte>)
    requires ChildEntry(e, directory).Some?
    ensures var v := ChildEntry(e, directory).value;
            && SLASH !in v.name
            && (e.name == Join(directory, v.name) || IsParent(Join(directory, v.name), e.name))
            && (e.name == Join(directory, v.name) ==> v.isDir == e.isDir && v.size == (if e.isDir then 0 else |e.data|))
            && (e.name != Join(directory, v.name) ==> v.isDir && v.size == 0)
  {
    var relative := Relative(directory, e.name).value;
    var i := FirstSlash(relative);
    assert e.name == Join(directory, relative);
    if i == |relative| {
      assert relative[..i] == relative;
    } else {
      assert Join(directory, relative)[..|Join(directory, relative[..i])|] == Join(directory, relative[..i]);
    }
  }

  /** Anything at or below a child names that child. */
  lemma JoinNames(e: TarEntry, directory: seq<byte>, child: seq<byte>)
    requires SLASH !in child && child != []
    requires e.name == Join(directory, child) || IsParent(Join(directory, child), e.name)
    ensures Names(e, directory, child)
  {
    var full := Join(directory, child);
    assert e.name[..|full|] == full;
    if directory == [] {
      assert Relative(directory, e.name) == Some(e.name);
      FirstSlashIs(e.name, |child|);
      assert e.name[..|child|] == child;
    } else {
      assert e.name[..|directory|] == full[..|directory|] == directory && e.name[|directory|] == full[|directory|] == SLASH;
      var relative := e.name[|directory| + 1..];
      assert relative[..|child|] == full[|directory| + 1..] == child;
      FirstSlashIs(relative, |child|);
    }
  }

  lemma FirstSlashIs(s: seq<byte>, n: nat)
    requires n <= |s| && SLASH !in s[..n] && (n < |s| ==> s[n] == SLASH)
    ensures FirstSlash(s) == n
  {
    assert forall j :: 0 <= j < n ==> s[j] == s[..n][j];
  }

  /** The first entry to name a child tells whether the child is a directory. */
  lemma FlagIsRight(es: seq<TarEntry>, k: nat, directory: seq<byte>)
    requires AllCompatible(es) && k < |es| && ChildEntry(es[k], directory).Some? && SafeComponents(es[k].name) && es[k].name != []
    ensures var v := ChildEntry(es[k], directory).value;
            Join(directory, v.name) != [] ==> (v.isDir <==> Exists(es, Join(directory, v.name)))
  {
    var v := ChildEntry(es[k], directory).value;
    var path := Join(directory, v.name);
    ChildJoins(es[k], directory);
    if path != [] {
      if es[k].name == path {
        OnlyThisOne(es, k, path);
      } else {
        SafeParent(path, es[k].name);
        assert MakesDirectory(es[k], path);
      }
    }
  }

  lemma ChildNotEmpty(e: TarEntry, directory: seq<byte>)
    requires ChildEntry(e, directory).Some? && SafeComponents(e.name)
    ensures Join(directory, ChildEntry(e, directory).value.name) != []
  {
  }

  /** Every child of the directory once, and flagged as `directory_exists` would answer. */
  ghost predicate Listing(es: seq<TarEntry>, directory: seq<byte>, visits: seq<Visit>) {
    && (forall i, j :: 0 <= i < j < |visits| ==> visits[i].name != visits[j].name)
    && (forall v :: v in visits ==> Truthful(es, directory, v))
    && (forall k :: 0 <= k < |es| && ChildEntry(es[k], directory).Some? ==> Visited(visits, ChildEntry(es[k], directory).value.name))
  }

  ghost predicate Visited(visits: seq<Visit>, child: seq<byte>) {
    exists i :: 0 <= i < |visits| && visits[i].name == child
  }

  /** The child exists, its flag is right, and a file has its size. */
  ghost predicate Truthful(es: seq<TarEntry>, directory: seq<byte>, v: Visit) {
    && (exists k :: 0 <= k < |es| && Names(es[k], directory, v.name))
    && (v.isDir <==> Exists(es, Join(directory, v.name)))
    && (!v.isDir ==> exists k :: 0 <= k < |es| && es[k].name == Join(directory, v.name) && |es[k].data| == v.size)
  }

  lemma FirstVisitTruthful(es: seq<TarEntry>, k: nat, directory: seq<byte>)
    requires AllCompatible(es) && k < |es| && ChildEntry(es[k], directory).Some? && SafeComponents(es[k].name) && es[k].name != []
    ensures Truthful(es, directory, ChildEntry(es[k], directory).value)
  {
    hide SafeComponents, AllCompatible, Exists;
    ChildNotEmpty(es[k], directory);
    ChildJoins(es[k], directory);
    FlagIsRight(es, k, directory);
    assert Names(es[k], directory, ChildEntry(es[k], directory).value.name);
  }

  /** Whether an earlier entry has already named the child. */
  method SeenBefore(archive: seq<byte>, directory: seq<byte>, child: seq<byte>, offset: nat, ghost seen: seq<TarEntry>)
    returns (found: bool)
    requires Chain(archive, 0, seen, offset)
    ensures found <==> exists k :: 0 <= k < |seen| && Names(seen[k], directory, child)
  {
    hide EntryAt, ChildEntry;
    var at: nat := 0;
    ghost var k := 0;
    assert seen[0..] == seen;
    while at < offset
      invariant k <= |seen| && Chain(archive, at, seen[k..], offset)
      invariant forall i :: 0 <= i < k ==> !Names(seen[i], directory, child)
      decreases |seen| - k
    {
      ChainEntries(archive, at, seen[k..], offset);
      assert seen[k..][1..] == seen[k + 1..];
      var previous := ReadEntry(archive, at);
      if Names(previous.value.value, directory, child) {
        assert Names(seen[k], directory, child);
        return true;
      }
      at, k := previous.value.value.next, k + 1;
    }
    ChainEntries(archive, at, seen[k..], offset);
    found := false;
  }

  ghost predicate NamedBefore(es: seq<TarEntry>, directory: seq<byte>, child: seq<byte>, k: nat)
    requires k <= |es|
  {
    exists m :: 0 <= m < k && Names(es[m], directory, child)
  }

  /** The visits for the entries read so far. */
  ghost predicate Progress(es: seq<TarEntry>, directory: seq<byte>, visits: seq<Visit>, k: nat) {
    && k <= |es|
    && (forall i, j :: 0 <= i < j < |visits| ==> visits[i].name != visits[j].name)
    && (forall v :: v in visits ==> Truthful(es, directory, v))
    && (forall i :: 0 <= i < |visits| ==> NamedBefore(es, directory, visits[i].name, k))
    && (forall m :: 0 <= m < k && ChildEntry(es[m], directory).Some? ==> Visited(visits, ChildEntry(es[m], directory).value.name))
  }

  lemma NamedStill(es: seq<TarEntry>, directory: seq<byte>, child: seq<byte>, k: nat)
    requires k < |es|
    ensures NamedBefore(es, directory, child, k + 1) <==> NamedBefore(es, directory, child, k) || Names(es[k], directory, child)
  {
    hide Names;
  }

  /** An entry that names no new child. */
  lemma VisitOld(es: seq<TarEntry>, directory: seq<byte>, visits: seq<Visit>, k: nat)
    requires Progress(es, directory, visits, k) && k < |es|
    requires ChildEntry(es[k], directory).Some? ==> NamedBefore(es, directory, ChildEntry(es[k], directory).value.name, k)
    ensures Progress(es, directory, visits, k + 1)
  {
    hide ChildEntry, Truthful;
    forall i | 0 <= i < |visits| ensures NamedBefore(es, directory, visits[i].name, k + 1) {
      NamedStill(es, directory, visits[i].name, k);
    }
    if ChildEntry(es[k], directory).Some? {
      var v := ChildEntry(es[k], directory).value;
      var m :| 0 <= m < k && Names(es[m], directory, v.name);
      assert Visited(visits, v.name);
    }
  }

  lemma VisitNew(es: seq<TarEntry>, directory: seq<byte>, visits: seq<Visit>, k: nat)
    requires Progress(es, directory, visits, k) && k < |es| && ChildEntry(es[k], directory).Some?
    requires !NamedBefore(es, directory, ChildEntry(es[k], directory).value.name, k)
    requires Truthful(es, directory, ChildEntry(es[k], directory).value)
    ensures Progress(es, directory, visits + [ChildEntry(es[k], directory).value], k + 1)
  {
    var v := ChildEntry(es[k], directory).value;
    var visits' := visits + [v];
    hide ChildEntry, Truthful, NamedBefore;
    forall i | 0 <= i < |visits'| ensures NamedBefore(es, directory, visits'[i].name, k + 1) {
      NamedStill(es, directory, visits'[i].name, k);
    }
    forall m | 0 <= m < k + 1 && ChildEntry(es[m], directory).Some? ensures Visited(visits', ChildEntry(es[m], directory).value.name) {
      VisitedMore(visits, v, ChildEntry(es[m], directory).value.name);
    }
  }

  lemma VisitedMore(visits: seq<Visit>, v: Visit, child: seq<byte>)
    ensures Visited(visits + [v], child) <==> Visited(visits, child) || v.name == child
  {
    if Visited(visits, child) {
      var i :| 0 <= i < |visits| && visits[i].name == child;
      assert (visits + [v])[i].name == child;
    }
    if v.name == child {
      assert (visits + [v])[|visits|].name == child;
    }
  }

  lemma StartListing(archive: seq<byte>, es: seq<TarEntry>, directory: seq<byte>)
    ensures Chain(archive, 0, [], 0) && Progress(es, directory, [], 0) && es[0..] == es
  {
  }

  lemma ListingDone(es: seq<TarEntry>, directory: seq<byte>, visits: seq<Visit>)
    requires Progress(es, directory, visits, |es|)
    ensures Listing(es, directory, visits)
  {
    hide Truthful, ChildEntry;
  }

  /** Whatever lies at or below a child of the directory, the child is in the listing. */
  lemma EveryChildListed(es: seq<TarEntry>, directory: seq<byte>, visits: seq<Visit>, child: seq<byte>, k: nat)
    requires Listing(es, directory, visits) && SLASH !in child && child != [] && k < |es|
    requires es[k].name == Join(directory, child) || IsParent(Join(directory, child), es[k].name)
    ensures Visited(visits, child)
  {
    hide Truthful, ChildEntry, IsParent, Join;
    JoinNames(es[k], directory, child);
  }

  lemma NextEntry(archive: seq<byte>, es: seq<TarEntry>, seen: seq<TarEntry>, offset: nat, e: TarEntry)
    requires Chain(archive, 0, seen, offset) && EntryAt(archive, offset) == Ok(Some(e))
    ensures Chain(archive, 0, seen + [e], e.next)
    ensures seen <= es && EntriesFrom(archive, offset) == Ok(es[|seen|..]) ==>
              |seen| < |es| && es[|seen|] == e && seen + [e] <= es && EntriesFrom(archive, e.next) == Ok(es[|seen| + 1..])
  {
    hide EntryAt;
    ChainSnoc(archive, 0, seen, offset, e);
    if seen <= es && EntriesFrom(archive, offset) == Ok(es[|seen|..]) {
      assert es[|seen|..][0] == e && es[|seen|..][1..] == es[|seen| + 1..];
    }
  }

  lemma TruthfulAt(archive: seq<byte>, k: nat, directory: seq<byte>)
    requires Accepted(archive) && k < |Entries(archive)| && ChildEntry(Entries(archive)[k], directory).Some?
    ensures Truthful(Entries(archive), directory, ChildEntry(Entries(archive)[k], directory).value)
  {
    hide EntryAt, SafeComponents, AllCompatible, Truthful, ChildEntry;
    EntrySafe(archive, 0, k);
    FirstVisitTruthful(Entries(archive), k, directory);
  }

  /** The prefix of a list names the same children whether read from the list or from the archive. */
  lemma SameNames(es: seq<TarEntry>, seen: seq<TarEntry>, directory: seq<byte>, child: seq<byte>)
    requires seen <= es
    ensures (exists k :: 0 <= k < |seen| && Names(seen[k], directory, child)) <==> NamedBefore(es, directory, child, |seen|)
  {
    hide Names;
    assert forall m :: 0 <= m < |seen| ==> es[m] == seen[m];
  }

  /** Visits the children of a directory; nothing if it is not one. */
  method ForEachEntry(archive: seq<byte>, directory: seq<byte>) returns (r: Result<seq<Visit>>)
    ensures Accepted(archive) ==>
              r.Ok? && if Exists(Entries(archive), directory) then Listing(Entries(archive), directory, r.value) else r.value == []
  {
    hide EntryAt, SafeComponents, Progress, ChildEntry, AllCompatible, Listing, Chain, Exists, Truthful;
    var isDirectory :- DirectoryExists(archive, directory);
    if !isDirectory {
      return Ok([]);
    }
    ghost var es := ListOf(archive);
    var visits: seq<Visit> := [];
    var offset: nat := 0;
    ghost var seen: seq<TarEntry> := [];
    StartListing(archive, es, directory);
    while true
      invariant offset <= |archive| && Chain(archive, 0, seen, offset)
      invariant Accepted(archive) ==> seen <= es && EntriesFrom(archive, offset) == Ok(es[|seen|..])
      invariant Accepted(archive) ==> Progress(es, directory, visits, |seen|)
      decreases |archive| - offset
    {
      var entry :- ReadEntry(archive, offset);
      if entry.None? {
        if Accepted(archive) {
          ListingDone(es, directory, visits);
        }
        return Ok(visits);
      }
      var e := entry.value;
      NextEntry(archive, es, seen, offset, e);
      var v := ChildEntry(e, directory);
      if v.Some? {
        var before := SeenBefore(archive, directory, v.value.name, offset, seen);
        if Accepted(archive) {
          SameNames(es, seen, directory, v.value.name);
          TruthfulAt(archive, |seen|, directory);
          if before {
            VisitOld(es, directory, visits, |seen|);
          } else {
            VisitNew(es, directory, visits, |seen|);
          }
        }
        if !before {
          visits := visits + [v.value];
        }
      } else if Accepted(archive) {
        VisitOld(es, directory, visits, |seen|);
      }
      seen, offset := seen + [e], e.next;
    }
  }
}
