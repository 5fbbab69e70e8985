/** Whole runs: any sequence of the four writing operations behaves like updates of a map from paths to contents. */
module Ext2Runs {
  import opened Bytes
  import opened Numbers
  import opened Options
  import opened Ext2Disk
  import opened Ext2Path
  import opened Ext2Tree
  import opened Ext2View
  import opened Ext2State
  import opened Ext2Files
  import opened Ext2Links
  import opened Ext2Reader
  import opened Ext2WriteProof
  import opened Ext2Refusal
  import opened Ext2Writer
  import opened Ext2Remove
  import opened Ext2Operations
  import opened Ext2Mkdir

  datatype Request =
    | Store(path: seq<byte>, contents: seq<byte>)
    | Unlink(path: seq<byte>)
    | MakeDir(path: seq<byte>)
    | RemoveDir(path: seq<byte>)

  /** What a path should read: the last request about it decides, and before any the initial state does. */
  ghost function Recalled(fs: Fs, done: seq<Request>, q: seq<Name>, limit: nat): Option<Result<seq<byte>>>
    requires Shape(fs)
  {
    if done == [] then FileAt(fs, q, limit)
    else
      var last := done[|done| - 1];
      if Components(last.path) != q then Recalled(fs, done[..|done| - 1], q, limit)
      else if last.Store? then Some(Ok(last.contents[..Min(|last.contents|, limit)]))
      else None
  }

  /** Whether a path should lead to a directory, told in the same way. */
  ghost predicate RecalledDirectory(fs: Fs, done: seq<Request>, q: seq<Name>)
    requires Shape(fs)
  {
    if done == [] then DirectoryAt(fs, q)
    else
      var last := done[|done| - 1];
      if Components(last.path) != q then RecalledDirectory(fs, done[..|done| - 1], q) else last.MakeDir?
  }

  ghost predicate Follows(fs: Fs, fs': Fs, done: seq<Request>) {
    && Shape(fs) && Shape(fs')
    && (forall q: seq<Name> :: DirectoryAt(fs', q) == RecalledDirectory(fs, done, q))
    && forall q: seq<Name>, limit: nat :: FileAt(fs', q, limit) == Recalled(fs, done, q, limit)
  }

  /** One request, carried out. */
  ghost predicate Effect(fs: Fs, fs': Fs, request: Request) {
    match request
    case Store(path, contents) => Written(fs, fs', Components(path), contents)
    case MakeDir(path) => MadeAt(fs, fs', Components(path))
    case _ => RemovedAt(fs, fs', Components(request.path))
  }

  lemma EffectShapes(fs: Fs, fs': Fs, request: Request)
    requires Effect(fs, fs', request)
    ensures Shape(fs) && Shape(fs')
  {
    hide Holding, Apart, Counted, Tree, Path, SamePaths, ReadsAlike, KeepsCounts, Shape, FileAt, Reallocated;
  }

  lemma EffectReads(fs: Fs, fs': Fs, request: Request, q: seq<Name>, limit: nat)
    requires Effect(fs, fs', request) && Shape(fs) && Shape(fs')
    ensures FileAt(fs', q, limit) ==
            if Components(request.path) != q then FileAt(fs, q, limit)
            else if request.Store? then Some(Ok(request.contents[..Min(|request.contents|, limit)]))
            else None
  {
    if Components(request.path) == q {
      hide Holding, Apart, Counted, Tree, Path, SamePaths, ReadsAlike, KeepsCounts, Shape, Reallocated;
    } else {
      hide Holding, Apart, Counted, Tree, Path, Shape, Reallocated, FileAt, DirectoryAt;
      assert ReadsAlike(fs, fs', q);
    }
  }

  lemma EffectLeads(fs: Fs, fs': Fs, request: Request, q: seq<Name>)
    requires Effect(fs, fs', request) && Shape(fs) && Shape(fs')
    ensures DirectoryAt(fs', q) == if Components(request.path) != q then DirectoryAt(fs, q) else request.MakeDir?
  {
    if Components(request.path) == q {
      hide Holding, Apart, Counted, Tree, Path, SamePaths, ReadsAlike, KeepsCounts, Shape, Reallocated;
      assert request.Store? ==> FileAt(fs', q, 0).Some?;
    } else {
      hide Holding, Apart, Counted, Tree, Path, Shape, Reallocated, FileAt, DirectoryAt;
      assert ReadsAlike(fs, fs', q);
    }
  }

  lemma FollowsOne(fs: Fs, fs1: Fs, fs': Fs, done: seq<Request>, request: Request)
    requires Follows(fs, fs1, done) && Effect(fs1, fs', request)
    ensures Follows(fs, fs', done + [request])
  {
    hide Effect, FileAt, DirectoryAt, Shape;
    EffectShapes(fs1, fs', request);
    assert (done + [request])[..|done + [request]| - 1] == done;
    forall q: seq<Name>, limit: nat ensures FileAt(fs', q, limit) == Recalled(fs, done + [request], q, limit) {
      EffectReads(fs1, fs', request, q, limit);
    }
    forall q: seq<Name> ensures DirectoryAt(fs', q) == RecalledDirectory(fs, done + [request], q) {
      EffectLeads(fs1, fs', request, q);
    }
  }

  lemma FollowsSame(fs: Fs, fs1: Fs, fs': Fs, done: seq<Request>)
    requires Follows(fs, fs1, done) && Shape(fs') && SamePaths(fs1, fs', None)
    ensures Follows(fs, fs', done)
  {
    hide FileAt, DirectoryAt, Shape, Recalled, RecalledDirectory, Path;
    forall q: seq<Name>, limit: nat ensures FileAt(fs', q, limit) == Recalled(fs, done, q, limit) {
      assert ReadsAlike(fs1, fs', q);
    }
    forall q: seq<Name> ensures DirectoryAt(fs', q) == RecalledDirectory(fs, done, q) {
      assert ReadsAlike(fs1, fs', q);
    }
  }

  lemma FollowsNothing(fs: Fs)
    requires Shape(fs)
    ensures Follows(fs, fs, [])
  {
    hide FileAt, DirectoryAt, Shape;
  }

  lemma CountsStay(fs: Fs)
    requires Shape(fs)
    ensures KeepsCounts(fs, fs)
  {
  }

  lemma CountsKept(fs: Fs, fs': Fs)
    requires KeepsCounts(fs, fs')
    ensures Shape(fs) && Shape(fs') && (LinkCounts(fs) ==> LinkCounts(fs'))
  {
    hide LinkCounts, SectorCounts, EntryKinds, Shape;
  }

  lemma CountsCompose(fs: Fs, fs1: Fs, fs': Fs)
    requires KeepsCounts(fs, fs1) && KeepsCounts(fs1, fs')
    ensures KeepsCounts(fs, fs')
  {
    hide LinkCounts, SectorCounts, EntryKinds, Shape;
  }

  lemma EffectCounts(fs: Fs, fs1: Fs, fs': Fs, request: Request)
    requires KeepsCounts(fs, fs1) && Effect(fs1, fs', request)
    ensures KeepsCounts(fs, fs')
  {
    hide Holding, Apart, Counted, Tree, Path, SamePaths, Shape, FileAt, Reallocated, LinkCounts, SectorCounts, EntryKinds;
  }

  method Perform(disk: Disk, md: Metadata, request: Request) returns (r: Result<()>)
    requires Mounted(md) && Sized(md, disk.blocks)
    modifies disk
    ensures Sized(md, disk.blocks)
    ensures r.Ok? && WellFormed(md, old(disk.blocks)) ==>
              WellFormed(md, disk.blocks) && Effect(View(md, old(disk.blocks)), View(md, disk.blocks), request)
    ensures request.Store? && r.Err? && r.error != RecoveryFailed && WellFormed(md, old(disk.blocks)) ==>
              && WellFormed(md, disk.blocks) && SamePaths(View(md, old(disk.blocks)), View(md, disk.blocks), None)
              && KeepsCounts(View(md, old(disk.blocks)), View(md, disk.blocks))
    ensures !request.Store? && r.Err? && !disk.Fails(r.error) && WellFormed(md, old(disk.blocks)) && LinkCounts(View(md, old(disk.blocks))) ==>
              disk.blocks == old(disk.blocks)
    ensures request.Store? && r == Err(RecoveryFailed) && WellFormed(md, old(disk.blocks)) ==> disk.faulty
  {
    hide LinkCounts, FileRefusal, DirectoryRefusal, MakeRefusal, WriteRefusal, View, Geometry, Consistent, Written, MadeAt, RemovedAt, WasAt, SamePaths, ReadsAlike, KeepsCounts, KeptInUse, Components;
    match request {
      case Store(path, contents) => r := WriteFile(disk, md, path, contents);
      case Unlink(path) => r := RemoveFile(disk, md, path);
      case MakeDir(path) => r := CreateDirectory(disk, md, path);
      case RemoveDir(path) => r := RemoveEmptyDirectory(disk, md, path);
    }
  }

  /** The requests that were carried out, in order. */
  function Completed(requests: seq<Request>, kept: seq<bool>): seq<Request>
    requires |requests| == |kept|
  {
    if requests == [] then []
    else
      var n := |requests| - 1;
      Completed(requests[..n], kept[..n]) + (if kept[n] then [requests[n]] else [])
  }

  lemma CompletedNone(requests: seq<Request>)
    ensures Completed(requests[..0], []) == []
  {
  }

  lemma CompletedMore(requests: seq<Request>, kept: seq<bool>, request: Request, ok: bool)
    requires |requests| == |kept|
    ensures Completed(requests + [request], kept + [ok]) == Completed(requests, kept) + (if ok then [request] else [])
  {
    assert (requests + [request])[..|requests|] == requests && (kept + [ok])[..|kept|] == kept;
  }

  /**
   * Carries out requests in order. A failed write whose recovery succeeded is passed over; any other
   * failure ends the run, and unless it is a fault it leaves everything as the requests before it did.
   * The disk stays well-formed and every path leads to the file or directory the last completed request
   * about it says, or to what it did at the start. Link counts that were right stay right.
   */
  method Run(disk: Disk, md: Metadata, requests: seq<Request>) returns (done: seq<Request>, kept: seq<bool>, r: Result<()>)
    requires Mounted(md) && Sized(md, disk.blocks)
    modifies disk
    ensures Sized(md, disk.blocks)
    ensures |kept| <= |requests| && done == Completed(requests[..|kept|], kept) && (r.Ok? ==> |kept| == |requests|)
    ensures r.Ok? ==> forall i :: 0 <= i < |requests| && !kept[i] ==> requests[i].Store?
    ensures r.Ok? && WellFormed(md, old(disk.blocks)) ==>
              && WellFormed(md, disk.blocks) && Follows(View(md, old(disk.blocks)), View(md, disk.blocks), done)
              && KeepsCounts(View(md, old(disk.blocks)), View(md, disk.blocks))
    ensures r.Err? && !disk.Fails(r.error) && (r.error != RecoveryFailed || !disk.faulty)
            && WellFormed(md, old(disk.blocks)) && LinkCounts(View(md, old(disk.blocks))) ==>
              && WellFormed(md, disk.blocks) && Follows(View(md, old(disk.blocks)), View(md, disk.blocks), done)
              && LinkCounts(View(md, disk.blocks))
  {
    hide View, Geometry, Consistent, Effect, SamePaths, ReadsAlike, KeepsCounts, LinkCounts, Follows, Completed;
    done, kept := [], [];
    CompletedNone(requests);
    ghost var d := disk.blocks;
    if WellFormed(md, d) {
      ViewShape(md, d);
      FollowsNothing(View(md, d));
      CountsStay(View(md, d));
    }
    for i := 0 to |requests|
      invariant Sized(md, disk.blocks) && |kept| == i && done == Completed(requests[..i], kept)
      invariant forall j :: 0 <= j < i && !kept[j] ==> requests[j].Store?
      invariant WellFormed(md, d) ==>
                  && WellFormed(md, disk.blocks) && Follows(View(md, d), View(md, disk.blocks), done)
                  && KeepsCounts(View(md, d), View(md, disk.blocks))
    {
      ghost var before := disk.blocks;
      if WellFormed(md, d) {
        CountsKept(View(md, d), View(md, before));
      }
      r := Perform(disk, md, requests[i]);
      assert requests[..i + 1] == requests[..i] + [requests[i]];
      CompletedMore(requests[..i], kept, requests[i], r.Ok?);
      kept := kept + [r.Ok?];
      if r.Ok? {
        if WellFormed(md, d) {
          FollowsOne(View(md, d), View(md, before), View(md, disk.blocks), done, requests[i]);
          EffectCounts(View(md, d), View(md, before), View(md, disk.blocks), requests[i]);
        }
        done := done + [requests[i]];
      } else if !requests[i].Store? || r.error == RecoveryFailed {
        return;
      } else if WellFormed(md, d) {
        ViewShape(md, disk.blocks);
        FollowsSame(View(md, d), View(md, before), View(md, disk.blocks), done);
        CountsCompose(View(md, d), View(md, before), View(md, disk.blocks));
      }
    }
    assert requests[..|requests|] == requests;
    r := Ok(());
  }

  /** After a run, reading a path that a write was the last to touch returns exactly what was written. */
  lemma RunThenRead(md: Metadata, d: seq<Block>, d': seq<Block>, done: seq<Request>, path: seq<byte>, limit: nat)
    requires WellFormed(md, d) && WellFormed(md, d') && Follows(View(md, d), View(md, d'), done)
    requires Shape(View(md, d))
    ensures var expected := Recalled(View(md, d), done, Components(path), limit);
            var read := ReadPath(md, d', path, limit);
            && (expected.None? ==> read == Ok(None))
            && (expected.Some? && expected.value.Ok? ==> read.Ok? && read.value.Some? && read.value.value.0 == expected.value.value)
  {
    hide View, Geometry, Consistent, FileAt, DirectoryAt, RecalledDirectory, Shape, ReadPath, Recalled;
    ReadPathIsFile(md, d', path, limit);
    assert FileAt(View(md, d'), Components(path), limit) == Recalled(View(md, d), done, Components(path), limit);
  }

  /** Reading what was just written gives exactly that, at every limit, and its full size. */
  lemma WriteThenRead(md: Metadata, d: seq<Block>, d': seq<Block>, path: seq<byte>, contents: seq<byte>, limit: nat)
    requires WellFormed(md, d) && WellFormed(md, d') && Written(View(md, d), View(md, d'), Components(path), contents)
    ensures ReadPath(md, d', path, limit) == Ok(Some((contents[..Min(|contents|, limit)], |contents|)))
  {
    hide View, Geometry, Holding, Apart, Counted, Tree, Shape, ReadPath, Path, FileAt, SamePaths, ReadsAlike, KeepsCounts;
    ReadPathIsFile(md, d', path, limit);
    assert FileAt(View(md, d'), Components(path), limit) == Some(Ok(contents[..Min(|contents|, limit)]));
  }
}
