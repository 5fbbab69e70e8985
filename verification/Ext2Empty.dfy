/** Listing a directory to learn whether it is empty, as `remove_empty_directory` does. */
module Ext2Empty {
  import opened Bytes
  import opened Numbers
  import opened Ext2Disk
  import opened Ext2Pointers
  import opened Ext2Records
  import opened Ext2RecordProofs
  import opened Ext2Directory
  import opened Ext2Entries
  import opened Ext2Inodes
  import opened Ext2Path
  import opened Ext2Change

  function After<T>(front: seq<T>, rest: Result<seq<T>>): Result<seq<T>> {
    if rest.Ok? then Ok(front + rest.value) else rest
  }

  lemma AfterStep<T>(front: seq<T>, here: seq<T>, rest: Result<seq<T>>)
    ensures After(front, After(here, rest)) == After(front + here, rest)
  {
    if rest.Ok? {
      assert front + (here + rest.value) == (front + here) + rest.value;
    }
  }

  lemma {:induction false} LiveConcat(a: seq<Record>, b: seq<Record>)
    ensures Live(a + b) == Live(a) + Live(b)
  {
    if a == [] {
      assert a + b == b && Live(a) == [] && [] + Live(b) == Live(b);
    } else {
      hide Live, LiveOne;
      var rest := a[1..];
      LiveConcat(rest, b);
      LiveCons(a[0], rest + b);
      LiveCons(a[0], rest);
      assert [a[0]] + rest == a && [a[0]] + (rest + b) == a + b;
      ConcatAssoc(LiveOne(a[0]), Live(rest), Live(b));
    }
  }

  lemma OnlyDotsConcat(a: seq<Entry>, b: seq<Entry>)
    ensures OnlyDots(a + b) <==> OnlyDots(a) && OnlyDots(b)
  {
    if OnlyDots(a + b) {
      assert forall i :: 0 <= i < |a| ==> (a + b)[i] == a[i];
      assert forall i :: 0 <= i < |b| ==> (a + b)[|a| + i] == b[i];
    }
  }

  /** An entry that can be visited: a dot entry, or a name the driver accepts. */
  predicate Clean(e: Entry) {
    IsDot(e.name) || SafeComponent(e.name)
  }

  predicate AllClean(es: seq<Entry>) {
    forall i :: 0 <= i < |es| ==> Clean(es[i])
  }

  /** An entry that leads to an inode of the disk, and if it is a name, to a file or a directory. */
  predicate Sound(md: Metadata, d: seq<Block>, e: Entry)
    requires Mounted(md) && Sized(md, d)
  {
    && e.inode <= md.inodesCount
    && (!IsDot(e.name) && SafeComponent(e.name) ==>
          var inode := ReadInode(md, d, e.inode);
          inode.Ok? && (inode.value.IsDirectory() || inode.value.IsFile()))
  }

  predicate AllSound(md: Metadata, d: seq<Block>, es: seq<Entry>)
    requires Mounted(md) && Sized(md, d)
  {
    forall i :: 0 <= i < |es| ==> Sound(md, d, es[i])
  }

  lemma CleanConcat(a: seq<Entry>, b: seq<Entry>)
    ensures AllClean(a + b) <==> AllClean(a) && AllClean(b)
  {
    hide Clean;
    if AllClean(a + b) {
      assert forall i :: 0 <= i < |a| ==> (a + b)[i] == a[i];
      assert forall i :: 0 <= i < |b| ==> (a + b)[|a| + i] == b[i];
    }
  }

  lemma SoundConcat(md: Metadata, d: seq<Block>, a: seq<Entry>, b: seq<Entry>)
    requires Mounted(md) && Sized(md, d)
    ensures AllSound(md, d, a + b) <==> AllSound(md, d, a) && AllSound(md, d, b)
  {
    hide Sound;
    if AllSound(md, d, a + b) {
      assert forall i :: 0 <= i < |a| ==> (a + b)[i] == a[i];
      assert forall i :: 0 <= i < |b| ==> (a + b)[|a| + i] == b[i];
    }
  }

  /** The one error a visit of these entries can report, if they are sound. */
  predicate Spoiled(md: Metadata, d: seq<Block>, es: seq<Entry>, e: Ext2Error)
    requires Mounted(md) && Sized(md, d)
  {
    AllSound(md, d, es) ==> e == UnsupportedFeature && !AllClean(es)
  }

  /** An error among some of the entries is an error of them all. */
  lemma SpoiledMore(md: Metadata, d: seq<Block>, a: seq<Entry>, b: seq<Entry>, c: seq<Entry>, e: Ext2Error)
    requires Mounted(md) && Sized(md, d) && Spoiled(md, d, b, e)
    ensures Spoiled(md, d, a + (b + c), e)
  {
    hide AllSound, AllClean;
    SoundConcat(md, d, b, c);
    SoundConcat(md, d, a, b + c);
    CleanConcat(b, c);
    CleanConcat(a, b + c);
  }

  /** One live record: a dot entry is skipped, anything else must be a file or a directory. */
  method VisitRecord(disk: Disk, md: Metadata, rec: Record) returns (r: Result<bool>)
    requires Mounted(md) && Sized(md, disk.blocks)
    ensures r.Ok? ==> (r.value <==> OnlyDots(LiveOne(rec))) && AllClean(LiveOne(rec))
    ensures r.Err? ==> disk.Fails(r.error) || Spoiled(md, disk.blocks, LiveOne(rec), r.error)
  {
    hide ReadInode;
    if rec.inode == 0 {
      return Ok(true);
    }
    assert LiveOne(rec)[0].name == rec.name && LiveOne(rec)[0].inode == rec.inode;
    if rec.inode > md.inodesCount {
      return Err(InvalidFilesystem);
    }
    if IsDot(rec.name) {
      return Ok(true);
    }
    if !SafeComponent(rec.name) {
      return Err(UnsupportedFeature);
    }
    var inode :- LoadInode(disk, md, rec.inode);
    if !inode.IsDirectory() && !inode.IsFile() {
      return Err(UnsupportedFeature);
    }
    r := Ok(false);
  }

  method BlockIsEmpty(disk: Disk, md: Metadata, block: Block, valid: nat) returns (r: Result<bool>)
    requires Mounted(md) && Sized(md, disk.blocks) && valid <= |block|
    ensures r.Ok? ==> Records(md, block, 0, valid).Ok? && (r.value <==> OnlyDots(Live(Records(md, block, 0, valid).value)))
                      && AllClean(Live(Records(md, block, 0, valid).value))
    ensures r.Err? && Records(md, block, 0, valid).Ok? ==> disk.Fails(r.error) || Spoiled(md, disk.blocks, Live(Records(md, block, 0, valid).value), r.error)
  {
    hide RecordAt, OnlyDots, LiveOne, AllClean, Spoiled;
    var offset := 0;
    var empty := true;
    ghost var seen: seq<Record> := [];
    AfterNone(Records(md, block, 0, valid));
    while offset + 8 <= valid
      invariant offset <= valid
      invariant Records(md, block, 0, valid) == After(seen, Records(md, block, offset, valid))
      invariant (empty <==> OnlyDots(Live(seen))) && AllClean(Live(seen))
      decreases valid - offset
    {
      hide Live;
      var rec :- RecordAt(md, block, offset, valid);
      var dots := VisitRecord(disk, md, rec);
      if dots.Err? {
        ghost var rest := Records(md, block, offset + rec.len, valid);
        if rest.Ok? && !disk.Fails(dots.error) {
          LiveCons(rec, rest.value);
          LiveConcat(seen, [rec] + rest.value);
          SpoiledMore(md, disk.blocks, Live(seen), LiveOne(rec), Live(rest.value), dots.error);
        }
        return dots;
      }
      empty := empty && dots.value;
      AfterStep(seen, [rec], Records(md, block, offset + rec.len, valid));
      LiveConcat(seen, [rec]);
      LiveSingle(rec);
      OnlyDotsConcat(Live(seen), LiveOne(rec));
      CleanConcat(Live(seen), LiveOne(rec));
      seen := seen + [rec];
      offset := offset + rec.len;
    }
    assert seen + [] == seen;
    r := Ok(empty);
  }

  lemma AfterNone<T>(r: Result<seq<T>>)
    ensures r == After([], r)
    ensures OnlyDots(Live([])) && OnlyDots([]) && AllClean(Live([])) && AllClean([])
  {
    if r.Ok? {
      assert [] + r.value == r.value;
    }
  }

  lemma LiveSingle(rec: Record)
    ensures Live([rec]) == LiveOne(rec)
  {
    LiveCons(rec, []);
    assert [rec] + [] == [rec];
    assert LiveOne(rec) + Live([]) == LiveOne(rec);
  }

  /** `for_each_child` with a visitor that only notes that it was called. */
  method DirectoryIsEmpty(disk: Disk, md: Metadata, dir: Inode) returns (r: Result<bool>)
    requires Mounted(md) && Sized(md, disk.blocks) && dir.IsDirectory()
    ensures r.Ok? ==> Entries(md, disk.blocks, dir).Ok? && (r.value <==> OnlyDots(Entries(md, disk.blocks, dir).value))
                      && AllClean(Entries(md, disk.blocks, dir).value)
    ensures r.Err? && Entries(md, disk.blocks, dir).Ok? ==> disk.Fails(r.error) || Spoiled(md, disk.blocks, Entries(md, disk.blocks, dir).value, r.error)
  {
    hide OnlyDots, Records, Live, AllClean, Spoiled;
    var count :- InodeBlockCount(md, dir);
    var remaining := dir.size;
    var cache := new PointerCache();
    var empty := true;
    ghost var seen: seq<Entry> := [];
    AfterNone(EntriesFrom(md, disk.blocks, dir, 0, count));
    var k := 0;
    while k < count
      invariant k <= count && cache.Valid(md, disk.blocks)
      invariant remaining == if dir.size <= k * md.blockSize then 0 else dir.size - k * md.blockSize
      invariant EntriesFrom(md, disk.blocks, dir, 0, count) == After(seen, EntriesFrom(md, disk.blocks, dir, k, count))
      invariant (empty <==> OnlyDots(seen)) && AllClean(seen)
    {
      hide DirectoryBlock;
      var block :- ReadDirectoryBlock(disk, md, cache, dir, k);
      var dots := BlockIsEmpty(disk, md, block, Min(remaining, md.blockSize));
      if dots.Err? {
        ghost var all, rest := BlockEntries(md, disk.blocks, dir, k), EntriesFrom(md, disk.blocks, dir, k + 1, count);
        if all.Ok? && rest.Ok? && !disk.Fails(dots.error) {
          SpoiledMore(md, disk.blocks, seen, all.value, rest.value, dots.error);
        }
        return dots;
      }
      ghost var here := BlockEntries(md, disk.blocks, dir, k).value;
      AfterStep(seen, here, EntriesFrom(md, disk.blocks, dir, k + 1, count));
      OnlyDotsConcat(seen, here);
      CleanConcat(seen, here);
      seen := seen + here;
      empty := empty && dots.value;
      assert (k + 1) * md.blockSize == k * md.blockSize + md.blockSize;
      remaining := if remaining <= md.blockSize then 0 else remaining - md.blockSize;
      k := k + 1;
    }
    assert seen + [] == seen;
    r := Ok(empty);
  }
}
