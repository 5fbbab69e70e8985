/** The list of names a directory defines, over all its blocks, and what searching it means. */
module Ext2Entries {
  import opened Bytes
  import opened Options
  import opened Ext2Disk
  import opened Ext2Pointers
  import opened Ext2Owned
  import opened Ext2Records
  import opened Ext2RecordProofs
  import opened Ext2Directory

  function BlockEntries(md: Metadata, d: seq<Block>, dir: Inode, k: nat): Result<seq<Entry>>
    requires Mounted(md) && Sized(md, d)
  {
    var block :- DirectoryBlock(md, d, dir, k);
    var rs :- Records(md, block, 0, ValidBytes(md, dir, k));
    Ok(Live(rs))
  }

  function EntriesFrom(md: Metadata, d: seq<Block>, dir: Inode, k: nat, count: nat): Result<seq<Entry>>
    requires Mounted(md) && Sized(md, d) && k <= count
    decreases count - k
  {
    if k == count then Ok([])
    else
      var here :- BlockEntries(md, d, dir, k);
      var rest :- EntriesFrom(md, d, dir, k + 1, count);
      Ok(here + rest)
  }

  function Entries(md: Metadata, d: seq<Block>, dir: Inode): Result<seq<Entry>>
    requires Mounted(md) && Sized(md, d)
  {
    var count :- InodeBlockCount(md, dir);
    EntriesFrom(md, d, dir, 0, count)
  }

  /** The first entry called `name`. */
  function FindName(es: seq<Entry>, name: seq<byte>): Option<u32> {
    if es == [] then None
    else if es[0].name == name then Some(es[0].inode)
    else FindName(es[1..], name)
  }

  lemma {:induction false} FindNameConcat(a: seq<Entry>, b: seq<Entry>, name: seq<byte>)
    ensures FindName(a + b, name) == if FindName(a, name).Some? then FindName(a, name) else FindName(b, name)
  {
    if a == [] {
      assert a + b == b;
    } else {
      FindNameConcat(a[1..], b, name);
      assert (a + b)[1..] == a[1..] + b;
    }
  }

  predicate InodesKnown(md: Metadata, es: seq<Entry>) {
    forall i :: 0 <= i < |es| ==> es[i].inode <= md.inodesCount
  }

  lemma {:induction false} ScanIsFind(md: Metadata, block: Block, o: nat, valid: nat, name: seq<byte>)
    requires o <= valid <= |block|
    requires Records(md, block, o, valid).Ok?
    requires InodesKnown(md, Live(Records(md, block, o, valid).value))
    ensures ScanBlock(md, block, o, valid, name) == Ok(FindName(Live(Records(md, block, o, valid).value), name))
    decreases valid - o
  {
    hide RecordAt, Live, FindName;
    if o + 8 > valid {
      EmptyFind(name);
    } else {
      var r := RecordAt(md, block, o, valid).value;
      var tail := Records(md, block, o + r.len, valid).value;
      LiveCons(r, tail);
      assert forall i :: 0 <= i < |Live(tail)| ==> Live(tail)[i] == Live([r] + tail)[|LiveOne(r)| + i];
      ScanIsFind(md, block, o + r.len, valid, name);
      ConsFind(r, Live(tail), name);
      assert r.inode != 0 ==> (LiveOne(r) + Live(tail))[0].inode == r.inode;
    }
  }

  lemma ConsFind(r: Record, tail: seq<Entry>, name: seq<byte>)
    ensures FindName(LiveOne(r) + tail, name) == if r.inode != 0 && r.name == name then Some(r.inode) else FindName(tail, name)
  {
    FindNameConcat(LiveOne(r), tail, name);
  }

  lemma {:induction false} FindFromIsFind(md: Metadata, d: seq<Block>, dir: Inode, k: nat, count: nat, name: seq<byte>)
    requires Mounted(md) && Sized(md, d) && k <= count
    requires EntriesFrom(md, d, dir, k, count).Ok? && InodesKnown(md, EntriesFrom(md, d, dir, k, count).value)
    ensures FindFrom(md, d, dir, k, count, name) == Ok(FindName(EntriesFrom(md, d, dir, k, count).value, name))
    decreases count - k
  {
    hide DirectoryBlock, ScanBlock, Records, Live, FindName, ValidBytes;
    if k == count {
      EmptyFind(name);
    } else {
      var block := DirectoryBlock(md, d, dir, k).value;
      var here := Live(Records(md, block, 0, ValidBytes(md, dir, k)).value);
      var rest := EntriesFrom(md, d, dir, k + 1, count).value;
      assert forall i :: 0 <= i < |here| ==> here[i] == (here + rest)[i];
      assert forall i :: 0 <= i < |rest| ==> rest[i] == (here + rest)[|here| + i];
      ScanIsFind(md, block, 0, ValidBytes(md, dir, k), name);
      FindFromIsFind(md, d, dir, k + 1, count, name);
      FindNameConcat(here, rest, name);
    }
  }

  lemma EmptyFind(name: seq<byte>)
    ensures Live([]) == [] && FindName([], name) == None
  {
  }

  /** Searching a well-formed directory finds the first entry of that name, or nothing. */
  lemma FindChildIsFind(md: Metadata, d: seq<Block>, dir: Inode, name: seq<byte>)
    requires Mounted(md) && Sized(md, d) && dir.IsDirectory()
    requires Entries(md, d, dir).Ok? && InodesKnown(md, Entries(md, d, dir).value)
    ensures FindChild(md, d, dir, name) == Ok(FindName(Entries(md, d, dir).value, name))
  {
    hide EntriesFrom, FindFrom;
    FindFromIsFind(md, d, dir, 0, InodeBlockCount(md, dir).value, name);
  }

  // ---------- A directory's names stay inside the blocks it lists ----------

  lemma BlockEntriesAgree(md: Metadata, d: seq<Block>, d': seq<Block>, dir: Inode, k: nat)
    requires Mounted(md) && Sized(md, d) && Sized(md, d')
    requires Agree(d, d', Listed(md, d, dir))
    ensures BlockEntries(md, d', dir, k) == BlockEntries(md, d, dir, k)
  {
    hide DataBlock, Listed, Agree, Records, Live, ValidBytes;
    DataBlockAgree(md, d, d', dir, k);
    var b := DataBlock(md, d, dir, k);
    if b.Ok? && b.value != 0 && b.value < md.blocksCount {
      DataBlockListed(md, d, dir, k, b.value);
      AgreeMember(d, d', Listed(md, d, dir), b.value);
    }
  }

  lemma {:induction false} EntriesFromAgree(md: Metadata, d: seq<Block>, d': seq<Block>, dir: Inode, k: nat, count: nat)
    requires Mounted(md) && Sized(md, d) && Sized(md, d') && k <= count
    requires Agree(d, d', Listed(md, d, dir))
    ensures EntriesFrom(md, d', dir, k, count) == EntriesFrom(md, d, dir, k, count)
    decreases count - k
  {
    hide BlockEntries, Listed, Agree;
    if k < count {
      BlockEntriesAgree(md, d, d', dir, k);
      EntriesFromAgree(md, d, d', dir, k + 1, count);
    }
  }

  lemma EntriesAgree(md: Metadata, d: seq<Block>, d': seq<Block>, dir: Inode)
    requires Mounted(md) && Sized(md, d) && Sized(md, d')
    requires Agree(d, d', Listed(md, d, dir))
    ensures Entries(md, d', dir) == Entries(md, d, dir)
  {
    hide EntriesFrom, Listed, Agree;
    var count := InodeBlockCount(md, dir);
    if count.Ok? {
      EntriesFromAgree(md, d, d', dir, 0, count.value);
    }
  }

  /** A directory of exactly one full block: its names are those of that block. */
  lemma OneBlockEntries(md: Metadata, d: seq<Block>, dir: Inode)
    requires Mounted(md) && Sized(md, d)
    requires dir.size == md.blockSize && dir.blocks[0] != 0 && dir.blocks[0] < md.blocksCount
    ensures Entries(md, d, dir) ==
            (var rs := Records(md, d[dir.blocks[0]], 0, md.blockSize); if rs.Ok? then Ok(Live(rs.value)) else Err(rs.error))
  {
    hide Records, Live;
    assert InodeBlockCount(md, dir) == Ok(1);
    assert DataBlock(md, d, dir, 0) == Ok(dir.blocks[0]);
    var here := BlockEntries(md, d, dir, 0);
    assert EntriesFrom(md, d, dir, 1, 1) == Ok([]);
    assert here.Ok? ==> here.value + [] == here.value;
  }
}
