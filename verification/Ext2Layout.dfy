/** Laying a file out in free blocks: taking the blocks, then writing data and pointer blocks into them. */
module Ext2Layout {
  import opened Bytes
  import opened Numbers
  import opened Ext2Disk
  import opened Ext2Pointers
  import opened Ext2Owned
  import opened Ext2Inodes
  import opened Ext2Bitmap
  import opened Ext2Plan

  function IfNeeded(b: u32): seq<u32> {
    if b != 0 then [b] else []
  }

  method AllocateIfNeeded(md: Metadata, bitmap: Block, needed: bool) returns (r: Result<(u32, Block)>)
    requires Writable(md) && IsBitmap(bitmap)
    ensures r.Ok? ==> IsBitmap(r.value.1) && Took(md, bitmap, r.value.1, IfNeeded(r.value.0)) && (r.value.0 != 0 <==> needed)
    ensures r.Err? ==> r.error == NoSpace && needed && FreeBlocks(md, bitmap) == 0
  {
    if needed {
      r := AllocateDataBlock(md, bitmap);
      if r.Ok? {
        TookNonZero(md, bitmap, r.value.1, [r.value.0]);
        assert [r.value.0][0] != 0;
      }
    } else {
      TookNone(md, bitmap);
      r := Ok((0, bitmap));
    }
  }

  lemma TookNonZero(md: Metadata, before: Block, after: Block, blocks: seq<u32>)
    requires Writable(md) && IsBitmap(before) && IsBitmap(after) && Took(md, before, after, blocks)
    ensures forall i :: 0 <= i < |blocks| ==> blocks[i] != 0
  {
  }

  /** How many blocks a file of the given length takes, data and pointers. */
  function BlocksNeeded(bytes: nat): nat {
    var blocks := BlocksFor(bytes);
    (if blocks > DIRECT_BLOCKS then 1 else 0) + (if LeavesFor(blocks) != 0 then 1 else 0) + LeavesFor(blocks) + blocks
  }

  lemma IfNeededSize(b: u32)
    ensures |IfNeeded(b)| == if b != 0 then 1 else 0
  {
  }

  /** The blocks of a file of the given length, taken from the in-memory bitmap in the driver's order. */
  method AllocatePlan(md: Metadata, bitmap: Block, bytes: nat, faulty: bool) returns (r: Result<(Plan, Block)>)
    requires Writable(md) && IsBitmap(bitmap) && BlocksFor(bytes) <= MAX_BLOCKS
    ensures r.Ok? ==> Fits(r.value.0, bytes) && IsBitmap(r.value.1) && Took(md, bitmap, r.value.1, Taken(r.value.0))
    ensures r.Ok? ==> |Taken(r.value.0)| == BlocksNeeded(bytes) <= FreeBlocks(md, bitmap)
    ensures r.Err? ==> (faulty && Fault(r.error)) || (r.error == NoSpace && FreeBlocks(md, bitmap) < BlocksNeeded(bytes))
  {
    hide Took, IfNeeded, FreeBlocks;
    var heapFull: bool := *;
    if faulty && heapFull {
      return Err(AllocationFailed);
    }
    var blocks := BlocksFor(bytes);
    var leafCount := LeavesFor(blocks);
    var single :- AllocateIfNeeded(md, bitmap, blocks > DIRECT_BLOCKS);
    IfNeededSize(single.0);
    TookSize(md, bitmap, single.1, IfNeeded(single.0));
    var double :- AllocateIfNeeded(md, single.1, leafCount != 0);
    IfNeededSize(double.0);
    TookSize(md, single.1, double.1, IfNeeded(double.0));
    var leaves :- AllocateDataBlocks(md, double.1, leafCount);
    TookSize(md, double.1, leaves.1, leaves.0);
    var data :- AllocateDataBlocks(md, leaves.1, blocks);
    TookSize(md, leaves.1, data.1, data.0);
    NeverMore(md, data.1);
    ghost var a, b := IfNeeded(single.0), IfNeeded(double.0);
    TookMore(md, bitmap, single.1, double.1, a, b);
    TookMore(md, bitmap, double.1, leaves.1, a + b, leaves.0);
    TookMore(md, bitmap, leaves.1, data.1, a + b + leaves.0, data.0);
    TookNonZero(md, double.1, leaves.1, leaves.0);
    TookNonZero(md, leaves.1, data.1, data.0);
    var plan := Plan(single.0, double.0, leaves.0, data.0);
    assert Taken(plan) == a + b + leaves.0 + data.0 by { TakenParts(plan); }
    r := Ok((plan, data.1));
  }

  lemma TakenParts(plan: Plan)
    ensures Taken(plan) == IfNeeded(plan.single) + IfNeeded(plan.double) + plan.leaves + plan.data
  {
  }

  method BuildTable(ws: seq<u32>) returns (s: Block)
    requires |ws| == PER_BLOCK
    ensures s == EncWords(ws)
  {
    hide EncWords, Enc32;
    s := Zeros(BLOCK);
    assert |EncWords(ws[..0])| == 0;
    ghost var zeros := s;
    for i := 0 to PER_BLOCK
      invariant s == Splice(zeros, 0, EncWords(ws[..i]))
    {
      EncWordsSnoc(zeros, 0, ws[..i], ws[i]);
      assert ws[..i] + [ws[i]] == ws[..i + 1];
      s := Splice(s, 4 * i, Enc32(ws[i]));
    }
    assert ws[..PER_BLOCK] == ws;
  }

  /** Every block outside `blocks` is as it was. */
  ghost predicate OnlyWrote(d: seq<Block>, d': seq<Block>, blocks: seq<u32>) {
    |d'| == |d| && forall b: nat :: b < |d| && b !in Set(blocks) ==> d'[b] == d[b]
  }

  method WriteChunks(disk: Disk, md: Metadata, data: seq<u32>, contents: seq<byte>) returns (r: Result<()>)
    requires Writable(md) && Sized(md, disk.blocks)
    requires |data| == BlocksFor(|contents|) && Distinct(data) && OnDisk(md, data)
    modifies disk
    ensures Sized(md, disk.blocks) && OnlyWrote(old(disk.blocks), disk.blocks, data)
    ensures r.Ok? ==> forall i :: 0 <= i < |data| ==> disk.blocks[data[i]] == ChunkOf(contents, i)
    ensures r.Err? ==> r.error == DiskFault && disk.faulty
  {
    for k := 0 to |data|
      invariant Sized(md, disk.blocks) && OnlyWrote(old(disk.blocks), disk.blocks, data)
      invariant forall i :: 0 <= i < k ==> disk.blocks[data[i]] == ChunkOf(contents, i)
    {
      var end := Min(BLOCK * (k + 1), |contents|);
      var block := Splice(Zeros(BLOCK), 0, contents[BLOCK * k..end]);
      assert block == ChunkOf(contents, k);
      assert data[k] as nat in Set(data);
      var _ :- disk.Write(md, data[k], block);
    }
    r := Ok(());
  }

  method WriteLeaves(disk: Disk, md: Metadata, plan: Plan) returns (r: Result<()>)
    requires Writable(md) && Sized(md, disk.blocks)
    requires Distinct(plan.leaves) && OnDisk(md, plan.leaves)
    modifies disk
    ensures Sized(md, disk.blocks) && OnlyWrote(old(disk.blocks), disk.blocks, plan.leaves)
    ensures r.Ok? ==> forall o :: 0 <= o < |plan.leaves| ==>
                                    disk.blocks[plan.leaves[o]] == TableOf(plan, SINGLE_CAPACITY + PER_BLOCK * o)
    ensures r.Err? ==> r.error == DiskFault && disk.faulty
  {
    hide EncWords;
    for k := 0 to |plan.leaves|
      invariant Sized(md, disk.blocks) && OnlyWrote(old(disk.blocks), disk.blocks, plan.leaves)
      invariant forall o :: 0 <= o < k ==> disk.blocks[plan.leaves[o]] == TableOf(plan, SINGLE_CAPACITY + PER_BLOCK * o)
    {
      var table := BuildTable(Window(plan.data, SINGLE_CAPACITY + PER_BLOCK * k, PER_BLOCK));
      assert plan.leaves[k] as nat in Set(plan.leaves);
      var _ :- disk.Write(md, plan.leaves[k], table);
    }
    r := Ok(());
  }

  /** The parts of a plan whose blocks are all different do not overlap. */
  lemma PartsApart(plan: Plan)
    requires Distinct(Taken(plan))
    ensures Distinct(plan.data) && Distinct(plan.leaves)
    ensures Set(plan.data) !! Set(plan.leaves)
    ensures plan.single != 0 ==> plan.single as nat !in Set(plan.data) && plan.single as nat !in Set(plan.leaves) && plan.single != plan.double
    ensures plan.double != 0 ==> plan.double as nat !in Set(plan.data) && plan.double as nat !in Set(plan.leaves)
    ensures Set(Taken(plan)) == Set(Pointers(plan)) + Set(plan.leaves) + Set(plan.data)
    ensures plan.single != 0 ==> plan.single as nat in Set(Pointers(plan))
    ensures plan.double != 0 ==> plan.double as nat in Set(Pointers(plan))
  {
    var s, p := Taken(plan), Pointers(plan);
    assert s == p + plan.leaves + plan.data;
    SetConcat(p + plan.leaves, plan.data);
    SetConcat(p, plan.leaves);
    DistinctParts(p + plan.leaves, plan.data);
    DistinctParts(p, plan.leaves);
    assert plan.single != 0 ==> p[0] == plan.single;
    assert plan.double != 0 ==> p[|p| - 1] == plan.double;
  }

  function Pointers(plan: Plan): seq<u32> {
    (if plan.single != 0 then [plan.single] else []) + (if plan.double != 0 then [plan.double] else [])
  }

  lemma DistinctParts(a: seq<u32>, b: seq<u32>)
    requires Distinct(a + b)
    ensures Distinct(a) && Distinct(b) && Set(a) !! Set(b)
  {
    assert forall i :: 0 <= i < |a| ==> (a + b)[i] == a[i];
    assert forall i :: 0 <= i < |b| ==> (a + b)[|a| + i] == b[i];
  }

  method WriteSingle(disk: Disk, md: Metadata, plan: Plan) returns (r: Result<()>)
    requires Writable(md) && Sized(md, disk.blocks) && (plan.single != 0 ==> plan.single < md.blocksCount)
    modifies disk
    ensures Sized(md, disk.blocks) && OnlyWrote(old(disk.blocks), disk.blocks, IfNeeded(plan.single))
    ensures r.Ok? && plan.single != 0 ==> disk.blocks[plan.single] == TableOf(plan, DIRECT_BLOCKS)
    ensures r.Err? ==> r.error == DiskFault && disk.faulty
  {
    hide EncWords;
    r := Ok(());
    if plan.single != 0 {
      assert [plan.single][0] as nat in Set([plan.single]);
      var table := BuildTable(Window(plan.data, DIRECT_BLOCKS, PER_BLOCK));
      r := disk.Write(md, plan.single, table);
    }
  }

  method WriteDouble(disk: Disk, md: Metadata, plan: Plan) returns (r: Result<()>)
    requires Writable(md) && Sized(md, disk.blocks)
    requires Distinct(plan.leaves) && OnDisk(md, plan.leaves) && (plan.double != 0 ==> plan.double as nat !in Set(plan.leaves))
    requires |plan.leaves| != 0 <==> plan.double != 0
    requires plan.double < md.blocksCount
    modifies disk
    ensures Sized(md, disk.blocks) && OnlyWrote(old(disk.blocks), disk.blocks, plan.leaves + IfNeeded(plan.double))
    ensures r.Ok? ==> forall o :: 0 <= o < |plan.leaves| ==>
                                    disk.blocks[plan.leaves[o]] == TableOf(plan, SINGLE_CAPACITY + PER_BLOCK * o)
    ensures r.Ok? && plan.double != 0 ==> disk.blocks[plan.double] == EncWords(Window(plan.leaves, 0, PER_BLOCK))
    ensures r.Err? ==> r.error == DiskFault && disk.faulty
  {
    hide EncWords;
    SetConcat(plan.leaves, IfNeeded(plan.double));
    r := Ok(());
    if |plan.leaves| != 0 {
      assert [plan.double][0] as nat in Set([plan.double]);
      var root := BuildTable(Window(plan.leaves, 0, PER_BLOCK));
      var _ :- WriteLeaves(disk, md, plan);
      r := disk.Write(md, plan.double, root);
    }
  }

  /** The three groups of writes leave each other's blocks alone. */
  lemma WritesCombine(md: Metadata, d: seq<Block>, d1: seq<Block>, d2: seq<Block>, d3: seq<Block>, plan: Plan)
    requires Distinct(Taken(plan))
    requires OnlyWrote(d, d1, plan.data) && OnlyWrote(d1, d2, IfNeeded(plan.single))
    requires OnlyWrote(d2, d3, plan.leaves + IfNeeded(plan.double))
    ensures OnlyWrote(d, d1, Taken(plan)) && OnlyWrote(d, d2, Taken(plan)) && OnlyWrote(d, d3, Taken(plan))
    ensures forall i :: 0 <= i < |plan.data| && plan.data[i] < |d| ==> d3[plan.data[i]] == d1[plan.data[i]]
    ensures plan.single != 0 && plan.single < |d| ==> d3[plan.single] == d2[plan.single]
  {
    PartsApart(plan);
    PointerSets(plan);
    assert forall i :: 0 <= i < |plan.data| ==> plan.data[i] as nat in Set(plan.data);
    hide Set, Distinct, Taken, IfNeeded, Pointers;
  }

  lemma PointerSets(plan: Plan)
    ensures Set(IfNeeded(plan.single)) == (if plan.single != 0 then {plan.single as nat} else {})
    ensures Set(IfNeeded(plan.double)) == (if plan.double != 0 then {plan.double as nat} else {})
    ensures Set(Pointers(plan)) == Set(IfNeeded(plan.single)) + Set(IfNeeded(plan.double))
    ensures Set(plan.leaves + IfNeeded(plan.double)) == Set(plan.leaves) + Set(IfNeeded(plan.double))
  {
    SetAppend([], plan.single);
    SetAppend([], plan.double);
    assert [] + [plan.single] == [plan.single] && [] + [plan.double] == [plan.double];
    SetConcat(IfNeeded(plan.single), IfNeeded(plan.double));
    SetConcat(plan.leaves, IfNeeded(plan.double));
  }

  /** Data first, then the single-indirect table, the leaves, and the root last. */
  method WritePlan(disk: Disk, md: Metadata, plan: Plan, contents: seq<byte>) returns (r: Result<()>)
    requires Writable(md) && Sized(md, disk.blocks)
    requires Fits(plan, |contents|) && Proper(md, Taken(plan))
    modifies disk
    ensures Sized(md, disk.blocks) && OnlyWrote(old(disk.blocks), disk.blocks, Taken(plan))
    ensures r.Ok? ==> Stored(md, disk.blocks, plan, contents)
    ensures r.Err? ==> r.error == DiskFault && disk.faulty
  {
    hide Distinct, Taken, EncWords, TableOf, OnlyWrote, Set;
    PartsApart(plan);
    TakenOnDisk(md, plan);
    ghost var d := disk.blocks;
    r := WriteChunks(disk, md, plan.data, contents);
    ghost var d1 := disk.blocks;
    Unchanged(d1);
    if r.Err? {
      WritesCombine(md, d, d1, d1, d1, plan);
      return;
    }
    r := WriteSingle(disk, md, plan);
    ghost var d2 := disk.blocks;
    if r.Err? {
      Unchanged(d2);
      WritesCombine(md, d, d1, d2, d2, plan);
      return;
    }
    r := WriteDouble(disk, md, plan);
    WritesCombine(md, d, d1, d2, disk.blocks, plan);
  }

  lemma Unchanged(d: seq<Block>)
    ensures forall s: seq<u32> :: OnlyWrote(d, d, s)
  {
  }
}
