/** The blocks an inode owns: data, indirect, double-indirect and leaf blocks. */
module Ext2Owned {
  import opened Bytes
  import opened Numbers
  import opened Ext2Disk
  import opened Ext2Pointers

  /** The pointers stored in block `b`; none if `b` is not on the disk. */
  function Words(md: Metadata, d: seq<Block>, b: nat): (ws: seq<u32>)
    requires Mounted(md) && Sized(md, d)
    ensures b < md.blocksCount ==> |ws| == PointersPerBlock(md)
  {
    if b < md.blocksCount then
      seq(PointersPerBlock(md), (i: nat) requires i < PointersPerBlock(md) => Le32(d[b], 4 * i))
    else []
  }

  function NonZero(ws: seq<u32>): (r: seq<u32>) {
    if ws == [] then []
    else if ws[0] == 0 then NonZero(ws[1..])
    else [ws[0]] + NonZero(ws[1..])
  }

  lemma {:induction false} NonZeroNone(ws: seq<u32>)
    requires forall i :: 0 <= i < |ws| ==> ws[i] == 0
    ensures NonZero(ws) == []
  {
    if ws != [] {
      NonZeroNone(ws[1..]);
    }
  }

  lemma {:induction false} NonZeroMembers(ws: seq<u32>, w: u32)
    ensures w in NonZero(ws) <==> w != 0 && w in ws
  {
    if ws != [] {
      NonZeroMembers(ws[1..], w);
      assert ws == [ws[0]] + ws[1..];
    }
  }

  lemma {:induction false} NonZeroSplit(a: seq<u32>, b: seq<u32>)
    ensures NonZero(a + b) == NonZero(a) + NonZero(b)
  {
    if a == [] {
      assert a + b == b;
    } else {
      NonZeroSplit(a[1..], b);
      assert (a + b)[1..] == a[1..] + b && (a + b)[0] == a[0];
      if a[0] != 0 {
        ConcatAssoc([a[0]], NonZero(a[1..]), NonZero(b));
      }
    }
  }

  /** The data below one leaf pointer, then the leaf itself. */
  function Leaf(md: Metadata, d: seq<Block>, root: u32): seq<u32>
    requires Mounted(md) && Sized(md, d)
  {
    if root == 0 then [] else NonZero(Words(md, d, root)) + [root]
  }

  /** The blocks below a double-indirect root, leaf by leaf. */
  function Leaves(md: Metadata, d: seq<Block>, roots: seq<u32>): (r: seq<u32>)
    requires Mounted(md) && Sized(md, d)
  {
    if roots == [] then [] else Leaf(md, d, roots[0]) + Leaves(md, d, roots[1..])
  }

  function DirectPart(inode: Inode): seq<u32> {
    NonZero(inode.blocks)
  }

  function SinglePart(md: Metadata, d: seq<Block>, inode: Inode): seq<u32>
    requires Mounted(md) && Sized(md, d)
  {
    if inode.single == 0 then [] else NonZero(Words(md, d, inode.single)) + [inode.single]
  }

  function DoublePart(md: Metadata, d: seq<Block>, inode: Inode): seq<u32>
    requires Mounted(md) && Sized(md, d)
  {
    if inode.double == 0 then [] else Leaves(md, d, Words(md, d, inode.double)) + [inode.double]
  }

  /** Every block the inode points at, in the order `collect_file_allocations` meets them. */
  function Listed(md: Metadata, d: seq<Block>, inode: Inode): seq<u32>
    requires Mounted(md) && Sized(md, d)
  {
    DirectPart(inode) + SinglePart(md, d, inode) + DoublePart(md, d, inode)
  }

  predicate Distinct(s: seq<u32>) {
    forall i, j :: 0 <= i < j < |s| ==> s[i] != s[j]
  }

  predicate OnDisk(md: Metadata, s: seq<u32>) {
    forall i :: 0 <= i < |s| ==> s[i] < md.blocksCount
  }

  /** On the disk and no block twice. */
  predicate Proper(md: Metadata, s: seq<u32>) {
    Distinct(s) && OnDisk(md, s)
  }

  lemma ProperPrefix(md: Metadata, a: seq<u32>, b: seq<u32>)
    requires Proper(md, a + b)
    ensures Proper(md, a)
  {
    assert forall i :: 0 <= i < |a| ==> (a + b)[i] == a[i];
  }

  function Collect(md: Metadata, d: seq<Block>, inode: Inode): Result<seq<u32>>
    requires Mounted(md) && Sized(md, d)
  {
    if inode.size > Capacity(md) * md.blockSize then Err(UnsupportedFeature)
    else Gathered(md, Listed(md, d, inode))
  }

  function Gathered(md: Metadata, s: seq<u32>): Result<seq<u32>> {
    if Proper(md, s) then Ok(s) else Err(InvalidFilesystem)
  }

  lemma GatheredStops(md: Metadata, a: seq<u32>, b: seq<u32>)
    requires !Proper(md, a)
    ensures Gathered(md, a + b) == Err(InvalidFilesystem)
  {
    if Proper(md, a + b) { ProperPrefix(md, a, b); }
  }

  method PushUnique(md: Metadata, found: seq<u32>, b: u32) returns (r: Result<seq<u32>>)
    requires Proper(md, found)
    ensures r == Gathered(md, found + [b])
  {
    if b >= md.blocksCount || b in found {
      assert (found + [b])[|found|] == b;
      if b in found {
        ghost var i :| 0 <= i < |found| && found[i] == b;
        assert (found + [b])[i] == b;
      }
      return Err(InvalidFilesystem);
    }
    r := Ok(found + [b]);
  }

  method PushAll(md: Metadata, found: seq<u32>, ws: seq<u32>) returns (r: Result<seq<u32>>)
    requires Proper(md, found)
    ensures r == Gathered(md, found + NonZero(ws))
  {
    var acc := found;
    assert found + NonZero(ws[..0]) == found;
    for i := 0 to |ws|
      invariant Proper(md, acc)
      invariant acc == found + NonZero(ws[..i])
    {
      assert ws[..i + 1] == ws[..i] + [ws[i]];
      NonZeroSplit(ws[..i], [ws[i]]);
      if ws[i] != 0 {
        var next := PushUnique(md, acc, ws[i]);
        assert acc + [ws[i]] == found + NonZero(ws[..i + 1]);
        if next.Err? {
          assert ws == ws[..i + 1] + ws[i + 1..];
          NonZeroSplit(ws[..i + 1], ws[i + 1..]);
          assert found + NonZero(ws) == (acc + [ws[i]]) + NonZero(ws[i + 1..]);
          GatheredStops(md, acc + [ws[i]], NonZero(ws[i + 1..]));
          return next;
        }
        acc := next.value;
      } else {
        assert NonZero(ws[..i + 1]) == NonZero(ws[..i]);
      }
    }
    assert ws[..|ws|] == ws;
    r := Ok(acc);
  }

  /** The data of one indirect block, then the block itself. */
  method PushTable(disk: Disk, md: Metadata, found: seq<u32>, b: u32) returns (r: Result<seq<u32>>)
    requires Mounted(md) && Sized(md, disk.blocks) && Proper(md, found) && b != 0
    ensures Determined(disk.faulty, r, Gathered(md, found + (NonZero(Words(md, disk.blocks, b)) + [b])))
  {
    ghost var inside := NonZero(Words(md, disk.blocks, b));
    assert found + (inside + [b]) == (found + inside) + [b];
    if b >= md.blocksCount {
      assert (found + (inside + [b]))[|found| + |inside|] == b;
      return Err(InvalidFilesystem);
    }
    var table :- disk.Read(md, b);
    var all := PushAll(md, found, seq(PointersPerBlock(md), (i: nat) requires i < PointersPerBlock(md) => Le32(table, 4 * i)));
    if all.Err? {
      GatheredStops(md, found + inside, [b]);
      return all;
    }
    r := PushUnique(md, all.value, b);
  }

  lemma {:induction false} LeavesSplit(md: Metadata, d: seq<Block>, a: seq<u32>, b: seq<u32>)
    requires Mounted(md) && Sized(md, d)
    ensures Leaves(md, d, a + b) == Leaves(md, d, a) + Leaves(md, d, b)
  {
    hide Leaf, Mounted, Sized;
    if a == [] {
      assert a + b == b;
    } else {
      var rest := a[1..];
      LeavesSplit(md, d, rest, b);
      assert (a + b)[1..] == rest + b && (a + b)[0] == a[0];
      ConcatAssoc(Leaf(md, d, a[0]), Leaves(md, d, rest), Leaves(md, d, b));
    }
  }

  lemma SingleLeaf(md: Metadata, d: seq<Block>, root: u32)
    requires Mounted(md) && Sized(md, d)
    ensures Leaves(md, d, [root]) == Leaf(md, d, root)
  {
    hide Leaf, Mounted, Sized;
    assert [root][1..] == [];
    assert Leaf(md, d, root) + [] == Leaf(md, d, root);
  }

  lemma LeavesOne(md: Metadata, d: seq<Block>, roots: seq<u32>, i: nat)
    requires Mounted(md) && Sized(md, d) && i < |roots|
    ensures Leaves(md, d, roots[..i + 1]) == Leaves(md, d, roots[..i]) + Leaf(md, d, roots[i])
    ensures Leaves(md, d, roots) == Leaves(md, d, roots[..i + 1]) + Leaves(md, d, roots[i + 1..])
  {
    hide Leaf, Mounted, Sized, Leaves;
    assert roots[..i + 1] == roots[..i] + [roots[i]];
    LeavesSplit(md, d, roots[..i], [roots[i]]);
    SingleLeaf(md, d, roots[i]);
    assert roots == roots[..i + 1] + roots[i + 1..];
    LeavesSplit(md, d, roots[..i + 1], roots[i + 1..]);
  }

  method PushLeaves(disk: Disk, md: Metadata, found: seq<u32>, roots: seq<u32>) returns (r: Result<seq<u32>>)
    requires Mounted(md) && Sized(md, disk.blocks) && Proper(md, found)
    ensures Determined(disk.faulty, r, Gathered(md, found + Leaves(md, disk.blocks, roots)))
  {
    var acc := found;
    assert found + Leaves(md, disk.blocks, roots[..0]) == found;
    for i := 0 to |roots|
      invariant Proper(md, acc)
      invariant acc == found + Leaves(md, disk.blocks, roots[..i])
    {
      hide Words, NonZero, Leaves;
      LeavesOne(md, disk.blocks, roots, i);
      ConcatAssoc(found, Leaves(md, disk.blocks, roots[..i]), Leaf(md, disk.blocks, roots[i]));
      if roots[i] != 0 {
        var next := PushTable(disk, md, acc, roots[i]);
        if next.Err? {
          ghost var rest := Leaves(md, disk.blocks, roots[i + 1..]);
          ConcatAssoc(found, Leaves(md, disk.blocks, roots[..i + 1]), rest);
          if !disk.Fails(next.error) {
            GatheredStops(md, found + Leaves(md, disk.blocks, roots[..i + 1]), rest);
          }
          return next;
        }
        acc := next.value;
      } else {
        assert acc + [] == acc;
      }
    }
    assert roots[..|roots|] == roots;
    r := Ok(acc);
  }

  /** `collect_file_allocations`: every owned block once, or an error if the inode is malformed. */
  method CollectFileAllocations(disk: Disk, md: Metadata, inode: Inode) returns (r: Result<seq<u32>>)
    requires Mounted(md) && Sized(md, disk.blocks)
    ensures Determined(disk.faulty, r, Collect(md, disk.blocks, inode))
  {
    if inode.size > Capacity(md) * md.blockSize {
      return Err(UnsupportedFeature);
    }
    var heapFull: bool := *;
    if disk.faulty && heapFull {
      return Err(AllocationFailed);
    }
    ghost var direct, single, double := DirectPart(inode), SinglePart(md, disk.blocks, inode), DoublePart(md, disk.blocks, inode);
    assert Listed(md, disk.blocks, inode) == direct + (single + double);
    assert [] + direct == direct && direct + [] == direct;
    var found := PushAll(md, [], inode.blocks);
    if found.Err? {
      GatheredStops(md, direct, single + double);
      return found;
    }
    if inode.single != 0 {
      found := PushTable(disk, md, found.value, inode.single);
      if found.Err? {
        if !disk.Fails(found.error) {
          GatheredStops(md, direct + single, double);
        }
        return found;
      }
    }
    assert found.value == direct + single;
    if inode.double != 0 {
      r := PushDouble(disk, md, found.value, inode);
    } else {
      assert found.value + double == found.value;
      r := found;
    }
  }

  method PushDouble(disk: Disk, md: Metadata, found: seq<u32>, inode: Inode) returns (r: Result<seq<u32>>)
    requires Mounted(md) && Sized(md, disk.blocks) && Proper(md, found) && inode.double != 0
    ensures Determined(disk.faulty, r, Gathered(md, found + DoublePart(md, disk.blocks, inode)))
  {
    ghost var leaves := Leaves(md, disk.blocks, Words(md, disk.blocks, inode.double));
    assert found + (leaves + [inode.double]) == (found + leaves) + [inode.double];
    if inode.double >= md.blocksCount {
      assert ((found + leaves) + [inode.double])[|found| + |leaves|] == inode.double;
      return Err(InvalidFilesystem);
    }
    var root :- disk.Read(md, inode.double);
    var roots := seq(PointersPerBlock(md), (i: nat) requires i < PointersPerBlock(md) => Le32(root, 4 * i));
    assert roots == Words(md, disk.blocks, inode.double);
    var all := PushLeaves(disk, md, found, roots);
    if all.Err? {
      if !disk.Fails(all.error) {
        GatheredStops(md, found + leaves, [inode.double]);
      }
      return all;
    }
    r := PushUnique(md, all.value, inode.double);
  }

  // ---------- An inode's reads stay inside the blocks it lists ----------

  /** The two disks hold the same bytes in every listed block. */
  predicate Agree(d: seq<Block>, d': seq<Block>, s: seq<u32>) {
    |d| == |d'| && forall i :: 0 <= i < |s| && s[i] < |d| ==> d[s[i]] == d'[s[i]]
  }

  lemma AgreeMember(d: seq<Block>, d': seq<Block>, s: seq<u32>, b: u32)
    requires Agree(d, d', s) && b in s && b < |d|
    ensures d[b] == d'[b]
  {
  }

  lemma AgreeParts(d: seq<Block>, d': seq<Block>, a: seq<u32>, b: seq<u32>)
    ensures Agree(d, d', a + b) <==> Agree(d, d', a) && Agree(d, d', b)
  {
    var s := a + b;
    if Agree(d, d', s) {
      assert forall i :: 0 <= i < |a| ==> s[i] == a[i];
      assert forall i :: 0 <= i < |b| ==> s[|a| + i] == b[i];
    }
  }

  lemma {:induction false} LeavesAgree(md: Metadata, d: seq<Block>, d': seq<Block>, roots: seq<u32>)
    requires Mounted(md) && Sized(md, d) && Sized(md, d')
    requires Agree(d, d', Leaves(md, d, roots))
    ensures Leaves(md, d', roots) == Leaves(md, d, roots)
  {
    if roots != [] {
      var head := Leaf(md, d, roots[0]);
      AgreeParts(d, d', head, Leaves(md, d, roots[1..]));
      LeavesAgree(md, d, d', roots[1..]);
      if roots[0] != 0 {
        WordsAgree(md, d, d', head, roots[0]);
      }
    }
  }

  lemma WordsAgree(md: Metadata, d: seq<Block>, d': seq<Block>, s: seq<u32>, b: u32)
    requires Mounted(md) && Sized(md, d) && Sized(md, d')
    requires Agree(d, d', s) && b in s
    ensures Words(md, d, b) == Words(md, d', b)
  {
    if b < md.blocksCount {
      AgreeMember(d, d', s, b);
    }
  }

  /** An inode lists the same blocks on any disk that agrees with this one on the blocks it lists. */
  lemma ListedAgree(md: Metadata, d: seq<Block>, d': seq<Block>, inode: Inode)
    requires Mounted(md) && Sized(md, d) && Sized(md, d')
    requires Agree(d, d', Listed(md, d, inode))
    ensures Listed(md, d', inode) == Listed(md, d, inode)
  {
    var direct, single, double := DirectPart(inode), SinglePart(md, d, inode), DoublePart(md, d, inode);
    AgreeParts(d, d', direct + single, double);
    AgreeParts(d, d', direct, single);
    if inode.single != 0 {
      WordsAgree(md, d, d', single, inode.single);
    }
    if inode.double != 0 {
      WordsAgree(md, d, d', double, inode.double);
      var roots := Words(md, d, inode.double);
      AgreeParts(d, d', Leaves(md, d, roots), [inode.double]);
      LeavesAgree(md, d, d', roots);
    }
  }

  lemma LeafListed(md: Metadata, d: seq<Block>, roots: seq<u32>, i: nat, b: u32)
    requires Mounted(md) && Sized(md, d) && i < |roots| && b in Leaf(md, d, roots[i])
    ensures b in Leaves(md, d, roots)
  {
    hide Leaf, Leaves;
    LeavesOne(md, d, roots, i);
  }

  lemma TableListed(md: Metadata, d: seq<Block>, b: u32, i: nat)
    requires Mounted(md) && Sized(md, d) && b < md.blocksCount && i < PointersPerBlock(md)
    ensures Le32(d[b], 4 * i) != 0 ==> Le32(d[b], 4 * i) in NonZero(Words(md, d, b))
  {
    var ws := Words(md, d, b);
    assert ws[i] == Le32(d[b], 4 * i);
    NonZeroMembers(ws, ws[i]);
  }

  lemma PartsListed(md: Metadata, d: seq<Block>, inode: Inode, b: u32)
    requires Mounted(md) && Sized(md, d)
    requires b in DirectPart(inode) || b in SinglePart(md, d, inode) || b in DoublePart(md, d, inode)
    ensures b in Listed(md, d, inode)
  {
    hide DirectPart, SinglePart, DoublePart;
  }

  /** The block a double-indirect index leads to, and the leaf it passes through, are both listed. */
  lemma DoubleListed(md: Metadata, d: seq<Block>, inode: Inode, outer: nat, inner: nat)
    requires Mounted(md) && Sized(md, d)
    requires outer < PointersPerBlock(md) && inner < PointersPerBlock(md)
    requires inode.double != 0 && inode.double < md.blocksCount
    ensures inode.double in DoublePart(md, d, inode)
    ensures var leaf := Le32(d[inode.double], 4 * outer);
            && (leaf != 0 ==> leaf in DoublePart(md, d, inode))
            && (leaf != 0 && leaf < md.blocksCount && Le32(d[leaf], 4 * inner) != 0 ==>
                  Le32(d[leaf], 4 * inner) in DoublePart(md, d, inode))
  {
    hide Leaves;
    var roots := Words(md, d, inode.double);
    var leaf := Le32(d[inode.double], 4 * outer);
    assert roots[outer] == leaf;
    if leaf != 0 {
      assert leaf in Leaf(md, d, leaf);
      LeafListed(md, d, roots, outer, leaf);
      if leaf < md.blocksCount {
        TableListed(md, d, leaf, inner);
        if Le32(d[leaf], 4 * inner) != 0 {
          LeafListed(md, d, roots, outer, Le32(d[leaf], 4 * inner));
        }
      }
    }
  }

  lemma DataBlockListed(md: Metadata, d: seq<Block>, inode: Inode, k: nat, b: u32)
    requires Mounted(md) && Sized(md, d)
    requires DataBlock(md, d, inode, k) == Ok(b) && b != 0
    ensures b in Listed(md, d, inode)
  {
    hide Listed, DoublePart;
    var p := PointersPerBlock(md);
    if k < DIRECT_BLOCKS {
      NonZeroMembers(inode.blocks, b);
    } else if k - DIRECT_BLOCKS < p {
      TableListed(md, d, inode.single, k - DIRECT_BLOCKS);
    } else {
      var i := k - DIRECT_BLOCKS - p;
      DoubleListed(md, d, inode, Outer(md, i), Inner(md, i));
    }
    PartsListed(md, d, inode, b);
  }

  /** The pointer walk gives the same block on any disk that agrees on the blocks the inode lists. */
  lemma DataBlockAgree(md: Metadata, d: seq<Block>, d': seq<Block>, inode: Inode, k: nat)
    requires Mounted(md) && Sized(md, d) && Sized(md, d')
    requires Agree(d, d', Listed(md, d, inode))
    ensures DataBlock(md, d', inode, k) == DataBlock(md, d, inode, k)
  {
    hide Agree, DoublePart, Listed;
    var s := Listed(md, d, inode);
    var p := PointersPerBlock(md);
    if DIRECT_BLOCKS <= k < DIRECT_BLOCKS + p {
      if inode.single != 0 && inode.single < md.blocksCount {
        PartsListed(md, d, inode, inode.single);
        AgreeMember(d, d', s, inode.single);
      }
    } else if k >= DIRECT_BLOCKS + p {
      var i := k - DIRECT_BLOCKS - p;
      if Outer(md, i) < p && inode.double != 0 && inode.double < md.blocksCount {
        DoubleListed(md, d, inode, Outer(md, i), Inner(md, i));
        PartsListed(md, d, inode, inode.double);
        AgreeMember(d, d', s, inode.double);
        var leaf := Le32(d[inode.double], 4 * Outer(md, i));
        if leaf != 0 && leaf < md.blocksCount {
          PartsListed(md, d, inode, leaf);
          AgreeMember(d, d', s, leaf);
        }
      }
    }
  }

  lemma ChunkAgree(md: Metadata, d: seq<Block>, d': seq<Block>, inode: Inode, from: nat, to: nat)
    requires Mounted(md) && Sized(md, d) && Sized(md, d') && from < to
    requires Agree(d, d', Listed(md, d, inode))
    ensures Chunk(md, d', inode, from, to) == Chunk(md, d, inode, from, to)
  {
    hide DataBlock, Agree, Listed, Blocks;
    var k := Blocks(md, from);
    DataBlockAgree(md, d, d', inode, k);
    var b := DataBlock(md, d, inode, k);
    if b.Ok? && b.value != 0 && b.value < md.blocksCount {
      DataBlockListed(md, d, inode, k, b.value);
      AgreeMember(d, d', Listed(md, d, inode), b.value);
    }
  }

  lemma {:induction false} ReadRangeAgree(md: Metadata, d: seq<Block>, d': seq<Block>, inode: Inode, count: nat, from: nat, to: nat)
    requires Mounted(md) && Sized(md, d) && Sized(md, d') && from <= to
    requires Agree(d, d', Listed(md, d, inode))
    ensures ReadRange(md, d', inode, count, from, to) == ReadRange(md, d, inode, count, from, to)
    decreases (to as int) - (from as int)
  {
    hide Chunk, Agree, Listed, Blocks;
    if from < to {
      ChunkAgree(md, d, d', inode, from, to);
      var chunk := Chunk(md, d, inode, from, to);
      if chunk.Ok? {
        ReadRangeAgree(md, d, d', inode, count, from + |chunk.value|, to);
      }
    }
  }

  /** A file reads the same on any disk that agrees with this one on the blocks its inode lists. */
  lemma ReadContentsAgree(md: Metadata, d: seq<Block>, d': seq<Block>, inode: Inode, limit: nat)
    requires Mounted(md) && Sized(md, d) && Sized(md, d')
    requires Agree(d, d', Listed(md, d, inode))
    ensures ReadContents(md, d', inode, limit) == ReadContents(md, d, inode, limit)
  {
    hide ReadRange, Agree, Listed, Blocks;
    var count := InodeBlockCount(md, inode);
    if count.Ok? {
      ReadRangeAgree(md, d, d', inode, count.value, 0, Min(inode.size, limit));
    }
  }
}
