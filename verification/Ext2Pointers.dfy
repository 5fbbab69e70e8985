/** How an inode reaches its blocks: twelve direct pointers, one indirect block, one double-indirect block. */
module Ext2Pointers {
  import opened Bytes
  import opened Numbers
  import opened Ext2Disk

  const DIRECT_BLOCKS := 12

  type Direct = s: seq<u32> | |s| == DIRECT_BLOCKS witness [0, 0, 0, 0, 0, 0, 0, 0, 0, 0, 0, 0]

  datatype Inode = Inode(
    mode: u16,
    links: u16,
    size: nat,
    sectors: u32,
    blocks: Direct,
    single: u32,
    double: u32)
  {
    predicate IsDirectory() { mode / 0x1000 == 4 }
    predicate IsFile() { mode / 0x1000 == 8 }
  }

  function PointersPerBlock(md: Metadata): nat {
    md.blockSize / 4
  }

  // The divisions by a block size or a pointer count are written out for the three block sizes a
  // mount accepts, so that each is a division by a literal.

  function Blocks(md: Metadata, bytes: nat): (q: nat)
    requires Mounted(md)
  {
    if md.blockSize == 1024 then bytes / 1024 else if md.blockSize == 2048 then bytes / 2048 else bytes / 4096
  }

  function Within(md: Metadata, bytes: nat): (r: nat)
    requires Mounted(md)
    ensures r < md.blockSize && bytes == md.blockSize * Blocks(md, bytes) + r
  {
    if md.blockSize == 1024 then bytes % 1024 else if md.blockSize == 2048 then bytes % 2048 else bytes % 4096
  }

  function Outer(md: Metadata, pointers: nat): (q: nat)
    requires Mounted(md)
  {
    if md.blockSize == 1024 then pointers / 256 else if md.blockSize == 2048 then pointers / 512 else pointers / 1024
  }

  function Inner(md: Metadata, pointers: nat): (r: nat)
    requires Mounted(md)
    ensures r < PointersPerBlock(md) && pointers == PointersPerBlock(md) * Outer(md, pointers) + r
  {
    if md.blockSize == 1024 then pointers % 256 else if md.blockSize == 2048 then pointers % 512 else pointers % 1024
  }

  function Capacity(md: Metadata): (c: nat)
    requires Mounted(md)
    ensures c == DIRECT_BLOCKS + PointersPerBlock(md) + PointersPerBlock(md) * PointersPerBlock(md)
  {
    DIRECT_BLOCKS +
    if md.blockSize == 1024 then 256 + 65536 else if md.blockSize == 2048 then 512 + 262144 else 1024 + 1048576
  }

  function InodeBlockCount(md: Metadata, inode: Inode): Result<nat>
    requires Mounted(md)
  {
    var count := Blocks(md, inode.size) + (if Within(md, inode.size) != 0 then 1 else 0);
    if count > Capacity(md) then Err(UnsupportedFeature) else Ok(count)
  }

  function Load(md: Metadata, d: seq<Block>, b: nat): (r: Result<Block>)
    requires Sized(md, d)
    ensures r.Ok? ==> |r.value| == md.blockSize
  {
    if b < md.blocksCount then Ok(d[b]) else Err(InvalidFilesystem)
  }

  function Pointer(md: Metadata, block: Block, index: nat): Result<u32>
    requires 4 * index + 4 <= |block|
  {
    var p := Le32(block, 4 * index);
    if p != 0 && p >= md.blocksCount then Err(InvalidFilesystem) else Ok(p)
  }

  /** The pointer walk without caches: the block that holds logical block `k`, or 0 for a hole. */
  function DataBlock(md: Metadata, d: seq<Block>, inode: Inode, k: nat): Result<u32>
    requires Mounted(md) && Sized(md, d)
  {
    var p := PointersPerBlock(md);
    if k < DIRECT_BLOCKS then Ok(inode.blocks[k])
    else if k - DIRECT_BLOCKS < p then
      if inode.single == 0 then Ok(0)
      else
        var table :- Load(md, d, inode.single);
        Pointer(md, table, k - DIRECT_BLOCKS)
    else
      var i := k - DIRECT_BLOCKS - p;
      if Outer(md, i) >= p then Err(UnsupportedFeature)
      else if inode.double == 0 then Ok(0)
      else
        var root :- Load(md, d, inode.double);
        var leaf := Le32(root, 4 * (Outer(md, i)));
        if leaf == 0 then Ok(0)
        else
          var table :- Load(md, d, leaf);
          Pointer(md, table, Inner(md, i))
  }

  /** No logical block inside the file's size asks for a third level of indirection. */
  lemma CountedBlocksAreSupported(md: Metadata, d: seq<Block>, inode: Inode, k: nat)
    requires Mounted(md) && Sized(md, d)
    requires InodeBlockCount(md, inode).Ok? && k < InodeBlockCount(md, inode).value
    ensures DataBlock(md, d, inode, k) != Err(UnsupportedFeature)
  {
    var p := PointersPerBlock(md);
    if k >= DIRECT_BLOCKS + p {
      var i := k - DIRECT_BLOCKS - p;
      assert Outer(md, i) < p;
    }
  }

  /** The two table buffers that consecutive lookups share, with the block number each one holds. */
  class PointerCache {
    var table: Block
    var tableBlock: nat
    var root: Block
    var rootBlock: nat

    ghost predicate Valid(md: Metadata, d: seq<Block>)
      reads this
    {
      && (tableBlock != 0 ==> tableBlock < |d| && table == d[tableBlock])
      && (rootBlock != 0 ==> rootBlock < |d| && root == d[rootBlock])
    }

    constructor ()
      ensures tableBlock == 0 && rootBlock == 0
    {
      table, tableBlock := [], 0;
      root, rootBlock := [], 0;
    }

    /** Makes `table` hold block `b`, reading it only when it is not there already. */
    method LoadTable(disk: Disk, md: Metadata, b: nat) returns (r: Result<()>)
      requires Sized(md, disk.blocks) && Valid(md, disk.blocks) && b != 0
      modifies this`table, this`tableBlock
      ensures Determined(disk.faulty, r, if b < md.blocksCount then Ok(()) else Err(InvalidFilesystem))
      ensures r.Ok? ==> Valid(md, disk.blocks) && table == disk.blocks[b]
    {
      if tableBlock != b {
        table :- disk.Read(md, b);
        tableBlock := b;
      }
      r := Ok(());
    }

    /** The same for the double-indirect root; a new root forgets the table read below the old one. */
    method LoadRoot(disk: Disk, md: Metadata, b: nat) returns (r: Result<()>)
      requires Sized(md, disk.blocks) && Valid(md, disk.blocks) && b != 0
      modifies this`root, this`rootBlock, this`tableBlock
      ensures Determined(disk.faulty, r, if b < md.blocksCount then Ok(()) else Err(InvalidFilesystem))
      ensures r.Ok? ==> Valid(md, disk.blocks) && root == disk.blocks[b]
    {
      if rootBlock != b {
        root :- disk.Read(md, b);
        rootBlock := b;
        tableBlock := 0;
      }
      r := Ok(());
    }

    /** A cached lookup gives what the plain walk gives, and leaves the caches truthful for the next one. */
    method Lookup(disk: Disk, md: Metadata, inode: Inode, k: nat) returns (r: Result<u32>)
      requires Mounted(md) && Sized(md, disk.blocks) && Valid(md, disk.blocks)
      modifies this
      ensures Determined(disk.faulty, r, DataBlock(md, disk.blocks, inode, k))
      ensures r.Ok? ==> Valid(md, disk.blocks)
    {
      if k < DIRECT_BLOCKS {
        return Ok(inode.blocks[k]);
      }
      var index := k - DIRECT_BLOCKS;
      var p := PointersPerBlock(md);
      if index < p {
        if inode.single == 0 {
          return Ok(0);
        }
        var _ :- LoadTable(disk, md, inode.single);
        return Pointer(md, table, index);
      }
      var outer, inner := Outer(md, index - p), Inner(md, index - p);
      if outer >= p {
        return Err(UnsupportedFeature);
      }
      if inode.double == 0 {
        return Ok(0);
      }
      var _ :- LoadRoot(disk, md, inode.double);
      var leaf := Le32(root, 4 * outer);
      if leaf == 0 {
        return Ok(0);
      }
      var _ :- LoadTable(disk, md, leaf);
      r := Pointer(md, table, inner);
    }
  }

  // ---------- File contents ----------

  /** The bytes of one block-aligned step of a read. */
  function Chunk(md: Metadata, d: seq<Block>, inode: Inode, from: nat, to: nat): (r: Result<seq<byte>>)
    requires Mounted(md) && Sized(md, d) && from < to
    ensures r.Ok? ==> |r.value| == Min(md.blockSize - Within(md, from), to - from)
  {
    var start := Within(md, from);
    var amount := Min(md.blockSize - start, to - from);
    var b :- DataBlock(md, d, inode, Blocks(md, from));
    if b == 0 then Ok(Zeros(amount))
    else
      var block :- Load(md, d, b);
      Ok(block[start..start + amount])
  }

  /** What a read of bytes `from..to` delivers, block by block; `count` is the inode's block count. */
  function ReadRange(md: Metadata, d: seq<Block>, inode: Inode, count: nat, from: nat, to: nat): (r: Result<seq<byte>>)
    requires Mounted(md) && Sized(md, d) && from <= to
    ensures r.Ok? ==> |r.value| == to - from
    decreases (to as int) - (from as int)
  {
    if from == to then Ok([])
    else if Blocks(md, from) >= count then Err(InvalidFilesystem)
    else
      var chunk :- Chunk(md, d, inode, from, to);
      var rest :- ReadRange(md, d, inode, count, from + |chunk|, to);
      Ok(chunk + rest)
  }

  function ReadContents(md: Metadata, d: seq<Block>, inode: Inode, limit: nat): Result<seq<byte>>
    requires Mounted(md) && Sized(md, d)
  {
    var count :- InodeBlockCount(md, inode);
    ReadRange(md, d, inode, count, 0, Min(inode.size, limit))
  }

  /** Byte `i` of a file: what its block holds there, or zero in a hole. */
  predicate IsByte(md: Metadata, d: seq<Block>, inode: Inode, i: nat, b: byte)
    requires Mounted(md) && Sized(md, d)
  {
    var p := DataBlock(md, d, inode, i / md.blockSize);
    p.Ok? && p.value < md.blocksCount && b == if p.value == 0 then 0 else d[p.value][i % md.blockSize]
  }

  lemma Divided(md: Metadata, n: nat)
    requires Mounted(md)
    ensures Blocks(md, n) == n / md.blockSize && Within(md, n) == n % md.blockSize
  {
  }

  lemma SameBlock(md: Metadata, from: nat, i: nat)
    requires Mounted(md) && from <= i < from + md.blockSize - Within(md, from)
    ensures Blocks(md, i) == Blocks(md, from) && Within(md, i) == Within(md, from) + (i - from)
  {
  }

  lemma ChunkBytes(md: Metadata, d: seq<Block>, inode: Inode, from: nat, to: nat, i: nat)
    requires Mounted(md) && Sized(md, d) && from < to && Chunk(md, d, inode, from, to).Ok?
    requires from <= i < from + |Chunk(md, d, inode, from, to).value|
    ensures IsByte(md, d, inode, i, Chunk(md, d, inode, from, to).value[i - from])
  {
    hide DataBlock, Blocks, Within;
    SameBlock(md, from, i);
    Divided(md, i);
  }

  lemma {:induction false} RangeBytes(md: Metadata, d: seq<Block>, inode: Inode, count: nat, from: nat, to: nat, i: nat)
    requires Mounted(md) && Sized(md, d) && from <= i < to && ReadRange(md, d, inode, count, from, to).Ok?
    ensures IsByte(md, d, inode, i, ReadRange(md, d, inode, count, from, to).value[i - from])
    decreases (to as int) - (from as int)
  {
    hide DataBlock, Blocks, Within, IsByte, Chunk;
    var chunk := Chunk(md, d, inode, from, to).value;
    if i < from + |chunk| {
      ChunkBytes(md, d, inode, from, to, i);
    } else {
      RangeBytes(md, d, inode, count, from + |chunk|, to, i);
    }
  }

  /** A read gives the file's bytes up to the limit, each as its block holds it, and zeros for every hole. */
  lemma ContentsBytes(md: Metadata, d: seq<Block>, inode: Inode, limit: nat)
    requires Mounted(md) && Sized(md, d) && ReadContents(md, d, inode, limit).Ok?
    ensures var bytes := ReadContents(md, d, inode, limit).value;
            |bytes| == Min(inode.size, limit) && forall i :: 0 <= i < |bytes| ==> IsByte(md, d, inode, i, bytes[i])
  {
    hide ReadRange, IsByte;
    var count := InodeBlockCount(md, inode).value;
    var bytes := ReadContents(md, d, inode, limit).value;
    forall i | 0 <= i < |bytes| ensures IsByte(md, d, inode, i, bytes[i]) {
      RangeBytes(md, d, inode, count, 0, |bytes|, i);
    }
  }

  function Prepend(s: seq<byte>, r: Result<seq<byte>>): Result<seq<byte>> {
    if r.Ok? then Ok(s + r.value) else r
  }

  /** One step of a read, cached. */
  method ReadChunk(disk: Disk, md: Metadata, inode: Inode, cache: PointerCache, from: nat, to: nat)
    returns (r: Result<seq<byte>>)
    requires Mounted(md) && Sized(md, disk.blocks) && cache.Valid(md, disk.blocks) && from < to
    modifies cache
    ensures Determined(disk.faulty, r, Chunk(md, disk.blocks, inode, from, to))
    ensures r.Ok? ==> cache.Valid(md, disk.blocks)
  {
    var start := Within(md, from);
    var amount := Min(md.blockSize - start, to - from);
    var b :- cache.Lookup(disk, md, inode, Blocks(md, from));
    if b == 0 {
      return Ok(Zeros(amount));
    }
    var block :- disk.Read(md, b);
    r := Ok(block[start..start + amount]);
  }

  lemma ReadRangeStep(md: Metadata, d: seq<Block>, inode: Inode, count: nat, output: seq<byte>, chunk: seq<byte>, to: nat)
    requires Mounted(md) && Sized(md, d) && |output| < to
    requires Blocks(md, |output|) < count
    requires Chunk(md, d, inode, |output|, to) == Ok(chunk)
    ensures Prepend(output, ReadRange(md, d, inode, count, |output|, to))
         == Prepend(output + chunk, ReadRange(md, d, inode, count, |output + chunk|, to))
  {
    hide Chunk, Blocks;
    var rest := ReadRange(md, d, inode, count, |output| + |chunk|, to);
    if rest.Ok? {
      assert (output + chunk) + rest.value == output + (chunk + rest.value);
    }
  }

  method ReadInodeContents(disk: Disk, md: Metadata, inode: Inode, limit: nat) returns (r: Result<seq<byte>>)
    requires Mounted(md) && Sized(md, disk.blocks)
    ensures Determined(disk.faulty, r, ReadContents(md, disk.blocks, inode, limit))
  {
    var count :- InodeBlockCount(md, inode);
    var length := Min(inode.size, limit);
    ghost var expected := ReadRange(md, disk.blocks, inode, count, 0, length);
    var cache := new PointerCache();
    var output: seq<byte> := [];
    assert expected.Ok? ==> [] + expected.value == expected.value;
    while |output| < length
      invariant |output| <= length
      invariant cache.Valid(md, disk.blocks)
      invariant expected == Prepend(output, ReadRange(md, disk.blocks, inode, count, |output|, length))
      decreases length - |output|
    {
      hide Chunk, Blocks;
      if Blocks(md, |output|) >= count {
        return Err(InvalidFilesystem);
      }
      var chunk :- ReadChunk(disk, md, inode, cache, |output|, length);
      ReadRangeStep(md, disk.blocks, inode, count, output, chunk, length);
      output := output + chunk;
    }
    assert output + [] == output;
    r := Ok(output);
  }
}
