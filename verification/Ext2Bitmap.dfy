/** Allocation bitmaps and the free counters that go with them. */
module Ext2Bitmap {
  import opened Bytes
  import opened Options
  import opened Ext2Disk
  import opened Ext2Owned

  // ---------- Bits of a byte ----------

  predicate Bit(b: nat, k: nat) {
    if k == 0 then b % 2 == 1 else Bit(b / 2, k - 1)
  }

  /** Bit `k` inverted: `|= mask` where it was clear, `&= !mask` where it was set. */
  function Flip(b: nat, k: nat): nat {
    if k == 0 then (if b % 2 == 1 then b - 1 else b + 1) else 2 * Flip(b / 2, k - 1) + b % 2
  }

  function Pow2(k: nat): (p: nat)
    ensures p > 0
  {
    if k == 0 then 1 else 2 * Pow2(k - 1)
  }

  lemma {:induction false} FlipBits(b: nat, k: nat, j: nat)
    ensures Bit(Flip(b, k), j) <==> (if j == k then !Bit(b, j) else Bit(b, j))
  {
    if k > 0 {
      Halves(Flip(b / 2, k - 1), b % 2);
      if j > 0 {
        FlipBits(b / 2, k - 1, j - 1);
      }
    } else {
      Halves(b / 2, 1 - b % 2);
    }
  }

  lemma Halves(x: nat, r: nat)
    requires r < 2
    ensures (2 * x + r) / 2 == x && (2 * x + r) % 2 == r
  {
  }

  /** Inverting a bit adds its mask where it was clear and takes it away where it was set. */
  lemma {:induction false} FlipMask(b: nat, k: nat)
    ensures Flip(b, k) == if Bit(b, k) then b - Pow2(k) else b + Pow2(k)
  {
    if k > 0 {
      FlipMask(b / 2, k - 1);
    }
  }

  lemma {:induction false} FlipBound(b: nat, k: nat, n: nat)
    requires k < n && b < Pow2(n)
    ensures Flip(b, k) < Pow2(n)
  {
    var half := Pow2(n - 1);
    assert Pow2(n) == 2 * half;
    hide Pow2;
    if k > 0 {
      FlipBound(b / 2, k - 1, n - 1);
    }
  }

  function FlipByte(b: byte, k: nat): (r: byte)
    requires k < 8
    ensures r == if Bit(b, k) then b - Pow2(k) else b + Pow2(k)
  {
    FlipMask(b, k);
    FlipBound(b, k, 8);
    assert Pow2(8) == 256 by { assert Pow2(4) == 16; }
    Flip(b, k)
  }

  // ---------- Marks of a bitmap ----------

  predicate Marked(bitmap: Block, i: nat)
    requires i / 8 < |bitmap|
  {
    Bit(bitmap[i / 8], i % 8)
  }

  function Toggle(bitmap: Block, i: nat): (s: Block)
    requires i / 8 < |bitmap|
    ensures |s| == |bitmap|
  {
    bitmap[i / 8 := FlipByte(bitmap[i / 8], i % 8)]
  }

  lemma ToggleMarks(bitmap: Block, i: nat, j: nat)
    requires i / 8 < |bitmap| && j / 8 < |bitmap|
    ensures Marked(Toggle(bitmap, i), j) <==> (if j == i then !Marked(bitmap, j) else Marked(bitmap, j))
  {
    if j / 8 == i / 8 {
      FlipBits(bitmap[i / 8], i % 8, j % 8);
    }
  }

  method FindFreeBit(bitmap: Block, count: nat) returns (r: Option<nat>)
    requires count <= 8 * |bitmap|
    ensures r.Some? ==> r.value < count && !Marked(bitmap, r.value)
    ensures r.Some? ==> forall j: nat :: j < r.value ==> Marked(bitmap, j)
    ensures r.None? ==> forall j: nat :: j < count ==> Marked(bitmap, j)
  {
    for i := 0 to count
      invariant forall j: nat :: j < i ==> Marked(bitmap, j)
    {
      if !Marked(bitmap, i) {
        return Some(i);
      }
    }
    r := None;
  }

  // ---------- Marking and freeing blocks ----------

  function BlockCount(md: Metadata): nat
    requires Writable(md)
  {
    md.blocksCount - md.firstDataBlock
  }

  /** A block bitmap of the one block group. */
  predicate IsBitmap(bitmap: Block) {
    |bitmap| == 1024
  }

  predicate InUse(md: Metadata, bitmap: Block, b: nat)
    requires Writable(md) && IsBitmap(bitmap)
  {
    md.firstDataBlock <= b < md.blocksCount && Marked(bitmap, b - md.firstDataBlock)
  }

  /** The blocks the bitmap marks as in use. */
  ghost function Used(md: Metadata, bitmap: Block): set<nat>
    requires Writable(md) && IsBitmap(bitmap)
  {
    set b: nat | b < md.blocksCount && InUse(md, bitmap, b)
  }

  lemma UsedToggle(md: Metadata, bitmap: Block, b: nat)
    requires Writable(md) && IsBitmap(bitmap) && md.firstDataBlock <= b < md.blocksCount
    ensures b !in Used(md, bitmap) ==> Used(md, Toggle(bitmap, b - md.firstDataBlock)) == Used(md, bitmap) + {b}
    ensures b in Used(md, bitmap) ==> Used(md, Toggle(bitmap, b - md.firstDataBlock)) == Used(md, bitmap) - {b}
  {
    hide Toggle, Marked;
    var after := Toggle(bitmap, b - md.firstDataBlock);
    forall c: nat | c < md.blocksCount
      ensures InUse(md, after, c) <==> (if c == b then !InUse(md, bitmap, c) else InUse(md, bitmap, c))
    {
      if md.firstDataBlock <= c {
        ToggleMarks(bitmap, b - md.firstDataBlock, c - md.firstDataBlock);
      }
    }
  }

  function UpdateBlockBitmap(md: Metadata, bitmap: Block, b: nat, taken: bool): (r: Result<Block>)
    requires Writable(md) && IsBitmap(bitmap)
    ensures r.Ok? ==> IsBitmap(r.value)
  {
    if b < md.firstDataBlock || b >= md.blocksCount then Err(InvalidFilesystem)
    else if Marked(bitmap, b - md.firstDataBlock) == taken then Err(InvalidFilesystem)
    else Ok(Toggle(bitmap, b - md.firstDataBlock))
  }

  ghost function Set(s: seq<u32>): set<nat> {
    set i: nat | i < |s| :: s[i] as nat
  }

  lemma SetAppend(s: seq<u32>, b: u32)
    ensures Set(s + [b]) == Set(s) + {b as nat}
  {
    var t := s + [b];
    assert forall x :: x in Set(t) ==> x in Set(s) + {b as nat};
    forall x | x in Set(s) + {b as nat} ensures x in Set(t) {
      if x == b {
        assert t[|s|] == x;
      } else {
        var i: nat :| i < |s| && s[i] == x;
        assert t[i] == x;
      }
    }
  }

  lemma {:induction false} SetSize(s: seq<u32>)
    requires Distinct(s)
    ensures |Set(s)| == |s|
  {
    if s != [] {
      var front, last := s[..|s| - 1], s[|s| - 1];
      assert s == front + [last];
      SetSize(front);
      SetAppend(front, last);
      assert last as nat !in Set(front);
    }
  }

  /** Frees every listed block; exactly a block that is not in use, or is listed twice, is an error. */
  method FreeAll(md: Metadata, bitmap: Block, blocks: seq<u32>) returns (r: Result<Block>)
    requires Writable(md) && IsBitmap(bitmap)
    ensures r.Ok? ==> IsBitmap(r.value) && Used(md, r.value) == Used(md, bitmap) - Set(blocks)
    ensures r.Ok? <==> Set(blocks) <= Used(md, bitmap) && Distinct(blocks)
    ensures r.Err? ==> r.error == InvalidFilesystem
  {
    hide Marked, Toggle;
    var current := bitmap;
    for i := 0 to |blocks|
      invariant IsBitmap(current)
      invariant Used(md, current) == Used(md, bitmap) - Set(blocks[..i])
      invariant Set(blocks[..i]) <= Used(md, bitmap) && Distinct(blocks[..i])
    {
      assert blocks[..i + 1] == blocks[..i] + [blocks[i]];
      SetAppend(blocks[..i], blocks[i]);
      if md.firstDataBlock <= blocks[i] < md.blocksCount {
        UsedToggle(md, current, blocks[i]);
      }
      assert blocks[i] as nat in Set(blocks);
      assert blocks[i] as nat in Set(blocks[..i]) ==> !Distinct(blocks);
      current :- UpdateBlockBitmap(md, current, blocks[i], false);
    }
    assert blocks[..|blocks|] == blocks;
    r := Ok(current);
  }

  /** The state of the bitmap after taking `blocks`, which were all free and are all different. */
  ghost predicate Took(md: Metadata, before: Block, after: Block, blocks: seq<u32>)
    requires Writable(md) && IsBitmap(before) && IsBitmap(after)
  {
    && Distinct(blocks)
    && (forall i :: 0 <= i < |blocks| ==> md.firstDataBlock <= blocks[i] < md.blocksCount)
    && Set(blocks) !! Used(md, before)
    && Used(md, after) == Used(md, before) + Set(blocks)
  }

  lemma TookMore(md: Metadata, a: Block, b: Block, c: Block, s: seq<u32>, t: seq<u32>)
    requires Writable(md) && IsBitmap(a) && IsBitmap(b) && IsBitmap(c)
    requires Took(md, a, b, s) && Took(md, b, c, t)
    ensures Took(md, a, c, s + t)
  {
    hide Used;
    SetConcat(s, t);
    assert forall i :: 0 <= i < |s| ==> s[i] as nat in Set(s);
    assert forall i :: 0 <= i < |t| ==> t[i] as nat in Set(t);
  }

  lemma SetConcat(s: seq<u32>, t: seq<u32>)
    ensures Set(s + t) == Set(s) + Set(t)
  {
    var u := s + t;
    forall x | x in Set(s) + Set(t) ensures x in Set(u) {
      if x in Set(s) {
        var i: nat :| i < |s| && s[i] == x;
        assert u[i] == x;
      } else {
        var i: nat :| i < |t| && t[i] == x;
        assert u[|s| + i] == x;
      }
    }
    assert forall i :: 0 <= i < |u| ==> (if i < |s| then u[i] == s[i] else u[i] == t[i - |s|]);
  }

  /** How many blocks the bitmap leaves free. */
  ghost function FreeBlocks(md: Metadata, bitmap: Block): (n: int)
    requires Writable(md) && IsBitmap(bitmap)
  {
    BlockCount(md) - |Used(md, bitmap)|
  }

  lemma {:induction false} RangeSize(lo: nat, hi: nat, s: set<nat>)
    requires lo <= hi && forall b: nat :: b in s <==> lo <= b < hi
    ensures |s| == hi - lo
    decreases hi - lo
  {
    if lo < hi {
      RangeSize(lo, hi - 1, s - {hi - 1});
      assert s == s - {hi - 1} + {hi - 1};
    } else {
      assert s == {};
    }
  }

  lemma AllUsed(md: Metadata, bitmap: Block)
    requires Writable(md) && IsBitmap(bitmap)
    requires forall b: nat :: md.firstDataBlock <= b < md.blocksCount ==> b in Used(md, bitmap)
    ensures FreeBlocks(md, bitmap) == 0
  {
    RangeSize(md.firstDataBlock, md.blocksCount, Used(md, bitmap));
  }

  /** Taking blocks lowers the number of free ones by as many. */
  lemma TookSize(md: Metadata, before: Block, after: Block, blocks: seq<u32>)
    requires Writable(md) && IsBitmap(before) && IsBitmap(after) && Took(md, before, after, blocks)
    ensures FreeBlocks(md, after) == FreeBlocks(md, before) - |blocks|
  {
    hide Used;
    SetSize(blocks);
    assert |Used(md, before) + Set(blocks)| == |Used(md, before)| + |Set(blocks)|;
  }

  predicate IsData(md: Metadata, b: nat) {
    md.firstDataBlock <= b < md.blocksCount
  }

  lemma NeverMore(md: Metadata, bitmap: Block)
    requires Writable(md) && IsBitmap(bitmap)
    ensures FreeBlocks(md, bitmap) >= 0
  {
    var all := set b: nat | b < md.blocksCount && IsData(md, b);
    RangeSize(md.firstDataBlock, md.blocksCount, all);
    Subset(Used(md, bitmap), all);
  }

  lemma Subset(a: set<nat>, b: set<nat>)
    requires a <= b
    ensures |a| <= |b|
  {
    assert b == a + (b - a);
  }

  /** The lowest free block, taken. */
  method AllocateDataBlock(md: Metadata, bitmap: Block) returns (r: Result<(u32, Block)>)
    requires Writable(md) && IsBitmap(bitmap)
    ensures r.Ok? ==> IsBitmap(r.value.1) && Took(md, bitmap, r.value.1, [r.value.0])
    ensures r.Err? ==> r.error == NoSpace && FreeBlocks(md, bitmap) == 0
  {
    hide Toggle, Marked;
    var index := FindFreeBit(bitmap, BlockCount(md));
    if index.None? {
      assert forall b: nat :: md.firstDataBlock <= b < md.blocksCount ==> InUse(md, bitmap, b);
      AllUsed(md, bitmap);
      return Err(NoSpace);
    }
    var b: u32 := index.value + md.firstDataBlock;
    UsedToggle(md, bitmap, b);
    assert Set([b]) == {b as nat} by { SetAppend([], b); assert [] + [b] == [b]; }
    r := Ok((b, Toggle(bitmap, index.value)));
  }

  method AllocateDataBlocks(md: Metadata, bitmap: Block, count: nat) returns (r: Result<(seq<u32>, Block)>)
    requires Writable(md) && IsBitmap(bitmap)
    ensures r.Ok? ==> |r.value.0| == count && IsBitmap(r.value.1) && Took(md, bitmap, r.value.1, r.value.0)
    ensures r.Err? ==> r.error == NoSpace && FreeBlocks(md, bitmap) < count
  {
    hide Took, FreeBlocks;
    var taken: seq<u32> := [];
    var current := bitmap;
    TookNone(md, bitmap);
    for i := 0 to count
      invariant |taken| == i && IsBitmap(current) && Took(md, bitmap, current, taken)
    {
      TookSize(md, bitmap, current, taken);
      var next :- AllocateDataBlock(md, current);
      TookMore(md, bitmap, current, next.1, taken, [next.0]);
      taken, current := taken + [next.0], next.1;
    }
    r := Ok((taken, current));
  }

  lemma TookNone(md: Metadata, bitmap: Block)
    requires Writable(md) && IsBitmap(bitmap)
    ensures Took(md, bitmap, bitmap, [])
  {
  }
}
