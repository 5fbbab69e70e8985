/** The blocks `write_file` lays a file out in, and what they read back as. */
module Ext2Plan {
  import opened Bytes
  import opened Numbers
  import opened Ext2Disk
  import opened Ext2Pointers
  import opened Ext2Owned
  import opened Ext2Bitmap

  const BLOCK := 1024
  const PER_BLOCK := 256
  /** Blocks reached without the double-indirect root: twelve direct and one table. */
  const SINGLE_CAPACITY := 268
  const MAX_BLOCKS := 268 + 65536

  datatype Plan = Plan(single: u32, double: u32, leaves: seq<u32>, data: seq<u32>)

  function BlocksFor(bytes: nat): nat {
    (bytes + BLOCK - 1) / BLOCK
  }

  function LeavesFor(blocks: nat): nat {
    if blocks <= SINGLE_CAPACITY then 0 else (blocks - SINGLE_CAPACITY + PER_BLOCK - 1) / PER_BLOCK
  }

  /** The pointers are there exactly when the file is long enough to need them. */
  predicate Fits(plan: Plan, bytes: nat) {
    && |plan.data| == BlocksFor(bytes) <= MAX_BLOCKS
    && |plan.leaves| == LeavesFor(|plan.data|)
    && (plan.single != 0 <==> |plan.data| > DIRECT_BLOCKS)
    && (plan.double != 0 <==> |plan.leaves| > 0)
    && (forall i :: 0 <= i < |plan.data| ==> plan.data[i] != 0)
    && (forall i :: 0 <= i < |plan.leaves| ==> plan.leaves[i] != 0)
  }

  /** All blocks of the plan, in the order they are allocated. */
  function Taken(plan: Plan): seq<u32> {
    (if plan.single != 0 then [plan.single] else []) +
    (if plan.double != 0 then [plan.double] else []) +
    plan.leaves + plan.data
  }

  /** `count` pointers starting at index `from` of a list, with zeros after its end. */
  function Window(s: seq<u32>, from: nat, count: nat): (w: seq<u32>)
    ensures |w| == count
    ensures forall i :: 0 <= i < count ==> w[i] == if from + i < |s| then s[from + i] else 0
  {
    seq(count, (i: nat) => if from + i < |s| then s[from + i] else 0)
  }

  /** Block `i` of the contents, zero-filled to a whole block. */
  function ChunkOf(contents: seq<byte>, i: nat): (c: Block)
    requires i < BlocksFor(|contents|)
    ensures |c| == BLOCK
    ensures forall j :: 0 <= j < BLOCK ==> c[j] == if BLOCK * i + j < |contents| then contents[BLOCK * i + j] else 0
  {
    seq(BLOCK, (j: nat) => if BLOCK * i + j < |contents| then contents[BLOCK * i + j] else 0)
  }

  function FileInode(plan: Plan, bytes: nat, sectors: u32): Inode {
    Inode(0x81a4, 1, bytes, sectors, Window(plan.data, 0, DIRECT_BLOCKS), plan.single, plan.double)
  }

  function TableOf(plan: Plan, from: nat): (b: Block)
    ensures |b| == BLOCK
  {
    EncWords(Window(plan.data, from, PER_BLOCK))
  }

  /** The disk holds the contents and the pointer blocks of the plan. */
  predicate Stored(md: Metadata, d: seq<Block>, plan: Plan, contents: seq<byte>)
    requires Writable(md) && Sized(md, d) && Fits(plan, |contents|) && OnDisk(md, Taken(plan))
  {
    TakenOnDisk(md, plan);
    && (forall i :: 0 <= i < |plan.data| ==> d[plan.data[i]] == ChunkOf(contents, i))
    && (plan.single != 0 ==> d[plan.single] == TableOf(plan, DIRECT_BLOCKS))
    && (forall o :: 0 <= o < |plan.leaves| ==> d[plan.leaves[o]] == TableOf(plan, SINGLE_CAPACITY + PER_BLOCK * o))
    && (plan.double != 0 ==> d[plan.double] == EncWords(Window(plan.leaves, 0, PER_BLOCK)))
  }

  lemma TakenOnDisk(md: Metadata, plan: Plan)
    requires OnDisk(md, Taken(plan))
    ensures plan.single != 0 ==> plan.single < md.blocksCount
    ensures plan.double != 0 ==> plan.double < md.blocksCount
    ensures forall i :: 0 <= i < |plan.leaves| ==> plan.leaves[i] < md.blocksCount
    ensures forall i :: 0 <= i < |plan.data| ==> plan.data[i] < md.blocksCount
  {
    var s := Taken(plan);
    var a := if plan.single != 0 then [plan.single] else [];
    var b := if plan.double != 0 then [plan.double] else [];
    assert s == a + b + plan.leaves + plan.data;
    assert plan.single != 0 ==> s[0] == plan.single;
    assert plan.double != 0 ==> s[|a|] == plan.double;
    assert forall i :: 0 <= i < |plan.leaves| ==> s[|a| + |b| + i] == plan.leaves[i];
    assert forall i :: 0 <= i < |plan.data| ==> s[|a| + |b| + |plan.leaves| + i] == plan.data[i];
  }

  // ---------- Reading the plan back ----------

  lemma TableEntry(md: Metadata, plan: Plan, from: nat, i: nat)
    requires i < PER_BLOCK
    ensures Le32(TableOf(plan, from), 4 * i) == if from + i < |plan.data| then plan.data[from + i] else 0
  {
    hide EncWords;
    EncWordsRead(Window(plan.data, from, PER_BLOCK), i);
  }

  /** The pointer walk of the new inode reaches exactly the data blocks, in order. */
  lemma WalkStored(md: Metadata, d: seq<Block>, plan: Plan, contents: seq<byte>, sectors: u32, k: nat)
    requires Writable(md) && Sized(md, d) && Fits(plan, |contents|) && OnDisk(md, Taken(plan))
    requires Stored(md, d, plan, contents) && k < |plan.data|
    ensures DataBlock(md, d, FileInode(plan, |contents|, sectors), k) == Ok(plan.data[k])
  {
    hide TableOf, EncWords, Le32;
    TakenOnDisk(md, plan);
    if k < DIRECT_BLOCKS {
    } else if k < SINGLE_CAPACITY {
      TableEntry(md, plan, DIRECT_BLOCKS, k - DIRECT_BLOCKS);
    } else {
      var i := k - SINGLE_CAPACITY;
      var o := i / PER_BLOCK;
      assert Outer(md, i) == o && Inner(md, i) == i % PER_BLOCK && o < |plan.leaves|;
      EncWordsRead(Window(plan.leaves, 0, PER_BLOCK), o);
      TableEntry(md, plan, SINGLE_CAPACITY + PER_BLOCK * o, i % PER_BLOCK);
    }
  }

  lemma ChunkStored(md: Metadata, d: seq<Block>, plan: Plan, contents: seq<byte>, sectors: u32, from: nat, to: nat)
    requires Writable(md) && Sized(md, d) && Fits(plan, |contents|) && OnDisk(md, Taken(plan))
    requires Stored(md, d, plan, contents) && from < to <= |contents|
    ensures var amount := Min(BLOCK - from % BLOCK, to - from);
            && from + amount <= to
            && Chunk(md, d, FileInode(plan, |contents|, sectors), from, to) == Ok(contents[from..from + amount])
  {
    hide TableOf, EncWords, Window;
    var k := from / BLOCK;
    assert Blocks(md, from) == k && Within(md, from) == from % BLOCK && k < |plan.data|;
    WalkStored(md, d, plan, contents, sectors, k);
    TakenOnDisk(md, plan);
    hide DataBlock;
    var amount := Min(BLOCK - from % BLOCK, to - from);
    assert d[plan.data[k]] == ChunkOf(contents, k);
    assert ChunkOf(contents, k)[from % BLOCK..from % BLOCK + amount] == contents[from..from + amount];
  }

  lemma {:induction false} RangeStored(md: Metadata, d: seq<Block>, plan: Plan, contents: seq<byte>, sectors: u32, count: nat, from: nat, to: nat)
    requires Writable(md) && Sized(md, d) && Fits(plan, |contents|) && OnDisk(md, Taken(plan))
    requires Stored(md, d, plan, contents) && from <= to <= |contents| && count == |plan.data|
    ensures ReadRange(md, d, FileInode(plan, |contents|, sectors), count, from, to) == Ok(contents[from..to])
    decreases (to as int) - (from as int)
  {
    hide Stored, Chunk, FileInode, Taken, OnDisk;
    if from < to {
      ChunkStored(md, d, plan, contents, sectors, from, to);
      var amount := Min(BLOCK - from % BLOCK, to - from);
      RangeStored(md, d, plan, contents, sectors, count, from + amount, to);
      assert Blocks(md, from) < count;
      assert contents[from..to] == contents[from..from + amount] + contents[from + amount..to];
    } else {
      assert contents[from..to] == [];
    }
  }

  /** The file reads back exactly what was written, up to any limit. */
  lemma ContentsStored(md: Metadata, d: seq<Block>, plan: Plan, contents: seq<byte>, sectors: u32, limit: nat)
    requires Writable(md) && Sized(md, d) && Fits(plan, |contents|) && OnDisk(md, Taken(plan))
    requires Stored(md, d, plan, contents)
    ensures ReadContents(md, d, FileInode(plan, |contents|, sectors), limit) == Ok(contents[..Min(|contents|, limit)])
  {
    hide Stored, ReadRange, Taken, OnDisk, Window;
    var inode := FileInode(plan, |contents|, sectors);
    assert InodeBlockCount(md, inode) == Ok(|plan.data|);
    RangeStored(md, d, plan, contents, sectors, |plan.data|, 0, Min(|contents|, limit));
  }

  // ---------- The plan lists exactly the blocks it took ----------

  lemma {:induction false} NonZeroAll(s: seq<u32>)
    requires forall i :: 0 <= i < |s| ==> s[i] != 0
    ensures NonZero(s) == s
  {
    if s != [] {
      NonZeroAll(s[1..]);
      assert s == [s[0]] + s[1..];
    }
  }

  function Clip(s: seq<u32>, from: nat, count: nat): seq<u32> {
    if from >= |s| then [] else if from + count >= |s| then s[from..] else s[from..from + count]
  }

  /** Dropping the zeros of a window leaves the part of the list it covers. */
  lemma WindowNonZero(s: seq<u32>, from: nat, count: nat)
    requires forall i :: 0 <= i < |s| ==> s[i] != 0
    ensures NonZero(Window(s, from, count)) == Clip(s, from, count)
  {
    var w := Window(s, from, count);
    var c := Clip(s, from, count);
    var a, b := w[..|c|], w[|c|..];
    assert w == a + b;
    assert a == c;
    NonZeroSplit(a, b);
    NonZeroAll(a);
    NonZeroNone(b);
  }

  lemma WordsOf(md: Metadata, d: seq<Block>, b: nat, ws: seq<u32>)
    requires Writable(md) && Sized(md, d) && b < md.blocksCount
    requires |ws| == PER_BLOCK && d[b] == EncWords(ws)
    ensures Words(md, d, b) == ws
  {
    hide EncWords;
    forall i | 0 <= i < PER_BLOCK ensures Words(md, d, b)[i] == ws[i] {
      EncWordsRead(ws, i);
    }
  }

  lemma {:induction false} LeavesZero(md: Metadata, d: seq<Block>, s: seq<u32>)
    requires Mounted(md) && Sized(md, d) && forall i :: 0 <= i < |s| ==> s[i] == 0
    ensures Leaves(md, d, s) == []
  {
    if s != [] {
      LeavesZero(md, d, s[1..]);
    }
  }

  /** What the leaves from number `o` on list: their data and themselves. */
  lemma {:induction false} LeavesStored(md: Metadata, d: seq<Block>, plan: Plan, contents: seq<byte>, o: nat)
    requires Writable(md) && Sized(md, d) && Fits(plan, |contents|) && OnDisk(md, Taken(plan))
    requires Stored(md, d, plan, contents) && o <= |plan.leaves|
    ensures multiset(Leaves(md, d, plan.leaves[o..]))
         == multiset(plan.leaves[o..]) + multiset(Clip(plan.data, SINGLE_CAPACITY + PER_BLOCK * o, |plan.data|))
    decreases |plan.leaves| - o
  {
    hide Stored, Taken, OnDisk, Leaf, Clip, Fits;
    var from := SINGLE_CAPACITY + PER_BLOCK * o;
    if o < |plan.leaves| {
      LeafStored(md, d, plan, contents, o);
      LeavesStored(md, d, plan, contents, o + 1);
      ClipSplit(plan.data, from, PER_BLOCK);
      var here, rest := Clip(plan.data, from, PER_BLOCK), Clip(plan.data, from + PER_BLOCK, |plan.data|);
      var tail := plan.leaves[o + 1..];
      assert plan.leaves[o..] == [plan.leaves[o]] + tail && plan.leaves[o..][1..] == tail;
      Regroup(here, rest, plan.leaves[o], tail, Leaves(md, d, tail));
    } else {
      assert plan.leaves[o..] == [];
      assert Clip(plan.data, from, |plan.data|) == [] by { ClipEmpty(plan, |contents|, from); }
    }
  }

  lemma ClipEmpty(plan: Plan, bytes: nat, from: nat)
    requires Fits(plan, bytes) && from == SINGLE_CAPACITY + PER_BLOCK * |plan.leaves|
    ensures Clip(plan.data, from, |plan.data|) == []
  {
  }

  lemma ClipSplit(s: seq<u32>, from: nat, count: nat)
    ensures Clip(s, from, |s|) == Clip(s, from, count) + Clip(s, from + count, |s|)
  {
  }

  lemma Regroup(here: seq<u32>, rest: seq<u32>, leaf: u32, tail: seq<u32>, below: seq<u32>)
    requires multiset(below) == multiset(tail) + multiset(rest)
    ensures multiset((here + [leaf]) + below) == multiset([leaf] + tail) + multiset(here + rest)
  {
  }

  lemma LeafStored(md: Metadata, d: seq<Block>, plan: Plan, contents: seq<byte>, o: nat)
    requires Writable(md) && Sized(md, d) && Fits(plan, |contents|) && OnDisk(md, Taken(plan))
    requires Stored(md, d, plan, contents) && o < |plan.leaves|
    ensures Leaf(md, d, plan.leaves[o]) == Clip(plan.data, SINGLE_CAPACITY + PER_BLOCK * o, PER_BLOCK) + [plan.leaves[o]]
  {
    hide Words, NonZero, Window, EncWords;
    TakenOnDisk(md, plan);
    var from := SINGLE_CAPACITY + PER_BLOCK * o;
    WordsOf(md, d, plan.leaves[o], Window(plan.data, from, PER_BLOCK));
    WindowNonZero(plan.data, from, PER_BLOCK);
  }

  lemma SingleStored(md: Metadata, d: seq<Block>, plan: Plan, contents: seq<byte>, sectors: u32)
    requires Writable(md) && Sized(md, d) && Fits(plan, |contents|) && OnDisk(md, Taken(plan))
    requires Stored(md, d, plan, contents)
    ensures SinglePart(md, d, FileInode(plan, |contents|, sectors))
         == Clip(plan.data, DIRECT_BLOCKS, PER_BLOCK) + (if plan.single != 0 then [plan.single] else [])
  {
    hide Words, NonZero, Window, EncWords;
    TakenOnDisk(md, plan);
    if plan.single != 0 {
      WordsOf(md, d, plan.single, Window(plan.data, DIRECT_BLOCKS, PER_BLOCK));
      WindowNonZero(plan.data, DIRECT_BLOCKS, PER_BLOCK);
    }
  }

  lemma DoubleStored(md: Metadata, d: seq<Block>, plan: Plan, contents: seq<byte>, sectors: u32)
    requires Writable(md) && Sized(md, d) && Fits(plan, |contents|) && OnDisk(md, Taken(plan))
    requires Stored(md, d, plan, contents)
    ensures multiset(DoublePart(md, d, FileInode(plan, |contents|, sectors)))
         == multiset(plan.leaves) + multiset(Clip(plan.data, SINGLE_CAPACITY, |plan.data|)) +
            multiset(if plan.double != 0 then [plan.double] else [])
  {
    hide Words, NonZero, EncWords, Leaf, Leaves;
    TakenOnDisk(md, plan);
    if plan.double != 0 {
      var roots := Window(plan.leaves, 0, PER_BLOCK);
      WordsOf(md, d, plan.double, roots);
      PaddedLeaves(md, d, plan.leaves);
      LeavesStored(md, d, plan, contents, 0);
      assert plan.leaves[0..] == plan.leaves;
    }
  }

  /** The zero words after the last leaf lead nowhere. */
  lemma PaddedLeaves(md: Metadata, d: seq<Block>, leaves: seq<u32>)
    requires Mounted(md) && Sized(md, d) && |leaves| <= PER_BLOCK
    ensures Leaves(md, d, Window(leaves, 0, PER_BLOCK)) == Leaves(md, d, leaves)
  {
    hide Leaves;
    var roots := Window(leaves, 0, PER_BLOCK);
    var padding := roots[|leaves|..];
    assert roots == leaves + padding;
    LeavesSplit(md, d, leaves, padding);
    LeavesZero(md, d, padding);
  }

  /** `collect_file_allocations` on the new inode finds the blocks of the plan: each once, and no others. */
  lemma ListedIsTaken(md: Metadata, d: seq<Block>, plan: Plan, contents: seq<byte>, sectors: u32)
    requires Writable(md) && Sized(md, d) && Fits(plan, |contents|) && OnDisk(md, Taken(plan))
    requires Stored(md, d, plan, contents)
    ensures multiset(Listed(md, d, FileInode(plan, |contents|, sectors))) == multiset(Taken(plan))
  {
    hide Stored, SinglePart, DoublePart, OnDisk, Taken, Clip, Window, NonZero;
    var inode := FileInode(plan, |contents|, sectors);
    WindowNonZero(plan.data, 0, DIRECT_BLOCKS);
    assert DirectPart(inode) == Clip(plan.data, 0, DIRECT_BLOCKS);
    SingleStored(md, d, plan, contents, sectors);
    DoubleStored(md, d, plan, contents, sectors);
    PartsAddUp(plan, DirectPart(inode), SinglePart(md, d, inode), DoublePart(md, d, inode));
  }

  lemma PartsAddUp(plan: Plan, direct: seq<u32>, single: seq<u32>, double: seq<u32>)
    requires direct == Clip(plan.data, 0, DIRECT_BLOCKS)
    requires single == Clip(plan.data, DIRECT_BLOCKS, PER_BLOCK) + (if plan.single != 0 then [plan.single] else [])
    requires multiset(double) == multiset(plan.leaves) + multiset(Clip(plan.data, SINGLE_CAPACITY, |plan.data|)) +
                                 multiset(if plan.double != 0 then [plan.double] else [])
    ensures multiset(direct + single + double) == multiset(Taken(plan))
  {
    hide Clip;
    ClipSplit(plan.data, 0, DIRECT_BLOCKS);
    ClipSplit(plan.data, DIRECT_BLOCKS, PER_BLOCK);
    ClipWhole(plan.data);
    var a, b, c := Clip(plan.data, 0, DIRECT_BLOCKS), Clip(plan.data, DIRECT_BLOCKS, PER_BLOCK), Clip(plan.data, SINGLE_CAPACITY, |plan.data|);
    assert multiset(plan.data) == multiset(a) + (multiset(b) + multiset(c));
  }

  lemma ClipWhole(s: seq<u32>)
    ensures Clip(s, 0, |s|) == s
  {
  }

  lemma SamePermutation(s: seq<u32>, t: seq<u32>)
    requires multiset(s) == multiset(t) && Distinct(t)
    ensures Distinct(s) && Set(s) == Set(t) && |s| == |t|
  {
    assert |s| == |multiset(s)| == |multiset(t)| == |t|;
    forall x | x in Set(s) ensures x in Set(t) {
      var i: nat :| i < |s| && s[i] == x;
      assert s[i] in multiset(t);
    }
    forall x | x in Set(t) ensures x in Set(s) {
      var i: nat :| i < |t| && t[i] == x;
      assert t[i] in multiset(s);
    }
    SetSize(t);
    assert Set(s) == Set(t);
    SetFull(s);
  }

  /** A list as long as its set has no repetitions. */
  lemma {:induction false} SetFull(s: seq<u32>)
    requires |Set(s)| == |s|
    ensures Distinct(s)
  {
    if s != [] {
      var front, last := s[..|s| - 1], s[|s| - 1];
      assert s == front + [last];
      SetAppend(front, last);
      SetAtMost(front);
      SizeGrows(Set(front), last);
      SetFull(front);
    }
  }

  lemma {:induction false} SetAtMost(s: seq<u32>)
    ensures |Set(s)| <= |s|
  {
    if s != [] {
      var front, last := s[..|s| - 1], s[|s| - 1];
      assert s == front + [last];
      SetAppend(front, last);
      SetAtMost(front);
      SizeGrows(Set(front), last);
    }
  }

  lemma SizeGrows(s: set<nat>, x: nat)
    ensures |s + {x}| == |s| + if x in s then 0 else 1
  {
    assert x in s ==> s + {x} == s;
  }
}
