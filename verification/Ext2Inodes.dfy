/** The inode table: where an inode lives, how it is decoded, and how it is rewritten in place. */
module Ext2Inodes {
  import opened Bytes
  import opened Ext2Disk
  import opened Ext2Pointers

  const POINTERS_OFFSET := 40

  function Decode(raw: seq<byte>): Inode
    requires |raw| >= 128
  {
    var mode := Le16(raw, 0);
    var low: int, high: int := Le32(raw, 4), Le32(raw, 108);
    Inode(
      mode,
      Le16(raw, 26),
      if mode / 0x1000 == 8 then low + high * U32_LIMIT else low,
      Le32(raw, 28),
      seq(DIRECT_BLOCKS, (i: nat) requires i < DIRECT_BLOCKS => Le32(raw, POINTERS_OFFSET + 4 * i)),
      Le32(raw, POINTERS_OFFSET + 48),
      Le32(raw, POINTERS_OFFSET + 52))
  }

  /** The fourteen pointers as they lie in the inode. */
  function PointerWords(inode: Inode): (ws: seq<u32>)
    ensures |ws| == 14
  {
    inode.blocks + [inode.single, inode.double]
  }

  /** The fields `write_inode_fields` stores over `raw`, which is cleared first when the inode is new. */
  function Encode(raw: seq<byte>, inode: Inode, isNew: bool): (s: seq<byte>)
    requires |raw| >= 128 && inode.size < U32_LIMIT
    ensures |s| == |raw|
  {
    var s0 := if isNew then Zeros(|raw|) else raw;
    var s1 := Splice(s0, 0, Enc16(inode.mode));
    var s2 := Splice(s1, 4, Enc32(inode.size));
    var s3 := Splice(s2, 26, Enc16(inode.links));
    var s4 := Splice(s3, 108, Zeros(4));
    var s5 := Splice(s4, 28, Enc32(inode.sectors));
    Splice(s5, POINTERS_OFFSET, EncWords(PointerWords(inode)))
  }

  lemma SpliceKeeps16(s: seq<byte>, o: nat, part: seq<byte>, at: nat)
    requires o + |part| <= |s| && at + 2 <= |s| && (at + 2 <= o || o + |part| <= at)
    ensures Le16(Splice(s, o, part), at) == Le16(s, at)
  {
  }

  lemma SpliceKeeps32(s: seq<byte>, o: nat, part: seq<byte>, at: nat)
    requires o + |part| <= |s| && at + 4 <= |s| && (at + 4 <= o || o + |part| <= at)
    ensures Le32(Splice(s, o, part), at) == Le32(s, at)
  {
  }

  lemma SpliceWords(s: seq<byte>, o: nat, ws: seq<u32>, i: nat)
    requires o + 4 * |ws| <= |s| && i < |ws|
    ensures Le32(Splice(s, o, EncWords(ws)), o + 4 * i) == ws[i]
  {
    hide EncWords;
    var t := Splice(s, o, EncWords(ws));
    EncWordsRead(ws, i);
    assert t[o + 4 * i + 0] == EncWords(ws)[4 * i + 0];
    assert t[o + 4 * i + 1] == EncWords(ws)[4 * i + 1];
    assert t[o + 4 * i + 2] == EncWords(ws)[4 * i + 2];
    assert t[o + 4 * i + 3] == EncWords(ws)[4 * i + 3];
  }

  lemma EncodeScalars(raw: seq<byte>, inode: Inode, isNew: bool)
    requires |raw| >= 128 && inode.size < U32_LIMIT
    ensures var s := Encode(raw, inode, isNew);
            && Le16(s, 0) == inode.mode
            && Le32(s, 4) == inode.size
            && Le16(s, 26) == inode.links
            && Le32(s, 28) == inode.sectors
            && Le32(s, 108) == 0
  {
    hide Le16, Le32, Splice, Enc16, Enc32, EncWords;
    var s0 := if isNew then Zeros(|raw|) else raw;
    var s1 := Splice(s0, 0, Enc16(inode.mode));
    var s2 := Splice(s1, 4, Enc32(inode.size));
    var s3 := Splice(s2, 26, Enc16(inode.links));
    var s4 := Splice(s3, 108, Zeros(4));
    var s5 := Splice(s4, 28, Enc32(inode.sectors));
    var p := EncWords(PointerWords(inode));
    var s := Splice(s5, POINTERS_OFFSET, p);
    SpliceRead16(s0, 0, inode.mode);
    SpliceKeeps16(s1, 4, Enc32(inode.size), 0);
    SpliceKeeps16(s2, 26, Enc16(inode.links), 0);
    SpliceKeeps16(s3, 108, Zeros(4), 0);
    SpliceKeeps16(s4, 28, Enc32(inode.sectors), 0);
    SpliceKeeps16(s5, POINTERS_OFFSET, p, 0);
    SpliceRead32(s1, 4, inode.size);
    SpliceKeeps32(s2, 26, Enc16(inode.links), 4);
    SpliceKeeps32(s3, 108, Zeros(4), 4);
    SpliceKeeps32(s4, 28, Enc32(inode.sectors), 4);
    SpliceKeeps32(s5, POINTERS_OFFSET, p, 4);
    SpliceRead16(s2, 26, inode.links);
    SpliceKeeps16(s3, 108, Zeros(4), 26);
    SpliceKeeps16(s4, 28, Enc32(inode.sectors), 26);
    SpliceKeeps16(s5, POINTERS_OFFSET, p, 26);
    SpliceRead32(s4, 28, inode.sectors);
    SpliceKeeps32(s5, POINTERS_OFFSET, p, 28);
    ZeroRead(s3, 108);
    SpliceKeeps32(s4, 28, Enc32(inode.sectors), 108);
    SpliceKeeps32(s5, POINTERS_OFFSET, p, 108);
  }

  lemma ZeroRead(s: seq<byte>, o: nat)
    requires o + 4 <= |s|
    ensures Le32(Splice(s, o, Zeros(4)), o) == 0
  {
  }

  /** An inode that was written decodes to the fields it was written with, whatever lay there before. */
  lemma DecodeEncode(raw: seq<byte>, inode: Inode, isNew: bool)
    requires |raw| >= 128 && inode.size < U32_LIMIT
    ensures Decode(Encode(raw, inode, isNew)) == inode
  {
    hide Encode, Le16, Le32;
    EncodeScalars(raw, inode, isNew);
    var s := Encode(raw, inode, isNew);
    EncodePointer(raw, inode, isNew, 12);
    EncodePointer(raw, inode, isNew, 13);
    forall i | 0 <= i < DIRECT_BLOCKS ensures Decode(s).blocks[i] == inode.blocks[i] {
      EncodePointer(raw, inode, isNew, i);
    }
    assert Decode(s).blocks == inode.blocks;
  }

  lemma EncodePointer(raw: seq<byte>, inode: Inode, isNew: bool, i: nat)
    requires |raw| >= 128 && inode.size < U32_LIMIT && i < 14
    ensures Le32(Encode(raw, inode, isNew), POINTERS_OFFSET + 4 * i) == PointerWords(inode)[i]
  {
    hide Le32, Enc16, Enc32, EncWords, PointerWords, Splice;
    var s0 := if isNew then Zeros(|raw|) else raw;
    var s1 := Splice(s0, 0, Enc16(inode.mode));
    var s2 := Splice(s1, 4, Enc32(inode.size));
    var s3 := Splice(s2, 26, Enc16(inode.links));
    var s4 := Splice(s3, 108, Zeros(4));
    var s5 := Splice(s4, 28, Enc32(inode.sectors));
    SpliceWords(s5, POINTERS_OFFSET, PointerWords(inode), i);
  }

  // ---------- Location ----------

  /** The inode table of a block group, from its descriptor. */
  function TableStart(md: Metadata, d: seq<Block>, group: nat): (r: Result<nat>)
    requires Mounted(md) && Sized(md, d)
    ensures if r.Ok? then r.value < md.blocksCount else r.error == InvalidFilesystem
  {
    if group >= md.groupCount then Err(InvalidFilesystem)
    else
      var block :- Load(md, d, md.firstDataBlock + 1 + Blocks(md, 32 * group));
      assert Within(md, 32 * group) + 32 <= md.blockSize by { DescriptorFits(md, group); }
      var table := Le32(block, Within(md, 32 * group) + 8);
      if table >= md.blocksCount then Err(InvalidFilesystem) else Ok(table)
  }

  lemma DescriptorFits(md: Metadata, group: nat)
    requires Mounted(md)
    ensures Within(md, 32 * group) + 32 <= md.blockSize
  {
    if md.blockSize == 1024 {
      Remainders(group / 32, 32 * (group % 32));
    } else if md.blockSize == 2048 {
      Remainders(group / 64, 32 * (group % 64));
    } else {
      Remainders(group / 128, 32 * (group % 128));
    }
  }

  lemma Remainders(q: nat, r: nat)
    ensures r < 1024 ==> (1024 * q + r) % 1024 == r
    ensures r < 2048 ==> (2048 * q + r) % 2048 == r
    ensures r < 4096 ==> (4096 * q + r) % 4096 == r
  {
  }

  /** The byte position of inode `n` inside its group's table. */
  function TablePosition(md: Metadata, n: nat): nat
    requires Mounted(md) && n >= 1
  {
    (n - 1) % md.inodesPerGroup * md.inodeSize
  }

  predicate PointersOnDisk(md: Metadata, inode: Inode) {
    && (forall i :: 0 <= i < DIRECT_BLOCKS ==> inode.blocks[i] == 0 || inode.blocks[i] < md.blocksCount)
    && (inode.single == 0 || inode.single < md.blocksCount)
    && (inode.double == 0 || inode.double < md.blocksCount)
  }

  function TableBlocks(md: Metadata): nat
    requires Mounted(md)
  {
    var span := md.inodesPerGroup * md.inodeSize;
    Blocks(md, span) + (if Within(md, span) != 0 then 1 else 0)
  }

  function ReadInode(md: Metadata, d: seq<Block>, n: nat): Result<Inode>
    requires Mounted(md) && Sized(md, d)
  {
    if n == 0 || n > md.inodesCount then Err(InvalidFilesystem)
    else
      var table :- TableStart(md, d, (n - 1) / md.inodesPerGroup);
      if table + TableBlocks(md) > md.blocksCount then Err(InvalidFilesystem)
      else FetchAt(md, d, table, TablePosition(md, n))
  }

  /** The inode at byte position `at` of the table that starts at block `table`. */
  function FetchAt(md: Metadata, d: seq<Block>, table: nat, at: nat): Result<Inode>
    requires Mounted(md) && Sized(md, d)
  {
    var block :- Load(md, d, table + Blocks(md, at));
    var w := Within(md, at);
    if w + md.inodeSize > md.blockSize then Err(InvalidFilesystem)
    else
      var inode := Decode(block[w..w + md.inodeSize]);
      if PointersOnDisk(md, inode) then Ok(inode) else Err(InvalidFilesystem)
  }

  /** The inode-table block that holds inode `n`, and its contents once `inode` has been stored there. */
  function StoreInode(md: Metadata, d: seq<Block>, n: nat, inode: Inode, isNew: bool): (r: Result<(nat, Block)>)
    requires Mounted(md) && Sized(md, d) && inode.size < U32_LIMIT
    ensures r.Ok? ==> |r.value.1| == md.blockSize
  {
    if n == 0 then Err(InvalidFilesystem)
    else
      var table :- TableStart(md, d, (n - 1) / md.inodesPerGroup);
      StoreAt(md, d, table, TablePosition(md, n), inode, isNew)
  }

  function StoreAt(md: Metadata, d: seq<Block>, table: nat, at: nat, inode: Inode, isNew: bool): (r: Result<(nat, Block)>)
    requires Mounted(md) && Sized(md, d) && inode.size < U32_LIMIT
    ensures r.Ok? ==> |r.value.1| == md.blockSize
  {
    var w := Within(md, at);
    if w + md.inodeSize > md.blockSize then Err(InvalidFilesystem)
    else
      var block :- Load(md, d, table + Blocks(md, at));
      Ok((table + Blocks(md, at), Splice(block, w, Encode(block[w..w + md.inodeSize], inode, isNew))))
  }

  method ReadGroupDescriptor(disk: Disk, md: Metadata, group: nat) returns (r: Result<nat>)
    requires Mounted(md) && Sized(md, disk.blocks)
    ensures Determined(disk.faulty, r, TableStart(md, disk.blocks, group))
  {
    if group >= md.groupCount {
      return Err(InvalidFilesystem);
    }
    var block :- disk.Read(md, md.firstDataBlock + 1 + Blocks(md, 32 * group));
    DescriptorFits(md, group);
    var table := Le32(block, Within(md, 32 * group) + 8);
    r := if table >= md.blocksCount then Err(InvalidFilesystem) else Ok(table);
  }

  method LoadInode(disk: Disk, md: Metadata, n: nat) returns (r: Result<Inode>)
    requires Mounted(md) && Sized(md, disk.blocks)
    ensures Determined(disk.faulty, r, ReadInode(md, disk.blocks, n))
  {
    hide TableStart, Blocks, TableBlocks, Decode, PointersOnDisk, TablePosition;
    if n == 0 || n > md.inodesCount {
      return Err(InvalidFilesystem);
    }
    var table :- ReadGroupDescriptor(disk, md, (n - 1) / md.inodesPerGroup);
    if table + TableBlocks(md) > md.blocksCount {
      return Err(InvalidFilesystem);
    }
    var at := TablePosition(md, n);
    var w := Within(md, at);
    var block :- disk.Read(md, table + Blocks(md, at));
    if w + md.inodeSize > md.blockSize {
      return Err(InvalidFilesystem);
    }
    var inode := Decode(block[w..w + md.inodeSize]);
    r := if PointersOnDisk(md, inode) then Ok(inode) else Err(InvalidFilesystem);
  }

  lemma EncWordsSnoc(s: seq<byte>, o: nat, ws: seq<u32>, w: u32)
    requires o + 4 * |ws| + 4 <= |s|
    ensures Splice(Splice(s, o, EncWords(ws)), o + 4 * |ws|, Enc32(w)) == Splice(s, o, EncWords(ws + [w]))
  {
    var a, b := Splice(Splice(s, o, EncWords(ws)), o + 4 * |ws|, Enc32(w)), EncWords(ws + [w]);
    forall j | 0 <= j < 4 * |ws| ensures b[j] == EncWords(ws)[j] {
      assert (ws + [w])[j / 4] == ws[j / 4];
    }
    assert forall k :: 0 <= k < 4 ==> b[4 * |ws| + k] == Enc32(w)[k];
  }

  method StorePointers(raw: seq<byte>, ws: seq<u32>) returns (s: seq<byte>)
    requires POINTERS_OFFSET + 4 * |ws| <= |raw|
    ensures s == Splice(raw, POINTERS_OFFSET, EncWords(ws))
  {
    hide EncWords, Enc32;
    s := raw;
    assert |EncWords(ws[..0])| == 0;
    for i := 0 to |ws|
      invariant s == Splice(raw, POINTERS_OFFSET, EncWords(ws[..i]))
    {
      EncWordsSnoc(raw, POINTERS_OFFSET, ws[..i], ws[i]);
      assert ws[..i] + [ws[i]] == ws[..i + 1];
      s := Splice(s, POINTERS_OFFSET + 4 * i, Enc32(ws[i]));
    }
    assert ws[..|ws|] == ws;
  }

  method EncodeInPlace(raw: seq<byte>, inode: Inode, isNew: bool) returns (s: seq<byte>)
    requires |raw| >= 128 && inode.size < U32_LIMIT
    ensures s == Encode(raw, inode, isNew)
  {
    hide Enc16, Enc32, EncWords, Splice;
    s := raw;
    if isNew {
      s := Zeros(|raw|);
    }
    s := Splice(s, 0, Enc16(inode.mode));
    s := Splice(s, 4, Enc32(inode.size));
    s := Splice(s, 26, Enc16(inode.links));
    s := Splice(s, 108, Zeros(4));
    s := Splice(s, 28, Enc32(inode.sectors));
    s := StorePointers(s, PointerWords(inode));
  }

  method WriteInodeFields(disk: Disk, md: Metadata, n: nat, inode: Inode, isNew: bool, log: BlockTransaction?) returns (r: Result<()>)
    requires Mounted(md) && Sized(md, disk.blocks) && inode.size < U32_LIMIT
    requires log != null ==> log.Covers(disk.blocks)
    modifies disk, if log == null then {} else {log}
    ensures Sized(md, disk.blocks)
    ensures log != null ==> log.Covers(disk.blocks) && log.base == old(log.base)
    ensures var store := StoreInode(md, old(disk.blocks), n, inode, isNew);
            r.Ok? ==> store.Ok? && store.value.0 < md.blocksCount && disk.blocks == old(disk.blocks)[store.value.0 := store.value.1]
    ensures r.Err? ==> disk.Fails(r.error) || r.error == InvalidFilesystem
    ensures var store := StoreInode(md, old(disk.blocks), n, inode, isNew);
            r.Err? ==> disk.Fails(r.error) || store.Err? || store.value.0 >= md.blocksCount
  {
    hide TableStart, Blocks, TablePosition, Encode;
    if n == 0 {
      return Err(InvalidFilesystem);
    }
    var table :- ReadGroupDescriptor(disk, md, (n - 1) / md.inodesPerGroup);
    var at := TablePosition(md, n);
    var w := Within(md, at);
    if w + md.inodeSize > md.blockSize {
      return Err(InvalidFilesystem);
    }
    var block :- disk.Read(md, table + Blocks(md, at));
    var raw := EncodeInPlace(block[w..w + md.inodeSize], inode, isNew);
    r := Put(disk, md, log, table + Blocks(md, at), Splice(block, w, raw));
  }
}
