/** Directories: searching all their blocks, and editing the one block a writable directory has. */
module Ext2Directory {
  import opened Bytes
  import opened Numbers
  import opened Options
  import opened Ext2Disk
  import opened Ext2Pointers
  import opened Ext2Records

  // ---------- Searching ----------

  /** The search of one block from offset `o`: the first live record called `child`. */
  function ScanBlock(md: Metadata, block: Block, o: nat, valid: nat, child: seq<byte>): Result<Option<u32>>
    requires o <= valid <= |block|
    decreases valid - o
  {
    if o + 8 > valid then Ok(None)
    else
      var r :- RecordAt(md, block, o, valid);
      if r.inode != 0 && r.inode > md.inodesCount then Err(InvalidFilesystem)
      else if r.inode != 0 && r.name == child then Ok(Some(r.inode))
      else ScanBlock(md, block, o + r.len, valid, child)
  }

  /** Block `k` of a directory, which must not be a hole. */
  function DirectoryBlock(md: Metadata, d: seq<Block>, dir: Inode, k: nat): (r: Result<Block>)
    requires Mounted(md) && Sized(md, d)
    ensures r.Ok? ==> |r.value| == md.blockSize
  {
    var b :- DataBlock(md, d, dir, k);
    if b == 0 then Err(InvalidFilesystem) else Load(md, d, b)
  }

  /** How many bytes of block `k` lie inside the directory's size. */
  function ValidBytes(md: Metadata, dir: Inode, k: nat): (v: nat)
    ensures v <= md.blockSize
  {
    if dir.size <= k * md.blockSize then 0 else Min(dir.size - k * md.blockSize, md.blockSize)
  }

  function FindFrom(md: Metadata, d: seq<Block>, dir: Inode, k: nat, count: nat, child: seq<byte>): Result<Option<u32>>
    requires Mounted(md) && Sized(md, d) && k <= count
    decreases count - k
  {
    if k == count then Ok(None)
    else
      var block :- DirectoryBlock(md, d, dir, k);
      var found :- ScanBlock(md, block, 0, ValidBytes(md, dir, k), child);
      if found.Some? then Ok(found) else FindFrom(md, d, dir, k + 1, count, child)
  }

  function FindChild(md: Metadata, d: seq<Block>, dir: Inode, child: seq<byte>): Result<Option<u32>>
    requires Mounted(md) && Sized(md, d)
  {
    if !dir.IsDirectory() then Ok(None)
    else
      var count :- InodeBlockCount(md, dir);
      FindFrom(md, d, dir, 0, count, child)
  }

  method ScanDirectoryBlock(md: Metadata, block: Block, valid: nat, child: seq<byte>) returns (r: Result<Option<u32>>)
    requires valid <= |block|
    ensures r == ScanBlock(md, block, 0, valid, child)
  {
    hide RecordAt;
    var offset := 0;
    while offset + 8 <= valid
      invariant offset <= valid
      invariant ScanBlock(md, block, 0, valid, child) == ScanBlock(md, block, offset, valid, child)
      decreases valid - offset
    {
      var rec :- RecordAt(md, block, offset, valid);
      if rec.inode != 0 {
        if rec.inode > md.inodesCount {
          return Err(InvalidFilesystem);
        }
        if rec.name == child {
          return Ok(Some(rec.inode));
        }
      }
      offset := offset + rec.len;
    }
    r := Ok(None);
  }

  method ReadDirectoryBlock(disk: Disk, md: Metadata, cache: PointerCache, dir: Inode, k: nat) returns (r: Result<Block>)
    requires Mounted(md) && Sized(md, disk.blocks) && cache.Valid(md, disk.blocks)
    modifies cache
    ensures Determined(disk.faulty, r, DirectoryBlock(md, disk.blocks, dir, k))
    ensures r.Ok? ==> cache.Valid(md, disk.blocks)
  {
    var b :- cache.Lookup(disk, md, dir, k);
    if b == 0 {
      return Err(InvalidFilesystem);
    }
    r := disk.Read(md, b);
  }

  method FindDirectoryChild(disk: Disk, md: Metadata, dir: Inode, child: seq<byte>) returns (r: Result<Option<u32>>)
    requires Mounted(md) && Sized(md, disk.blocks)
    ensures Determined(disk.faulty, r, FindChild(md, disk.blocks, dir, child))
  {
    if !dir.IsDirectory() {
      return Ok(None);
    }
    var count :- InodeBlockCount(md, dir);
    var remaining := dir.size;
    var cache := new PointerCache();
    var k := 0;
    while k < count
      invariant k <= count && cache.Valid(md, disk.blocks)
      invariant remaining == if dir.size <= k * md.blockSize then 0 else dir.size - k * md.blockSize
      invariant FindFrom(md, disk.blocks, dir, 0, count, child) == FindFrom(md, disk.blocks, dir, k, count, child)
    {
      hide ScanBlock, DirectoryBlock;
      var block :- ReadDirectoryBlock(disk, md, cache, dir, k);
      var found :- ScanDirectoryBlock(md, block, Min(remaining, md.blockSize), child);
      if found.Some? {
        return Ok(found);
      }
      assert (k + 1) * md.blockSize == k * md.blockSize + md.blockSize;
      remaining := if remaining <= md.blockSize then 0 else remaining - md.blockSize;
      k := k + 1;
    }
    r := Ok(None);
  }

  // ---------- Editing ----------

  /** The block of a directory that has exactly one; `missing` is the error when it has none. */
  function OnlyBlock(md: Metadata, dir: Inode, missing: Ext2Error): Result<u32>
    requires Mounted(md)
  {
    if !dir.IsDirectory() then Err(UnsupportedFeature)
    else
      var count :- InodeBlockCount(md, dir);
      if count != 1 then Err(UnsupportedFeature)
      else if dir.blocks[0] == 0 then Err(missing)
      else Ok(dir.blocks[0])
  }

  function AddEntry(md: Metadata, d: seq<Block>, dir: Inode, name: seq<byte>, inode: u32, kind: byte): (r: Result<(u32, Block)>)
    requires Mounted(md) && Sized(md, d) && |name| < 256
    ensures r.Ok? ==> |r.value.1| == md.blockSize
  {
    var b :- OnlyBlock(md, dir, InvalidFilesystem);
    var block :- Load(md, d, b);
    var block' :- AddFrom(md, block, 0, name, inode, kind);
    Ok((b, block'))
  }

  function EntrySpace(md: Metadata, d: seq<Block>, dir: Inode, name: seq<byte>): Result<()>
    requires Mounted(md) && Sized(md, d)
  {
    var b :- OnlyBlock(md, dir, UnsupportedFeature);
    var block :- Load(md, d, b);
    RoomFrom(md, block, 0, name)
  }

  function RemoveEntry(md: Metadata, d: seq<Block>, dir: Inode, name: seq<byte>): (r: Result<(u32, Block)>)
    requires Mounted(md) && Sized(md, d)
    ensures r.Ok? ==> |r.value.1| == md.blockSize
  {
    var b :- OnlyBlock(md, dir, UnsupportedFeature);
    var block :- Load(md, d, b);
    var block' :- RemoveFrom(md, block, 0, None, name);
    Ok((b, block'))
  }

  /** Once space has been found, the add on the same directory block cannot fail for lack of it. */
  lemma SpaceThenAdd(md: Metadata, d: seq<Block>, d': seq<Block>, dir: Inode, name: seq<byte>, inode: u32, kind: byte)
    requires Mounted(md) && Sized(md, d) && Sized(md, d') && |name| < 256
    requires EntrySpace(md, d, dir, name).Ok?
    requires d'[dir.blocks[0]] == d[dir.blocks[0]]
    ensures AddEntry(md, d', dir, name, inode, kind).Ok?
  {
    RoomIffAdd(md, d[dir.blocks[0]], 0, name, inode, kind);
  }

  /** The header and name written field by field over the cleared record. */
  method FillRecord(md: Metadata, len: nat, name: seq<byte>, inode: u32, kind: byte) returns (s: seq<byte>)
    requires 8 + |name| <= len < U16_LIMIT && |name| < 256
    ensures s == EntryBytes(md, len, name, inode, kind)
  {
    s := Zeros(len);
    s := Splice(s, 0, Enc32(inode));
    s := Splice(s, 4, Enc16(len));
    if md.fileType {
      s := s[6 := |name|];
      s := s[7 := kind];
    } else {
      s := Splice(s, 6, Enc16(|name|));
    }
    s := Splice(s, 8, name);
    ghost var e := EntryBytes(md, len, name, inode, kind);
    assert s[..8] == e[..8];
    assert s[8..8 + |name|] == name == e[8..8 + |name|];
    assert s == s[..8] + s[8..8 + |name|] + s[8 + |name|..];
    assert s == e;
  }

  method PlaceRecord(md: Metadata, block: Block, o: nat, rec: Record, name: seq<byte>, inode: u32, kind: byte) returns (s: Block)
    requires o + rec.len <= |block| < U16_LIMIT && 8 <= rec.len && |name| < 256
    requires HasRoom(rec, Align4(8 + |name|))
    ensures s == PlaceIn(md, block, o, rec, name, inode, kind)
  {
    hide EntryBytes;
    if rec.inode == 0 {
      var record := FillRecord(md, rec.len, name, inode, kind);
      s := Splice(block, o, record);
    } else {
      var used := Align4(8 + |rec.name|);
      s := Splice(block, o + 4, Enc16(used));
      var record := FillRecord(md, rec.len - used, name, inode, kind);
      s := Splice(s, o + used, record);
    }
  }

  method AddToBlock(md: Metadata, block: Block, name: seq<byte>, inode: u32, kind: byte) returns (r: Result<Block>)
    requires |block| < U16_LIMIT && |name| < 256
    ensures r == AddFrom(md, block, 0, name, inode, kind)
  {
    hide RecordAt, PlaceIn, HasRoom, Align4, EntryBytes;
    var offset := 0;
    while offset + 8 <= |block|
      invariant offset <= |block|
      invariant AddFrom(md, block, 0, name, inode, kind) == AddFrom(md, block, offset, name, inode, kind)
      decreases |block| - offset
    {
      var rec :- RecordAt(md, block, offset, |block|);
      if HasRoom(rec, Align4(8 + |name|)) {
        var s := PlaceRecord(md, block, offset, rec, name, inode, kind);
        return Ok(s);
      }
      offset := offset + rec.len;
    }
    r := Err(NoSpace);
  }

  method AddDirectoryEntry(disk: Disk, md: Metadata, dir: Inode, name: seq<byte>, inode: u32, kind: byte, log: BlockTransaction?)
    returns (r: Result<()>)
    requires Mounted(md) && Sized(md, disk.blocks) && |name| < 256
    requires log != null ==> log.Covers(disk.blocks)
    modifies disk, if log == null then {} else {log}
    ensures Sized(md, disk.blocks)
    ensures log != null ==> log.Covers(disk.blocks) && log.base == old(log.base)
    ensures var add := AddEntry(md, old(disk.blocks), dir, name, inode, kind);
            && (r.Ok? ==> add.Ok? && add.value.0 < md.blocksCount && disk.blocks == old(disk.blocks)[add.value.0 := add.value.1])
            && (r.Err? ==> disk.Fails(r.error) || (add.Err? && r.error == add.error))
  {
    hide AddFrom;
    var b :- OnlyBlock(md, dir, InvalidFilesystem);
    var block :- disk.Read(md, b);
    var block' :- AddToBlock(md, block, name, inode, kind);
    r := Put(disk, md, log, b, block');
  }

  method EnsureDirectoryEntrySpace(disk: Disk, md: Metadata, dir: Inode, name: seq<byte>) returns (r: Result<()>)
    requires Mounted(md) && Sized(md, disk.blocks)
    ensures Determined(disk.faulty, r, EntrySpace(md, disk.blocks, dir, name))
  {
    var b :- OnlyBlock(md, dir, UnsupportedFeature);
    var block :- disk.Read(md, b);
    var offset := 0;
    while offset + 8 <= |block|
      invariant offset <= |block|
      invariant RoomFrom(md, block, 0, name) == RoomFrom(md, block, offset, name)
      decreases |block| - offset
    {
      var rec :- RecordAt(md, block, offset, |block|);
      if HasRoom(rec, Align4(8 + |name|)) {
        return Ok(());
      }
      offset := offset + rec.len;
    }
    r := Err(NoSpace);
  }

  method RemoveFromBlock(md: Metadata, block: Block, name: seq<byte>) returns (r: Result<Block>)
    requires |block| < U16_LIMIT
    ensures r == RemoveFrom(md, block, 0, None, name)
  {
    hide RecordAt, Absorb, Clear;
    var offset := 0;
    var previous: Option<nat> := None;
    while offset + 8 <= |block|
      invariant offset <= |block|
      invariant previous.Some? ==> previous.value + 8 <= offset
      invariant RemoveFrom(md, block, 0, None, name) == RemoveFrom(md, block, offset, previous, name)
      decreases |block| - offset
    {
      var rec :- RecordAt(md, block, offset, |block|);
      if rec.inode != 0 && rec.name == name {
        if previous.Some? {
          r := Absorb(block, previous.value, rec.len);
        } else {
          r := Ok(Clear(block, offset, rec.len));
        }
        return;
      }
      previous := Some(offset);
      offset := offset + rec.len;
    }
    r := Err(NotFound);
  }

  method RemoveDirectoryEntry(disk: Disk, md: Metadata, dir: Inode, name: seq<byte>) returns (r: Result<()>)
    requires Mounted(md) && Sized(md, disk.blocks)
    modifies disk
    ensures Sized(md, disk.blocks)
    ensures var rem := RemoveEntry(md, old(disk.blocks), dir, name);
            && (r.Ok? ==> rem.Ok? && rem.value.0 < md.blocksCount && disk.blocks == old(disk.blocks)[rem.value.0 := rem.value.1])
            && (r.Err? ==> disk.Fails(r.error) || (rem.Err? && r.error == rem.error && disk.blocks == old(disk.blocks)))
  {
    hide RemoveFrom;
    var b :- OnlyBlock(md, dir, UnsupportedFeature);
    var block :- disk.Read(md, b);
    var block' :- RemoveFromBlock(md, block, name);
    r := disk.Write(md, b, block');
  }
}
