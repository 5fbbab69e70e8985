/** One directory block: a chain of variable-length records, edited in place. */
module Ext2Records {
  import opened Bytes
  import opened Options
  import opened Ext2Disk

  datatype Record = Record(inode: u32, len: nat, name: seq<byte>, kind: byte)

  /** A name, the inode it stands for, and the type byte beside it. */
  datatype Entry = Entry(name: seq<byte>, inode: u32, kind: byte)

  /** The type byte as it is kept: a filesystem without the feature has none. */
  function KeptKind(md: Metadata, kind: byte): byte {
    if md.fileType then kind else 0
  }

  function NameLength(md: Metadata, block: Block, o: nat): nat
    requires o + 8 <= |block|
  {
    if md.fileType then block[o + 6] else Le16(block, o + 6)
  }

  /** The record at offset `o`, checked against the first `valid` bytes of the block. */
  function RecordAt(md: Metadata, block: Block, o: nat, valid: nat): (r: Result<Record>)
    requires o + 8 <= valid <= |block|
    ensures r.Ok? ==> 8 <= r.value.len <= valid - o && r.value.len % 4 == 0 && |r.value.name| <= r.value.len - 8
  {
    var len := Le16(block, o + 4);
    if len < 8 || len % 4 != 0 || o + len > valid then Err(InvalidFilesystem)
    else
      var n := NameLength(md, block, o);
      if n > len - 8 then Err(InvalidFilesystem)
      else Ok(Record(Le32(block, o), len, block[o + 8..o + 8 + n], KeptKind(md, block[o + 7])))
  }

  function Records(md: Metadata, block: Block, o: nat, valid: nat): Result<seq<Record>>
    requires o <= valid <= |block|
    decreases valid - o
  {
    if o + 8 > valid then Ok([])
    else
      var r :- RecordAt(md, block, o, valid);
      var rest :- Records(md, block, o + r.len, valid);
      Ok([r] + rest)
  }

  /** The names a directory block defines: its records that carry an inode. */
  function Live(rs: seq<Record>): seq<Entry> {
    if rs == [] then []
    else (if rs[0].inode == 0 then [] else [Entry(rs[0].name, rs[0].inode, rs[0].kind)]) + Live(rs[1..])
  }

  function Align4(n: nat): (a: nat)
    ensures n <= a < n + 4 && a % 4 == 0
  {
    (n + 3) / 4 * 4
  }

  /** The subtraction in `record_len - used_len` cannot underflow. */
  lemma UsedFits(md: Metadata, block: Block, o: nat, valid: nat)
    requires o + 8 <= valid <= |block|
    requires RecordAt(md, block, o, valid).Ok?
    ensures Align4(8 + |RecordAt(md, block, o, valid).value.name|) <= RecordAt(md, block, o, valid).value.len
  {
  }

  // ---------- Adding ----------

  /** The bytes of a fresh record: header, name, and zeros up to its length. */
  function EntryBytes(md: Metadata, len: nat, name: seq<byte>, inode: u32, kind: byte): (s: seq<byte>)
    requires 8 + |name| <= len < U16_LIMIT && |name| < 256
    ensures |s| == len
  {
    Enc32(inode) + Enc16(len) + (if md.fileType then [|name|, kind] else Enc16(|name|)) +
    name + Zeros(len - 8 - |name|)
  }

  /** Whether the record can take a new one that needs `required` bytes. */
  predicate HasRoom(r: Record, required: nat) {
    if r.inode == 0 then r.len >= required
    else r.len >= Align4(8 + |r.name|) + required
  }

  /** The block with the new record placed in `r`, the record at `o`. */
  function PlaceIn(md: Metadata, block: Block, o: nat, r: Record, name: seq<byte>, inode: u32, kind: byte): (s: Block)
    requires o + r.len <= |block| < U16_LIMIT && 8 <= r.len && |name| < 256
    requires HasRoom(r, Align4(8 + |name|))
    ensures |s| == |block|
  {
    if r.inode == 0 then Splice(block, o, EntryBytes(md, r.len, name, inode, kind))
    else
      var used := Align4(8 + |r.name|);
      Splice(Splice(block, o + 4, Enc16(used)), o + used, EntryBytes(md, r.len - used, name, inode, kind))
  }

  /** The block after the first record with room, from offset `o` on, has taken the new entry. */
  function AddFrom(md: Metadata, block: Block, o: nat, name: seq<byte>, inode: u32, kind: byte): (r: Result<Block>)
    requires o <= |block| < U16_LIMIT && |name| < 256
    ensures r.Ok? ==> |r.value| == |block|
    decreases |block| - o
  {
    if o + 8 > |block| then Err(NoSpace)
    else
      var r :- RecordAt(md, block, o, |block|);
      if HasRoom(r, Align4(8 + |name|)) then Ok(PlaceIn(md, block, o, r, name, inode, kind))
      else AddFrom(md, block, o + r.len, name, inode, kind)
  }

  /** The dry run: whether some record has room. */
  function RoomFrom(md: Metadata, block: Block, o: nat, name: seq<byte>): Result<()>
    requires o <= |block|
    decreases |block| - o
  {
    if o + 8 > |block| then Err(NoSpace)
    else
      var r :- RecordAt(md, block, o, |block|);
      if HasRoom(r, Align4(8 + |name|)) then Ok(()) else RoomFrom(md, block, o + r.len, name)
  }

  /** The dry run succeeds exactly when the add does, and reports the same error when it does not. */
  lemma {:induction false} RoomIffAdd(md: Metadata, block: Block, o: nat, name: seq<byte>, inode: u32, kind: byte)
    requires o <= |block| < U16_LIMIT && |name| < 256
    ensures var room, add := RoomFrom(md, block, o, name), AddFrom(md, block, o, name, inode, kind);
            && (room.Ok? <==> add.Ok?)
            && (room.Err? ==> room.error == add.error)
    decreases |block| - o
  {
    hide PlaceIn, HasRoom, RecordAt, EntryBytes;
    if o + 8 <= |block| && RecordAt(md, block, o, |block|).Ok? {
      RoomIffAdd(md, block, o + RecordAt(md, block, o, |block|).value.len, name, inode, kind);
    }
  }

  // ---------- Removing ----------

  /** The first record of a block is cleared; any later one is absorbed by its predecessor at `prev`. */
  function Absorb(block: Block, prev: nat, len: nat): Result<Block>
    requires prev + 6 <= |block| < U16_LIMIT
  {
    var merged := Le16(block, prev + 4) + len;
    if merged > |block| then Err(InvalidFilesystem)
    else Ok(Splice(block, prev + 4, Enc16(merged)))
  }

  function Clear(block: Block, o: nat, len: nat): (s: Block)
    requires 8 <= len && o + len <= |block|
    ensures |s| == |block|
  {
    Splice(Splice(block, o, Zeros(4)), o + 6, Zeros(len - 6))
  }

  function RemoveFrom(md: Metadata, block: Block, o: nat, prev: Option<nat>, name: seq<byte>): (r: Result<Block>)
    requires o <= |block| < U16_LIMIT
    requires prev.Some? ==> prev.value + 8 <= o
    ensures r.Ok? ==> |r.value| == |block|
    decreases |block| - o
  {
    if o + 8 > |block| then Err(NotFound)
    else
      var r :- RecordAt(md, block, o, |block|);
      if r.inode != 0 && r.name == name then
        if prev.Some? then Absorb(block, prev.value, r.len) else Ok(Clear(block, o, r.len))
      else RemoveFrom(md, block, o + r.len, Some(o), name)
  }
}
