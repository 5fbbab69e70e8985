/** The block device under the ext2 driver, and the undo log that `write_file` commits through. */
module Ext2Disk {
  import opened Bytes

  datatype Ext2Error =
    | DiskFault
    | InvalidFilesystem
    | InvalidPath
    | NotFound
    | AlreadyExists
    | NotEmpty
    | NoSpace
    | AllocationFailed
    | RecoveryFailed
    | UnsupportedFeature

  datatype Result<+T> = Ok(value: T) | Err(error: Ext2Error) {
    predicate IsFailure() { Err? }
    function PropagateFailure<U>(): Result<U> requires Err? { Err(error) }
    function Extract(): T requires Ok? { value }
  }

  /** Failures of the machine rather than of the filesystem: a device error or a full kernel heap. */
  predicate Fault(e: Ext2Error) {
    e == DiskFault || e == AllocationFailed
  }

  /** `r` is what the contents of the disk determine, unless a fault intervened. */
  predicate Determined<T(==)>(faulty: bool, r: Result<T>, expected: Result<T>) {
    r == expected || (faulty && r.Err? && Fault(r.error))
  }

  datatype Metadata = Metadata(
    blockSize: nat,
    blocksCount: nat,
    inodesCount: nat,
    firstDataBlock: nat,
    blocksPerGroup: nat,
    inodesPerGroup: nat,
    inodeSize: nat,
    groupCount: nat,
    fileType: bool)

  /** What the driver relies on of a mounted superblock. */
  predicate Mounted(md: Metadata) {
    && (md.blockSize == 1024 || md.blockSize == 2048 || md.blockSize == 4096)
    && md.firstDataBlock == (if md.blockSize == 1024 then 1 else 0)
    && md.firstDataBlock + 2 <= md.blocksCount <= 0x1000_0000
    && 2 <= md.inodesCount < U32_LIMIT
    && 1 <= md.inodesPerGroup <= 8 * md.blockSize
    && 1 <= md.blocksPerGroup <= 8 * md.blockSize
    && 128 <= md.inodeSize <= md.blockSize
  }

  /** The geometry the write path accepts. */
  predicate Writable(md: Metadata) {
    && Mounted(md)
    && md.blockSize == 1024
    && md.groupCount == 1
    && md.inodeSize == 128
    && md.blocksCount - md.firstDataBlock <= md.blocksPerGroup
    && md.inodesCount <= md.inodesPerGroup
  }

  type Block = seq<byte>

  predicate Sized(md: Metadata, d: seq<Block>) {
    && |d| == md.blocksCount
    && forall b :: 0 <= b < |d| ==> |d[b]| == md.blockSize
  }

  class Disk {
    var blocks: seq<Block>
    /** Whether the device can fail, and the kernel heap be full. */
    const faulty: bool

    constructor (contents: seq<Block>, faulty: bool)
      ensures blocks == contents && this.faulty == faulty
    {
      blocks := contents;
      this.faulty := faulty;
    }

    /** The error is a fault of the machine, and the machine has faults. */
    predicate Fails(e: Ext2Error) {
      faulty && Fault(e)
    }

    /** On a faulty machine a read may fail at any time; when it succeeds it returns the block. */
    method Read(md: Metadata, b: nat) returns (r: Result<Block>)
      requires Sized(md, blocks)
      ensures Determined(faulty, r, if b < md.blocksCount then Ok(blocks[b]) else Err(InvalidFilesystem))
    {
      if b >= md.blocksCount {
        return Err(InvalidFilesystem);
      }
      var fault: bool := *;
      r := if faulty && fault then Err(DiskFault) else Ok(blocks[b]);
    }

    /** On a faulty machine a write may fail at any time, and then leaves its own block holding anything at all. */
    method Write(md: Metadata, b: nat, contents: Block) returns (r: Result<()>)
      requires Sized(md, blocks) && |contents| == md.blockSize
      modifies this
      ensures Sized(md, blocks)
      ensures forall i :: 0 <= i < |blocks| && i != b ==> blocks[i] == old(blocks)[i]
      ensures r.Ok? ==> b < md.blocksCount && blocks == old(blocks)[b := contents]
      ensures r.Err? ==> if b < md.blocksCount then faulty && r.error == DiskFault else r.error == InvalidFilesystem
    {
      if b >= md.blocksCount {
        return Err(InvalidFilesystem);
      }
      var fault: bool := *;
      if faulty && fault {
        var torn: Block := *;
        if |torn| == md.blockSize {
          blocks := blocks[b := torn];
        }
        return Err(DiskFault);
      }
      blocks := blocks[b := contents];
      return Ok(());
    }
  }

  predicate Logged(undo: seq<(nat, Block)>, b: nat) {
    exists i :: 0 <= i < |undo| && undo[i].0 == b
  }

  lemma LoggedAppend(undo: seq<(nat, Block)>, b: nat, contents: Block)
    ensures forall c: nat :: Logged(undo + [(b, contents)], c) <==> Logged(undo, c) || c == b
  {
    var longer := undo + [(b, contents)];
    assert longer[|undo|].0 == b;
    forall c: nat | Logged(undo, c) ensures Logged(longer, c) {
      var i :| 0 <= i < |undo| && undo[i].0 == c;
      assert longer[i].0 == c;
    }
  }

  method IsLogged(undo: seq<(nat, Block)>, b: nat) returns (logged: bool)
    ensures logged <==> Logged(undo, b)
  {
    logged := false;
    for k := 0 to |undo|
      invariant logged <==> Logged(undo[..k], b)
    {
      assert undo[..k + 1] == undo[..k] + [undo[k]];
      LoggedAppend(undo[..k], undo[k].0, undo[k].1);
      if undo[k].0 == b {
        logged := true;
      }
    }
    assert undo[..|undo|] == undo;
  }

  /** The undo log: the first time a block is written its old contents are saved. */
  class BlockTransaction {
    var undo: seq<(nat, Block)>
    /** The disk as it was when the transaction began. */
    ghost var base: seq<Block>

    constructor (disk: Disk)
      ensures undo == [] && base == disk.blocks
    {
      undo := [];
      base := disk.blocks;
    }

    /** Every block that differs from the start of the transaction has its old contents logged. */
    ghost predicate Covers(d: seq<Block>)
      reads this
    {
      && |base| == |d|
      && (forall i :: 0 <= i < |undo| ==> undo[i].0 < |d| && undo[i].1 == base[undo[i].0])
      && (forall b :: 0 <= b < |d| ==> d[b] == base[b] || Logged(undo, b))
    }

    method Write(disk: Disk, md: Metadata, b: nat, contents: Block) returns (r: Result<()>)
      requires Sized(md, disk.blocks) && |contents| == md.blockSize
      requires Covers(disk.blocks)
      modifies this`undo, disk
      ensures Sized(md, disk.blocks)
      ensures Covers(disk.blocks)
      ensures r.Ok? ==> b < md.blocksCount && disk.blocks == old(disk.blocks)[b := contents]
      ensures r.Err? ==> disk.Fails(r.error) || (r.error == InvalidFilesystem && b >= md.blocksCount)
    {
      var logged := IsLogged(undo, b);
      if !logged {
        var heapFull: bool := *;
        if disk.faulty && heapFull {
          return Err(AllocationFailed);
        }
        var original :- disk.Read(md, b);
        LoggedAppend(undo, b, original);
        undo := undo + [(b, original)];
      }
      r := disk.Write(md, b, contents);
    }

    /**
     * Writes the saved contents back, newest first. If every write succeeds, the disk is again
     * exactly what it was when the transaction began, whatever the failed writes left behind.
     */
    method Rollback(disk: Disk, md: Metadata) returns (r: Result<()>)
      requires Sized(md, disk.blocks)
      requires forall i :: 0 <= i < |undo| ==> |undo[i].1| == md.blockSize
      modifies disk
      ensures Sized(md, disk.blocks)
      ensures r.Ok? && old(Covers(disk.blocks)) ==> disk.blocks == base
      ensures r.Err? ==> r.error == RecoveryFailed
    {
      ghost var covered := Covers(disk.blocks);
      var failed := false;
      var k := |undo|;
      while k > 0
        invariant 0 <= k <= |undo|
        invariant Sized(md, disk.blocks)
        invariant covered && !failed ==>
            forall b :: 0 <= b < |base| ==>
                          disk.blocks[b] == base[b] || Logged(undo[..k], b)
      {
        k := k - 1;
        var w := disk.Write(md, undo[k].0, undo[k].1);
        if w.Err? {
          failed := true;
        }
      }
      r := if failed then Err(RecoveryFailed) else Ok(());
    }
  }

  /** The `match transaction` at the end of each metadata update: logged when there is a log. */
  method Put(disk: Disk, md: Metadata, log: BlockTransaction?, b: nat, contents: Block) returns (r: Result<()>)
    requires Sized(md, disk.blocks) && |contents| == md.blockSize
    requires log != null ==> log.Covers(disk.blocks)
    modifies disk, if log == null then {} else {log}
    ensures Sized(md, disk.blocks)
    ensures log != null ==> log.Covers(disk.blocks) && log.base == old(log.base)
    ensures r.Ok? ==> b < md.blocksCount && disk.blocks == old(disk.blocks)[b := contents]
    ensures r.Err? ==> disk.Fails(r.error) || (r.error == InvalidFilesystem && b >= md.blocksCount)
  {
    if log == null {
      r := disk.Write(md, b, contents);
    } else {
      r := log.Write(disk, md, b, contents);
    }
  }
}
