/** The smallest filesystem: a root directory and one free block. The invariant holds of it. */
module Ext2Fresh {
  import opened Bytes
  import opened Ext2Disk
  import opened Ext2Owned
  import opened Ext2Records
  import opened Ext2Entries
  import opened Ext2Inodes
  import opened Ext2Path
  import opened Ext2Bitmap
  import opened Ext2View
  import opened Ext2State
  import opened Ext2Tree
  import opened Ext2Change
  import opened Ext2Links
  import opened Ext2Reader
  import opened Ext2WriteProof
  import opened Ext2Operations
  import opened Ext2Mkdir

  const SMALL := Metadata(1024, 8, 8, 1, 8192, 8, 128, 1, true)
  const ROOT_BLOCK: u32 := 6

  /** Block 3 is the block bitmap, 4 the inode bitmap, 5 the inode table; one block and seven inodes are free. */
  function FreshDescriptor(): (s: Block)
    ensures |s| == 1024
  {
    Enc32(3) + Enc32(4) + Enc32(5) + Enc16(1) + Enc16(7) + Zeros(1008)
  }

  function FreshSuperblock(): (s: Block)
    ensures |s| == 1024
  {
    Zeros(12) + Enc32(1) + Enc32(7) + Zeros(1004)
  }

  function FreshTable(): (s: Block)
    ensures |s| == 1024
  {
    Zeros(128) + Encode(Zeros(128), NewDirectory(ROOT_BLOCK), true) + Zeros(768)
  }

  function FirstByte(b: byte): (s: Block)
    ensures |s| == 1024 && s[0] == b
  {
    [b] + Zeros(1023)
  }

  function FreshDisk(): (d: seq<Block>)
    ensures Sized(SMALL, d)
  {
    [Zeros(1024), FreshSuperblock(), FreshDescriptor(), FirstByte(0x3f), FirstByte(2), FreshTable(), DotBlock(SMALL, 2, 2), Zeros(1024)]
  }

  lemma DescriptorReads()
    ensures var s := FreshDescriptor();
            Le32(s, 0) == 3 && Le32(s, 4) == 4 && Le32(s, 8) == 5 && Le16(s, 12) == 1 && Le16(s, 14) == 7
  {
  }

  lemma SuperblockReads()
    ensures Le32(FreshSuperblock(), 12) == 1 && Le32(FreshSuperblock(), 16) == 7
  {
  }

  lemma FreshGeometry()
    ensures Geometry(SMALL, FreshDisk())
    ensures BlockBitmapNumber(SMALL, FreshDisk()) == 3 && InodeBitmapNumber(SMALL, FreshDisk()) == 4 && InodeTable(SMALL, FreshDisk()) == 5
    ensures TableBlocks(SMALL) == 1
  {
    hide FreshDescriptor, FreshSuperblock, FreshTable, FirstByte, DotBlock;
    DescriptorReads();
  }

  lemma SixBits()
    ensures Bit(0x3f, 0) && Bit(0x3f, 1) && Bit(0x3f, 2) && Bit(0x3f, 3) && Bit(0x3f, 4) && Bit(0x3f, 5) && !Bit(0x3f, 6)
    ensures !Bit(2, 0) && Bit(2, 1) && !Bit(2, 2) && !Bit(2, 3) && !Bit(2, 4) && !Bit(2, 5) && !Bit(2, 6) && !Bit(2, 7)
  {
  }

  lemma FreshUsed()
    ensures Used(SMALL, FirstByte(0x3f)) == {1, 2, 3, 4, 5, 6}
  {
    SixBits();
    var bitmap := FirstByte(0x3f);
    hide Bit, FirstByte;
    forall b: nat | b < 8 ensures InUse(SMALL, bitmap, b) <==> 1 <= b <= 6 {
      assert 1 <= b ==> (b - 1) / 8 == 0 && (b - 1) % 8 == b - 1;
    }
  }

  lemma FreshLive()
    ensures LiveInodes(SMALL, FirstByte(2)) == {2}
  {
    SixBits();
    var bitmap := FirstByte(2);
    hide Bit, FirstByte;
    forall n: nat | n <= 8 ensures IsLive(SMALL, bitmap, n) <==> n == 2 {
      assert 1 <= n ==> (n - 1) / 8 == 0 && (n - 1) % 8 == n - 1;
    }
  }

  lemma FreshRoot()
    ensures SlotInode(FreshTable(), 1) == NewDirectory(ROOT_BLOCK)
  {
    var raw := Encode(Zeros(128), NewDirectory(ROOT_BLOCK), true);
    DecodeEncode(Zeros(128), NewDirectory(ROOT_BLOCK), true);
    hide Encode, Decode, NewDirectory;
    assert FreshTable()[128..256] == raw;
  }

  /** What the fresh disk shows. */
  ghost predicate FreshState(fs: Fs) {
    && fs.md == SMALL && Sized(SMALL, fs.data) && fs.layout == {0, 1, 2, 3, 4, 5}
    && fs.used == {1, 2, 3, 4, 5, 6} && fs.live == {2} && fs.counts == Counts(1, 7, 1, 7)
    && (forall n :: n in fs.inodes <==> 1 <= n <= 8) && fs.inodes[2] == NewDirectory(ROOT_BLOCK)
    && fs.data[6] == DotBlock(SMALL, 2, 2)
  }

  lemma FreshView()
    ensures Geometry(SMALL, FreshDisk()) && FreshState(View(SMALL, FreshDisk()))
  {
    FreshGeometry();
    FreshUsed();
    FreshLive();
    FreshRoot();
    DescriptorReads();
    SuperblockReads();
    hide FreshDescriptor, FreshSuperblock, FreshTable, FirstByte, DotBlock, NewDirectory, Used, LiveInodes, SlotInode, TableBlocks, Geometry;
    var fs := View(SMALL, FreshDisk());
    assert fs.inodes[2] == RawInode(SMALL, FreshDisk(), 2);
    assert fs.layout == {0, 1, 2, 3, 4, 5};
  }

  lemma FreshShape(fs: Fs)
    requires FreshState(fs)
    ensures Shape(fs) && OneBlock(fs, 2) && Owns(fs, 2) == [ROOT_BLOCK] && PointersOnDisk(SMALL, fs.inodes[2])
    ensures forall n: nat :: Owner(fs, n) ==> n == 2
  {
    hide DotBlock, Listed;
    FreshOwns(fs);
  }

  lemma FreshOwns(fs: Fs)
    requires FreshState(fs)
    ensures Listed(SMALL, fs.data, fs.inodes[2]) == [ROOT_BLOCK]
  {
    hide DotBlock, Listed;
    OnlyFirstListed(SMALL, fs.data, fs.inodes[2]);
  }

  lemma RootSet()
    ensures Set([ROOT_BLOCK]) == {6} && Proper(SMALL, [ROOT_BLOCK])
  {
    SetAppend([], ROOT_BLOCK);
    assert Set([]) == {} && [] + [ROOT_BLOCK] == [ROOT_BLOCK];
  }

  lemma FreshNames(fs: Fs)
    requires FreshState(fs)
    ensures Shape(fs) && Directory(fs, 2) && GoodDirectory(fs, 2) && OnlyDots(Names(fs, 2))
  {
    hide Listed, Records, Live, Entries, DotBlock, Set;
    FreshShape(fs);
    OneBlockNames(fs, 2);
    DotsRead(SMALL, 2, 2);
  }

  lemma FreshHolds(fs: Fs)
    requires FreshState(fs)
    ensures Shape(fs) && Holding(fs) && Apart(fs)
  {
    hide Listed, DotBlock, Set, PointersOnDisk, OneBlock, NewDirectory, Proper;
    FreshShape(fs);
    RootSet();
    assert HoldsBlocks(fs, 2);
  }

  lemma FreshTree(fs: Fs)
    requires FreshState(fs)
    ensures Shape(fs) && Tree(fs)
  {
    hide Entries, GoodDirectory, FreshState, Shape, OneBlock, Listed, Names, Owner;
    FreshShape(fs);
    FreshNames(fs);
    forall n: nat, name: Name, c: nat ensures !Links(fs, n, name, c) {
      if n == 2 {
        NoLinks(fs, 2, name, c);
      } else {
        NotDirectory(fs, n, name, c);
      }
    }
  }

  lemma NotDirectory(fs: Fs, n: nat, name: Name, c: nat)
    requires Shape(fs) && !Owner(fs, n)
    ensures !Links(fs, n, name, c)
  {
  }

  lemma FreshCounts(fs: Fs)
    requires FreshState(fs)
    ensures Shape(fs) && LinkCounts(fs) && SectorCounts(fs) && EntryKinds(fs)
  {
    hide Entries, GoodDirectory, Shape, OneBlock, Listed, Names, DotBlock;
    FreshShape(fs);
    FreshNames(fs);
    NewCount(fs, 2);
    DotsHaveNoKind(fs, Names(fs, 2));
  }

  /** The fresh disk is well-formed, so the theorems about well-formed disks are about something. */
  lemma FreshIsWellFormed()
    ensures WellFormed(SMALL, FreshDisk()) && LinkCounts(View(SMALL, FreshDisk())) && SectorCounts(View(SMALL, FreshDisk())) && EntryKinds(View(SMALL, FreshDisk()))
  {
    hide View, FreshDisk, Geometry, Holding, Apart, Tree, Shape, DotBlock, NewDirectory, LinkCounts, SectorCounts, EntryKinds;
    FreshView();
    var fs := View(SMALL, FreshDisk());
    FreshHolds(fs);
    FreshTree(fs);
    FreshCounts(fs);
    assert |fs.used| == 6 && |fs.live| == 1;
  }
}
