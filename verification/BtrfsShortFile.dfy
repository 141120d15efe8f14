/** A file of eight bytes with one extent of four: a read inside the file that fails. */
module BtrfsShortFile {
  import opened Bits
  import opened Options
  import opened BtrfsTree
  import opened BtrfsFile

  const INODE := 257

  /** One leaf: two item headers at 101 and 126, the inode item at 151, the extent item at 311. */
  function ByteAt(i: nat): (b: byte) {
    match i
    case 96 => 2
    case 101 => 1 case 102 => 1 case 109 => 1 case 118 => 151 case 122 => 160
    case 126 => 1 case 127 => 1 case 134 => 108 case 143 => 55 case 144 => 1 case 147 => 53
    case 167 => 8 case 248 => 128
    case 331 => 1 case 356 => 4
    case _ => 0
  }

  function Leaf(): (n: Node)
    ensures |n| == 364 && forall i :: 0 <= i < |n| ==> n[i] == ByteAt(i)
  {
    seq(364, i requires 0 <= i < 364 => ByteAt(i))
  }

  const STORE: Store := map[0 := Leaf()]
  const INODE_HEADER := Item(Key(INODE, INODE_ITEM, 0), 151, 160, Leaf())
  const EXTENT_ITEM := Item(Key(INODE, EXTENT_DATA, 0), 311, 53, Leaf())

  lemma LeafCount()
    ensures Count(Leaf()) == 2 && Level(Leaf()) == 0 && FullLeaf(Leaf())
  {
    LeOneByte(Leaf(), 96, 4);
  }

  lemma InodeHeader()
    requires FullLeaf(Leaf()) && Count(Leaf()) == 2
    ensures ItemAt(Leaf(), 0) == INODE_HEADER
  {
    hide Le, Leaf;
    LeTwoBytes(Leaf(), 101, 8);
    LeOneByte(Leaf(), 110, 8);
    LeOneByte(Leaf(), 118, 4);
    LeOneByte(Leaf(), 122, 4);
  }

  lemma ExtentItem()
    requires FullLeaf(Leaf()) && Count(Leaf()) == 2
    ensures ItemAt(Leaf(), 1) == EXTENT_ITEM
  {
    hide Le, Leaf;
    LeTwoBytes(Leaf(), 126, 8);
    LeOneByte(Leaf(), 135, 8);
    LeTwoBytes(Leaf(), 143, 4);
    LeOneByte(Leaf(), 147, 4);
  }

  lemma StoreItems()
    ensures WellFormed(STORE, 0) && Items(STORE, 0) == [INODE_HEADER, EXTENT_ITEM]
  {
    hide Le, ItemAt, Leaf;
    LeafCount();
    InodeHeader();
    ExtentItem();
    assert LeafItems(Leaf()) == [INODE_HEADER, EXTENT_ITEM];
  }

  lemma FileStat()
    ensures InodeStat([INODE_HEADER, EXTENT_ITEM], INODE) == Some(Stat(8, 0x8000))
  {
    hide Le, Leaf;
    var data := Leaf()[151..311];
    LeOneByte(data, 16, 8);
    LeTwoBytes(data, 96, 4);
  }

  lemma FileExtents()
    ensures forall s: nat :: IsExtent([INODE_HEADER, EXTENT_ITEM], INODE, s) <==> s == 0
  {
    hide Leaf;
    var items := [INODE_HEADER, EXTENT_ITEM];
    assert OfInode(items[1], INODE) && items[1].key.offset == 0;
    assert !OfInode(items[0], INODE);
  }

  lemma FileHeader()
    ensures HeaderLength(Leaf()[311..364]) == 4
  {
    hide Le, Leaf;
    var data := Leaf()[311..364];
    assert data[20] == Leaf()[331] && data[45] == Leaf()[356];
    LeOneByte(data, 45, 8);
  }

  lemma FileLength()
    ensures ExtentLength([INODE_HEADER, EXTENT_ITEM], INODE, 0) == Some(4)
  {
    hide Le, Leaf, Lookup, HeaderLength;
    var items := [INODE_HEADER, EXTENT_ITEM];
    var data := Leaf()[311..364];
    LookupFound(items, Key(INODE, EXTENT_DATA, 0), 1);
    assert ItemData(items, Key(INODE, EXTENT_DATA, 0), ITEM_CAPACITY) == Some(data);
    FileHeader();
  }

  /** The fourth byte can be read if the disk answers; the fifth cannot be, whatever the disk answers. */
  lemma FifthByteUnreadable(reader: Reader)
    ensures WellFormed(STORE, 0) && Disjoint(Items(STORE, 0), INODE)
    ensures InodeStat(Items(STORE, 0), INODE) == Some(Stat(8, 0x8000))
    ensures Succeeds(Items(STORE, 0), INODE, reader, 3, 1) <==> reader(0, 3, 1).Some?
    ensures Requestable(Items(STORE, 0), INODE, 4, 1) && !Succeeds(Items(STORE, 0), INODE, reader, 4, 1)
  {
    hide ExtentLength, InodeStat, IsExtent, Items, Shaped, Ranged;
    StoreItems();
    FileStat();
    FileExtents();
    FileLength();
    var items := Items(STORE, 0);
    assert Covers(items, INODE, 0, 3);
    assert PastLast(items, INODE, 4);
    assert Consulted(items, INODE, 0, 3, 4);
  }
}
