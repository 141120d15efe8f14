/** A tree of two levels: a branch over two leaves, whose keys differ in object, in kind and in offset. */
module BtrfsTwoLevels {
  import opened Bits
  import opened Options
  import opened BtrfsTree

  const FIRST := Key(256, 12, 5)
  const SECOND := Key(256, 108, 0)
  const THIRD := Key(257, 1, 0)

  /** Two entries at 101 and 134: a key, the child's address and eight bytes that are not read. */
  function RootByte(i: nat): (b: byte) {
    match i
    case 96 => 2 case 100 => 1
    case 102 => 1 case 109 => 12 case 110 => 5 case 119 => 16
    case 134 => 1 case 135 => 1 case 142 => 1 case 152 => 32
    case _ => 0
  }

  /** Two item headers at 101 and 126, their data at 151 and 153. */
  function LeftByte(i: nat): (b: byte) {
    match i
    case 96 => 2
    case 102 => 1 case 109 => 12 case 110 => 5 case 118 => 151 case 122 => 2
    case 127 => 1 case 134 => 108 case 143 => 153 case 147 => 3
    case 151 => 7 case 152 => 8 case 153 => 65 case 154 => 66 case 155 => 67
    case _ => 0
  }

  /** One item header at 101, its data at 126. */
  function RightByte(i: nat): (b: byte) {
    match i
    case 96 => 1
    case 101 => 1 case 102 => 1 case 109 => 1 case 118 => 126 case 122 => 1
    case 126 => 9
    case _ => 0
  }

  function Root(): (n: Node)
    ensures |n| == 167 && forall i :: 0 <= i < |n| ==> n[i] == RootByte(i)
  {
    seq(167, i requires 0 <= i < 167 => RootByte(i))
  }

  function Left(): (n: Node)
    ensures |n| == 156 && forall i :: 0 <= i < |n| ==> n[i] == LeftByte(i)
  {
    seq(156, i requires 0 <= i < 156 => LeftByte(i))
  }

  function Right(): (n: Node)
    ensures |n| == 127 && forall i :: 0 <= i < |n| ==> n[i] == RightByte(i)
  {
    seq(127, i requires 0 <= i < 127 => RightByte(i))
  }

  const STORE: Store := map[0 := Root(), 4096 := Left(), 8192 := Right()]

  lemma RootShape()
    ensures Level(Root()) == 1 && Count(Root()) == 2 && FullBranch(Root())
  {
    LeOneByte(Root(), 96, 4);
  }

  lemma LeftShape()
    ensures Level(Left()) == 0 && Count(Left()) == 2 && FullLeaf(Left())
  {
    LeOneByte(Left(), 96, 4);
  }

  lemma RightShape()
    ensures Level(Right()) == 0 && Count(Right()) == 1 && FullLeaf(Right())
  {
    LeOneByte(Right(), 96, 4);
  }

  lemma RootEntries()
    requires FullBranch(Root()) && Count(Root()) == 2
    ensures BranchKey(Root(), 0) == FIRST && Child(Root(), 0) == 4096
    ensures BranchKey(Root(), 1) == THIRD && Child(Root(), 1) == 8192
  {
    hide Le, Root;
    LeTwoBytes(Root(), 101, 8);
    LeOneByte(Root(), 110, 8);
    LeTwoBytes(Root(), 118, 8);
    LeTwoBytes(Root(), 134, 8);
    LeOneByte(Root(), 143, 8);
    LeTwoBytes(Root(), 151, 8);
  }

  lemma LeftItems()
    requires FullLeaf(Left()) && Count(Left()) == 2
    ensures LeafItems(Left()) == [Item(FIRST, 151, 2, Left()), Item(SECOND, 153, 3, Left())]
  {
    hide Le, Left;
    LeTwoBytes(Left(), 101, 8);
    LeOneByte(Left(), 110, 8);
    LeOneByte(Left(), 118, 4);
    LeOneByte(Left(), 122, 4);
    LeTwoBytes(Left(), 126, 8);
    LeOneByte(Left(), 135, 8);
    LeOneByte(Left(), 143, 4);
    LeOneByte(Left(), 147, 4);
  }

  lemma RightItems()
    requires FullLeaf(Right()) && Count(Right()) == 1
    ensures LeafItems(Right()) == [Item(THIRD, 126, 1, Right())]
  {
    hide Le, Right;
    LeTwoBytes(Right(), 101, 8);
    LeOneByte(Right(), 110, 8);
    LeOneByte(Right(), 118, 4);
    LeOneByte(Right(), 122, 4);
  }

  /** The tree can be searched, and a scan of its leaves sees the three items in order. */
  lemma TwoLevels()
    ensures WellFormed(STORE, 0)
    ensures Items(STORE, 0)
         == [Item(FIRST, 151, 2, Left()), Item(SECOND, 153, 3, Left()), Item(THIRD, 126, 1, Right())]
  {
    hide Le, Root, Left, Right, BranchKey, Child, LeafItems;
    RootShape();
    LeftShape();
    RightShape();
    RootEntries();
    LeftItems();
    RightItems();
    assert ShapedChild(STORE, Root(), 0) && ShapedChild(STORE, Root(), 1);
    assert Ranged(STORE, 4096, At(FIRST), At(THIRD)) && Ranged(STORE, 8192, At(THIRD), Open);
    assert RangedChild(STORE, Root(), 0, Open) && RangedChild(STORE, Root(), 1, Open);
    assert BranchItems(STORE, Root(), 2) == [];
    assert BranchItems(STORE, Root(), 1) == Items(STORE, 8192);
    assert BranchItems(STORE, Root(), 0) == Items(STORE, 4096) + Items(STORE, 8192);
  }

  lemma Payloads(capacity: nat)
    requires capacity >= 3
    ensures Payload(Item(SECOND, 153, 3, Left()), capacity) == Some([65, 66, 67])
    ensures Payload(Item(THIRD, 126, 1, Right()), capacity) == Some([9])
  {
    hide Left, Right;
    assert Left()[153..156] == [65, 66, 67] && Right()[126..127] == [9];
  }

  lemma Found(items: seq<Item>, capacity: nat)
    requires capacity >= 3
    requires items == [Item(FIRST, 151, 2, Left()), Item(SECOND, 153, 3, Left()), Item(THIRD, 126, 1, Right())]
    ensures ItemData(items, SECOND, capacity) == Some([65, 66, 67])
    ensures ItemData(items, THIRD, capacity) == Some([9])
    ensures ItemData(items, Key(256, 12, 4), capacity) == None
  {
    hide Lookup, Payload, Left, Right;
    Payloads(capacity);
    LookupFound(items, SECOND, 1);
    LookupFound(items, THIRD, 2);
    LookupMissing(items, Key(256, 12, 4));
  }

  /** The key of another kind is found below the branch entry of the same object; one before all entries is not. */
  lemma FoundAcrossLevels(capacity: nat)
    requires capacity >= 3
    ensures WellFormed(STORE, 0)
    ensures ItemData(Items(STORE, 0), SECOND, capacity) == Some([65, 66, 67])
    ensures ItemData(Items(STORE, 0), THIRD, capacity) == Some([9])
    ensures ItemData(Items(STORE, 0), Key(256, 12, 4), capacity) == None
  {
    hide ItemData, Left, Right, Root;
    TwoLevels();
    Found(Items(STORE, 0), capacity);
  }
}
