/** The on-disk search tree of the file system: nodes by address, found by key. */
module BtrfsTree {
  import opened Bits
  import opened Options

  // ------------------------------------------------------------ keys

  datatype Key = Key(objectid: nat, kind: nat, offset: nat)

  /** Negative, zero or positive as `a` comes before, at or after `b`. */
  function Compare(a: Key, b: Key): (c: int) {
    if a.objectid != b.objectid then (if a.objectid < b.objectid then -1 else 1)
    else if a.kind != b.kind then (if a.kind < b.kind then -1 else 1)
    else if a.offset != b.offset then (if a.offset < b.offset then -1 else 1)
    else 0
  }

  /** Keys are totally ordered, and only equal keys compare equal. */
  lemma CompareIsOrder(a: Key, b: Key, c: Key)
    ensures Compare(a, b) == 0 <==> a == b
    ensures Compare(a, b) == -Compare(b, a)
    ensures Compare(a, b) <= 0 && Compare(b, c) <= 0 ==> Compare(a, c) <= 0
    ensures Compare(a, b) < 0 && Compare(b, c) <= 0 ==> Compare(a, c) < 0
    ensures Compare(a, b) <= 0 && Compare(b, c) < 0 ==> Compare(a, c) < 0
  {}

  /** The order is by number of the object, then by kind, then by offset. */
  lemma CompareLexicographic(a: Key, b: Key)
    ensures Compare(a, b) < 0
      <==> (a.objectid < b.objectid
            || (a.objectid == b.objectid && (a.kind < b.kind || (a.kind == b.kind && a.offset < b.offset))))
  {}

  predicate Before(a: Key, b: Key) { Compare(a, b) < 0 }

  datatype Bound = Open | At(key: Key)

  predicate Within(k: Key, lo: Bound, hi: Bound) {
    (lo.At? ==> !Before(k, lo.key)) && (hi.At? ==> Before(k, hi.key))
  }

  // ------------------------------------------------------------ nodes as bytes

  const HEADER := 101
  const LEAF_ITEM := 25
  const BRANCH_ENTRY := 33
  const MAX_LEVEL := 8

  /** A little-endian number. */
  function Le(s: seq<byte>, at: nat, n: nat): (v: nat)
    requires at + n <= |s|
    decreases n
  {
    if n == 0 then 0 else s[at] as nat + 256 * Le(s, at + 1, n - 1)
  }

  /** A number whose upper bytes are zero. */
  lemma {:induction false} LeUpperZero(s: seq<byte>, at: nat, n: nat)
    requires at + n <= |s| && forall i :: at <= i < at + n ==> s[i] == 0
    ensures Le(s, at, n) == 0
    decreases n
  {
    if n > 0 {
      LeUpperZero(s, at + 1, n - 1);
    }
  }

  lemma LeOneByte(s: seq<byte>, at: nat, n: nat)
    requires 0 < n && at + n <= |s| && forall i :: at < i < at + n ==> s[i] == 0
    ensures Le(s, at, n) == s[at]
  {
    LeUpperZero(s, at + 1, n - 1);
  }

  lemma LeTwoBytes(s: seq<byte>, at: nat, n: nat)
    requires 1 < n && at + n <= |s| && forall i :: at + 1 < i < at + n ==> s[i] == 0
    ensures Le(s, at, n) == s[at] as nat + 256 * (s[at + 1] as nat)
  {
    LeOneByte(s, at + 1, n - 1);
  }

  function KeyAt(s: seq<byte>, at: nat): (k: Key)
    requires at + 17 <= |s|
  {
    Key(Le(s, at, 8), s[at + 8], Le(s, at + 9, 8))
  }

  type Node = s: seq<byte> | |s| >= HEADER witness seq(HEADER, _ => 0)

  function Level(n: Node): (l: nat) { n[100] }

  function Count(n: Node): (c: nat) { Le(n, 96, 4) }

  predicate FullLeaf(n: Node) { Count(n) <= (|n| - HEADER) / LEAF_ITEM }

  predicate FullBranch(n: Node) { Level(n) <= MAX_LEVEL && 0 < Count(n) <= (|n| - HEADER) / BRANCH_ENTRY }

  lemma EntryInside(n: Node, size: nat, i: nat)
    requires size > 0 && i < (|n| - HEADER) / size
    ensures HEADER + i * size + size <= |n|
  {
    assert (i + 1) * size <= ((|n| - HEADER) / size) * size <= |n| - HEADER;
  }

  /** An item of a leaf: a key and where its data lies in the leaf. */
  datatype Item = Item(key: Key, offset: nat, size: nat, leaf: Node)

  function ItemAt(n: Node, i: nat): (item: Item)
    requires FullLeaf(n) && i < Count(n)
  {
    EntryInside(n, LEAF_ITEM, i);
    var at := HEADER + i * LEAF_ITEM;
    Item(KeyAt(n, at), Le(n, at + 17, 4), Le(n, at + 21, 4), n)
  }

  function BranchKey(n: Node, i: nat): (k: Key)
    requires FullBranch(n) && i < Count(n)
  {
    EntryInside(n, BRANCH_ENTRY, i);
    KeyAt(n, HEADER + i * BRANCH_ENTRY)
  }

  function Child(n: Node, i: nat): (address: nat)
    requires FullBranch(n) && i < Count(n)
  {
    EntryInside(n, BRANCH_ENTRY, i);
    Le(n, HEADER + i * BRANCH_ENTRY + 17, 8)
  }

  // ------------------------------------------------------------ trees

  /** Nodes that can be read, by address. */
  type Store = map<nat, Node>

  /** Below an address every node can be read, is not overfull, and lies lower than the one above it. */
  predicate Shaped(store: Store, address: nat, level: nat)
    decreases level
  {
    && address in store && Level(store[address]) == level
    && if level == 0 then FullLeaf(store[address])
       else FullBranch(store[address]) && forall i ::
         0 <= i < Count(store[address]) ==> ShapedChild(store, store[address], i)
  }

  predicate ShapedChild(store: Store, n: Node, i: nat)
    requires FullBranch(n) && i < Count(n)
    decreases Level(n), 0
  {
    && Child(n, i) in store && Level(store[Child(n, i)]) < Level(n)
    && Shaped(store, Child(n, i), Level(store[Child(n, i)]))
  }

  // ------------------------------------------------------------ every item of a tree

  function LeafItems(n: Node): (items: seq<Item>)
    requires FullLeaf(n)
    ensures |items| == Count(n) && forall i :: 0 <= i < |items| ==> items[i] == ItemAt(n, i)
  {
    seq(Count(n), i requires 0 <= i < Count(n) => ItemAt(n, i))
  }

  /** What a scan of all leaves below an address sees. */
  function Items(store: Store, address: nat): (items: seq<Item>)
    requires address in store && Shaped(store, address, Level(store[address]))
    decreases Level(store[address]), |store[address]| + 1
  {
    var n := store[address];
    if Level(n) == 0 then LeafItems(n) else BranchItems(store, n, 0)
  }

  function BranchItems(store: Store, n: Node, i: nat): (items: seq<Item>)
    requires FullBranch(n) && i <= Count(n) && forall j :: i <= j < Count(n) ==> ShapedChild(store, n, j)
    decreases Level(n), Count(n) - i
  {
    if i == Count(n) then []
    else
      assert ShapedChild(store, n, i);
      Items(store, Child(n, i)) + BranchItems(store, n, i + 1)
  }

  /** Below a node, keys lie between the bounds, and each branch key bounds its child. */
  ghost predicate Ranged(store: Store, address: nat, lo: Bound, hi: Bound)
    requires address in store && Shaped(store, address, Level(store[address]))
    decreases Level(store[address]), 1
  {
    var n := store[address];
    if Level(n) == 0 then forall i :: 0 <= i < Count(n) ==> Within(ItemAt(n, i).key, lo, hi)
    else
      && (forall i :: 0 <= i < Count(n) ==> Within(BranchKey(n, i), lo, hi))
      && (forall i, j :: 0 <= i < j < Count(n) ==> Before(BranchKey(n, i), BranchKey(n, j)))
      && (forall i :: 0 <= i < Count(n) ==> RangedChild(store, n, i, hi))
  }

  function Upper(n: Node, i: nat, hi: Bound): (b: Bound)
    requires FullBranch(n) && i < Count(n)
  {
    if i + 1 < Count(n) then At(BranchKey(n, i + 1)) else hi
  }

  ghost predicate RangedChild(store: Store, n: Node, i: nat, hi: Bound)
    requires FullBranch(n) && i < Count(n) && ShapedChild(store, n, i)
    decreases Level(n), 0
  {
    Ranged(store, Child(n, i), At(BranchKey(n, i)), Upper(n, i, hi))
  }

  /** A tree that can be searched by key. */
  ghost predicate WellFormed(store: Store, root: nat) {
    root in store && Shaped(store, root, Level(store[root])) && Ranged(store, root, Open, Open)
  }

  predicate AllWithin(items: seq<Item>, lo: Bound, hi: Bound) {
    forall i :: 0 <= i < |items| ==> Within(items[i].key, lo, hi)
  }

  lemma AllWithinAppend(a: seq<Item>, b: seq<Item>, lo: Bound, hi: Bound)
    requires AllWithin(a, lo, hi) && AllWithin(b, lo, hi)
    ensures AllWithin(a + b, lo, hi)
  {}

  lemma AllWithinWiden(items: seq<Item>, lo: Bound, hi: Bound, lo': Bound, hi': Bound)
    requires AllWithin(items, lo, hi) && lo.At? && (lo'.At? ==> !Before(lo.key, lo'.key))
    requires hi == hi' || (hi.At? && (hi'.At? ==> !Before(hi'.key, hi.key)))
    ensures AllWithin(items, lo', hi')
  {}

  /** Every key that a scan sees lies between the bounds. */
  lemma {:induction false} ItemsWithin(store: Store, address: nat, lo: Bound, hi: Bound)
    requires address in store && Shaped(store, address, Level(store[address])) && Ranged(store, address, lo, hi)
    ensures AllWithin(Items(store, address), lo, hi)
    decreases Level(store[address]), |store[address]| + 1
  {
    if Level(store[address]) > 0 {
      BranchWithin(store, address, 0, lo, hi);
      BoundsLower(store, address, lo, hi);
      AllWithinWiden(Items(store, address), At(BranchKey(store[address], 0)), hi, lo, hi);
    }
  }

  lemma BoundsLower(store: Store, address: nat, lo: Bound, hi: Bound)
    requires address in store && Shaped(store, address, Level(store[address]))
    requires Ranged(store, address, lo, hi) && Level(store[address]) > 0
    ensures lo.At? ==> !Before(BranchKey(store[address], 0), lo.key)
  {}

  /** From child `i` on, keys lie from its branch key on. */
  lemma {:induction false} BranchWithin(store: Store, address: nat, i: nat, lo: Bound, hi: Bound)
    requires address in store && Shaped(store, address, Level(store[address])) && Ranged(store, address, lo, hi)
    requires Level(store[address]) > 0 && i < Count(store[address])
    ensures AllWithin(BranchItems(store, store[address], i), At(BranchKey(store[address], i)), hi)
    decreases Level(store[address]), Count(store[address]) - i
  {
    hide Compare, Le, KeyAt;
    var n := store[address];
    ChildOf(store, address, i, lo, hi);
    ItemsWithin(store, Child(n, i), At(BranchKey(n, i)), Upper(n, i, hi));
    if i + 1 < Count(n) {
      BranchWithin(store, address, i + 1, lo, hi);
      NextBound(store, address, i, lo, hi);
      AllWithinWiden(Items(store, Child(n, i)), At(BranchKey(n, i)), Upper(n, i, hi), At(BranchKey(n, i)), hi);
      AllWithinWiden(BranchItems(store, n, i + 1), At(BranchKey(n, i + 1)), hi, At(BranchKey(n, i)), hi);
      AllWithinAppend(Items(store, Child(n, i)), BranchItems(store, n, i + 1), At(BranchKey(n, i)), hi);
    }
  }

  lemma ChildOf(store: Store, address: nat, i: nat, lo: Bound, hi: Bound)
    requires address in store && Shaped(store, address, Level(store[address])) && Ranged(store, address, lo, hi)
    requires Level(store[address]) > 0 && i < Count(store[address])
    ensures var n := store[address];
      ShapedChild(store, n, i) && Level(store[Child(n, i)]) < Level(n)
      && Shaped(store, Child(n, i), Level(store[Child(n, i)]))
      && Ranged(store, Child(n, i), At(BranchKey(n, i)), Upper(n, i, hi))
  {
    assert RangedChild(store, store[address], i, hi);
  }

  lemma NextBound(store: Store, address: nat, i: nat, lo: Bound, hi: Bound)
    requires address in store && Shaped(store, address, Level(store[address])) && Ranged(store, address, lo, hi)
    requires Level(store[address]) > 0 && i + 1 < Count(store[address])
    ensures var n := store[address];
      Before(BranchKey(n, i), BranchKey(n, i + 1)) && !Before(BranchKey(n, i + 1), BranchKey(n, i))
      && !Before(BranchKey(n, i), BranchKey(n, i))
      && (hi.At? ==> Before(BranchKey(n, i + 1), hi.key) && !Before(hi.key, BranchKey(n, i + 1)))
  {}

  // ------------------------------------------------------------ looking up

  /** The first item with a key, as a scan of all leaves finds it. */
  function Lookup(items: seq<Item>, k: Key): (r: Option<Item>) {
    if items == [] then None
    else if items[0].key == k then Some(items[0])
    else Lookup(items[1..], k)
  }

  lemma {:induction false} LookupFound(items: seq<Item>, k: Key, i: nat)
    requires i < |items| && items[i].key == k && forall j :: 0 <= j < i ==> items[j].key != k
    ensures Lookup(items, k) == Some(items[i])
  {
    if i > 0 {
      LookupFound(items[1..], k, i - 1);
    }
  }

  lemma {:induction false} LookupMissing(items: seq<Item>, k: Key)
    ensures Lookup(items, k) == None <==> forall j :: 0 <= j < |items| ==> items[j].key != k
  {
    if items != [] {
      LookupMissing(items[1..], k);
      assert forall j :: 0 < j < |items| ==> items[j] == items[1..][j - 1];
      assert forall j :: 0 <= j < |items[1..]| ==> items[1..][j] == items[j + 1];
    }
  }

  lemma {:induction false} LookupAppend(a: seq<Item>, b: seq<Item>, k: Key)
    ensures Lookup(a + b, k) == if Lookup(a, k).Some? then Lookup(a, k) else Lookup(b, k)
  {
    if a == [] {
      assert a + b == b;
    } else {
      LookupAppend(a[1..], b, k);
      assert (a + b)[1..] == a[1..] + b;
    }
  }

  lemma OutsideMissing(items: seq<Item>, lo: Bound, hi: Bound, k: Key)
    requires AllWithin(items, lo, hi) && !Within(k, lo, hi)
    ensures Lookup(items, k) == None
  {}

  /** `chosen` is the last branch key not after `k`. */
  predicate Chosen(n: Node, k: Key, chosen: nat)
    requires FullBranch(n)
  {
    && chosen < Count(n) && !Before(k, BranchKey(n, chosen))
    && (chosen + 1 < Count(n) ==> Before(k, BranchKey(n, chosen + 1)))
  }

  /** From child `i` on, only the chosen child can hold the key. */
  lemma {:induction false} BranchLookup(store: Store, address: nat, lo: Bound, hi: Bound, k: Key, chosen: nat, i: nat)
    requires address in store && Shaped(store, address, Level(store[address])) && Ranged(store, address, lo, hi)
    requires Level(store[address]) > 0 && i <= Count(store[address]) && Chosen(store[address], k, chosen)
    requires ShapedChild(store, store[address], chosen)
    ensures Lookup(BranchItems(store, store[address], i), k)
         == if i <= chosen then Lookup(Items(store, Child(store[address], chosen)), k) else None
    decreases Count(store[address]) - i
  {
    hide Compare, Le, KeyAt, BranchKey, Lookup;
    var n := store[address];
    if i == Count(n) {
      LookupMissing([], k);
    } else if i > chosen {
      BranchWithin(store, address, i, lo, hi);
      KeysAscend(store, address, lo, hi, chosen + 1, i);
      CompareIsOrder(k, BranchKey(n, chosen + 1), BranchKey(n, i));
      OutsideMissing(BranchItems(store, n, i), At(BranchKey(n, i)), hi, k);
    } else {
      BranchLookup(store, address, lo, hi, k, chosen, i + 1);
      ChildOf(store, address, i, lo, hi);
      LookupAppend(Items(store, Child(n, i)), BranchItems(store, n, i + 1), k);
      if i < chosen {
        ItemsWithin(store, Child(n, i), At(BranchKey(n, i)), Upper(n, i, hi));
        KeysAscend(store, address, lo, hi, i + 1, chosen);
        CompareIsOrder(k, BranchKey(n, i + 1), BranchKey(n, chosen));
        OutsideMissing(Items(store, Child(n, i)), At(BranchKey(n, i)), Upper(n, i, hi), k);
      }
    }
  }

  lemma KeysAscend(store: Store, address: nat, lo: Bound, hi: Bound, i: nat, j: nat)
    requires address in store && Shaped(store, address, Level(store[address])) && Ranged(store, address, lo, hi)
    requires Level(store[address]) > 0 && i <= j < Count(store[address])
    ensures Compare(BranchKey(store[address], i), BranchKey(store[address], j)) <= 0
  {}

  /** One step down keeps the answer. */
  lemma DescendKeeps(store: Store, address: nat, lo: Bound, hi: Bound, k: Key, chosen: nat)
    requires address in store && Shaped(store, address, Level(store[address])) && Ranged(store, address, lo, hi)
    requires Level(store[address]) > 0 && Chosen(store[address], k, chosen) && Within(k, lo, hi)
    ensures var n := store[address];
      && Child(n, chosen) in store && Level(store[Child(n, chosen)]) < Level(n)
      && Shaped(store, Child(n, chosen), Level(store[Child(n, chosen)]))
      && Ranged(store, Child(n, chosen), At(BranchKey(n, chosen)), Upper(n, chosen, hi))
      && Within(k, At(BranchKey(n, chosen)), Upper(n, chosen, hi))
      && Lookup(Items(store, Child(n, chosen)), k) == Lookup(Items(store, address), k)
  {
    hide Compare, Le, KeyAt, BranchKey, Lookup;
    ChildOf(store, address, chosen, lo, hi);
    BranchLookup(store, address, lo, hi, k, chosen, 0);
  }

  /** A key before the first branch key is nowhere below. */
  lemma BeforeAllMissing(store: Store, address: nat, lo: Bound, hi: Bound, k: Key)
    requires address in store && Shaped(store, address, Level(store[address])) && Ranged(store, address, lo, hi)
    requires Level(store[address]) > 0 && Before(k, BranchKey(store[address], 0))
    ensures Lookup(Items(store, address), k) == None
  {
    hide Compare, Le, KeyAt, BranchKey;
    BranchWithin(store, address, 0, lo, hi);
    OutsideMissing(BranchItems(store, store[address], 0), At(BranchKey(store[address], 0)), hi, k);
  }

  // ------------------------------------------------------------ the search

  /** The bytes of an item, if they lie in its leaf and fit the caller's buffer. */
  function Payload(item: Item, capacity: nat): (r: Option<seq<byte>>) {
    if item.offset > |item.leaf| || item.size > |item.leaf| - item.offset || item.size > capacity then None
    else Some(item.leaf[item.offset..item.offset + item.size])
  }

  /** What a scan of all leaves would return for a key. */
  function ItemData(items: seq<Item>, k: Key, capacity: nat): (r: Option<seq<byte>>) {
    match Lookup(items, k)
    case None => None
    case Some(item) => Payload(item, capacity)
  }

  /** The last branch entry whose key is not after `k`, or -1. */
  method ChooseChild(n: Node, k: Key) returns (chosen: int)
    requires FullBranch(n)
    ensures -1 <= chosen < Count(n)
    ensures chosen < 0 ==> Before(k, BranchKey(n, 0))
    ensures chosen >= 0 ==> Chosen(n, k, chosen)
  {
    hide Le, KeyAt, BranchKey, Compare;
    chosen := -1;
    var i := 0;
    while i < Count(n)
      invariant 0 <= i <= Count(n) && chosen == i - 1
      invariant chosen >= 0 ==> !Before(k, BranchKey(n, chosen))
    {
      CompareIsOrder(k, BranchKey(n, i), k);
      if Compare(BranchKey(n, i), k) > 0 {
        break;
      }
      chosen := i;
      i := i + 1;
    }
  }

  /** The first item of a leaf with a key. */
  method FindInLeaf(n: Node, k: Key) returns (found: int)
    requires FullLeaf(n)
    ensures -1 <= found < Count(n)
    ensures Lookup(LeafItems(n), k) == if found < 0 then None else Some(ItemAt(n, found))
  {
    hide Le, KeyAt, ItemAt, Compare, Lookup;
    var i := 0;
    while i < Count(n)
      invariant 0 <= i <= Count(n)
      invariant forall j :: 0 <= j < i ==> LeafItems(n)[j].key != k
    {
      CompareIsOrder(ItemAt(n, i).key, k, k);
      if Compare(ItemAt(n, i).key, k) == 0 {
        LookupFound(LeafItems(n), k, i);
        return i;
      }
      i := i + 1;
    }
    LookupMissing(LeafItems(n), k);
    return -1;
  }

  method CopyPayload(item: Item, capacity: nat) returns (r: Option<seq<byte>>)
    ensures r == Payload(item, capacity)
  {
    if item.offset > |item.leaf| || item.size > |item.leaf| - item.offset || item.size > capacity {
      return None;
    }
    var data: seq<byte>, j := [], 0;
    while j < item.size
      invariant 0 <= j <= item.size && data == item.leaf[item.offset..item.offset + j]
    {
      data := data + [item.leaf[item.offset + j]];
      j := j + 1;
    }
    return Some(data);
  }

  /** The key-guided descent finds what a scan of all leaves would find. */
  method ReadItem(store: Store, root: nat, k: Key, capacity: nat) returns (r: Option<seq<byte>>)
    requires WellFormed(store, root)
    ensures r == if capacity == 0 then None else ItemData(Items(store, root), k, capacity)
  {
    hide Le, KeyAt, ItemAt, BranchKey, Child, Compare, Lookup, Ranged, Shaped, ShapedChild, Payload;
    if capacity == 0 {
      return None;
    }
    var address := root;
    ghost var lo, hi := Open, Open;
    while Level(store[address]) != 0
      invariant address in store && Shaped(store, address, Level(store[address])) && Ranged(store, address, lo, hi)
      invariant Within(k, lo, hi) && Lookup(Items(store, address), k) == Lookup(Items(store, root), k)
      decreases Level(store[address])
    {
      var n := store[address];
      ShapedFull(store, address);
      var chosen := ChooseChild(n, k);
      if chosen < 0 {
        BeforeAllMissing(store, address, lo, hi, k);
        return None;
      }
      DescendKeeps(store, address, lo, hi, k, chosen);
      lo, hi := At(BranchKey(n, chosen)), Upper(n, chosen, hi);
      address := Child(n, chosen);
    }
    ShapedFull(store, address);
    var found := FindInLeaf(store[address], k);
    if found < 0 {
      return None;
    }
    r := CopyPayload(ItemAt(store[address], found), capacity);
  }

  lemma ShapedFull(store: Store, address: nat)
    requires address in store && Shaped(store, address, Level(store[address]))
    ensures
      if Level(store[address]) == 0
      then FullLeaf(store[address]) && Items(store, address) == LeafItems(store[address])
      else FullBranch(store[address])
  {}
}
