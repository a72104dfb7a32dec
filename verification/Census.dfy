/** How many keys lie below a node: by the high byte of their length for a child of the root, by the path for any
    node. */
module Census {
  import opened Bytes
  import opened Blocks
  import opened Config
  import opened Nodes
  import opened Shape
  import opened ShapeOps
  import opened ShapeMoves
  import opened Heap
  import opened Splitting
  import opened Merging
  import opened Rest

  /** The items whose keys have a length with high byte h. */
  ghost function Band(items: set<Item>, h: byte): set<Item> {
    set x | x in items && |x.key| / 256 == h as int
  }

  ghost function Tally(items: set<Item>, h: byte): nat {
    |Band(items, h)|
  }

  /** The root has a child node in slot h. */
  ghost predicate HasChild(s: State, h: byte) {
    [h] in s.slots
  }

  // ------------------------------------------------------------ how the children of the root come and go

  /** From s to u nodes have only gone, and children of the root only if few keys were below them. */
  ghost predicate Shed(s: State, u: State) {
    && u.slots.Keys <= s.slots.Keys
    && forall h: byte | HasChild(s, h) && !HasChild(u, h) :: Tally(Items(s), h) <= SPLITBOUND / 3
  }

  /** One of the children that went had more keys below it than the array of lengths has places. */
  ghost predicate Spilt(s: State, u: State) {
    exists h: byte :: HasChild(s, h) && !HasChild(u, h) && Tally(Items(s), h) > SCRATCH
  }

  /** From s to u nodes have only come, and children of the root only with the keys of a full leaf. */
  ghost predicate Sprouted(s: State, u: State) {
    && s.slots.Keys <= u.slots.Keys
    && forall h: byte | HasChild(u, h) && !HasChild(s, h) :: Tally(Items(u), h) >= SPLITBOUND
  }

  lemma SameNodes(s: State, u: State)
    requires u.slots.Keys == s.slots.Keys
    ensures Shed(s, u) && !Spilt(s, u) && Sprouted(s, u)
  {
    forall h: byte ensures HasChild(s, h) == HasChild(u, h) {
    }
  }

  lemma ShedTwice(s: State, u: State, v: State)
    requires Shed(s, u) && Shed(u, v) && Items(s) == Items(u)
    ensures Shed(s, v) && (Spilt(s, v) <==> Spilt(s, u) || Spilt(u, v))
  {
    forall h: byte | HasChild(v, h) ensures HasChild(u, h) {
    }
    forall h: byte | HasChild(u, h) ensures HasChild(s, h) {
    }
    if Spilt(s, u) {
      var h: byte :| HasChild(s, h) && !HasChild(u, h) && Tally(Items(s), h) > SCRATCH;
      assert !HasChild(v, h);
    }
    if Spilt(u, v) {
      var h: byte :| HasChild(u, h) && !HasChild(v, h) && Tally(Items(u), h) > SCRATCH;
      assert HasChild(s, h);
    }
    if Spilt(s, v) {
      var h: byte :| HasChild(s, h) && !HasChild(v, h) && Tally(Items(s), h) > SCRATCH;
      assert HasChild(u, h) || !HasChild(u, h);
    }
  }

  lemma SproutedTwice(s: State, u: State, v: State)
    requires Sprouted(s, u) && Sprouted(u, v) && Items(u) == Items(v)
    ensures Sprouted(s, v)
  {
    forall h: byte | HasChild(v, h) && !HasChild(s, h) ensures Tally(Items(v), h) >= SPLITBOUND {
      assert HasChild(u, h) || !HasChild(u, h);
    }
  }

  // ------------------------------------------------------------ sets of items

  ghost function Set(items: seq<Item>): set<Item> {
    set x | x in items
  }

  lemma {:induction false} DistinctCount(items: seq<Item>)
    requires forall i, j | 0 <= i < j < |items| :: items[i] != items[j]
    ensures |Set(items)| == |items|
  {
    if items != [] {
      var rest := items[..|items|-1];
      DistinctCount(rest);
      assert Set(items) == Set(rest) + {items[|items|-1]};
    }
  }

  lemma LeafCount(s: State, n: Leaf)
    requires Sound(s) && n in s.leaf
    ensures |Set(s.leaf[n].items)| == |s.leaf[n].items| && Set(s.leaf[n].items) <= Items(s)
  {
    WfLeaf(s, n);
    DistinctCount(s.leaf[n].items);
  }

  lemma SubsetCount(a: set<Item>, b: set<Item>)
    requires a <= b
    ensures |a| <= |b|
  {
    if a == b {} else { assert b == a + (b - a); }
  }

  /** Losing one item takes one from the tally of its band alone. */
  lemma TallyWithout(items: set<Item>, x: Item, h: byte)
    requires x in items
    ensures Tally(items - {x}, h) == if |x.key| / 256 == h as int then Tally(items, h) - 1 else Tally(items, h)
  {
    if |x.key| / 256 == h as int {
      assert Band(items - {x}, h) == Band(items, h) - {x};
    } else {
      assert Band(items - {x}, h) == Band(items, h);
    }
  }

  lemma TallyWith(items: set<Item>, x: Item, h: byte)
    requires x !in items
    ensures Tally(items + {x}, h) == if |x.key| / 256 == h as int then Tally(items, h) + 1 else Tally(items, h)
  {
    assert items + {x} - {x} == items;
    TallyWithout(items + {x}, x, h);
  }

  // ------------------------------------------------------------ the children of the root

  lemma HighByte(k: Key, h: byte)
    ensures |k| / 256 == h as int <==> Enc(k)[..1] == [h]
  {
    assert Enc(k)[..1] == [Enc(k)[0]];
  }

  /** A key of band h that is stored lies in the leaf that slot Enc(k)[1] of node [h] shows, if it shows one. */
  lemma InBand(s: State, h: byte, m: Leaf, x: Item)
    requires Sound(s) && HasChild(s, h) && m in s.leaf && x in s.leaf[m].items && |x.key| / 256 == h as int
    ensures [h] in s.slots && |s.slots[[h]]| == 256
    ensures s.slots[[h]][Enc(x.key)[1]] == Down || s.slots[[h]][Enc(x.key)[1]] == Hold(m)
  {
    assert Wf(s);
    HighByte(x.key, h);
    if s.slots[[h]][Enc(x.key)[1]] != Down { Located(s, x.key, 1, m, x); }
  }

  /** A leaf that covers a child of the root holds all keys of its band. */
  lemma CoverHasBand(s: State, n: Leaf)
    requires Sound(s) && n in s.leaf && s.leaf[n].typ == 0 && |s.leaf[n].at| == 1
    ensures Tally(Items(s), s.leaf[n].at[0]) == |s.leaf[n].items|
  {
    var h := s.leaf[n].at[0];
    WfLeaf(s, n);
    assert s.leaf[n].at == [h] && HasChild(s, h);
    forall x | x in Band(Items(s), h) ensures x in s.leaf[n].items {
      var m :| m in s.leaf && x in s.leaf[m].items;
      InBand(s, h, m, x);
      assert Covers(s.leaf[n], Enc(x.key)[1]);
    }
    forall x | x in s.leaf[n].items ensures x in Band(Items(s), h) {
      assert Fits(x.key, s.leaf[n]);
      HighByte(x.key, h);
    }
    assert Band(Items(s), h) == Set(s.leaf[n].items);
    LeafCount(s, n);
  }

  lemma EmptyBand(s: State, h: byte)
    requires Sound(s) && HasChild(s, h) && Free(s, [h], 0, 256)
    ensures Tally(Items(s), h) == 0
  {
    forall i: byte | [h] in s.slots && |s.slots[[h]]| == 256 ensures s.slots[[h]][i] == Self {
      assert RowAt(s, [h], i) == Self;
    }
    forall x | x in Band(Items(s), h) ensures false {
      var m :| m in s.leaf && x in s.leaf[m].items;
      InBand(s, h, m, x);
    }
    assert Band(Items(s), h) == {};
  }

  /** Without a node of its own a band has fewer keys than fill a leaf. */
  lemma FewWithoutChild(s: State, h: byte)
    requires Sound(s) && Bounded(s, {}) && !HasChild(s, h)
    ensures Tally(Items(s), h) < SPLITBOUND
  {
    assert Wf(s);
    BoundsFit();
    assert Sub([], h) == [h];
    var v := s.slots[[]][h];
    forall x, m | m in s.leaf && x in s.leaf[m].items && x in Band(Items(s), h) ensures v == Hold(m) {
      assert Enc(x.key)[..0] == [] && Enc(x.key)[0] == h;
      Located(s, x.key, 0, m, x);
    }
    if v.Hold? {
      assert RowAt(s, [], h) == v && HeldBy(s, v.leaf, [], h);
      LeafCount(s, v.leaf);
      SubsetCount(Band(Items(s), h), Set(s.leaf[v.leaf].items));
    } else {
      assert Band(Items(s), h) == {};
    }
  }

  /** A full leaf on slot h of the root makes its band that large. */
  lemma FullBand(s: State, n: Leaf)
    requires Sound(s) && n in s.leaf && s.leaf[n].at == [] && s.leaf[n].typ == 8
    ensures Tally(Items(s), s.leaf[n].path) >= |s.leaf[n].items|
  {
    var h := s.leaf[n].path;
    WfLeaf(s, n);
    LeafCount(s, n);
    forall x | x in Set(s.leaf[n].items) ensures x in Band(Items(s), h) {
      assert Fits(x.key, s.leaf[n]);
    }
    SubsetCount(Set(s.leaf[n].items), Band(Items(s), h));
  }

  // ------------------------------------------------------------ any node

  /** The items of the leaves at node p and at the nodes below it. */
  ghost function Under(s: State, p: Path): set<Item> {
    set n, x | n in s.leaf && p <= s.leaf[n].at && x in s.leaf[n].items :: x
  }

  lemma UnderChild(s: State, p: Path, i: byte)
    ensures |Under(s, Sub(p, i))| <= |Under(s, p)|
  {
    forall n | n in s.leaf && Sub(p, i) <= s.leaf[n].at ensures p <= s.leaf[n].at {
      assert Sub(p, i)[..|p|] == p;
    }
    SubsetCount(Under(s, Sub(p, i)), Under(s, p));
  }

  lemma UnderLeaf(s: State, n: Leaf)
    requires Sound(s) && n in s.leaf
    ensures |s.leaf[n].items| <= |Under(s, s.leaf[n].at)|
  {
    LeafCount(s, n);
    SubsetCount(Set(s.leaf[n].items), Under(s, s.leaf[n].at));
  }

  lemma UnderTwo(s: State, n: Leaf, m: Leaf)
    requires Sound(s) && n in s.leaf && m in s.leaf && n != m && s.leaf[n].at == s.leaf[m].at
    ensures |s.leaf[n].items| + |s.leaf[m].items| <= |Under(s, s.leaf[n].at)|
  {
    assert Wf(s);
    LeafCount(s, n);
    LeafCount(s, m);
    var a, b := Set(s.leaf[n].items), Set(s.leaf[m].items);
    forall x | x in a && x in b ensures false { OneHome(s, n, x, m, x); }
    assert |a + b| == |a| + |b|;
    SubsetCount(a + b, Under(s, s.leaf[n].at));
  }

  lemma PathIsShort(s: State, p: Path)
    requires Sound(s) && p in s.slots
    ensures |p| <= 0x1_0000
  {
    assert Wf(s);
    assert DepthOk(p);
  }

  /** Below every node but the root there are more keys than may be merged into one leaf. */
  lemma {:induction false} NodeIsCrowded(s: State, p: Path)
    requires Sound(s) && Tidy(s) && p in s.slots && p != []
    ensures |Under(s, p)| > SPLITBOUND / 3
    decreases 0x1_0001 - |p|, 10, 0
  {
    assert Wf(s);
    PathIsShort(s, p);
    assert Shows(s, p, 0, 256);
    var i: byte :| RowAt(s, p, i) != Self;
    SlotIsCrowded(s, p, i);
  }

  /** The narrower the leaf a slot shows, the lower. */
  ghost function Rank(s: State, v: Slot): nat {
    if v.Hold? && v.leaf in s.leaf && s.leaf[v.leaf].typ <= 8 then 9 - s.leaf[v.leaf].typ else 0
  }

  lemma {:induction false} SlotIsCrowded(s: State, p: Path, i: byte)
    requires Sound(s) && Tidy(s) && p in s.slots && p != [] && RowAt(s, p, i) != Self
    ensures |Under(s, p)| > SPLITBOUND / 3
    decreases 0x1_0001 - |p|, Rank(s, RowAt(s, p, i)), 2
  {
    assert Wf(s);
    PathIsShort(s, p);
    match RowAt(s, p, i)
    case Down =>
      UnderChild(s, p, i);
      NodeIsCrowded(s, Sub(p, i));
    case Hold(n) =>
      assert HeldBy(s, n, p, i);
      LeafIsCrowded(s, n);
  }

  lemma {:induction false} LeafIsCrowded(s: State, n: Leaf)
    requires Sound(s) && Tidy(s) && n in s.leaf && s.leaf[n].at != []
    ensures |Under(s, s.leaf[n].at)| > SPLITBOUND / 3
    decreases 0x1_0001 - |s.leaf[n].at|, Rank(s, Hold(n)), 1
  {
    var r := s.leaf[n];
    assert Wf(s);
    WfLeaf(s, n);
    UnderLeaf(s, n);
    assert Seated(s, n, |r.items|, {});
    if |r.items| <= SPLITBOUND / 3 {
      ParentAndSibling(r.path, r.typ);
      var i: byte := Sibling(r.path, r.typ);
      match RowAt(s, r.at, i)
      case Down => SlotIsCrowded(s, r.at, i);
      case Self =>
        var j: byte :| i <= j < i + Width(r.typ) && RowAt(s, r.at, j) != Self;
        if RowAt(s, r.at, j).Hold? { Narrower(s, n, i, j); }
        SlotIsCrowded(s, r.at, j);
      case Hold(m) =>
        SiblingLeaf(s, n, m);
        if s.leaf[m].typ == r.typ { UnderTwo(s, n, m); } else { SlotIsCrowded(s, r.at, i); }
    }
  }

  /** A leaf in the sibling block of n, whose first slot is free, is narrower than n. */
  lemma Narrower(s: State, n: Leaf, i: byte, j: byte)
    requires Wf(s) && n in s.leaf && 1 <= s.leaf[n].typ <= 8 && i as int == Sibling(s.leaf[n].path, s.leaf[n].typ)
    requires RowAt(s, s.leaf[n].at, i) == Self && i <= j < i + Width(s.leaf[n].typ)
    requires RowAt(s, s.leaf[n].at, j).Hold? && s.leaf[n].at in s.slots
    ensures var m := RowAt(s, s.leaf[n].at, j).leaf; m in s.leaf && s.leaf[n].typ < s.leaf[m].typ
  {
    var r, m := s.leaf[n], RowAt(s, s.leaf[n].at, j).leaf;
    assert HeldBy(s, m, r.at, j);
    OnlyHere(s, n);
    ParentAndSibling(r.path, r.typ);
    Meets(s, n, m, j);
    if s.leaf[m].typ == r.typ {
      SameWidth(s.leaf[m].path, i, r.typ, j);
      assert Covers(s.leaf[m], i);
    }
  }

  lemma AtRootNotBelow(s: State, h: byte, n: Leaf, x: Item)
    requires Sound(s) && HasChild(s, h) && n in s.leaf && s.leaf[n].at == [] && x in s.leaf[n].items
    ensures |x.key| / 256 != h as int
  {
    assert Wf(s);
    assert Fits(x.key, s.leaf[n]);
    assert RowAt(s, [], Enc(x.key)[0]) == Hold(n);
    assert Sub([], h) == [h];
  }

  /** The keys below a child of the root are those of its band. */
  lemma UnderIsBand(s: State, h: byte)
    requires Sound(s) && HasChild(s, h)
    ensures Under(s, [h]) == Band(Items(s), h)
  {
    assert Wf(s);
    forall x, n | n in s.leaf && x in s.leaf[n].items ensures [h] <= s.leaf[n].at <==> |x.key| / 256 == h as int {
      HighByte(x.key, h);
      assert Fits(x.key, s.leaf[n]);
      if s.leaf[n].at == [] {
        AtRootNotBelow(s, h, n, x);
      } else {
        assert Enc(x.key)[..1] == s.leaf[n].at[..1] == [s.leaf[n].at[0]];
      }
    }
  }

  /** A child of the root has more keys below it than may be merged into one leaf. */
  lemma ChildIsCrowded(s: State, h: byte)
    requires Sound(s) && Tidy(s) && HasChild(s, h)
    ensures Tally(Items(s), h) > SPLITBOUND / 3
  {
    NodeIsCrowded(s, [h]);
    UnderIsBand(s, h);
  }

  // ------------------------------------------------------------ which nodes come and go

  lemma SameThenSprouted(s: State, u: State, v: State)
    requires u.slots.Keys == s.slots.Keys && Sprouted(u, v)
    ensures Sprouted(s, v)
  {
    forall h: byte ensures HasChild(s, h) == HasChild(u, h) {
    }
  }

  lemma ChildrenAreCrowded(s: State)
    requires Sound(s) && Tidy(s)
    ensures forall h: byte | HasChild(s, h) :: Tally(Items(s), h) > SPLITBOUND / 3
  {
    forall h: byte | HasChild(s, h) ensures Tally(Items(s), h) > SPLITBOUND / 3 {
      ChildIsCrowded(s, h);
    }
  }

  lemma StoredItem(s: State, n: Leaf, b: nat)
    requires n in s.leaf && b < |s.leaf[n].items|
    ensures s.leaf[n].items[b] in Items(s)
  {
    assert s.leaf[n].items[b] in s.leaf[n].items;
  }

  /** Erasing key k lifts more keys out of a child of the root than the array of lengths has places. */
  ghost predicate Overfills(s: State, k: Key) {
    && SPLITBOUND / 3 > SCRATCH && HasChild(s, |k| / 256)
    && Tally(Items(s), |k| / 256) == SPLITBOUND / 3 + 1
  }

  /** A child of the root goes exactly when an erasure leaves SPLITBOUND / 3 keys below it. */
  lemma ErasedChildren(s: State, u: State, x: Item, s1: State)
    requires Sound(s) && Tidy(s) && Sound(u) && Tidy(u) && Shed(s1, u) && s1.slots == s.slots
    requires x in Items(s) && Items(s1) == Items(u) == Items(s) - {x}
    ensures forall h: byte :: HasChild(u, h) <==> HasChild(s, h) && Tally(Items(u), h) > SPLITBOUND / 3
    ensures Spilt(s1, u) <==> Overfills(s, x.key)
  {
    forall h: byte ensures HasChild(s1, h) == HasChild(s, h) {
    }
    forall h: byte | HasChild(u, h) ensures HasChild(s, h) && Tally(Items(u), h) > SPLITBOUND / 3 {
      assert HasChild(s1, h);
      ChildIsCrowded(u, h);
    }
    forall h: byte | HasChild(s, h) ensures Tally(Items(s), h) > SPLITBOUND / 3 {
      ChildIsCrowded(s, h);
    }
    if Spilt(s1, u) {
      var h: byte :| HasChild(s1, h) && !HasChild(u, h) && Tally(Items(s1), h) > SCRATCH;
      TallyWithout(Items(s), x, h);
      assert HasChild(s, h);
    }
    if Overfills(s, x.key) {
      var h: byte := |x.key| / 256;
      TallyWithout(Items(s), x, h);
      assert !HasChild(u, h);
      assert HasChild(s1, h);
    }
  }

  /** A child of the root comes exactly when an insertion makes SPLITBOUND keys of its band. */
  lemma InsertedChildren(s: State, u: State)
    requires Sound(u) && Bounded(u, {}) && Sprouted(s, u)
    ensures forall h: byte :: HasChild(u, h) <==> HasChild(s, h) || Tally(Items(u), h) >= SPLITBOUND
  {
    forall h: byte ensures HasChild(u, h) <==> HasChild(s, h) || Tally(Items(u), h) >= SPLITBOUND {
      if !HasChild(u, h) { FewWithoutChild(u, h); }
    }
  }

  /** A node on the slot of a full leaf. */
  lemma LowerSprouts(s: State, u: State, n: Leaf)
    requires Sound(s) && n in s.leaf && s.leaf[n].typ == 8 && |s.leaf[n].items| == SPLITBOUND
    requires u.slots.Keys == s.slots.Keys + {Sub(s.leaf[n].at, s.leaf[n].path)} && Items(u) == Items(s)
    ensures Sprouted(s, u)
  {
    forall h: byte | HasChild(u, h) && !HasChild(s, h) ensures Tally(Items(u), h) >= SPLITBOUND {
      assert [h] == Sub(s.leaf[n].at, s.leaf[n].path);
      assert |s.leaf[n].at| == 0 && [h][0] == s.leaf[n].path;
      FullBand(s, n);
    }
  }

  lemma InsertSlots(s: State, n: Leaf, b: nat, k: Key)
    requires n in s.leaf && b <= |s.leaf[n].items|
    ensures InsertItem(s, n, b, k).slots == s.slots
  {
  }

  lemma ShrunkRests(s: State, n: Leaf, high: bool)
    requires Sound(s) && Tidy(s) && Placed(s, n) && s.leaf[n].typ < 8 && |s.leaf[n].items| == SPLITBOUND
    ensures Tidy(Shrink(s, n, high)) && Shrink(s, n, high).slots.Keys == s.slots.Keys
  {
    BoundsFit();
    ShrinkRests(s, n, high);
  }

  lemma HalvedRests(s: State, n: Leaf, a: Leaf, b: Leaf, cnt: nat, owner: seq<Leaf>)
    requires Sound(s) && Tidy(s) && Placed(s, n) && s.leaf[n].typ < 8 && |s.leaf[n].items| == SPLITBOUND
    requires a != b && (n == a || n == b) && (a == n || a !in s.leaf) && (b == n || b !in s.leaf)
    requires 0 < cnt < SPLITBOUND
    ensures Tidy(Split(s, n, a, b, cnt, owner)) && Split(s, n, a, b, cnt, owner).slots.Keys == s.slots.Keys
  {
    BoundsFit();
    SplitRests(s, n, a, b, cnt, owner);
  }

  lemma LoweredRests(s: State, n: Leaf)
    requires Sound(s) && Tidy(s) && Placed(s, n) && s.leaf[n].typ == 8 && |s.leaf[n].items| == SPLITBOUND
    requires Sub(s.leaf[n].at, s.leaf[n].path) !in s.slots && Items(Lower(s, n)) == Items(s)
    ensures Tidy(Lower(s, n)) && Placed(Lower(s, n), n) && |Lower(s, n).leaf[n].items| == SPLITBOUND
    ensures Lower(s, n).slots.Keys == s.slots.Keys + {Sub(s.leaf[n].at, s.leaf[n].path)}
  {
    BoundsFit();
    LowerRests(s, n);
  }

  lemma PushedRests(s: State, n: Leaf, high: bool)
    requires Sound(s) && Tidy(s) && Placed(s, n) && s.leaf[n].typ == 8 && |s.leaf[n].items| == SPLITBOUND
    requires Sub(s.leaf[n].at, s.leaf[n].path) !in s.slots && Sound(Lower(s, n)) && Items(Lower(s, n)) == Items(s)
    ensures Lower(s, n).leaf[n].typ == 0 && Placed(Lower(s, n), n)
    ensures var u := Shrink(Lower(s, n), n, high); Tidy(u) && (Items(u) == Items(s) ==> Sprouted(s, u))
  {
    LoweredRests(s, n);
    ShrunkRests(Lower(s, n), n, high);
    var u := Shrink(Lower(s, n), n, high);
    if Items(u) == Items(s) { LowerSprouts(s, u, n); }
  }

  lemma PushedApartRests(s: State, n: Leaf, low: Leaf, cnt: nat, owner: seq<Leaf>)
    requires Sound(s) && Tidy(s) && Placed(s, n) && s.leaf[n].typ == 8 && |s.leaf[n].items| == SPLITBOUND
    requires Sub(s.leaf[n].at, s.leaf[n].path) !in s.slots && Sound(Lower(s, n)) && Items(Lower(s, n)) == Items(s)
    requires low !in s.leaf && 0 < cnt < SPLITBOUND
    ensures Lower(s, n).leaf[n].typ == 0 && Placed(Lower(s, n), n)
    ensures var u := Split(Lower(s, n), n, low, n, cnt, owner); Tidy(u) && (Items(u) == Items(s) ==> Sprouted(s, u))
  {
    LoweredRests(s, n);
    HalvedRests(Lower(s, n), n, low, n, cnt, owner);
    var u := Split(Lower(s, n), n, low, n, cnt, owner);
    if Items(u) == Items(s) { LowerSprouts(s, u, n); }
  }

  /** A leaf moves up out of the node it covers. */
  lemma LiftSheds(s: State, n: Leaf)
    requires Sound(s) && n in s.leaf && s.leaf[n].typ == 0 && s.leaf[n].at != [] && |s.leaf[n].items| <= SPLITBOUND / 3
    requires Front(s.leaf[n].at) in s.slots && |s.slots[Front(s.leaf[n].at)]| == 256
    ensures Shed(s, Lift(s, n))
    ensures Spilt(s, Lift(s, n)) <==> |s.leaf[n].at| == 1 && |s.leaf[n].items| > SCRATCH
  {
    var u, p := Lift(s, n), s.leaf[n].at;
    WfLeaf(s, n);
    assert u.slots.Keys == s.slots.Keys - {p};
    if |p| == 1 {
      assert p == [p[0]];
      CoverHasBand(s, n);
      assert HasChild(s, p[0]) && !HasChild(u, p[0]);
    }
    forall h: byte | HasChild(s, h) && !HasChild(u, h) ensures p == [h] {
    }
  }

  /** An empty node is removed. */
  lemma PruneSheds(s: State, q: Path)
    requires Sound(s) && q in s.slots && q != [] && Free(s, q, 0, 256)
    requires Front(q) in s.slots && |s.slots[Front(q)]| == 256
    ensures Shed(s, Prune(s, q)) && !Spilt(s, Prune(s, q))
  {
    var u := Prune(s, q);
    assert u.slots.Keys == s.slots.Keys - {q};
    forall h: byte | HasChild(s, h) && !HasChild(u, h) ensures Tally(Items(s), h) == 0 {
      assert q == [h];
      EmptyBand(s, h);
    }
  }
}
