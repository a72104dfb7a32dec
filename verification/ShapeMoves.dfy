/** Steps that resize, merge, drop, lower or lift a whole leaf, and the removal of an empty node. */
module ShapeMoves {
  import opened Bytes
  import opened Blocks
  import opened Nodes
  import opened Shape
  import opened ShapeOps

  // ------------------------------------------------------------ one leaf alone in a region

  /** In u, leaf n is the only one in slots [from, to) of row p; everything outside is as in s. */
  ghost predicate AloneIn(s: State, u: State, n: Leaf, p: Path, from: nat, to: nat) {
    && n in u.leaf && Within(u.leaf[n], p, from, to) && Aligned(u.leaf[n].path, u.leaf[n].typ)
    && RowsAlone(s, u, n, u.leaf[n], p, from, to)
    && LeavesAlone(s, u, n, p, from, to)
  }

  ghost predicate RowsAlone(s: State, u: State, n: Leaf, r: LeafRec, p: Path, from: nat, to: nat) {
    && p in s.slots && from <= to <= 256 && u.slots.Keys == s.slots.Keys
    && (forall q | q in u.slots :: |u.slots[q]| == 256)
    && (forall q, i: byte | !(q == p && from <= i < to) :: RowAt(u, q, i) == RowAt(s, q, i))
    && (forall i: byte | from <= i < to ::
      RowAt(s, p, i) != Down && RowAt(u, p, i) == if Covers(r, i) then Hold(n) else Self)
  }

  ghost predicate LeavesAlone(s: State, u: State, n: Leaf, p: Path, from: nat, to: nat) {
    && (forall m | m in s.leaf && m !in u.leaf :: Within(s.leaf[m], p, from, to))
    && (n in s.leaf ==> Within(s.leaf[n], p, from, to))
    && (forall m | m in u.leaf && m != n ::
      m in s.leaf && SamePlace(s.leaf[m], u.leaf[m]) && Outside(s.leaf[m], p, from, to))
  }

  lemma AloneKeepsSlots(s: State, u: State, n: Leaf, p: Path, from: nat, to: nat)
    requires TreeOk(s) && BlocksOk(s) && AloneIn(s, u, n, p, from, to)
    ensures TreeOk(u) && BlocksOk(u)
  {
    Regional(s, u, p, from, to);
  }

  // ------------------------------------------------------------ shrinking to one half

  /** Leaf n keeps the half of its block that all its keys are in; the other half becomes free. */
  ghost function Shrink(s: State, n: Leaf, high: bool): State
    requires n in s.leaf && s.leaf[n].typ < 8 && Aligned(s.leaf[n].path, s.leaf[n].typ)
    requires s.leaf[n].at in s.slots && |s.slots[s.leaf[n].at]| == 256
  {
    var r := s.leaf[n];
    Halves(r.path, r.typ);
    var mid := r.path + Mask(r.typ);
    if high then
      SetLeaf(SetRow(s, r.at, r.path, mid, Self), n, High(r, 0))
    else
      SetLeaf(SetRow(s, r.at, mid, r.path + Width(r.typ), Self), n, Low(r, |r.items|))
  }

  lemma ShrinkSlots(s: State, n: Leaf, high: bool)
    requires TreeOk(s) && BlocksOk(s) && n in s.leaf && s.leaf[n].typ < 8
    ensures TreeOk(Shrink(s, n, high)) && BlocksOk(Shrink(s, n, high))
  {
    var u, r := Shrink(s, n, high), s.leaf[n];
    Halves(r.path, r.typ);
    OthersOutside(s, n);
    AloneKeepsSlots(s, u, n, r.at, r.path, r.path + Width(r.typ));
  }

  lemma ShrinkKeeps(s: State, n: Leaf, high: bool)
    requires Wf(s) && n in s.leaf && s.leaf[n].typ < 8
    requires Partition(s.leaf[n], if high then 0 else |s.leaf[n].items|)
    ensures Wf(Shrink(s, n, high)) && Items(Shrink(s, n, high)) == Items(s)
  {
    var u, r := Shrink(s, n, high), s.leaf[n];
    ShrinkSlots(s, n, high);
    HalvesFit(r, if high then 0 else |r.items|);
    assert r.items[..|r.items|] == r.items == r.items[0..];
    SameContent(s, u);
  }

  /** Leaves with the same items and the same owners: contents and ids are as before. */
  lemma SameContent(s: State, u: State)
    requires LeavesOk(s) && u.leaf.Keys == s.leaf.Keys && u.owner == s.owner
    requires forall m | m in s.leaf :: u.leaf[m].items == s.leaf[m].items
    requires forall m | m in s.leaf :: u.leaf[m] == s.leaf[m] || ItemsFit(u.leaf[m])
    ensures LeavesOk(u) && Items(u) == Items(s)
  {
    assert forall m, x :: m in u.leaf && x in u.leaf[m].items <==> m in s.leaf && x in s.leaf[m].items;
  }

  // ------------------------------------------------------------ dropping an empty leaf

  ghost function Drop(s: State, n: Leaf): State
    requires n in s.leaf && Aligned(s.leaf[n].path, s.leaf[n].typ)
    requires s.leaf[n].at in s.slots && |s.slots[s.leaf[n].at]| == 256
  {
    var r := s.leaf[n];
    DropLeaf(SetRow(s, r.at, r.path, r.path + Width(r.typ), Self), n)
  }

  lemma DropKeeps(s: State, n: Leaf)
    requires Wf(s) && n in s.leaf && s.leaf[n].items == []
    ensures Wf(Drop(s, n)) && Items(Drop(s, n)) == Items(s)
  {
    var u, r := Drop(s, n), s.leaf[n];
    OthersOutside(s, n);
    Regional(s, u, r.at, r.path, r.path + Width(r.typ));
    forall m | m in u.leaf ensures u.leaf[m] == s.leaf[m] && ItemsFit(u.leaf[m]) && IdsOk(m, u.leaf[m].items, u.owner) {
    }
    ItemsSplit(s, n);
    assert u.leaf == DropLeaf(s, n).leaf;
    assert Items(u) == Items(DropLeaf(s, n));
  }

  // ------------------------------------------------------------ growing over a free sibling block

  ghost function Widened(r: LeafRec, items: seq<Item>): LeafRec
    requires 1 <= r.typ <= 8
  {
    LeafRec(r.at, Parent(r.path, r.typ), r.typ - 1, items)
  }

  ghost function Grow(s: State, n: Leaf): State
    requires n in s.leaf && 1 <= s.leaf[n].typ && Aligned(s.leaf[n].path, s.leaf[n].typ)
    requires s.leaf[n].at in s.slots && |s.slots[s.leaf[n].at]| == 256
  {
    var r := s.leaf[n];
    ParentAndSibling(r.path, r.typ);
    var from := Parent(r.path, r.typ);
    SetLeaf(SetRow(s, r.at, from, from + Width(r.typ - 1), Hold(n)), n, Widened(r, r.items))
  }

  lemma WiderFits(r: LeafRec)
    requires 1 <= r.typ && Aligned(r.path, r.typ) && ItemsFit(r)
    ensures ItemsFit(Widened(r, r.items))
    ensures Aligned(Parent(r.path, r.typ), r.typ - 1)
  {
    ParentAndSibling(r.path, r.typ);
    forall x | x in r.items ensures Fits(x.key, Widened(r, r.items)) {
      assert Fits(x.key, r);
    }
  }

  /** Free slots in the sibling block keep every other leaf out of the parent block. */
  lemma GrowOutside(s: State, n: Leaf)
    requires TreeOk(s) && BlocksOk(s) && n in s.leaf && 1 <= s.leaf[n].typ
    requires Free(s, s.leaf[n].at, Sibling(s.leaf[n].path, s.leaf[n].typ),
      Sibling(s.leaf[n].path, s.leaf[n].typ) + Width(s.leaf[n].typ))
    ensures forall m | m in s.leaf && m != n ::
      Outside(s.leaf[m], s.leaf[n].at, Parent(s.leaf[n].path, s.leaf[n].typ),
        Parent(s.leaf[n].path, s.leaf[n].typ) + Width(s.leaf[n].typ - 1))
  {
    var r := s.leaf[n];
    ParentAndSibling(r.path, r.typ);
    OthersOutside(s, n);
    forall m | m in s.leaf && m != n
      ensures Outside(s.leaf[m], r.at, Sibling(r.path, r.typ), Sibling(r.path, r.typ) + Width(r.typ))
    {
      FreeIsOutside(s, m, r.at, Sibling(r.path, r.typ), r.typ);
    }
    assert forall m | m in s.leaf :: Width(s.leaf[m].typ) >= 1;
  }

  lemma GrowKeeps(s: State, n: Leaf)
    requires Wf(s) && n in s.leaf && 1 <= s.leaf[n].typ
    requires Free(s, s.leaf[n].at, Sibling(s.leaf[n].path, s.leaf[n].typ),
      Sibling(s.leaf[n].path, s.leaf[n].typ) + Width(s.leaf[n].typ))
    ensures Wf(Grow(s, n)) && Items(Grow(s, n)) == Items(s)
  {
    GrowSlots(s, n);
    WiderFits(s.leaf[n]);
    SameContent(s, Grow(s, n));
  }

  lemma GrowRows(s: State, n: Leaf)
    requires TreeOk(s) && BlocksOk(s) && n in s.leaf && 1 <= s.leaf[n].typ
    requires Free(s, s.leaf[n].at, Sibling(s.leaf[n].path, s.leaf[n].typ),
      Sibling(s.leaf[n].path, s.leaf[n].typ) + Width(s.leaf[n].typ))
    ensures RowsAlone(s, Grow(s, n), n, Grow(s, n).leaf[n], s.leaf[n].at,
                      Parent(s.leaf[n].path, s.leaf[n].typ),
                        Parent(s.leaf[n].path, s.leaf[n].typ) + Width(s.leaf[n].typ - 1))
  {
    var r := s.leaf[n];
    ParentAndSibling(r.path, r.typ);
    OthersOutside(s, n);
  }

  lemma GrowSlots(s: State, n: Leaf)
    requires TreeOk(s) && BlocksOk(s) && n in s.leaf && 1 <= s.leaf[n].typ
    requires Free(s, s.leaf[n].at, Sibling(s.leaf[n].path, s.leaf[n].typ),
      Sibling(s.leaf[n].path, s.leaf[n].typ) + Width(s.leaf[n].typ))
    ensures TreeOk(Grow(s, n)) && BlocksOk(Grow(s, n))
  {
    var r, u := s.leaf[n], Grow(s, n);
    var from, to := Parent(r.path, r.typ), Parent(r.path, r.typ) + Width(r.typ - 1);
    GrowRows(s, n);
    GrowOutside(s, n);
    ParentAndSibling(r.path, r.typ);
    AloneKeepsSlots(s, u, n, r.at, from, to);
  }

  // ------------------------------------------------------------ merging two sibling leaves

  ghost predicate Siblings(s: State, n: Leaf, m: Leaf) {
    && n in s.leaf && m in s.leaf && n != m && s.leaf[n].at == s.leaf[m].at
    && 1 <= s.leaf[n].typ == s.leaf[m].typ
    && Aligned(s.leaf[n].path, s.leaf[n].typ)
    && s.leaf[m].path as int == Sibling(s.leaf[n].path, s.leaf[n].typ)
  }

  predicate IsHigh(r: LeafRec)
    requires 1 <= r.typ <= 8
  {
    TestBit(r.path, Mask(r.typ - 1))
  }

  /** Leaf n takes over its sibling m: the low half's keys first. */
  ghost function MergedItems(s: State, n: Leaf, m: Leaf): seq<Item>
    requires Siblings(s, n, m)
  {
    if IsHigh(s.leaf[n]) then s.leaf[m].items + s.leaf[n].items else s.leaf[n].items + s.leaf[m].items
  }

  ghost function Merge(s: State, n: Leaf, m: Leaf, owner: seq<Leaf>): State
    requires Siblings(s, n, m)
    requires s.leaf[n].at in s.slots && |s.slots[s.leaf[n].at]| == 256
  {
    var r := s.leaf[n];
    ParentAndSibling(r.path, r.typ);
    var from := Parent(r.path, r.typ);
    SetLeaf(DropLeaf(SetRow(s, r.at, from, from + Width(r.typ - 1), Hold(n)), m), n,
      Widened(r, MergedItems(s, n, m))).(owner := owner)
  }

  lemma MergeRows(s: State, n: Leaf, m: Leaf, owner: seq<Leaf>)
    requires TreeOk(s) && BlocksOk(s) && Siblings(s, n, m)
    ensures RowsAlone(s, Merge(s, n, m, owner), n, Merge(s, n, m, owner).leaf[n], s.leaf[n].at,
                      Parent(s.leaf[n].path, s.leaf[n].typ),
                        Parent(s.leaf[n].path, s.leaf[n].typ) + Width(s.leaf[n].typ - 1))
  {
    var r := s.leaf[n];
    ParentAndSibling(r.path, r.typ);
    OthersOutside(s, n);
    OthersOutside(s, m);
  }

  lemma MergeOutside(s: State, n: Leaf, m: Leaf)
    requires TreeOk(s) && BlocksOk(s) && Siblings(s, n, m)
    ensures forall l | l in s.leaf && l != n && l != m ::
      Outside(s.leaf[l], s.leaf[n].at, Parent(s.leaf[n].path, s.leaf[n].typ),
        Parent(s.leaf[n].path, s.leaf[n].typ) + Width(s.leaf[n].typ - 1))
  {
    var r := s.leaf[n];
    ParentAndSibling(r.path, r.typ);
    OthersOutside(s, n);
    OthersOutside(s, m);
    assert forall l | l in s.leaf :: Width(s.leaf[l].typ) >= 1;
  }

  lemma MergeSlots(s: State, n: Leaf, m: Leaf, owner: seq<Leaf>)
    requires TreeOk(s) && BlocksOk(s) && Siblings(s, n, m)
    ensures TreeOk(Merge(s, n, m, owner)) && BlocksOk(Merge(s, n, m, owner))
  {
    var r, u := s.leaf[n], Merge(s, n, m, owner);
    MergeRows(s, n, m, owner);
    MergeOutside(s, n, m);
    ParentAndSibling(r.path, r.typ);
    AloneKeepsSlots(s, u, n, r.at, Parent(r.path, r.typ), Parent(r.path, r.typ) + Width(r.typ - 1));
  }

  /** Every key of a low block precedes every key of the high one. */
  lemma LowBeforeHigh(lo: LeafRec, hi: LeafRec)
    requires lo.at == hi.at && 1 <= lo.typ == hi.typ <= 8 && lo.path + Width(lo.typ) <= hi.path
    requires ItemsFit(lo) && ItemsFit(hi)
    ensures Sorted(lo.items + hi.items)
  {
    var d := |lo.at|;
    forall x, y | x in lo.items && y in hi.items ensures Less(Enc(x.key), Enc(y.key)) {
      assert Fits(x.key, lo) && Fits(y.key, hi);
      LessAt(Enc(x.key), Enc(y.key), d);
    }
  }

  lemma MergedFits(s: State, n: Leaf, m: Leaf)
    requires Wf(s) && Siblings(s, n, m)
    ensures ItemsFit(Widened(s.leaf[n], MergedItems(s, n, m)))
  {
    var a, b := s.leaf[n], s.leaf[m];
    ParentAndSibling(a.path, a.typ);
    if IsHigh(a) { LowBeforeHigh(b, a); } else { LowBeforeHigh(a, b); }
    var w := Widened(a, MergedItems(s, n, m));
    forall x | x in w.items ensures Fits(x.key, w) {
      assert x in a.items || x in b.items;
      assert Fits(x.key, a) || Fits(x.key, b);
    }
  }

  lemma MergedIdsHere(n: Leaf, m: Leaf, a: seq<Item>, b: seq<Item>, items: seq<Item>, was: seq<Leaf>, owner: seq<Leaf>)
    requires n != m && IdsOk(n, a, was) && IdsOk(m, b, was) && (items == a + b || items == b + a)
    requires Repointed(was, owner, Ids(items), n)
    ensures IdsOk(n, items, owner)
  {
    assert forall x, y | x in a && y in b :: x.id != y.id;
  }

  lemma MergedIds(s: State, n: Leaf, m: Leaf, owner: seq<Leaf>)
    requires Wf(s) && Siblings(s, n, m)
    requires Repointed(s.owner, owner, Ids(MergedItems(s, n, m)), n)
    ensures IdsOk(n, MergedItems(s, n, m), owner)
    ensures forall l | l in s.leaf && l != n && l != m :: IdsOk(l, s.leaf[l].items, owner)
  {
    var a, b := s.leaf[n].items, s.leaf[m].items;
    var items := MergedItems(s, n, m);
    assert IdsOk(n, a, s.owner) && IdsOk(m, b, s.owner);
    MergedIdsHere(n, m, a, b, items, s.owner, owner);
    forall l | l in s.leaf && l != n && l != m
      ensures IdsOk(l, s.leaf[l].items, owner)
    {
      assert IdsOk(l, s.leaf[l].items, s.owner);
      assert forall x | x in items :: x in a || x in b;
    }
  }

  lemma MergeKeeps(s: State, n: Leaf, m: Leaf, owner: seq<Leaf>)
    requires Wf(s) && Siblings(s, n, m)
    requires Repointed(s.owner, owner, Ids(MergedItems(s, n, m)), n)
    ensures Wf(Merge(s, n, m, owner)) && Items(Merge(s, n, m, owner)) == Items(s)
  {
    var u := Merge(s, n, m, owner);
    MergeSlots(s, n, m, owner);
    MergedFits(s, n, m);
    MergedIds(s, n, m, owner);
    forall l | l in u.leaf
      ensures ItemsFit(u.leaf[l]) && IdsOk(l, u.leaf[l].items, u.owner)
    {
      assert l != n ==> l != m && u.leaf[l] == s.leaf[l];
    }
    MergeItems(s, n, m, owner);
  }

  lemma MergeItems(s: State, n: Leaf, m: Leaf, owner: seq<Leaf>)
    requires Wf(s) && Siblings(s, n, m)
    ensures Items(Merge(s, n, m, owner)) == Items(s)
  {
    var u := Merge(s, n, m, owner);
    assert DropLeaf(u, n).leaf == DropLeaf(DropLeaf(s, m), n).leaf;
    assert Items(DropLeaf(u, n)) == Items(DropLeaf(DropLeaf(s, m), n));
    assert u.leaf[n].items == MergedItems(s, n, m);
    ItemsSplit(u, n);
    ItemsSplit(DropLeaf(s, m), n);
    ItemsSplit(s, m);
    InConcat(s.leaf[n].items, s.leaf[m].items);
  }

  lemma InConcat(a: seq<Item>, b: seq<Item>)
    ensures forall x :: x in a + b <==> x in a || x in b
    ensures forall x :: x in b + a <==> x in a || x in b
  {
  }

  // ------------------------------------------------------------ one level down and up

  /** A leaf on a single slot moves into a new forward node there and covers all of it. */
  ghost function Lower(s: State, n: Leaf): State
    requires n in s.leaf && s.leaf[n].at in s.slots && |s.slots[s.leaf[n].at]| == 256
  {
    var r := s.leaf[n];
    var q := Sub(r.at, r.path);
    var rows := SetRow(s, r.at, r.path, r.path + 1, Down);
    SetLeaf(rows.(slots := rows.slots[q := seq(256, _ => Hold(n))]), n, LeafRec(q, 0, 0, r.items))
  }

  lemma LowerKeeps(s: State, n: Leaf)
    requires Wf(s) && n in s.leaf && s.leaf[n].typ == 8
    requires DepthOk(Sub(s.leaf[n].at, s.leaf[n].path))
    requires forall x | x in s.leaf[n].items :: |s.leaf[n].at| <= |x.key|
    ensures Wf(Lower(s, n)) && Items(Lower(s, n)) == Items(s)
  {
    LowerSlots(s, n);
    LowerFits(s.leaf[n]);
    SameContent(s, Lower(s, n));
  }

  lemma LowerFits(r: LeafRec)
    requires ItemsFit(r) && r.typ == 8 && forall x | x in r.items :: |r.at| <= |x.key|
    ensures ItemsFit(LeafRec(Sub(r.at, r.path), 0, 0, r.items))
  {
    var q := LeafRec(Sub(r.at, r.path), 0, 0, r.items);
    forall x | x in r.items ensures Fits(x.key, q) {
      assert Fits(x.key, r);
      assert Enc(x.key)[..|r.at|+1] == Sub(r.at, r.path);
    }
  }

  lemma LowerSlots(s: State, n: Leaf)
    requires TreeOk(s) && BlocksOk(s) && n in s.leaf && s.leaf[n].typ == 8
    requires DepthOk(Sub(s.leaf[n].at, s.leaf[n].path))
    ensures TreeOk(Lower(s, n)) && BlocksOk(Lower(s, n))
  {
    var u, r := Lower(s, n), s.leaf[n];
    var q := Sub(r.at, r.path);
    OnlyHere(s, n);
    assert RowAt(s, r.at, r.path) == Hold(n);
    assert q !in s.slots;
    LowerTree(s, n);
    forall m, i: byte | m in u.leaf && Covers(u.leaf[m], i)
      ensures RowAt(u, u.leaf[m].at, i) == Hold(m)
    {
      if m != n { assert RowAt(s, s.leaf[m].at, i) == Hold(m); }
    }
    forall t, i: byte | t in u.slots && RowAt(u, t, i).Hold?
      ensures HeldBy(u, RowAt(u, t, i).leaf, t, i)
    {
      if t != q { assert HeldBy(s, RowAt(s, t, i).leaf, t, i); }
    }
  }

  lemma LowerTree(s: State, n: Leaf)
    requires TreeOk(s) && BlocksOk(s) && n in s.leaf && s.leaf[n].typ == 8
    requires DepthOk(Sub(s.leaf[n].at, s.leaf[n].path))
    ensures TreeOk(Lower(s, n))
  {
    var u, r := Lower(s, n), s.leaf[n];
    var q := Sub(r.at, r.path);
    assert RowAt(s, r.at, r.path) == Hold(n);
    forall t, i: byte | Sub(t, i) in u.slots
      ensures t in u.slots && u.slots[t][i] == Down
    {
      if Sub(t, i) == q { SubInjective(t, i, r.at, r.path); }
    }
  }

  lemma SubInjective(p: Path, i: byte, q: Path, j: byte)
    requires Sub(p, i) == Sub(q, j)
    ensures p == q && i == j
  {
    assert Sub(p, i)[..|p|] == p && Sub(q, j)[..|q|] == q;
    assert Sub(p, i)[|p|] == i && Sub(q, j)[|q|] == j;
  }

  /** A leaf that covers a whole forward node takes that node's slot in the parent; the node goes away. */
  ghost function Lift(s: State, n: Leaf): State
    requires n in s.leaf && s.leaf[n].at != []
    requires Front(s.leaf[n].at) in s.slots && |s.slots[Front(s.leaf[n].at)]| == 256
  {
    var r := s.leaf[n];
    var p, b := Front(r.at), Last(r.at);
    var rows := SetRow(s, p, b, b + 1, Hold(n));
    SetLeaf(rows.(slots := rows.slots - {r.at}), n, LeafRec(p, b, 8, r.items))
  }

  function Front(p: Path): Path
    requires p != []
  {
    p[..|p|-1]
  }

  function Last(p: Path): byte
    requires p != []
  {
    p[|p|-1]
  }

  lemma FrontOfSub(p: Path, i: byte)
    ensures Front(Sub(p, i)) == p && Last(Sub(p, i)) == i
  {
  }

  lemma FrontLast(s: State, q: Path)
    requires TreeOk(s) && q in s.slots && q != []
    ensures q == Sub(Front(q), Last(q)) && Front(q) in s.slots && s.slots[Front(q)][Last(q)] == Down
    ensures |s.slots[Front(q)]| == 256
  {
    assert q == Sub(Front(q), Last(q));
  }

  lemma LiftSlots(s: State, n: Leaf)
    requires TreeOk(s) && BlocksOk(s) && n in s.leaf && s.leaf[n].typ == 0 && s.leaf[n].at != []
    ensures Front(s.leaf[n].at) in s.slots && |s.slots[Front(s.leaf[n].at)]| == 256
    ensures TreeOk(Lift(s, n)) && BlocksOk(Lift(s, n))
  {
    FrontLast(s, s.leaf[n].at);
    var u, r := Lift(s, n), s.leaf[n];
    LiftTree(s, n);
    OnlyHere(s, n);
    OthersOutside(s, n);
    forall m, i: byte | m in u.leaf && Covers(u.leaf[m], i)
      ensures RowAt(u, u.leaf[m].at, i) == Hold(m)
    {
      if m != n { assert RowAt(s, s.leaf[m].at, i) == Hold(m); }
    }
    forall t, i: byte | t in u.slots && RowAt(u, t, i).Hold?
      ensures HeldBy(u, RowAt(u, t, i).leaf, t, i)
    {
      if t != Front(r.at) || i != Last(r.at) { assert HeldBy(s, RowAt(s, t, i).leaf, t, i); }
    }
  }

  lemma LiftTree(s: State, n: Leaf)
    requires TreeOk(s) && BlocksOk(s) && n in s.leaf && s.leaf[n].typ == 0 && s.leaf[n].at != []
    requires Front(s.leaf[n].at) in s.slots && |s.slots[Front(s.leaf[n].at)]| == 256
    ensures TreeOk(Lift(s, n))
  {
    var u, r := Lift(s, n), s.leaf[n];
    FrontLast(s, r.at);
    forall i: byte ensures RowAt(s, r.at, i) == Hold(n) && Sub(r.at, i) !in s.slots {
      assert Covers(r, i);
    }
    RemovalKeepsTree(s, u, r.at);
  }

  /** Removing a node without forward children, and with it the Down in its parent. */
  lemma RemovalKeepsTree(s: State, u: State, q: Path)
    requires TreeOk(s) && q in s.slots && q != []
    requires forall i: byte :: Sub(q, i) !in s.slots
    requires u.slots.Keys == s.slots.Keys - {q}
    requires forall t | t in u.slots :: |u.slots[t]| == 256
    requires forall t, i: byte | t in u.slots && (t != Front(q) || i != Last(q)) :: u.slots[t][i] == s.slots[t][i]
    requires Front(q) in u.slots ==> u.slots[Front(q)][Last(q)] != Down
    ensures TreeOk(u)
  {
    forall t, i: byte | t in u.slots && u.slots[t][i] == Down
      ensures Sub(t, i) in u.slots
    {
      assert Sub(t, i) in s.slots;
      FrontOfSub(t, i);
    }
    forall t, i: byte | Sub(t, i) in u.slots
      ensures t in u.slots && u.slots[t][i] == Down
    {
      assert t in s.slots && s.slots[t][i] == Down && t != q;
      assert t == Front(q) && i == Last(q) ==> Sub(t, i) == q;
    }
  }

  lemma LiftKeeps(s: State, n: Leaf)
    requires Wf(s) && n in s.leaf && s.leaf[n].typ == 0 && s.leaf[n].at != []
    ensures Front(s.leaf[n].at) in s.slots && |s.slots[Front(s.leaf[n].at)]| == 256
    ensures Wf(Lift(s, n)) && Items(Lift(s, n)) == Items(s)
  {
    LiftSlots(s, n);
    var u, r := Lift(s, n), s.leaf[n];
    forall x | x in r.items ensures Fits(x.key, u.leaf[n]) {
      assert Fits(x.key, r);
      assert Enc(x.key)[..|r.at|-1] == Front(r.at) && Enc(x.key)[|r.at|-1] == Last(r.at);
    }
    SameContent(s, u);
  }

  /** Lifting undoes lowering. */
  lemma LiftLower(s: State, n: Leaf)
    requires Wf(s) && n in s.leaf && s.leaf[n].typ == 8
    ensures Front(Lower(s, n).leaf[n].at) == s.leaf[n].at
    ensures Lift(Lower(s, n), n) == s
  {
    var r, l := s.leaf[n], Lower(s, n);
    var q := Sub(r.at, r.path);
    assert Front(q) == r.at && Last(q) == r.path;
    assert RowAt(s, r.at, r.path) == Hold(n);
    assert q !in s.slots;
    var u := Lift(l, n);
    assert u.slots[r.at] == s.slots[r.at];
    assert u.slots == s.slots;
    assert u.leaf == s.leaf;
  }

  // ------------------------------------------------------------ removing an empty forward node

  ghost function Prune(s: State, q: Path): State
    requires q != [] && Front(q) in s.slots && |s.slots[Front(q)]| == 256
  {
    var rows := SetRow(s, Front(q), Last(q), Last(q) + 1, Self);
    rows.(slots := rows.slots - {q})
  }

  lemma PruneKeeps(s: State, q: Path)
    requires Wf(s) && q in s.slots && q != [] && Free(s, q, 0, 256)
    ensures Front(q) in s.slots && |s.slots[Front(q)]| == 256
    ensures Wf(Prune(s, q)) && Items(Prune(s, q)) == Items(s)
  {
    FrontLast(s, q);
    var u := Prune(s, q);
    forall i: byte ensures RowAt(s, q, i) == Self && Sub(q, i) !in s.slots {
    }
    RemovalKeepsTree(s, u, q);
    forall m, i: byte | m in u.leaf && Covers(u.leaf[m], i)
      ensures RowAt(u, u.leaf[m].at, i) == Hold(m)
    {
      assert RowAt(s, s.leaf[m].at, i) == Hold(m);
    }
    forall m | m in u.leaf ensures u.leaf[m].at in u.slots {
      assert Covers(s.leaf[m], s.leaf[m].path) && RowAt(s, s.leaf[m].at, s.leaf[m].path) == Hold(m);
    }
    forall t, i: byte | t in u.slots && RowAt(u, t, i).Hold?
      ensures HeldBy(u, RowAt(u, t, i).leaf, t, i)
    {
      assert HeldBy(s, RowAt(s, t, i).leaf, t, i);
    }
    assert Items(u) == Items(s);
  }
}
