/** Facts about an erased-from leaf that justify how it is merged, and why merging ends. */
module Merging {
  import opened Bytes
  import opened Blocks
  import opened Entries
  import opened Config
  import opened Nodes
  import opened Shape
  import opened ShapeOps
  import opened ShapeMoves
  import opened Heap
  import opened Splitting

  // ------------------------------------------------------------ a measure every merge lowers

  ghost function Weight(r: LeafRec): nat {
    1 + 9 * |r.at| + r.typ
  }

  /** Total weight of all leaves. */
  ghost function Potential(m: map<Leaf, LeafRec>): nat
    decreases |m.Keys|
  {
    if m == map[] then 0
    else
      var n :| n in m;
      assert (m - {n}).Keys == m.Keys - {n};
      Weight(m[n]) + Potential(m - {n})
  }

  lemma {:induction false} PotentialWithout(m: map<Leaf, LeafRec>, n: Leaf)
    requires n in m
    ensures Potential(m) == Weight(m[n]) + Potential(m - {n})
    decreases |m.Keys|
  {
    var k :| k in m && Potential(m) == Weight(m[k]) + Potential(m - {k});
    if k != n {
      assert (m - {k}).Keys == m.Keys - {k} && (m - {n}).Keys == m.Keys - {n};
      PotentialWithout(m - {k}, n);
      PotentialWithout(m - {n}, k);
      assert m - {k} - {n} == m - {n} - {k};
    }
  }

  /** Replacing one leaf's record changes the total by the difference of the weights. */
  lemma PotentialUpdate(m: map<Leaf, LeafRec>, n: Leaf, r: LeafRec)
    requires n in m
    ensures Potential(m[n := r]) + Weight(m[n]) == Potential(m) + Weight(r)
  {
    PotentialWithout(m, n);
    PotentialWithout(m[n := r], n);
    assert m[n := r] - {n} == m - {n};
  }

  lemma GrowLowers(s: State, n: Leaf)
    requires Placed(s, n) && 1 <= s.leaf[n].typ
    ensures Potential(Grow(s, n).leaf) < Potential(s.leaf)
  {
    PotentialUpdate(s.leaf, n, Widened(s.leaf[n], s.leaf[n].items));
  }

  lemma DropLowers(s: State, n: Leaf)
    requires Placed(s, n)
    ensures Potential(Drop(s, n).leaf) < Potential(s.leaf)
  {
    PotentialWithout(s.leaf, n);
  }

  lemma MergeLowers(s: State, n: Leaf, m: Leaf, owner: seq<Leaf>)
    requires Placed(s, n) && Siblings(s, n, m)
    ensures Potential(Merge(s, n, m, owner).leaf) < Potential(s.leaf)
  {
    PotentialWithout(s.leaf, m);
    PotentialUpdate(s.leaf - {m}, n, Widened(s.leaf[n], MergedItems(s, n, m)));
  }

  lemma LiftLowers(s: State, n: Leaf)
    requires n in s.leaf && s.leaf[n].at != [] && s.leaf[n].typ == 0
    requires Front(s.leaf[n].at) in s.slots && |s.slots[Front(s.leaf[n].at)]| == 256
    ensures Potential(Lift(s, n).leaf) < Potential(s.leaf)
  {
    PotentialUpdate(s.leaf, n, Lift(s, n).leaf[n]);
  }

  // ------------------------------------------------------------ what the sibling slot shows

  /** A leaf in the sibling slot is the sibling, or a narrower leaf inside the sibling block. */
  lemma SiblingLeaf(s: State, n: Leaf, m: Leaf)
    requires Wf(s) && n in s.leaf && 1 <= s.leaf[n].typ
    requires var i := Sibling(s.leaf[n].path, s.leaf[n].typ); i < 256 && RowAt(s, s.leaf[n].at, i) == Hold(m)
    ensures m in s.leaf && m != n && s.leaf[n].typ <= s.leaf[m].typ && s.leaf[m].at == s.leaf[n].at
    ensures s.leaf[n].typ == s.leaf[m].typ ==> Siblings(s, n, m)
  {
    var r := s.leaf[n];
    ParentAndSibling(r.path, r.typ);
    var i: byte := Sibling(r.path, r.typ);
    assert HeldBy(s, m, r.at, i);
    var q := s.leaf[m];
    assert RowAt(s, r.at, r.path) == Hold(n) by { assert Covers(r, r.path); }
    OnlyHere(s, n);
    assert !Covers(r, i);
    if InBlock(r.path, q.path, q.typ) { assert Covers(q, r.path); }
    SiblingBlock(r.path, r.typ, q.path, q.typ);
  }

  lemma SiblingSlot(r: LeafRec)
    requires 1 <= r.typ && Aligned(r.path, r.typ)
    ensures Sibling(r.path, r.typ) < 256
    ensures Sibling(r.path, r.typ) == if TestBit(r.path, Mask(r.typ - 1)) then ClearBit(r.path, Mask(r.typ - 1))
      else SetBit(r.path, Mask(r.typ - 1))
    ensures Parent(r.path, r.typ) == ClearBit(r.path, Mask(r.typ - 1))
    ensures Aligned(Parent(r.path, r.typ), r.typ - 1)
  {
    ParentAndSibling(r.path, r.typ);
  }

  /** The sibling block of n is free. */
  ghost predicate SiblingFree(s: State, n: Leaf)
    requires n in s.leaf && 1 <= s.leaf[n].typ <= 8
  {
    var i := Sibling(s.leaf[n].path, s.leaf[n].typ);
    Free(s, s.leaf[n].at, i, i + Width(s.leaf[n].typ))
  }

  /** If every slot of the parent block is free or n's, the sibling block is free. */
  lemma RestIsFree(s: State, n: Leaf)
    requires Wf(s) && n in s.leaf && 1 <= s.leaf[n].typ
    requires forall i: byte | InBlock(i, Parent(s.leaf[n].path, s.leaf[n].typ), s.leaf[n].typ - 1) ::
      RowAt(s, s.leaf[n].at, i) == Self || RowAt(s, s.leaf[n].at, i) == Hold(n)
    ensures s.leaf[n].typ <= 8 && SiblingFree(s, n)
  {
    var r := s.leaf[n];
    ParentAndSibling(r.path, r.typ);
    OnlyHere(s, n);
  }

  // ------------------------------------------------------------ going one level up

  /** A path below which keys of length `size` can lie. */
  predicate SpellsLength(p: Path, size: nat) {
    && (|p| >= 1 ==> (p[0] as int) == size / 256)
    && (|p| >= 2 ==> (p[1] as int) == size % 256)
  }

  function InjectAll(bucket: seq<Entry>, b: byte, sizes: seq<int>): seq<Entry>
    requires |sizes| == |bucket|
  {
    seq(|bucket|, i requires 0 <= i < |bucket| => Inject(bucket[i], b, sizes[i]))
  }

  /** The lengths a length byte's return gives the residues: the erased key's length with each entry's own low byte. */
  function SizesFromLow(bucket: seq<Entry>, t: nat): seq<int> {
    seq(|bucket|, i requires 0 <= i < |bucket| => (t / 256) * 256 + bucket[i].hi)
  }

  function SameSizes(bucket: seq<Entry>, size: int): seq<int> {
    seq(|bucket|, _ => size)
  }

  lemma InjectBucket(r: LeafRec, q: LeafRec, sizes: seq<int>)
    requires ItemsFit(r) && r.at != [] && q.at == Front(r.at) && q.items == r.items && |sizes| == |r.items|
    requires forall i | 0 <= i < |r.items| :: sizes[i] == |r.items[i].key| - |q.at|
    ensures InjectAll(Bucket(r), Last(r.at), sizes) == Bucket(q)
  {
    var a, b := InjectAll(Bucket(r), Last(r.at), sizes), Bucket(q);
    forall i | 0 <= i < |r.items| ensures a[i] == b[i] {
      assert r.items[i] in r.items;
      InjectEntry(r.items[i].key, r);
    }
  }

  lemma InjectEntry(k: Key, r: LeafRec)
    requires Fits(k, r) && r.at != []
    ensures Inject(EntryOf(k, |r.at|), Last(r.at), |k| - (|r.at| - 1)) == EntryOf(k, |r.at| - 1)
  {
    assert Enc(k)[..|r.at|][|r.at|-1] == Enc(k)[|r.at|-1];
    InjectIsShallower(k, |r.at| - 1);
  }

  lemma SizesAtOne(r: LeafRec, size: nat, i: nat)
    requires ItemsFit(r) && |r.at| == 1 && SpellsLength(r.at, size) && i < |r.items|
    ensures (size / 256) * 256 + Bucket(r)[i].hi == |r.items[i].key|
  {
    var k := r.items[i].key;
    assert r.items[i] in r.items;
    assert Enc(k)[..1][0] == Enc(k)[0];
  }

  lemma SizesBelow(r: LeafRec, size: nat, i: nat)
    requires ItemsFit(r) && |r.at| >= 2 && SpellsLength(r.at, size) && i < |r.items|
    ensures |r.items[i].key| == size
  {
    var k := r.items[i].key;
    assert r.items[i] in r.items;
    assert Enc(k)[..|r.at|][0] == Enc(k)[0] && Enc(k)[..|r.at|][1] == Enc(k)[1];
  }

  /** A node other than the root keeps its place in the length prefix when its path loses a byte. */
  lemma SpellsFront(p: Path, size: nat)
    requires p != [] && SpellsLength(p, size)
    ensures SpellsLength(Front(p), size)
  {
  }

  lemma SpellsKey(k: Key, d: nat)
    requires d <= |k| + 1
    ensures SpellsLength(Enc(k)[..d], |k|)
  {
  }

  // ------------------------------------------------------------ what the pointer updates amount to

  /** An empty leaf's slots handed to its sibling are a merge. */
  lemma AbsorbState(s: State, m: Leaf, n: Leaf)
    requires Sound(s) && Placed(s, m) && Siblings(s, m, n) && s.leaf[n].items == []
    ensures var r, q := s.leaf[m], s.leaf[n];
      Merge(s, m, n, s.owner)
      == DropLeaf(SetLeaf(SetRow(s, q.at, q.path, q.path + Width(q.typ), Hold(m)), m, Widened(r, r.items)), n)
    ensures var u := SetRow(s, s.leaf[n].at, s.leaf[n].path, s.leaf[n].path + Width(s.leaf[n].typ), Hold(m));
      m in u.leaf && u.slots.Keys == s.slots.Keys && n in SetLeaf(u, m, Widened(s.leaf[m], s.leaf[m].items)).leaf
    ensures Repointed(s.owner, s.owner, Ids(MergedItems(s, m, n)), m)
  {
    assert Wf(s);
    var r, q := s.leaf[m], s.leaf[n];
    AbsorbRow(s, m, n);
    assert MergedItems(s, m, n) == r.items;
    assert IdsOk(m, r.items, s.owner);
    assert (s.leaf - {n})[m := Widened(r, r.items)] == s.leaf[m := Widened(r, r.items)] - {n};
  }

  lemma MergeState(s: State, n: Leaf, m: Leaf, owner: seq<Leaf>)
    requires Placed(s, n) && Siblings(s, n, m)
    ensures var r := s.leaf[n];
      var from := Parent(r.path, r.typ);
      && from + Width(r.typ - 1) <= 256
      && var u := SetLeaf(SetRow(s, r.at, from, from + Width(r.typ - 1), Hold(n)), n, Widened(r, MergedItems(s, n, m)));
      m in u.leaf && DropLeaf(u.(owner := owner), m) == Merge(s, n, m, owner)
  {
    ParentAndSibling(s.leaf[n].path, s.leaf[n].typ);
    DropAndSet(s.leaf, n, m, Widened(s.leaf[n], MergedItems(s, n, m)));
  }

  lemma MergedLeaves(s: State, n: Leaf, m: Leaf, owner: seq<Leaf>)
    requires Placed(s, n) && Siblings(s, n, m)
    ensures Merge(s, n, m, owner).leaf == (s.leaf - {m})[n := Widened(s.leaf[n], MergedItems(s, n, m))]
  {
  }

  lemma AbsorbRow(s: State, m: Leaf, n: Leaf)
    requires Wf(s) && Siblings(s, m, n)
    ensures var r, q := s.leaf[m], s.leaf[n];
      var from := Parent(r.path, r.typ);
      && q.at in s.slots && |s.slots[q.at]| == 256 && q.path + Width(q.typ) <= 256 && from + Width(r.typ - 1) <= 256
      && Fill(s.slots[q.at], from, from + Width(r.typ - 1), Hold(m))
        == Fill(s.slots[q.at], q.path, q.path + Width(q.typ), Hold(m))
  {
    var r, q := s.leaf[m], s.leaf[n];
    var row, from := s.slots[q.at], Parent(r.path, r.typ);
    ParentAndSibling(r.path, r.typ);
    WfLeaf(s, m);
    forall i: byte | from <= i < from + Width(r.typ - 1) && !(q.path <= i < q.path + Width(q.typ))
      ensures row[i] == Hold(m)
    {
      assert Covers(r, i);
    }
    var a := Fill(row, from, from + Width(r.typ - 1), Hold(m));
    var b := Fill(row, q.path, q.path + Width(q.typ), Hold(m));
    forall i | 0 <= i < 256 ensures a[i] == b[i] {
      var j: byte := i;
      assert row[j] == row[i];
    }
  }

  /** The siblings as the merge reads them: which of the two is low. */
  lemma SiblingOrder(s: State, n: Leaf, m: Leaf)
    requires Placed(s, n) && Siblings(s, n, m)
    ensures Aligned(s.leaf[m].path, s.leaf[m].typ) && Placed(s, m)
    ensures Siblings(s, m, n)
    ensures Parent(s.leaf[n].path, s.leaf[n].typ) == Parent(s.leaf[m].path, s.leaf[m].typ)
  {
    SiblingTwice(s.leaf[n].path, s.leaf[n].typ);
  }

  lemma BucketConcat(a: LeafRec, b: LeafRec, q: LeafRec)
    requires |a.at| == |b.at| == |q.at| && q.items == a.items + b.items
    ensures Bucket(q) == Bucket(a) + Bucket(b) && IdSeq(q.items) == IdSeq(a.items) + IdSeq(b.items)
  {
  }

  /** A loop that sets the low bits one by one. */
  method OrMasks(from: nat, t: nat) returns (to: nat)
    requires Aligned(from, t)
    ensures to == from + Width(t) - 1
  {
    to := from;
    for i := t to 8
      invariant FillMask(to, i) == FillMask(from, t)
    {
      to := SetBit(to, Mask(i));
    }
    LastSlot(from, t);
  }

  /** Once n's slot above is set and n moved there, nothing refers to the node it covered. */
  ghost predicate LiftReady(s: State, n: Leaf)
    requires n in s.leaf
  {
    var q := s.leaf[n].at;
    && q != [] && Front(q) in s.slots && |s.slots[Front(q)]| == 256
    && Unreferenced(SetLeaf(SetRow(s, Front(q), Last(q), Last(q) + 1, Hold(n)), n,
      LeafRec(Front(q), Last(q), 8, s.leaf[n].items)), q)
  }

  lemma LiftIsReady(s: State, n: Leaf)
    requires Wf(s) && n in s.leaf && s.leaf[n].typ == 0 && s.leaf[n].at != []
    ensures LiftReady(s, n)
  {
    var r := s.leaf[n];
    var q := r.at;
    WfLeaf(s, n);
    forall i: byte ensures Sub(q, i) !in s.slots {
      assert Covers(r, i) && s.slots[q][i] == Hold(n);
    }
    var moved := SetLeaf(s, n, LeafRec(Front(q), Last(q), 8, r.items));
    forall m | m in moved.leaf ensures moved.leaf[m].at != q {
      if m != n { AloneInNode(s, n, m); }
    }
    FreeNodeUnreferenced(moved, q, Hold(n));
  }

  /** A leaf of type 0 shares its node with no other leaf. */
  lemma AloneInNode(s: State, n: Leaf, m: Leaf)
    requires Wf(s) && n in s.leaf && m in s.leaf && m != n && s.leaf[n].typ == 0
    ensures s.leaf[m].at != s.leaf[n].at
  {
    WfLeaf(s, n);
    WfLeaf(s, m);
    var i := s.leaf[m].path;
    assert Covers(s.leaf[m], i) && Covers(s.leaf[n], i);
  }

  ghost predicate PruneReady(s: State, q: Path) {
    && q != [] && Front(q) in s.slots && |s.slots[Front(q)]| == 256
    && Unreferenced(SetRow(s, Front(q), Last(q), Last(q) + 1, Self), q)
  }

  lemma PruneIsReady(s: State, q: Path)
    requires Wf(s) && q in s.slots && q != [] && Free(s, q, 0, 256)
    ensures PruneReady(s, q)
  {
    forall i: byte ensures Sub(q, i) !in s.slots {
      assert RowAt(s, q, i) == Self;
    }
    forall m | m in s.leaf ensures s.leaf[m].at != q {
      WfLeaf(s, m);
      assert Covers(s.leaf[m], s.leaf[m].path);
      assert RowAt(s, s.leaf[m].at, s.leaf[m].path) == Hold(m);
    }
    FreeNodeUnreferenced(s, q, Self);
  }

  // ------------------------------------------------------------ each merge step, in full

  /** A sound trie in which leaf n may have fallen below its lower bound. */
  ghost predicate Loose(s: State, n: Leaf) {
    Sound(s) && n in s.leaf && |s.leaf[n].items| < SPLITBOUND && Bounded(s, {n})
  }

  lemma DropDone(s: State, n: Leaf)
    requires Loose(s, n) && s.leaf[n].items == []
    ensures Placed(s, n)
    ensures var u := Drop(s, n);
      Sound(u) && Bounded(u, {}) && Items(u) == Items(s) && u.owner == s.owner && Potential(u.leaf) < Potential(s.leaf)
  {
    assert Wf(s);
    WfLeaf(s, n);
    DropKeeps(s, n);
    DropLowers(s, n);
    BoundedWithout(s, Drop(s, n), n);
  }

  lemma BoundedWithout(s: State, u: State, n: Leaf)
    requires Bounded(s, {n}) && u.leaf == s.leaf - {n}
    ensures Bounded(u, {})
  {
  }

  lemma GrowDone(s: State, n: Leaf)
    requires Loose(s, n) && Placed(s, n) && 1 <= s.leaf[n].typ && SiblingFree(s, n)
    ensures var u := Grow(s, n);
      && Loose(u, n) && Items(u) == Items(s) && u.owner == s.owner && Potential(u.leaf) < Potential(s.leaf)
      && u.leaf[n].at == s.leaf[n].at && u.leaf[n].items == s.leaf[n].items
  {
    assert Wf(s);
    GrowKeeps(s, n);
    GrowLowers(s, n);
    SameBounds(s, Grow(s, n), n);
  }

  lemma MergeDone(s: State, n: Leaf, m: Leaf, owner: seq<Leaf>)
    requires Sound(s) && Placed(s, n) && Siblings(s, n, m) && |s.leaf[n].items| + |s.leaf[m].items| < SPLITBOUND
    requires Bounded(s, {n, m}) && Repointed(s.owner, owner, Ids(MergedItems(s, n, m)), n)
    ensures var u := Merge(s, n, m, owner);
      && Loose(u, n) && Items(u) == Items(s) && u.owner == owner && Potential(u.leaf) < Potential(s.leaf)
      && u.leaf[n].at == s.leaf[n].at && |u.leaf[n].items| == |s.leaf[n].items| + |s.leaf[m].items|
  {
    assert Wf(s);
    MergeKeeps(s, n, m, owner);
    MergeLowers(s, n, m, owner);
    var u := Merge(s, n, m, owner);
    forall l | l in u.leaf && l != n ensures 0 < |u.leaf[l].items| < SPLITBOUND {
      assert l in s.leaf && l != m && u.leaf[l] == s.leaf[l];
    }
  }

  lemma LiftDone(s: State, n: Leaf)
    requires Loose(s, n) && s.leaf[n].typ == 0 && s.leaf[n].at != []
    ensures Front(s.leaf[n].at) in s.slots && |s.slots[Front(s.leaf[n].at)]| == 256
    ensures var u := Lift(s, n);
      && Loose(u, n) && Items(u) == Items(s) && u.owner == s.owner && Potential(u.leaf) < Potential(s.leaf)
      && u.leaf[n] == LeafRec(Front(s.leaf[n].at), Last(s.leaf[n].at), 8, s.leaf[n].items)
  {
    assert Wf(s);
    LiftKeeps(s, n);
    LiftLowers(s, n);
    SameBounds(s, Lift(s, n), n);
  }

  lemma PruneDone(s: State, q: Path)
    requires Sound(s) && Bounded(s, {}) && q in s.slots && q != [] && Free(s, q, 0, 256)
    ensures Front(q) in s.slots && |s.slots[Front(q)]| == 256
    ensures Sound(Prune(s, q)) && Bounded(Prune(s, q), {}) && Items(Prune(s, q)) == Items(s)
  {
    assert Wf(s);
    PruneKeeps(s, q);
  }

  lemma HeldExactly(s: State, n: Leaf)
    requires Sound(s) && n in s.leaf
    ensures Placed(s, n) && ItemsFit(s.leaf[n])
    ensures forall i: byte :: s.slots[s.leaf[n].at][i] == Hold(n) <==> Covers(s.leaf[n], i)
  {
    assert Wf(s);
    WfLeaf(s, n);
    OnlyHere(s, n);
    forall i: byte ensures s.slots[s.leaf[n].at][i] == RowAt(s, s.leaf[n].at, i) {
    }
  }

  lemma MergedInRange(s: State, n: Leaf, m: Leaf)
    requires Sound(s) && Siblings(s, n, m)
    ensures forall x | x in MergedItems(s, n, m) :: x.id < |s.owner|
  {
    assert Wf(s);
    assert IdsOk(n, s.leaf[n].items, s.owner) && IdsOk(m, s.leaf[m].items, s.owner);
    InConcat(s.leaf[n].items, s.leaf[m].items);
  }

  lemma AbsorbDone(s: State, m: Leaf, n: Leaf)
    requires Loose(s, n) && Placed(s, n) && Siblings(s, n, m) && s.leaf[n].items == []
    ensures Placed(s, m) && Siblings(s, m, n)
    ensures var u := Merge(s, m, n, s.owner);
      && Loose(u, m) && Items(u) == Items(s) && u.owner == s.owner && Potential(u.leaf) < Potential(s.leaf)
      && u.leaf[m].at == s.leaf[m].at
  {
    assert Wf(s);
    SiblingOrder(s, n, m);
    AbsorbState(s, m, n);
    MergeDone(s, m, n, s.owner);
  }

  /** How the running counters relate to the path and to the length of the erased key. */
  predicate Stage(p: Path, size: nat, onHeap: int, byte: int) {
    byte == |p| && onHeap == size - byte && SpellsLength(p, size) && 1 <= size <= 0xFFFF
  }

  lemma ReadyToLift(s: State, n: Leaf)
    requires Sound(s) && n in s.leaf && s.leaf[n].typ == 0 && s.leaf[n].at != []
    ensures LiftReady(s, n)
  {
    assert Wf(s);
    LiftIsReady(s, n);
  }

  lemma SizesAreRight(r: LeafRec, size: nat, onHeap: int, byte: nat)
    requires ItemsFit(r) && r.at != [] && Stage(Front(r.at), size, onHeap, byte - 1) && SpellsLength(r.at, size)
    ensures byte <= 1 ==> byte + onHeap - 1 == size
    ensures var sizes := if byte <= 1 then SizesFromLow(Bucket(r), size) else SameSizes(Bucket(r), onHeap);
      |sizes| == |r.items| && forall i | 0 <= i < |sizes| :: sizes[i] == |r.items[i].key| - (|r.at| - 1)
  {
    forall i | 0 <= i < |r.items|
      ensures (if byte <= 1 then (size / 256) * 256 + Bucket(r)[i].hi else onHeap) == |r.items[i].key| - (|r.at| - 1)
    {
      if byte <= 1 { SizesAtOne(r, size, i); } else { SizesBelow(r, size, i); }
    }
  }

  lemma PruneCan(s: State, q: Path)
    requires Sound(s) && q in s.slots && q != [] && Free(s, q, 0, 256)
    ensures PruneReady(s, q)
  {
    assert Wf(s);
    PruneIsReady(s, q);
  }

  lemma RemoveDone(s: State, n: Leaf, i: nat)
    requires Sound(s) && Bounded(s, {}) && n in s.leaf && i < |s.leaf[n].items|
    ensures var u := RemoveItem(s, n, i);
      Loose(u, n) && Items(u) == Items(s) - {s.leaf[n].items[i]} && u.owner == s.owner && u.leaf[n].at == s.leaf[n].at
  {
    assert Wf(s);
    RemoveKeeps(s, n, i);
    SameBounds(s, RemoveItem(s, n, i), n);
  }

  lemma BucketRemove(r: LeafRec, b: nat)
    requires b < |r.items|
    ensures Bucket(r.(items := RemoveAt(r.items, b))) == RemoveAt(Bucket(r), b)
    ensures IdSeq(RemoveAt(r.items, b)) == RemoveAt(IdSeq(r.items), b)
  {
  }

  /** Removing one item removes its key. */
  lemma OnlyOneItem(s: State, n: Leaf, b: nat)
    requires Sound(s) && n in s.leaf && b < |s.leaf[n].items|
    ensures Items(s) - {s.leaf[n].items[b]} == set x | x in Items(s) && x.key != s.leaf[n].items[b].key
  {
    assert Wf(s);
    var y := s.leaf[n].items[b];
    forall m, x | m in s.leaf && x in s.leaf[m].items && x.key == y.key ensures x == y {
      OneHome(s, m, x, n, y);
    }
  }

  lemma ItemsInRange(items: seq<Item>, n: nat)
    requires forall x | x in items :: x.id < n
    ensures forall i | 0 <= i < |items| :: items[i].id < n
  {
    forall i | 0 <= i < |items| ensures items[i].id < n { assert items[i] in items; }
  }

  lemma DropAndSet<T>(m: map<Leaf, T>, n: Leaf, other: Leaf, x: T)
    requires n != other
    ensures m[n := x] - {other} == (m - {other})[n := x]
  {
  }

  lemma DropLeaves(s: State, n: Leaf)
    requires Placed(s, n)
    ensures Drop(s, n).leaf == s.leaf - {n} && Drop(s, n).slots.Keys == s.slots.Keys
  {
  }

  lemma LeafOfSibling(s: State, n: Leaf, m: Leaf)
    requires Siblings(s, n, m)
    ensures n in s.leaf && m in s.leaf && n != m && s.leaf[m].at == s.leaf[n].at
  {
  }

  lemma SiblingBounds(s: State, n: Leaf, m: Leaf)
    requires Bounded(s, {n})
    ensures Bounded(s, {n, m})
  {
  }

  /** A leaf that kept some keys is within its bounds. */
  lemma EnoughKeys(s: State, n: Leaf)
    requires Loose(s, n) && |s.leaf[n].items| > 0
    ensures Bounded(s, {})
  {
  }

  lemma LooseToo(s: State, n: Leaf, m: Leaf)
    requires Loose(s, n) && Bounded(s, {}) && m in s.leaf
    ensures Loose(s, m)
  {
  }

  lemma LooseAll(s: State, n: Leaf)
    requires Sound(s) && Bounded(s, {}) && n in s.leaf
    ensures Loose(s, n) && s.leaf[n].items != []
  {
  }

  lemma MergedSize(s: State, n: Leaf, m: Leaf, owner: seq<Leaf>)
    requires Placed(s, n) && Siblings(s, n, m)
    ensures n in Merge(s, n, m, owner).leaf
    ensures |Merge(s, n, m, owner).leaf[n].items| == |s.leaf[n].items| + |s.leaf[m].items|
  {
  }

  lemma MergeLeaves(s: State, n: Leaf, m: Leaf, owner: seq<Leaf>)
    requires Placed(s, n) && Siblings(s, n, m)
    ensures n in s.leaf && m in s.leaf && Merge(s, n, m, owner).leaf.Keys == s.leaf.Keys - {m}
  {
  }

  lemma MergeNodes(s: State, n: Leaf, m: Leaf, owner: seq<Leaf>)
    requires Placed(s, n) && Siblings(s, n, m)
    ensures Merge(s, n, m, owner).slots.Keys == s.slots.Keys
  {
  }

  lemma LiftLeaves(s: State, n: Leaf)
    requires n in s.leaf && s.leaf[n].at != []
    requires Front(s.leaf[n].at) in s.slots && |s.slots[Front(s.leaf[n].at)]| == 256
    ensures Lift(s, n).leaf.Keys == s.leaf.Keys
  {
  }

  lemma OneLess(items: set<Item>, x: Item)
    ensures |items - {x}| <= |items|
  {
  }

  // ------------------------------------------------------------ the array of lengths in readd_sizes

  /** How many lengths there is room for. */
  const SCRATCH: nat := 256

  /** An array that was overrun stays so; with these bounds it never is. */
  predicate Scratched(before: bool, after: bool) {
    (before ==> after) && (SPLITBOUND <= 770 ==> before == after)
  }

}
