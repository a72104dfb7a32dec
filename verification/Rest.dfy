/** The order that insertions and erasures maintain: no leaf is waiting to be merged, and no node below the root is
    empty. */
module Rest {
  import opened Bytes
  import opened Blocks
  import opened Config
  import opened Nodes
  import opened Shape
  import opened ShapeOps
  import opened ShapeMoves
  import opened Heap
  import opened Splitting
  import opened Merging

  // ------------------------------------------------------------ definitions

  /** What the sibling slot of n shows keeps n, with `size` keys, where it is. Leaves in `apart` are not asked. */
  ghost predicate Stopped(s: State, n: Leaf, size: nat, apart: set<Leaf>)
    requires n in s.leaf && 1 <= s.leaf[n].typ <= 8
  {
    var r := s.leaf[n];
    var i := Sibling(r.path, r.typ);
    && i < 256
    && match RowAt(s, r.at, i)
       case Down => true
       case Self => !SiblingFree(s, n)
       case Hold(m) =>
         m in apart || (m in s.leaf && (s.leaf[m].typ == r.typ ==> size + |s.leaf[m].items| > SPLITBOUND / 3))
  }

  /** With `size` keys, leaf n is where merge_down would leave it. */
  ghost predicate Seated(s: State, n: Leaf, size: nat, apart: set<Leaf>)
    requires n in s.leaf
  {
    && size > 0 && s.leaf[n].typ <= 8
    && (size > SPLITBOUND / 3 || if s.leaf[n].typ == 0 then s.leaf[n].at == [] else Stopped(s, n, size, apart))
  }

  /** No leaf is waiting to be merged. */
  ghost predicate Calm(s: State) {
    forall n | n in s.leaf :: Seated(s, n, |s.leaf[n].items|, {})
  }

  /** Every node but the root shows something. */
  ghost predicate Busy(s: State) {
    forall p | p in s.slots && p != [] :: Shows(s, p, 0, 256)
  }

  /** Some slot in [from, to) of node p is taken. */
  ghost predicate Shows(s: State, p: Path, from: int, to: int) {
    exists i: byte :: from <= i < to && RowAt(s, p, i) != Self
  }

  /** What holds between operations. */
  ghost predicate Tidy(s: State) {
    Calm(s) && Busy(s)
  }

  /** No leaf but n is waiting to be merged, whatever n may still do. */
  ghost predicate Aside(s: State, n: Leaf) {
    forall m | m in s.leaf && m != n :: Seated(s, m, |s.leaf[m].items|, {n})
  }

  /** With one more key in leaf n everything is tidy. */
  ghost predicate Awaits(s: State, n: Leaf) {
    && Busy(s) && n in s.leaf && Seated(s, n, |s.leaf[n].items| + 1, {})
    && forall m | m in s.leaf && m != n :: Seated(s, m, |s.leaf[m].items|, {})
  }

  // ------------------------------------------------------------ where blocks meet

  /** A leaf that reaches into the sibling block of m lies within it. */
  lemma Meets(s: State, m: Leaf, n: Leaf, j: byte)
    requires Wf(s) && m in s.leaf && n in s.leaf && m != n && 1 <= s.leaf[m].typ && s.leaf[m].at == s.leaf[n].at
    requires s.leaf[m].typ <= 8 && InBlock(j, Sibling(s.leaf[m].path, s.leaf[m].typ), s.leaf[m].typ)
    requires Covers(s.leaf[n], j)
    ensures s.leaf[m].typ <= s.leaf[n].typ <= 8
    ensures Sibling(s.leaf[m].path, s.leaf[m].typ) <= s.leaf[n].path
    ensures s.leaf[n].path + Width(s.leaf[n].typ)
      <= Sibling(s.leaf[m].path, s.leaf[m].typ) + Width(s.leaf[m].typ)
  {
    var r, q := s.leaf[m], s.leaf[n];
    ParentAndSibling(r.path, r.typ);
    OnlyHere(s, n);
    assert RowAt(s, r.at, r.path) == Hold(m) by { assert Covers(r, r.path); }
    if q.typ < r.typ {
      Nested(q.path, q.typ, Parent(r.path, r.typ), r.typ - 1, j);
      assert false;
    }
    Nested(Sibling(r.path, r.typ), r.typ, q.path, q.typ, j);
  }

  /** The sibling block of a leaf within the sibling block of m is within it too, if the leaf is narrower than m. */
  lemma MeetsToo(s: State, m: Leaf, n: Leaf, j: byte)
    requires Wf(s) && m in s.leaf && n in s.leaf && m != n && 1 <= s.leaf[m].typ && s.leaf[m].at == s.leaf[n].at
    requires s.leaf[m].typ <= 8 && InBlock(j, Sibling(s.leaf[m].path, s.leaf[m].typ), s.leaf[m].typ)
    requires Covers(s.leaf[n], j)
    requires s.leaf[m].typ != s.leaf[n].typ
    ensures s.leaf[m].typ < s.leaf[n].typ <= 8
    ensures Sibling(s.leaf[m].path, s.leaf[m].typ) <= Sibling(s.leaf[n].path, s.leaf[n].typ)
    ensures Sibling(s.leaf[n].path, s.leaf[n].typ) + Width(s.leaf[n].typ)
      <= Sibling(s.leaf[m].path, s.leaf[m].typ) + Width(s.leaf[m].typ)
  {
    Meets(s, m, n, j);
    var r, q := s.leaf[m], s.leaf[n];
    ParentAndSibling(r.path, r.typ);
    ParentAndSibling(q.path, q.typ);
    Nested(Sibling(r.path, r.typ), r.typ, Parent(q.path, q.typ), q.typ - 1, q.path);
  }

  lemma FreeShowsNothing(s: State, n: Leaf)
    requires n in s.leaf && 1 <= s.leaf[n].typ <= 8
    ensures var i := Sibling(s.leaf[n].path, s.leaf[n].typ);
      SiblingFree(s, n) <==> !Shows(s, s.leaf[n].at, i, i + Width(s.leaf[n].typ))
  {
  }

  /** A small leaf that is seated has a sibling block with something in it. */
  lemma NeighbourTaken(s: State, n: Leaf, size: nat)
    requires Sound(s) && n in s.leaf && 1 <= s.leaf[n].typ && Seated(s, n, size, {}) && size <= SPLITBOUND / 3
    ensures var i := Sibling(s.leaf[n].path, s.leaf[n].typ); Shows(s, s.leaf[n].at, i, i + Width(s.leaf[n].typ))
  {
    FreeShowsNothing(s, n);
    WfLeaf(s, n);
    ParentAndSibling(s.leaf[n].path, s.leaf[n].typ);
    var i: byte := Sibling(s.leaf[n].path, s.leaf[n].typ);
    assert RowAt(s, s.leaf[n].at, i) != Self || !SiblingFree(s, n);
  }

  /** What rest means: two leaves on the halves of one block have more keys together than one leaf may be given; a leaf
      with no more than that shares its node with other slots that are taken, close by, or is alone at the root. */
  lemma NoLeafWaits(s: State, n: Leaf, m: Leaf)
    requires Sound(s) && Tidy(s) && n in s.leaf && m in s.leaf
    ensures var r, q := s.leaf[n], s.leaf[m];
      && r.typ <= 8 && |r.items| > 0
      && (q.at == r.at && q.typ == r.typ && q.path == r.path + Width(r.typ) && r.path % (2 * Width(r.typ)) == 0 ==>
            |r.items| + |q.items| > SPLITBOUND / 3)
      && (|r.items| <= SPLITBOUND / 3 ==>
            if r.typ == 0 then r.at == []
            else exists i: byte ::
              && RowAt(s, r.at, i) != Self && RowAt(s, r.at, i) != Hold(n)
              && Parent(r.path, r.typ) <= i < Parent(r.path, r.typ) + 2 * Width(r.typ))
  {
    hide Wf;
    var r, q := s.leaf[n], s.leaf[m];
    assert Seated(s, n, |r.items|, {});
    WfLeaf(s, n);
    WfLeaf(s, m);
    if r.typ >= 1 {
      ParentAndSibling(r.path, r.typ);
      if |r.items| <= SPLITBOUND / 3 { TakenBeside(s, n); }
      if q.at == r.at && q.typ == r.typ && q.path == r.path + Width(r.typ) && r.path % (2 * Width(r.typ)) == 0 {
        EvenIsLow(r.path, r.typ);
        assert RowAt(s, r.at, q.path) == Hold(m) by { assert Covers(q, q.path); }
      }
    }
  }

  lemma EvenIsLow(path: nat, t: nat)
    requires 1 <= t <= 8 && Aligned(path, t) && path % (2 * Width(t)) == 0
    ensures Sibling(path, t) == path + Width(t)
  {
    ParentAndSibling(path, t);
    if TestBit(path, Mask(t - 1)) { Halving(path, Width(t)); }
  }

  lemma TakenBeside(s: State, n: Leaf)
    requires Sound(s) && n in s.leaf && 1 <= s.leaf[n].typ && Seated(s, n, |s.leaf[n].items|, {})
    requires |s.leaf[n].items| <= SPLITBOUND / 3
    ensures var r := s.leaf[n]; r.typ <= 8 && exists i: byte ::
      && RowAt(s, r.at, i) != Self && RowAt(s, r.at, i) != Hold(n)
      && Parent(r.path, r.typ) <= i < Parent(r.path, r.typ) + 2 * Width(r.typ)
  {
    hide Wf;
    var r := s.leaf[n];
    NeighbourTaken(s, n, |r.items|);
    WfLeaf(s, n);
    ParentAndSibling(r.path, r.typ);
    var j := Sibling(r.path, r.typ);
    var i: byte :| j <= i < j + Width(r.typ) && RowAt(s, r.at, i) != Self;
    assert !Covers(r, i);
    if RowAt(s, r.at, i) == Hold(n) { HeldInBlock(s, n, i); }
  }

  lemma HeldInBlock(s: State, n: Leaf, i: byte)
    requires Sound(s) && n in s.leaf && RowAt(s, s.leaf[n].at, i) == Hold(n)
    ensures Covers(s.leaf[n], i)
  {
    assert Wf(s);
    OnlyHere(s, n);
  }

  // ------------------------------------------------------------ one more key

  lemma TidyAwaits(s: State, n: Leaf)
    requires Tidy(s) && n in s.leaf
    ensures Awaits(s, n)
  {
    assert Seated(s, n, |s.leaf[n].items|, {});
  }

  lemma InsertRests(s: State, n: Leaf, b: nat, k: Key)
    requires Awaits(s, n) && b <= |s.leaf[n].items|
    ensures Tidy(InsertItem(s, n, b, k))
  {
    var u := InsertItem(s, n, b, k);
    assert u.slots == s.slots;
    forall m | m in u.leaf ensures Seated(u, m, |u.leaf[m].items|, {}) {
      if m != n { assert Seated(s, m, |s.leaf[m].items|, {}); }
      if 1 <= s.leaf[m].typ <= 8 { SameFacing(s, u, m); }
    }
    forall p | p in u.slots && p != [] ensures Shows(u, p, 0, 256) {
      assert Shows(s, p, 0, 256);
      var i: byte :| RowAt(s, p, i) != Self;
      assert RowAt(u, p, i) != Self;
    }
  }

  lemma SameFacing(s: State, u: State, m: Leaf)
    requires u.slots == s.slots && m in s.leaf && m in u.leaf && SamePlace(s.leaf[m], u.leaf[m])
    requires 1 <= s.leaf[m].typ <= 8
    ensures SiblingFree(u, m) == SiblingFree(s, m)
    ensures forall i: byte :: RowAt(u, u.leaf[m].at, i) == RowAt(s, s.leaf[m].at, i)
  {
    FreeShowsNothing(s, m);
    FreeShowsNothing(u, m);
    forall i: byte ensures RowAt(u, u.leaf[m].at, i) == RowAt(s, s.leaf[m].at, i) {}
    if !SiblingFree(s, m) {
      var i: byte :| InBlock(i, Sibling(s.leaf[m].path, s.leaf[m].typ), s.leaf[m].typ)
        && RowAt(s, s.leaf[m].at, i) != Self;
      assert RowAt(u, u.leaf[m].at, i) != Self;
    }
    if !SiblingFree(u, m) {
      var i: byte :| InBlock(i, Sibling(s.leaf[m].path, s.leaf[m].typ), s.leaf[m].typ)
        && RowAt(u, u.leaf[m].at, i) != Self;
      assert RowAt(s, s.leaf[m].at, i) != Self;
    }
  }

  // ------------------------------------------------------------ a new leaf

  /** A new leaf on the largest free block leaves the others as they were, and waits for its first key. */
  lemma ClaimAwaits(s: State, n: Leaf, p: Path, from: byte, t: nat)
    requires Sound(s) && Tidy(s) && n !in s.leaf && p in s.slots && |s.slots[p]| == 256 && Aligned(from, t)
    requires Free(s, p, from, from + Width(t))
    requires t > 0 ==> Shows(s, p, Parent(from, t), Parent(from, t) + Width(t - 1))
    ensures Awaits(Claim(s, n, p, from, t), n)
  {
    var u := Claim(s, n, p, from, t);
    assert Wf(s);
    ClaimedRow(s, n, p, from, t);
    BoundsFit();
    assert p != [] ==> Shows(s, p, 0, 256);
    if t > 0 {
      ClaimStops(s, n, p, from, t);
    }
    forall m | m in u.leaf && m != n ensures Seated(u, m, |u.leaf[m].items|, {}) {
      assert Seated(s, m, |s.leaf[m].items|, {});
      if |s.leaf[m].items| <= SPLITBOUND / 3 && s.leaf[m].typ > 0 { ClaimBeside(s, n, p, from, t, m); }
    }
    forall q | q in u.slots && q != [] ensures Shows(u, q, 0, 256) {
      assert Shows(s, q, 0, 256);
      var i: byte :| RowAt(s, q, i) != Self;
      assert RowAt(u, q, i) != Self;
    }
  }

  lemma ClaimedRow(s: State, n: Leaf, p: Path, from: byte, t: nat)
    requires p in s.slots && |s.slots[p]| == 256 && Aligned(from, t)
    ensures var u := Claim(s, n, p, from, t);
      && u.slots.Keys == s.slots.Keys && u.leaf == s.leaf[n := LeafRec(p, from, t, [])]
      && forall q, i: byte ::
        RowAt(u, q, i) == if q == p && from <= i < from + Width(t) then Hold(n) else RowAt(s, q, i)
  {
  }

  lemma ClaimStops(s: State, n: Leaf, p: Path, from: byte, t: nat)
    requires Wf(s) && Calm(s) && n !in s.leaf && p in s.slots && |s.slots[p]| == 256 && Aligned(from, t)
    requires Free(s, p, from, from + Width(t)) && t > 0
    requires Shows(s, p, Parent(from, t), Parent(from, t) + Width(t - 1))
    ensures Stopped(Claim(s, n, p, from, t), n, 1, {})
  {
    var u := Claim(s, n, p, from, t);
    ClaimedRow(s, n, p, from, t);
    ParentAndSibling(from, t);
    var i: byte := Sibling(from, t);
    var j: byte :| Parent(from, t) <= j < Parent(from, t) + Width(t - 1) && RowAt(s, p, j) != Self;
    assert RowAt(u, p, j) != Self;
    assert !SiblingFree(u, n);
    if RowAt(s, p, i).Hold? {
      var m := RowAt(s, p, i).leaf;
      assert HeldBy(s, m, p, i);
      if s.leaf[m].typ == t { FacedIsBig(s, p, from, t, m); }
    }
  }

  /** Next to a free block of its own width a leaf is not small. */
  lemma FacedIsBig(s: State, p: Path, from: byte, t: nat, m: Leaf)
    requires Wf(s) && Calm(s) && 0 < t && Aligned(from, t) && Free(s, p, from, from + Width(t))
    requires m in s.leaf && s.leaf[m].at == p && s.leaf[m].typ == t && Covers(s.leaf[m], Sibling(from, t))
    ensures |s.leaf[m].items| > SPLITBOUND / 3
  {
    SiblingTwice(from, t);
    SameWidth(s.leaf[m].path, Sibling(from, t), t, Sibling(from, t));
    assert Seated(s, m, |s.leaf[m].items|, {});
    assert SiblingFree(s, m);
  }

  lemma ClaimBeside(s: State, n: Leaf, p: Path, from: byte, t: nat, m: Leaf)
    requires Wf(s) && n !in s.leaf && p in s.slots && |s.slots[p]| == 256 && Aligned(from, t)
    requires Free(s, p, from, from + Width(t)) && m in s.leaf && 1 <= s.leaf[m].typ <= 8
    requires Stopped(s, m, |s.leaf[m].items|, {})
    ensures Stopped(Claim(s, n, p, from, t), m, |s.leaf[m].items|, {})
  {
    var u, r := Claim(s, n, p, from, t), s.leaf[m];
    ClaimedRow(s, n, p, from, t);
    ParentAndSibling(r.path, r.typ);
    var i: byte := Sibling(r.path, r.typ);
    if RowAt(s, r.at, i) == Self {
      var j: byte :| i <= j < i + Width(r.typ) && RowAt(s, r.at, j) != Self;
      assert RowAt(u, r.at, j) != Self;
      assert !SiblingFree(u, m);
      if RowAt(u, r.at, i) == Hold(n) && t == r.typ {
        SameWidth(from, i, t, i);
        assert false;
      }
    }
  }

  // ------------------------------------------------------------ a leaf is split, narrowed or moved down

  /** u is s with the block of n divided further: something is still there, but no leaf as wide as n was. */
  ghost predicate Refines(s: State, u: State, n: Leaf)
    requires n in s.leaf
  {
    var r := s.leaf[n];
    && (forall q, i: byte | q in s.slots && !(q == r.at && Covers(r, i)) :: RowAt(u, q, i) == RowAt(s, q, i))
    && Shows(u, r.at, r.path, r.path + Width(if r.typ <= 8 then r.typ else 8))
    && (RowAt(u, r.at, r.path).Hold? ==>
          var m := RowAt(u, r.at, r.path).leaf; m in u.leaf && u.leaf[m].typ > r.typ)
    && (forall m | m in s.leaf && m != n :: m in u.leaf && u.leaf[m] == s.leaf[m])
    && s.slots.Keys <= u.slots.Keys
  }

  /** The other leaves are still where merge_down would leave them. */
  lemma StillSeated(s: State, u: State, n: Leaf, m: Leaf)
    requires Sound(s) && n in s.leaf && m in s.leaf && m != n && Refines(s, u, n) && Seated(s, m, |s.leaf[m].items|, {})
    ensures m in u.leaf && Seated(u, m, |u.leaf[m].items|, {})
  {
    if |s.leaf[m].items| <= SPLITBOUND / 3 && s.leaf[m].typ > 0 { StillStopped(s, u, n, m, |s.leaf[m].items|); }
  }

  lemma StillStopped(s: State, u: State, n: Leaf, m: Leaf, size: nat)
    requires Sound(s) && n in s.leaf && m in s.leaf && m != n && 1 <= s.leaf[m].typ <= 8 && Refines(s, u, n)
    requires Stopped(s, m, size, {})
    ensures m in u.leaf && Stopped(u, m, size, {})
  {
    hide Refines, Sibling;
    var r := s.leaf[m];
    WfLeaf(s, m);
    var i: byte := Sibling(r.path, r.typ);
    StillThere(s, u, n, m);
    if RowAt(s, r.at, i) == Hold(n) {
      StillShows(s, u, n, m, i);
      FirstIsNarrower(s, u, n, m, i);
    } else {
      Untouched(s, u, n, r.at, i);
      if RowAt(s, r.at, i) == Self {
        var j: byte :| InBlock(j, i, r.typ) && RowAt(s, r.at, j) != Self;
        StillShows(s, u, n, m, j);
      } else if RowAt(s, r.at, i).Hold? {
        StillThere(s, u, n, RowAt(s, r.at, i).leaf);
      }
    }
  }

  lemma StillThere(s: State, u: State, n: Leaf, m: Leaf)
    requires n in s.leaf && Refines(s, u, n)
    ensures m in s.leaf && m != n ==> m in u.leaf && u.leaf[m] == s.leaf[m]
  {
  }

  lemma Untouched(s: State, u: State, n: Leaf, p: Path, i: byte)
    requires Sound(s) && n in s.leaf && Refines(s, u, n) && p in s.slots && RowAt(s, p, i) != Hold(n)
    ensures RowAt(u, p, i) == RowAt(s, p, i)
  {
    assert Wf(s);
  }

  /** Where m faced n, it faces no leaf of its own width. */
  lemma FirstIsNarrower(s: State, u: State, n: Leaf, m: Leaf, i: byte)
    requires Sound(s) && n in s.leaf && m in s.leaf && m != n && 1 <= s.leaf[m].typ <= 8 && Refines(s, u, n)
    requires i as int == Sibling(s.leaf[m].path, s.leaf[m].typ) && RowAt(s, s.leaf[m].at, i) == Hold(n)
    ensures RowAt(u, s.leaf[m].at, i).Hold? ==>
      var x := RowAt(u, s.leaf[m].at, i).leaf; x in u.leaf && u.leaf[x].typ > s.leaf[m].typ
  {
    assert Wf(s);
    ParentAndSibling(s.leaf[m].path, s.leaf[m].typ);
    assert HeldBy(s, n, s.leaf[m].at, i);
    Meets(s, m, n, i);
  }

  /** What the sibling block of m showed, it still shows. */
  lemma StillShows(s: State, u: State, n: Leaf, m: Leaf, j: byte)
    requires Sound(s) && n in s.leaf && m in s.leaf && m != n && 1 <= s.leaf[m].typ <= 8 && Refines(s, u, n)
    requires InBlock(j, Sibling(s.leaf[m].path, s.leaf[m].typ), s.leaf[m].typ) && RowAt(s, s.leaf[m].at, j) != Self
    ensures m in u.leaf && u.leaf[m] == s.leaf[m] && !SiblingFree(u, m)
  {
    assert Wf(s);
    var r, q := s.leaf[m], s.leaf[n];
    if r.at == q.at && Covers(q, j) {
      Meets(s, m, n, j);
      var k: byte :| q.path <= k < q.path + Width(q.typ) && RowAt(u, q.at, k) != Self;
    }
    FreeShowsNothing(u, m);
  }

  lemma StillBusy(s: State, u: State, n: Leaf)
    requires Sound(s) && n in s.leaf && Busy(s) && Refines(s, u, n)
    ensures forall p | p in s.slots && p != [] :: Shows(u, p, 0, 256)
  {
    forall p | p in s.slots && p != [] ensures Shows(u, p, 0, 256) {
      assert Shows(s, p, 0, 256);
      var i: byte :| RowAt(s, p, i) != Self;
      if p == s.leaf[n].at {
        WfLeaf(s, n);
        var k: byte :| RowAt(u, p, k) != Self;
      } else {
        assert RowAt(u, p, i) != Self;
      }
    }
  }

  lemma ShrinkRests(s: State, n: Leaf, high: bool)
    requires Sound(s) && Tidy(s) && n in s.leaf && s.leaf[n].typ < 8 && Placed(s, n)
    requires |s.leaf[n].items| > SPLITBOUND / 3
    ensures Tidy(Shrink(s, n, high))
  {
    var r, u := s.leaf[n], Shrink(s, n, high);
    Halves(r.path, r.typ);
    WfLeaf(s, n);
    var j: byte := if high then r.path + Mask(r.typ) else r.path;
    assert s.slots[r.at][j] == Hold(n);
    assert RowAt(u, r.at, j) != Self;
    assert r.items[0..] == r.items == r.items[..|r.items|];
    assert Refines(s, u, n);
    forall m | m in u.leaf ensures Seated(u, m, |u.leaf[m].items|, {}) {
      if m != n { StillSeated(s, u, n, m); }
    }
    StillBusy(s, u, n);
  }

  lemma SplitCounts(s: State, n: Leaf, a: Leaf, b: Leaf, cnt: nat, owner: seq<Leaf>)
    requires n in s.leaf && s.leaf[n].typ < 8 && Placed(s, n) && a != b && cnt <= |s.leaf[n].items|
    ensures var u := Split(s, n, a, b, cnt, owner);
      && a in u.leaf && b in u.leaf
      && |u.leaf[a].items| == cnt && |u.leaf[b].items| == |s.leaf[n].items| - cnt
  {
  }

  lemma SplitRefines(s: State, u: State, n: Leaf, a: Leaf, b: Leaf)
    requires Sound(s) && n in s.leaf && s.leaf[n].typ < 8 && Placed(s, n) && SplitsInto(s, u, n, a, b)
    requires (n == a || n == b) && (a == n || a !in s.leaf) && (b == n || b !in s.leaf)
    ensures Refines(s, u, n) && RowAt(u, s.leaf[n].at, s.leaf[n].path) == Hold(a)
    ensures s.leaf[n].path + Mask(s.leaf[n].typ) < 256
    ensures RowAt(u, s.leaf[n].at, s.leaf[n].path + Mask(s.leaf[n].typ)) == Hold(b)
  {
    var r := s.leaf[n];
    Halves(r.path, r.typ);
    assert Covers(r, r.path);
    var mid: byte := r.path + Mask(r.typ);
    assert Covers(r, mid) && RowAt(u, r.at, mid) == Hold(b);
  }

  /** Two halves with enough keys together stop each other. */
  lemma HalvesSeated(u: State, p: Path, path: byte, t: nat, a: Leaf, b: Leaf)
    requires t < 8 && Aligned(path, t) && path + Mask(t) < 256 && a in u.leaf && b in u.leaf
    requires u.leaf[a].at == u.leaf[b].at == p && u.leaf[a].typ == u.leaf[b].typ == t + 1
    requires u.leaf[a].path == path && u.leaf[b].path as int == path + Mask(t)
    requires RowAt(u, p, path) == Hold(a) && RowAt(u, p, path + Mask(t)) == Hold(b)
    requires u.leaf[a].items != [] && u.leaf[b].items != []
    requires |u.leaf[a].items| + |u.leaf[b].items| > SPLITBOUND / 3
    ensures Seated(u, a, |u.leaf[a].items|, {}) && Seated(u, b, |u.leaf[b].items|, {})
  {
    Halves(path, t);
    ParentAndSibling(path, t + 1);
    SiblingTwice(path, t + 1);
  }

  lemma SplitRests(s: State, n: Leaf, a: Leaf, b: Leaf, cnt: nat, owner: seq<Leaf>)
    requires Sound(s) && Tidy(s) && n in s.leaf && s.leaf[n].typ < 8 && Placed(s, n)
    requires |s.leaf[n].items| > SPLITBOUND / 3
    requires a != b && (n == a || n == b) && (a == n || a !in s.leaf) && (b == n || b !in s.leaf)
    requires 0 < cnt < |s.leaf[n].items|
    ensures Tidy(Split(s, n, a, b, cnt, owner))
  {
    hide Split, Refines, Seated, Aligned, Sibling;
    var r, u := s.leaf[n], Split(s, n, a, b, cnt, owner);
    assert Wf(s);
    SplitRows(s, n, a, b, cnt, owner);
    SplitCounts(s, n, a, b, cnt, owner);
    SplitRefines(s, u, n, a, b);
    HalvesSeated(u, r.at, r.path, r.typ, a, b);
    forall m | m in u.leaf ensures Seated(u, m, |u.leaf[m].items|, {}) {
      if m != a && m != b { StillSeated(s, u, n, m); }
    }
    StillBusy(s, u, n);
  }

  lemma LowerRests(s: State, n: Leaf)
    requires Sound(s) && Tidy(s) && n in s.leaf && s.leaf[n].typ == 8 && Placed(s, n)
    requires |s.leaf[n].items| > SPLITBOUND / 3
    requires Sub(s.leaf[n].at, s.leaf[n].path) !in s.slots
    ensures Tidy(Lower(s, n))
  {
    var r, u := s.leaf[n], Lower(s, n);
    var q := Sub(r.at, r.path);
    assert RowAt(u, r.at, r.path) == Down;
    assert Refines(s, u, n);
    forall m | m in u.leaf ensures Seated(u, m, |u.leaf[m].items|, {}) {
      if m != n { StillSeated(s, u, n, m); }
    }
    StillBusy(s, u, n);
    assert RowAt(u, q, 0) != Self;
  }

  // ------------------------------------------------------------ a leaf that has lost its last key

  /** The leaf in the sibling slot of n is n's sibling. */
  ghost predicate FacesSibling(s: State, n: Leaf)
    requires n in s.leaf
  {
    && 1 <= s.leaf[n].typ <= 8
    && var i := Sibling(s.leaf[n].path, s.leaf[n].typ);
      i < 256 && RowAt(s, s.leaf[n].at, i).Hold? &&
      var m := RowAt(s, s.leaf[n].at, i).leaf; m in s.leaf && s.leaf[m].typ == s.leaf[n].typ
  }

  /** u is s without leaf n, whose slots have become free. */
  ghost predicate Without(s: State, u: State, n: Leaf)
    requires n in s.leaf
  {
    && u.leaf == s.leaf - {n} && u.slots.Keys == s.slots.Keys
    && forall q, i: byte ::
      RowAt(u, q, i) == if q == s.leaf[n].at && Covers(s.leaf[n], i) then Self else RowAt(s, q, i)
  }

  /** Without a small leaf that does not face its sibling, everything is as tidy as before. */
  lemma WithoutRests(s: State, u: State, n: Leaf)
    requires Sound(s) && Tidy(s) && n in s.leaf && |s.leaf[n].items| <= SPLITBOUND / 3 && !FacesSibling(s, n)
    requires Without(s, u, n)
    ensures Tidy(u)
  {
    assert Wf(s);
    assert Seated(s, n, |s.leaf[n].items|, {});
    if s.leaf[n].typ == 0 {
      AloneAtRoot(s, n);
    } else {
      NeighbourTaken(s, n, |s.leaf[n].items|);
      forall m | m in u.leaf ensures Seated(u, m, |u.leaf[m].items|, {}) {
        assert Seated(s, m, |s.leaf[m].items|, {});
        if |s.leaf[m].items| <= SPLITBOUND / 3 && s.leaf[m].typ > 0 { WithoutStops(s, u, n, m, |s.leaf[m].items|); }
      }
      WithoutBusy(s, u, n);
    }
  }

  /** A leaf that covers the root is all there is. */
  lemma AloneAtRoot(s: State, n: Leaf)
    requires Wf(s) && n in s.leaf && s.leaf[n].typ == 0 && s.leaf[n].at == []
    ensures s.leaf.Keys == {n} && s.slots.Keys == {[]}
  {
    forall i: byte ensures s.slots[[]][i] == Hold(n) {
      assert Covers(s.leaf[n], i) && RowAt(s, [], i) == Hold(n);
    }
    forall p | p in s.slots ensures p == [] {
      if p != [] {
        assert p[..0] == [];
        PrefixDown(s, p, 0);
        assert false;
      }
    }
    forall m | m in s.leaf ensures m == n {
      assert s.leaf[m].at == [] && Covers(s.leaf[m], s.leaf[m].path) && Covers(s.leaf[n], s.leaf[m].path);
      assert RowAt(s, [], s.leaf[m].path) == Hold(m);
    }
  }

  lemma WithoutStops(s: State, u: State, n: Leaf, m: Leaf, size: nat)
    requires Sound(s) && n in s.leaf && m in s.leaf && m != n && 1 <= s.leaf[n].typ && 1 <= s.leaf[m].typ <= 8
    requires Without(s, u, n) && !FacesSibling(s, n) && Stopped(s, m, size, {})
    requires s.leaf[n].typ <= 8
    requires var i := Sibling(s.leaf[n].path, s.leaf[n].typ); Shows(s, s.leaf[n].at, i, i + Width(s.leaf[n].typ))
    ensures Stopped(u, m, size, {})
  {
    assert Wf(s);
    var r := s.leaf[m];
    ParentAndSibling(r.path, r.typ);
    var i: byte := Sibling(r.path, r.typ);
    OnlyHere(s, n);
    match RowAt(s, r.at, i)
    case Down =>
    case Self =>
      var j: byte :| i <= j < i + Width(r.typ) && RowAt(s, r.at, j) != Self;
      if RowAt(u, r.at, j) == Self {
        Meets(s, m, n, j);
        NextIsTaken(s, u, n, m, j);
      }
      FreeShowsNothing(u, m);
    case Hold(x) =>
      if x == n {
        Meets(s, m, n, i);
        if s.leaf[n].typ == r.typ { SiblingFaces(s, n, m, i); }
        NextIsTaken(s, u, n, m, i);
      }
  }

  lemma SiblingFaces(s: State, n: Leaf, m: Leaf, i: byte)
    requires Wf(s) && n in s.leaf && m in s.leaf && m != n && 1 <= s.leaf[m].typ == s.leaf[n].typ <= 8
    requires s.leaf[n].at == s.leaf[m].at && i as int == Sibling(s.leaf[m].path, s.leaf[m].typ) && Covers(s.leaf[n], i)
    ensures FacesSibling(s, n)
  {
    ParentAndSibling(s.leaf[m].path, s.leaf[m].typ);
    SameWidth(s.leaf[n].path, i, s.leaf[n].typ, i);
    SiblingTwice(s.leaf[m].path, s.leaf[m].typ);
    assert Covers(s.leaf[m], s.leaf[m].path);
    assert RowAt(s, s.leaf[m].at, s.leaf[m].path) == Hold(m);
  }

  /** What is next to n is in the sibling block of m too, and still there. */
  lemma NextIsTaken(s: State, u: State, n: Leaf, m: Leaf, j: byte)
    requires Sound(s) && n in s.leaf && m in s.leaf && m != n && 1 <= s.leaf[m].typ < s.leaf[n].typ <= 8
    requires Without(s, u, n) && s.leaf[m].at == s.leaf[n].at
    requires InBlock(j, Sibling(s.leaf[m].path, s.leaf[m].typ), s.leaf[m].typ) && Covers(s.leaf[n], j)
    requires var i := Sibling(s.leaf[n].path, s.leaf[n].typ); Shows(s, s.leaf[n].at, i, i + Width(s.leaf[n].typ))
    ensures m in u.leaf && u.leaf[m] == s.leaf[m] && !SiblingFree(u, m)
  {
    assert Wf(s);
    MeetsToo(s, m, n, j);
    StaysTaken(s, u, n);
    var i := Sibling(s.leaf[n].path, s.leaf[n].typ);
    var k: byte :| i <= k < i + Width(s.leaf[n].typ) && RowAt(u, s.leaf[n].at, k) != Self;
    FreeShowsNothing(u, m);
  }

  lemma StaysTaken(s: State, u: State, n: Leaf)
    requires Wf(s) && n in s.leaf && 1 <= s.leaf[n].typ <= 8 && Without(s, u, n)
    requires var i := Sibling(s.leaf[n].path, s.leaf[n].typ); Shows(s, s.leaf[n].at, i, i + Width(s.leaf[n].typ))
    ensures var i := Sibling(s.leaf[n].path, s.leaf[n].typ); Shows(u, s.leaf[n].at, i, i + Width(s.leaf[n].typ))
  {
    var r := s.leaf[n];
    ParentAndSibling(r.path, r.typ);
    var i := Sibling(r.path, r.typ);
    var k: byte :| i <= k < i + Width(r.typ) && RowAt(s, r.at, k) != Self;
    assert !Covers(r, k);
    assert RowAt(u, r.at, k) != Self;
  }

  lemma WithoutBusy(s: State, u: State, n: Leaf)
    requires Sound(s) && Busy(s) && n in s.leaf && 1 <= s.leaf[n].typ <= 8 && Without(s, u, n)
    requires var i := Sibling(s.leaf[n].path, s.leaf[n].typ); Shows(s, s.leaf[n].at, i, i + Width(s.leaf[n].typ))
    ensures Busy(u)
  {
    assert Wf(s);
    StaysTaken(s, u, n);
    forall p | p in u.slots && p != [] ensures Shows(u, p, 0, 256) {
      if p == s.leaf[n].at {
        var k: byte :| RowAt(u, p, k) != Self;
      } else {
        assert Shows(s, p, 0, 256);
        var k: byte :| RowAt(s, p, k) != Self;
        assert RowAt(u, p, k) != Self;
      }
    }
  }
}
