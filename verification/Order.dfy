/** How the slots of the trie are ordered, and how stored keys lie between them. */
module Order {
  import opened Bytes
  import opened Blocks
  import opened Nodes
  import opened Shape
  import opened ShapeOps
  import opened ShapeMoves
  import opened Search

  /** The point just before slot i of the node at p; i may be 256, one past the last slot. */
  function Edge(p: seq<int>, i: int): seq<int> { p + [i] }

  // ------------------------------------------------------------ comparing with a point

  lemma BelowEdge(e: seq<int>, p: seq<int>, i: int)
    requires |p| < |e| && e[..|p|] == p
    ensures Less(e, Edge(p, i)) <==> e[|p|] < i
  {
    var c := Edge(p, i);
    assert c[..|p|] == p;
    LessSkip(e, c, |p|);
    assert e[|p|..][0] == e[|p|] && c[|p|..] == [i];
  }

  lemma DiffersBefore(e: seq<int>, p: seq<int>, q: seq<int>, j: nat)
    requires j < |e| && j < |p| && e[..j] == p[..j] && e[j] != p[j] && j < |q| && q[..j] == p[..j] && q[j] == p[j]
    ensures Less(e, q) <==> e[j] < p[j]
  {
    LessAt(e, q, j);
  }

  /** The first position at which two strings differ, or the shorter length. */
  function FirstDiff(a: seq<int>, b: seq<int>): (j: nat)
    ensures j <= |a| && j <= |b| && a[..j] == b[..j]
    ensures j < |a| && j < |b| ==> a[j] != b[j]
  {
    if a == [] || b == [] || a[0] != b[0] then 0
    else
      var t := FirstDiff(a[1..], b[1..]);
      assert a[..t+1] == [a[0]] + a[1..][..t] && b[..t+1] == [b[0]] + b[1..][..t];
      t + 1
  }

  /** No key's encoding stops at or above a forward node: it passes below the node or branches off before. */
  lemma KeysGoBelow(s: State, k: Key, p: Path)
    requires Wf(s) && p in s.slots
    ensures var j := FirstDiff(Enc(k), p); j < |Enc(k)| && (j < |p| || Enc(k)[..|p|] == p)
  {
    assert DepthOk(p);
    ShallowPath(k, p);
  }

  lemma ShallowPath(k: Key, p: Path)
    requires DepthOk(p)
    ensures var j := FirstDiff(Enc(k), p); j < |Enc(k)| && (j < |p| || Enc(k)[..|p|] == p)
  {
    var e, j := Enc(k), FirstDiff(Enc(k), p);
    if j >= 2 {
      assert p[..j][0] == e[..j][0] && p[..j][1] == e[..j][1];
      assert (p[0] as int) * 256 + p[1] == |k|;
    }
  }

  /** Passing an empty slot passes no key. */
  lemma SkipSelf(s: State, k: Key, p: Path, i: byte)
    requires Wf(s) && HasKey(s, k) && p in s.slots && RowAt(s, p, i) == Self
    ensures Less(Enc(k), Edge(p, i)) <==> Less(Enc(k), Edge(p, i + 1))
  {
    KeysGoBelow(s, k, p);
    var e, j := Enc(k), FirstDiff(Enc(k), p);
    if j < |p| {
      DiffersBefore(e, p, Edge(p, i), j);
      DiffersBefore(e, p, Edge(p, i + 1), j);
    } else {
      BelowEdge(e, p, i);
      BelowEdge(e, p, i + 1);
      if e[|p|] == i { EmptySlotMeansAbsent(s, k, |p|); }
    }
  }

  /** The point before a node's first slot is the point before the slot that holds the node. */
  lemma LowEdge(s: State, k: Key, p: Path)
    requires Wf(s) && p in s.slots && p != []
    ensures Less(Enc(k), Edge(p, 0)) <==> Less(Enc(k), Edge(Front(p), Last(p)))
  {
    KeysGoBelow(s, k, p);
    var e, j := Enc(k), FirstDiff(Enc(k), p);
    assert Edge(Front(p), Last(p)) == p;
    if j < |p| {
      DiffersBefore(e, p, Edge(p, 0), j);
      DiffersBefore(e, p, p, j);
    } else {
      BelowEdge(e, p, 0);
      AtLast(e, p, |p|);
      BelowEdge(e, Front(p), Last(p));
    }
  }

  /** The point past a node's last slot is the point past the slot that holds the node. */
  lemma HighEdge(s: State, k: Key, p: Path)
    requires Wf(s) && p in s.slots && p != []
    ensures Less(Enc(k), Edge(p, 256)) <==> Less(Enc(k), Edge(Front(p), Last(p) + 1))
  {
    KeysGoBelow(s, k, p);
    var e, j := Enc(k), FirstDiff(Enc(k), p);
    if j < |p| - 1 {
      DiffersBefore(e, p, Edge(p, 256), j);
      DiffersBefore(e, Front(p), Edge(Front(p), Last(p) + 1), j);
    } else {
      AtLast(e, p, j);
      BelowEdge(e, Front(p), Last(p) + 1);
      if j < |p| { DiffersBefore(e, p, Edge(p, 256), j); } else { BelowEdge(e, p, 256); }
    }
  }

  lemma AtLast(e: Path, p: Path, j: nat)
    requires p != [] && |p| - 1 <= j <= |p| && j < |e| && e[..j] == p[..j]
    ensures e[..|p|-1] == Front(p) && (j == |p| ==> e[|p|-1] == Last(p))
  {
    assert e[..|p|-1] == e[..j][..|p|-1] && p[..|p|-1] == p[..j][..|p|-1];
    if j == |p| { assert e[..j][|p|-1] == e[|p|-1]; }
  }

  /** A leaf holds exactly the stored keys between the two ends of its block. */
  lemma LeafRange(s: State, k: Key, n: Leaf)
    requires Wf(s) && HasKey(s, k) && n in s.leaf
    ensures (!Less(Enc(k), Edge(s.leaf[n].at, s.leaf[n].path))
      && Less(Enc(k), Edge(s.leaf[n].at, s.leaf[n].path + Width(s.leaf[n].typ))))
      <==> !Absent(s.leaf[n].items, k)
  {
    hide Less;
    var r, e := s.leaf[n], Enc(k);
    var j := FirstDiff(e, r.at);
    KeysGoBelow(s, k, r.at);
    if j < |r.at| {
      DiffersBefore(e, r.at, Edge(r.at, r.path), j);
      DiffersBefore(e, r.at, Edge(r.at, r.path + Width(r.typ)), j);
      forall x | x in r.items ensures x.key != k {
        assert Fits(x.key, r);
        assert Enc(x.key)[..|r.at|][j] == r.at[j];
      }
    } else {
      BelowEdge(e, r.at, r.path);
      BelowEdge(e, r.at, r.path + Width(r.typ));
      var i := e[|r.at|];
      if Covers(r, i) {
        assert RowAt(s, r.at, i) == Hold(n);
        LeafDecides(s, k, |r.at|, n);
      } else {
        forall x | x in r.items ensures x.key != k { assert Fits(x.key, r); }
      }
    }
  }

  // ------------------------------------------------------------ moving makes progress

  /** Points from which a walk can still be: after c, or before it. */
  ghost function Later(s: State, c: seq<int>): set<seq<int>> {
    set p: Path, i: int | p in s.slots && 0 <= i <= 256 && Less(c, Edge(p, i)) :: Edge(p, i)
  }

  ghost function Earlier(s: State, c: seq<int>): set<seq<int>> {
    set p: Path, i: int | p in s.slots && 0 <= i <= 256 && Less(Edge(p, i), c) :: Edge(p, i)
  }

  lemma LaterShrinks(s: State, c: seq<int>, p: Path, i: int)
    requires p in s.slots && 0 <= i <= 256 && Less(c, Edge(p, i))
    ensures Later(s, Edge(p, i)) < Later(s, c)
  {
    var d := Edge(p, i);
    forall x | x in Later(s, d) ensures x in Later(s, c) {
      var q: Path, j: int :| q in s.slots && 0 <= j <= 256 && Less(d, Edge(q, j)) && x == Edge(q, j);
      LessTransitive(c, d, x);
    }
    LessIrreflexive(d);
    assert d in Later(s, c);
    assert d !in Later(s, d);
  }

  lemma EarlierShrinks(s: State, c: seq<int>, p: Path, i: int)
    requires p in s.slots && 0 <= i <= 256 && Less(Edge(p, i), c)
    ensures Earlier(s, Edge(p, i)) < Earlier(s, c)
  {
    var d := Edge(p, i);
    forall x | x in Earlier(s, d) ensures x in Earlier(s, c) {
      var q: Path, j: int :| q in s.slots && 0 <= j <= 256 && Less(Edge(q, j), d) && x == Edge(q, j);
      LessTransitive(x, d, c);
    }
    LessIrreflexive(d);
    assert d in Earlier(s, c);
    assert d !in Earlier(s, d);
  }

  lemma StepRight(p: seq<int>, i: int, j: int)
    requires i < j
    ensures Less(Edge(p, i), Edge(p, j))
  {
    var a, b := Edge(p, i), Edge(p, j);
    assert a[..|p|] == p == b[..|p|];
    LessAt(a, b, |p|);
  }

  lemma StepIn(p: Path, i: byte)
    ensures Less(Edge(p, i), Edge(Sub(p, i), 0)) && Less(Edge(Sub(p, i), 256), Edge(p, i + 1))
  {
    var a, b := Edge(p, i), Edge(Sub(p, i), 0);
    assert b[..|a|] == a == a[..|a|];
    LessSkip(a, b, |a|);
    var c, d := Edge(Sub(p, i), 256), Edge(p, i + 1);
    assert c[..|p|] == p == d[..|p|];
    LessAt(c, d, |p|);
  }

  lemma StepOut(p: Path)
    requires p != []
    ensures Less(Edge(p, 256), Edge(Front(p), Last(p) + 1)) && Less(Edge(Front(p), Last(p)), Edge(p, 0))
  {
    assert p == Sub(Front(p), Last(p));
    StepIn(Front(p), Last(p));
  }

  // ------------------------------------------------------------ positions of a walk

  /** A walk is between the slots of a node or at a key of a leaf. */
  datatype Pos = InNode(p: Path, i: int) | InLeaf(n: Leaf, j: nat)

  ghost predicate PosOk(s: State, pos: Pos) {
    match pos
    case InNode(p, i) => p in s.slots && 0 <= i <= 256 && Boundary(s, p, i)
    case InLeaf(n, j) => n in s.leaf && j < |s.leaf[n].items|
  }

  /** No leaf's block lies on both sides of point i. */
  ghost predicate Boundary(s: State, p: Path, i: int) {
    forall n | n in s.leaf && s.leaf[n].at == p && s.leaf[n].typ <= 8 ::
      i <= s.leaf[n].path || s.leaf[n].path + Width(s.leaf[n].typ) <= i
  }

  /** The stored keys still to come. */
  ghost predicate Ahead(s: State, pos: Pos, k: Key)
    requires PosOk(s, pos)
  {
    HasKey(s, k) &&
    match pos
    case InNode(p, i) => !Less(Enc(k), Edge(p, i))
    case InLeaf(n, j) => Less(Enc(s.leaf[n].items[j].key), Enc(k))
  }

  /** The stored keys already passed. */
  ghost predicate Behind(s: State, pos: Pos, k: Key)
    requires PosOk(s, pos)
  {
    HasKey(s, k) &&
    match pos
    case InNode(p, i) => Less(Enc(k), Edge(p, i))
    case InLeaf(n, j) => Less(Enc(k), Enc(s.leaf[n].items[j].key))
  }

  ghost predicate SameAhead(s: State, a: Pos, b: Pos)
    requires PosOk(s, a) && PosOk(s, b)
  {
    forall k :: Ahead(s, a, k) <==> Ahead(s, b, k)
  }

  ghost predicate SameBehind(s: State, a: Pos, b: Pos)
    requires PosOk(s, a) && PosOk(s, b)
  {
    forall k :: Behind(s, a, k) <==> Behind(s, b, k)
  }

  function KeyAt(s: State, n: Leaf, j: nat): Key
    requires n in s.leaf && j < |s.leaf[n].items|
  {
    s.leaf[n].items[j].key
  }

  /** Key j of leaf n is the first of the keys ahead. */
  ghost predicate IsLeast(s: State, pos: Pos, n: Leaf, j: nat)
    requires PosOk(s, pos)
  {
    && n in s.leaf && j < |s.leaf[n].items| && Ahead(s, pos, KeyAt(s, n, j))
    && forall k | Ahead(s, pos, k) :: k == KeyAt(s, n, j) || Less(Enc(KeyAt(s, n, j)), Enc(k))
  }

  /** Key j of leaf n is the last of the keys passed. */
  ghost predicate IsGreatest(s: State, pos: Pos, n: Leaf, j: nat)
    requires PosOk(s, pos)
  {
    && n in s.leaf && j < |s.leaf[n].items| && Behind(s, pos, KeyAt(s, n, j))
    && forall k | Behind(s, pos, k) :: k == KeyAt(s, n, j) || Less(Enc(k), Enc(KeyAt(s, n, j)))
  }

  // ------------------------------------------------------------ single steps of a walk

  lemma OverSelf(s: State, p: Path, i: byte)
    requires Sound(s) && PosOk(s, InNode(p, i)) && RowAt(s, p, i) == Self
    ensures PosOk(s, InNode(p, i + 1)) && SameAhead(s, InNode(p, i), InNode(p, i + 1))
    ensures SameBehind(s, InNode(p, i), InNode(p, i + 1))
    ensures Less(Edge(p, i), Edge(p, i + 1))
  {
    SelfBoundary(s, p, i);
    forall k | HasKey(s, k) ensures Less(Enc(k), Edge(p, i)) <==> Less(Enc(k), Edge(p, i + 1)) {
      assert Wf(s);
      SkipSelf(s, k, p, i);
    }
    StepRight(p, i, i + 1);
  }

  lemma SelfBoundary(s: State, p: Path, i: byte)
    requires Sound(s) && p in s.slots && !RowAt(s, p, i).Hold?
    ensures Boundary(s, p, i + 1) && Boundary(s, p, i)
  {
    forall n | n in s.leaf && s.leaf[n].at == p && s.leaf[n].typ <= 8
      ensures !Covers(s.leaf[n], i)
    {
      assert Wf(s);
      assert Covers(s.leaf[n], i) ==> RowAt(s, p, i) == Hold(n);
    }
  }

  /** The same going back over a free slot. */
  lemma BackOverSelf(s: State, p: Path, i: byte)
    requires Sound(s) && p in s.slots && RowAt(s, p, i) == Self
    ensures PosOk(s, InNode(p, i)) && PosOk(s, InNode(p, i + 1)) && SameBehind(s, InNode(p, i), InNode(p, i + 1))
    ensures Less(Edge(p, i), Edge(p, i + 1))
  {
    SelfBoundary(s, p, i);
    OverSelf(s, p, i);
  }

  lemma OutOfNode(s: State, p: Path)
    requires Sound(s) && p in s.slots && p != []
    ensures PosOk(s, InNode(p, 256)) && PosOk(s, InNode(Front(p), Last(p) + 1))
    ensures SameAhead(s, InNode(p, 256), InNode(Front(p), Last(p) + 1))
    ensures PosOk(s, InNode(p, 0)) && PosOk(s, InNode(Front(p), Last(p)))
    ensures SameBehind(s, InNode(p, 0), InNode(Front(p), Last(p)))
  {
    NodeEdges(s, p);
    forall k | HasKey(s, k)
      ensures Less(Enc(k), Edge(p, 256)) <==> Less(Enc(k), Edge(Front(p), Last(p) + 1))
      ensures Less(Enc(k), Edge(p, 0)) <==> Less(Enc(k), Edge(Front(p), Last(p)))
    {
      assert Wf(s);
      HighEdge(s, k, p);
      LowEdge(s, k, p);
    }
  }

  lemma NodeEdges(s: State, p: Path)
    requires Sound(s) && p in s.slots
    ensures PosOk(s, InNode(p, 256)) && PosOk(s, InNode(p, 0))
    ensures p != [] ==> PosOk(s, InNode(Front(p), Last(p) + 1)) && PosOk(s, InNode(Front(p), Last(p)))
  {
    assert Wf(s);
    if p != [] {
      FrontLast(s, p);
      SelfBoundary(s, Front(p), Last(p));
    }
  }

  lemma IntoNode(s: State, p: Path, i: byte)
    requires Sound(s) && p in s.slots && Sub(p, i) in s.slots
    ensures PosOk(s, InNode(p, i)) && PosOk(s, InNode(Sub(p, i), 0)) && SameAhead(s, InNode(p, i), InNode(Sub(p, i), 0))
    ensures PosOk(s, InNode(p, i + 1)) && PosOk(s, InNode(Sub(p, i), 256))
    ensures SameBehind(s, InNode(p, i + 1), InNode(Sub(p, i), 256))
    ensures Less(Edge(p, i), Edge(Sub(p, i), 0)) && Less(Edge(Sub(p, i), 256), Edge(p, i + 1))
  {
    var q := Sub(p, i);
    assert Front(q) == p && Last(q) == i;
    NodeEdges(s, q);
    forall k | HasKey(s, k)
      ensures Less(Enc(k), Edge(q, 256)) <==> Less(Enc(k), Edge(p, i + 1))
      ensures Less(Enc(k), Edge(q, 0)) <==> Less(Enc(k), Edge(p, i))
    {
      assert Wf(s);
      HighEdge(s, k, q);
      LowEdge(s, k, q);
    }
    StepIn(p, i);
  }

  // ------------------------------------------------------------ arriving at and leaving a leaf

  lemma BlockEnds(s: State, n: Leaf)
    requires Sound(s) && n in s.leaf && s.leaf[n].items != []
    ensures s.leaf[n].typ <= 8 && s.leaf[n].path + Width(s.leaf[n].typ) <= 256
    ensures PosOk(s, InNode(s.leaf[n].at, s.leaf[n].path))
    ensures PosOk(s, InNode(s.leaf[n].at, s.leaf[n].path + Width(s.leaf[n].typ)))
    ensures Less(Edge(s.leaf[n].at, s.leaf[n].path), Edge(s.leaf[n].at, s.leaf[n].path + Width(s.leaf[n].typ)))
  {
    assert Wf(s);
    OthersOutside(s, n);
    assert Width(s.leaf[n].typ) >= 1;
    assert forall m | m in s.leaf && s.leaf[m].typ <= 8 :: Width(s.leaf[m].typ) >= 1;
    StepRight(s.leaf[n].at, s.leaf[n].path, s.leaf[n].path + Width(s.leaf[n].typ));
  }

  /** Where a stored key lies relative to leaf n. */
  lemma AroundLeaf(s: State, n: Leaf, k: Key)
    requires Sound(s) && n in s.leaf && s.leaf[n].typ <= 8 && HasKey(s, k)
    ensures !Absent(s.leaf[n].items, k)
      || Less(Enc(k), Edge(s.leaf[n].at, s.leaf[n].path))
      || !Less(Enc(k), Edge(s.leaf[n].at, s.leaf[n].path + Width(s.leaf[n].typ)))
  {
    assert Wf(s);
    LeafRange(s, k, n);
  }

  lemma InsideLeaf(s: State, n: Leaf, j: nat)
    requires Sound(s) && n in s.leaf && j < |s.leaf[n].items|
    ensures s.leaf[n].typ <= 8 && HasKey(s, KeyAt(s, n, j))
    ensures !Less(Enc(KeyAt(s, n, j)), Edge(s.leaf[n].at, s.leaf[n].path))
    ensures Less(Enc(KeyAt(s, n, j)), Edge(s.leaf[n].at, s.leaf[n].path + Width(s.leaf[n].typ)))
  {
    assert Wf(s);
    StoredAt(s, n, j);
    assert s.leaf[n].items[j] in s.leaf[n].items;
    LeafRange(s, KeyAt(s, n, j), n);
  }

  lemma PointOrder(a: seq<int>, c: seq<int>, b: seq<int>)
    requires Less(a, c) && !Less(b, c)
    ensures Less(a, b)
  {
    LessTotal(b, c);
    if Less(c, b) { LessTransitive(a, c, b); }
  }

  lemma SortedAt(s: State, n: Leaf, i: nat, j: nat)
    requires Sound(s) && n in s.leaf && i < j < |s.leaf[n].items|
    ensures Less(Enc(KeyAt(s, n, i)), Enc(KeyAt(s, n, j)))
  {
    assert Wf(s);
    assert ItemsFit(s.leaf[n]);
  }

  /** From the start of a leaf's block, its first key is next. */
  lemma FirstOfLeaf(s: State, n: Leaf)
    requires Sound(s) && n in s.leaf && s.leaf[n].items != [] && PosOk(s, InNode(s.leaf[n].at, s.leaf[n].path))
    ensures IsLeast(s, InNode(s.leaf[n].at, s.leaf[n].path), n, 0)
  {
    var r := s.leaf[n];
    InsideLeaf(s, n, 0);
    forall k | Ahead(s, InNode(r.at, r.path), k)
      ensures k == KeyAt(s, n, 0) || Less(Enc(KeyAt(s, n, 0)), Enc(k))
    {
      AroundLeaf(s, n, k);
      if Less(Enc(k), Edge(r.at, r.path + Width(r.typ))) {
        var x :| x in r.items && x.key == k;
        var j :| 0 <= j < |r.items| && r.items[j] == x;
        if j > 0 { SortedAt(s, n, 0, j); }
      } else {
        PointOrder(Enc(KeyAt(s, n, 0)), Edge(r.at, r.path + Width(r.typ)), Enc(k));
      }
    }
  }

  /** From the end of a leaf's block, its last key was last. */
  lemma LastOfLeaf(s: State, n: Leaf)
    requires Sound(s) && n in s.leaf && s.leaf[n].items != [] && s.leaf[n].typ <= 8
    requires PosOk(s, InNode(s.leaf[n].at, s.leaf[n].path + Width(s.leaf[n].typ)))
    ensures IsGreatest(s, InNode(s.leaf[n].at, s.leaf[n].path + Width(s.leaf[n].typ)), n, |s.leaf[n].items| - 1)
  {
    var r := s.leaf[n];
    var z := |r.items| - 1;
    InsideLeaf(s, n, z);
    forall k | Behind(s, InNode(r.at, r.path + Width(r.typ)), k)
      ensures k == KeyAt(s, n, z) || Less(Enc(k), Enc(KeyAt(s, n, z)))
    {
      AroundLeaf(s, n, k);
      if !Less(Enc(k), Edge(r.at, r.path)) {
        var x :| x in r.items && x.key == k;
        var j :| 0 <= j < |r.items| && r.items[j] == x;
        if j < z { SortedAt(s, n, j, z); }
      } else {
        PointOrder(Enc(k), Edge(r.at, r.path), Enc(KeyAt(s, n, z)));
      }
    }
  }

  /** Between two neighbouring keys of a leaf there is no stored key. */
  lemma NeighboursInLeaf(s: State, n: Leaf, j: nat)
    requires Sound(s) && n in s.leaf && j + 1 < |s.leaf[n].items|
    ensures IsLeast(s, InLeaf(n, j), n, j + 1) && IsGreatest(s, InLeaf(n, j + 1), n, j)
  {
    var a, b := KeyAt(s, n, j), KeyAt(s, n, j + 1);
    SortedAt(s, n, j, j + 1);
    InsideLeaf(s, n, j);
    InsideLeaf(s, n, j + 1);
    forall k | HasKey(s, k)
      ensures k == a || k == b || Less(Enc(k), Enc(a)) || Less(Enc(b), Enc(k))
    {
      SplitByLeaf(s, n, j, k);
    }
    forall k | Less(Enc(a), Enc(k)) ensures k != a && !Less(Enc(k), Enc(a)) { LessAsymmetric(Enc(a), Enc(k)); }
    forall k | Less(Enc(k), Enc(b)) ensures k != b && !Less(Enc(b), Enc(k)) { LessAsymmetric(Enc(k), Enc(b)); }
  }

  lemma LessAsymmetric(a: seq<int>, b: seq<int>)
    requires Less(a, b)
    ensures a != b && !Less(b, a)
  {
    LessIrreflexive(a);
    if Less(b, a) { LessTransitive(a, b, a); }
  }

  lemma SplitByLeaf(s: State, n: Leaf, j: nat, k: Key)
    requires Sound(s) && n in s.leaf && j + 1 < |s.leaf[n].items| && HasKey(s, k)
    ensures k == KeyAt(s, n, j) || k == KeyAt(s, n, j + 1) || Less(Enc(k), Enc(KeyAt(s, n, j)))
      || Less(Enc(KeyAt(s, n, j + 1)), Enc(k))
  {
    var r := s.leaf[n];
    InsideLeaf(s, n, j);
    InsideLeaf(s, n, j + 1);
    AroundLeaf(s, n, k);
    if Less(Enc(k), Edge(r.at, r.path)) {
      PointOrder(Enc(k), Edge(r.at, r.path), Enc(KeyAt(s, n, j)));
    } else if !Less(Enc(k), Edge(r.at, r.path + Width(r.typ))) {
      PointOrder(Enc(KeyAt(s, n, j + 1)), Edge(r.at, r.path + Width(r.typ)), Enc(k));
    } else {
      var x :| x in r.items && x.key == k;
      var i :| 0 <= i < |r.items| && r.items[i] == x;
      if i < j { SortedAt(s, n, i, j); } else if i > j + 1 { SortedAt(s, n, j + 1, i); }
    }
  }

  /** Past a leaf's last key the walk is at the end of its block; before its first key, at the start. */
  lemma LeaveLeaf(s: State, n: Leaf)
    requires Sound(s) && n in s.leaf && s.leaf[n].items != [] && s.leaf[n].typ <= 8
    requires PosOk(s, InNode(s.leaf[n].at, s.leaf[n].path))
    requires PosOk(s, InNode(s.leaf[n].at, s.leaf[n].path + Width(s.leaf[n].typ)))
    ensures SameAhead(s, InLeaf(n, |s.leaf[n].items| - 1), InNode(s.leaf[n].at, s.leaf[n].path + Width(s.leaf[n].typ)))
    ensures SameBehind(s, InLeaf(n, 0), InNode(s.leaf[n].at, s.leaf[n].path))
  {
    var r := s.leaf[n];
    var z := |r.items| - 1;
    LastOfLeaf(s, n);
    FirstOfLeaf(s, n);
    InsideLeaf(s, n, z);
    InsideLeaf(s, n, 0);
    forall k | HasKey(s, k)
      ensures Less(Enc(KeyAt(s, n, z)), Enc(k)) <==> !Less(Enc(k), Edge(r.at, r.path + Width(r.typ)))
      ensures Less(Enc(k), Enc(KeyAt(s, n, 0))) <==> Less(Enc(k), Edge(r.at, r.path))
    {
      EdgeOfLeaf(s, n, k);
    }
  }

  lemma EdgeOfLeaf(s: State, n: Leaf, k: Key)
    requires Sound(s) && n in s.leaf && s.leaf[n].items != [] && s.leaf[n].typ <= 8 && HasKey(s, k)
    requires PosOk(s, InNode(s.leaf[n].at, s.leaf[n].path))
    requires PosOk(s, InNode(s.leaf[n].at, s.leaf[n].path + Width(s.leaf[n].typ)))
    requires IsGreatest(s, InNode(s.leaf[n].at, s.leaf[n].path + Width(s.leaf[n].typ)), n, |s.leaf[n].items| - 1)
    requires IsLeast(s, InNode(s.leaf[n].at, s.leaf[n].path), n, 0)
    ensures Less(Enc(KeyAt(s, n, |s.leaf[n].items| - 1)), Enc(k)) <==>
      !Less(Enc(k), Edge(s.leaf[n].at, s.leaf[n].path + Width(s.leaf[n].typ)))
    ensures Less(Enc(k), Enc(KeyAt(s, n, 0))) <==> Less(Enc(k), Edge(s.leaf[n].at, s.leaf[n].path))
  {
    var r := s.leaf[n];
    var first, last := KeyAt(s, n, 0), KeyAt(s, n, |r.items| - 1);
    var from, to := Edge(r.at, r.path), Edge(r.at, r.path + Width(r.typ));
    if Less(Enc(k), to) {
      if k != last { LessAsymmetric(Enc(k), Enc(last)); } else { LessIrreflexive(Enc(k)); }
    } else {
      PointOrder(Enc(last), to, Enc(k));
    }
    if Less(Enc(k), from) {
      PointOrder(Enc(k), from, Enc(first));
    } else if k != first {
      LessAsymmetric(Enc(first), Enc(k));
    } else {
      LessIrreflexive(Enc(k));
    }
  }
}
