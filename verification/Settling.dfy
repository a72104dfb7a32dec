/** What a chain of merges leaves behind: every leaf it touched can go no further. */
module Settling {
  import opened Bytes
  import opened Blocks
  import opened Config
  import opened Nodes
  import opened Shape
  import opened ShapeOps
  import opened ShapeMoves
  import opened Heap
  import opened Splitting
  import opened Merging
  import opened Rest
  import opened Census

  /** merge_down on leaf n would end before it moves n to another node. */
  ghost predicate Settled(s: State, n: Leaf)
    requires n in s.leaf
    decreases if s.leaf[n].typ <= 8 then 8 - s.leaf[n].typ else 0
  {
    var r := s.leaf[n];
    && r.items != [] && r.typ <= 8
    && (|r.items| > SPLITBOUND / 3 || if r.typ == 0 then r.at == [] else Blocked(s, n))
  }

  /** What the sibling slot of n shows stops n, or leaves it with too many keys to go on. */
  ghost predicate Blocked(s: State, n: Leaf)
    requires n in s.leaf && 1 <= s.leaf[n].typ <= 8
    decreases 8 - s.leaf[n].typ, 0
  {
    var r := s.leaf[n];
    var i := Sibling(r.path, r.typ);
    && i < 256
    && match RowAt(s, r.at, i)
       case Down => true
       case Self => !SiblingFree(s, n)
       case Hold(m) =>
         && m in s.leaf
         && if s.leaf[m].typ == r.typ then |r.items| + |s.leaf[m].items| > SPLITBOUND / 3
            else r.typ < s.leaf[m].typ <= 8 && Settled(s, m)
  }

  /** No slot of a node that is still there has become free. */
  ghost predicate NothingFreed(s: State, u: State) {
    && u.slots.Keys <= s.slots.Keys
    && forall p, i: byte | p in u.slots && RowAt(s, p, i) != Self :: RowAt(u, p, i) != Self
  }

  /** From s to u, every leaf that is still there is as it was, or can go no further. */
  ghost predicate Calmed(s: State, u: State) {
    && NothingFreed(s, u)
    && forall m | m in u.leaf :: m in s.leaf && (u.leaf[m] == s.leaf[m] || Settled(u, m))
  }

  /** From s to u, no leaf but n has changed. */
  ghost predicate OnlyMoved(s: State, u: State, n: Leaf) {
    && NothingFreed(s, u)
    && forall m | m in u.leaf :: m in s.leaf && (m == n || u.leaf[m] == s.leaf[m])
  }

  // ------------------------------------------------------------ neighbours

  /** A leaf whose sibling slot shows a leaf that can go no further is stopped by it. */
  lemma StoppedBy(u: State, n: Leaf, x: Leaf)
    requires Sound(u) && n in u.leaf && 1 <= u.leaf[n].typ <= 8 && u.leaf[n].items != []
    requires Sibling(u.leaf[n].path, u.leaf[n].typ) < 256
    requires RowAt(u, u.leaf[n].at, Sibling(u.leaf[n].path, u.leaf[n].typ)) == Hold(x)
    requires x in u.leaf && Settled(u, x)
    ensures Settled(u, n)
  {
    assert Wf(u);
    SiblingLeaf(u, n, x);
    WfLeaf(u, n);
    WfLeaf(u, x);
    if u.leaf[x].typ == u.leaf[n].typ {
      SiblingTwice(u.leaf[n].path, u.leaf[n].typ);
      ShownAt(u, n);
    }
  }

  /** A leaf is shown at its own first slot. */
  lemma ShownAt(u: State, n: Leaf)
    requires Sound(u) && n in u.leaf
    ensures u.leaf[n].typ <= 8 && RowAt(u, u.leaf[n].at, u.leaf[n].path) == Hold(n)
  {
    WfLeaf(u, n);
    assert Wf(u);
    assert Covers(u.leaf[n], u.leaf[n].path);
  }

  /** A slot that shows leaf x in u, where x has not changed, showed it in s. */
  lemma ShownBefore(s: State, u: State, x: Leaf, p: Path, i: byte)
    requires Sound(s) && Sound(u) && x in u.leaf && x in s.leaf && u.leaf[x] == s.leaf[x]
    requires RowAt(u, p, i) == Hold(x) && p in u.slots
    ensures RowAt(s, p, i) == Hold(x)
  {
    assert Wf(s) && Wf(u);
    assert HeldBy(u, x, p, i);
    assert Covers(s.leaf[x], i);
  }

  lemma ShowsLeaf(u: State, p: Path, i: byte, x: Leaf)
    requires Sound(u) && p in u.slots && RowAt(u, p, i) == Hold(x)
    ensures x in u.leaf
  {
    assert Wf(u);
    assert HeldBy(u, x, p, i);
  }

  lemma PlaceExists(u: State, n: Leaf)
    requires Sound(u) && n in u.leaf && 1 <= u.leaf[n].typ
    ensures u.leaf[n].at in u.slots && u.leaf[n].typ <= 8 && Sibling(u.leaf[n].path, u.leaf[n].typ) < 256
  {
    WfLeaf(u, n);
    SiblingSlot(u.leaf[n]);
  }

  // ------------------------------------------------------------ what persists

  /** A leaf that could go no further, and was left alone, still cannot. */
  lemma {:induction false} StaysSettled(s: State, u: State, m: Leaf)
    requires Sound(s) && Sound(u) && Calmed(s, u) && m in u.leaf && m in s.leaf && u.leaf[m] == s.leaf[m]
    requires Settled(s, m)
    ensures Settled(u, m)
    decreases if s.leaf[m].typ <= 8 then 8 - s.leaf[m].typ else 0
  {
    var r := s.leaf[m];
    if |r.items| <= SPLITBOUND / 3 && r.typ > 0 {
      PlaceExists(u, m);
      var i: byte := Sibling(r.path, r.typ);
      match RowAt(u, r.at, i)
      case Down =>
      case Self => StillNotFree(s, u, m);
      case Hold(x) =>
        ShowsLeaf(u, r.at, i, x);
        if u.leaf[x] == s.leaf[x] {
          ShownBefore(s, u, x, r.at, i);
          if s.leaf[x].typ != r.typ { StaysSettled(s, u, x); }
        } else {
          StoppedBy(u, m, x);
        }
    }
  }

  lemma StillNotFree(s: State, u: State, m: Leaf)
    requires NothingFreed(s, u) && m in u.leaf && m in s.leaf && u.leaf[m] == s.leaf[m] && 1 <= s.leaf[m].typ <= 8
    requires s.leaf[m].at in u.slots && Sibling(s.leaf[m].path, s.leaf[m].typ) < 256
    requires RowAt(u, s.leaf[m].at, Sibling(s.leaf[m].path, s.leaf[m].typ)) == Self && Blocked(s, m)
    ensures !SiblingFree(u, m)
  {
    var i: byte := Sibling(s.leaf[m].path, s.leaf[m].typ);
    assert RowAt(s, s.leaf[m].at, i) == Self;
    var j: byte :| i <= j < i + Width(s.leaf[m].typ) && RowAt(s, s.leaf[m].at, j) != Self;
    assert RowAt(u, s.leaf[m].at, j) != Self;
  }

  lemma CalmedTwice(s: State, u: State, v: State)
    requires Sound(u) && Sound(v) && Calmed(s, u) && Calmed(u, v)
    ensures Calmed(s, v)
  {
    forall m | m in v.leaf ensures m in s.leaf && (v.leaf[m] == s.leaf[m] || Settled(v, m)) {
      if v.leaf[m] == u.leaf[m] && Settled(u, m) { StaysSettled(u, v, m); }
    }
  }

  lemma CalmedSame(s: State)
    ensures Calmed(s, s)
  {
  }

  /** A step that moves n alone, and then a chain after which n is gone or can go no further. */
  lemma MovedThenCalmed(s: State, u: State, v: State, n: Leaf)
    requires OnlyMoved(s, u, n) && Calmed(u, v) && (n in v.leaf ==> Settled(v, n))
    ensures Calmed(s, v)
  {
  }

  /** The detour into the narrower neighbour stops n as well. */
  lemma DetourSettles(s: State, u: State, n: Leaf, other: Leaf)
    requires Sound(s) && Sound(u) && Calmed(s, u) && n in s.leaf && 1 <= s.leaf[n].typ <= 8 && s.leaf[n].items != []
    requires Sibling(s.leaf[n].path, s.leaf[n].typ) < 256
    requires RowAt(s, s.leaf[n].at, Sibling(s.leaf[n].path, s.leaf[n].typ)) == Hold(other)
    requires other in u.leaf ==> Settled(u, other)
    ensures n in u.leaf ==> Settled(u, n)
  {
    if n in u.leaf && u.leaf[n] == s.leaf[n] {
      var r := s.leaf[n];
      PlaceExists(u, n);
      var i: byte := Sibling(r.path, r.typ);
      match RowAt(u, r.at, i)
      case Down =>
      case Self =>
      case Hold(x) =>
        ShowsLeaf(u, r.at, i, x);
        if x != other && u.leaf[x] == s.leaf[x] { ShownBefore(s, u, x, r.at, i); }
        StoppedBy(u, n, x);
    }
  }

  // ------------------------------------------------------------ the steps

  lemma GrowMovesOnly(s: State, n: Leaf)
    requires Placed(s, n) && 1 <= s.leaf[n].typ
    ensures OnlyMoved(s, Grow(s, n), n) && Grow(s, n).slots.Keys == s.slots.Keys
  {
    ParentAndSibling(s.leaf[n].path, s.leaf[n].typ);
  }

  lemma MergeMovesOnly(s: State, n: Leaf, m: Leaf, owner: seq<Leaf>)
    requires Placed(s, n) && Siblings(s, n, m)
    ensures OnlyMoved(s, Merge(s, n, m, owner), n)
  {
    ParentAndSibling(s.leaf[n].path, s.leaf[n].typ);
  }

  lemma LiftMovesOnly(s: State, n: Leaf)
    requires n in s.leaf && s.leaf[n].at != [] && s.leaf[n].typ == 0
    requires Front(s.leaf[n].at) in s.slots && |s.slots[Front(s.leaf[n].at)]| == 256
    ensures OnlyMoved(s, Lift(s, n), n)
  {
  }

  // ------------------------------------------------------------ tidy tries and settled leaves

  /** In a calm trie every leaf can go no further. */
  lemma {:induction false} CalmIsSettled(s: State, n: Leaf)
    requires Sound(s) && Calm(s) && n in s.leaf
    ensures Settled(s, n)
    decreases if s.leaf[n].typ <= 8 then 8 - s.leaf[n].typ else 0
  {
    var r := s.leaf[n];
    assert Seated(s, n, |r.items|, {});
    if |r.items| <= SPLITBOUND / 3 && r.typ > 0 && RowAt(s, r.at, Sibling(r.path, r.typ)).Hold? {
      var m := RowAt(s, r.at, Sibling(r.path, r.typ)).leaf;
      assert Wf(s);
      SiblingLeaf(s, n, m);
      WfLeaf(s, m);
      if s.leaf[m].typ != r.typ { CalmIsSettled(s, m); }
    }
  }

  /** What a chain of merges makes of a calm trie is calm. */
  lemma CalmKept(s: State, u: State)
    requires Sound(s) && Sound(u) && Calm(s) && Calmed(s, u)
    ensures Calm(u)
  {
    forall m | m in u.leaf ensures Seated(u, m, |u.leaf[m].items|, {}) {
      if u.leaf[m] == s.leaf[m] {
        CalmIsSettled(s, m);
        StaysSettled(s, u, m);
      }
      SettledIsSeated(u, m);
    }
  }

  lemma SettledIsSeated(s: State, n: Leaf)
    requires Sound(s) && n in s.leaf && Settled(s, n)
    ensures Seated(s, n, |s.leaf[n].items|, {})
  {
    if |s.leaf[n].items| <= SPLITBOUND / 3 && s.leaf[n].typ > 0 { assert Blocked(s, n); }
  }

  lemma BusyKept(s: State, u: State)
    requires Busy(s) && NothingFreed(s, u)
    ensures Busy(u)
  {
    forall p | p in u.slots && p != [] ensures Shows(u, p, 0, 256) {
      assert Shows(s, p, 0, 256);
      var i: byte :| RowAt(s, p, i) != Self;
      assert RowAt(u, p, i) != Self;
    }
  }

  // ------------------------------------------------------------ all leaves but one

  /** A step that moves n alone leaves the others where merge_down would leave them. */
  lemma AsideMoved(s: State, u: State, n: Leaf)
    requires Sound(s) && Sound(u) && Aside(s, n) && OnlyMoved(s, u, n)
    ensures Aside(u, n)
  {
    forall m | m in u.leaf && m != n ensures Seated(u, m, |u.leaf[m].items|, {n}) {
      assert Seated(s, m, |s.leaf[m].items|, {n});
      if |u.leaf[m].items| <= SPLITBOUND / 3 && u.leaf[m].typ > 0 { AsideStops(s, u, n, m); }
    }
  }

  lemma AsideStops(s: State, u: State, n: Leaf, m: Leaf)
    requires Sound(s) && Sound(u) && OnlyMoved(s, u, n) && m in u.leaf && m != n && 1 <= s.leaf[m].typ <= 8
    requires Stopped(s, m, |s.leaf[m].items|, {n})
    ensures Stopped(u, m, |u.leaf[m].items|, {n})
  {
    var r := s.leaf[m];
    PlaceExists(u, m);
    var i: byte := Sibling(r.path, r.typ);
    match RowAt(u, r.at, i)
    case Down =>
    case Self =>
      var j: byte :| i <= j < i + Width(r.typ) && RowAt(s, r.at, j) != Self;
      assert RowAt(u, r.at, j) != Self;
    case Hold(x) =>
      ShowsLeaf(u, r.at, i, x);
      if x != n { ShownBefore(s, u, x, r.at, i); }
  }

  /** Leaf x lies within the sibling block of n. */
  ghost predicate Opposite(s: State, n: Leaf, x: Leaf)
    requires n in s.leaf
  {
    && x in s.leaf && 1 <= s.leaf[n].typ < s.leaf[x].typ <= 8 && s.leaf[x].at == s.leaf[n].at
    && Sibling(s.leaf[n].path, s.leaf[n].typ) <= s.leaf[x].path
    && s.leaf[x].path + Width(s.leaf[x].typ) <= Sibling(s.leaf[n].path, s.leaf[n].typ) + Width(s.leaf[n].typ)
  }

  /** The leaves within the sibling block of n do not depend on n: they can go no further. */
  lemma {:induction false} OppositeIsSettled(s: State, n: Leaf, x: Leaf)
    requires Sound(s) && n in s.leaf && Aside(s, n) && Opposite(s, n, x)
    ensures Settled(s, x)
    decreases 8 - s.leaf[x].typ
  {
    assert Wf(s);
    var r, q := s.leaf[n], s.leaf[x];
    assert Seated(s, x, |q.items|, {n});
    if |q.items| <= SPLITBOUND / 3 && RowAt(s, q.at, Sibling(q.path, q.typ)).Hold? {
      var i: byte := Sibling(q.path, q.typ);
      var y := RowAt(s, q.at, i).leaf;
      SiblingLeaf(s, x, y);
      WfLeaf(s, y);
      Meets(s, x, y, i);
      OppositeBlock(r.path, r.typ, q.path, q.typ);
      OnlyHere(s, n);
      if s.leaf[y].typ != q.typ { OppositeIsSettled(s, n, y); }
    }
  }

  lemma OppositeBlock(a: nat, t: nat, b: nat, u: nat)
    requires 1 <= t < u <= 8 && Aligned(a, t) && Aligned(b, u)
    requires Sibling(a, t) <= b && b + Width(u) <= Sibling(a, t) + Width(t)
    ensures Sibling(a, t) <= Sibling(b, u) && Sibling(b, u) + Width(u) <= Sibling(a, t) + Width(t)
    ensures !InBlock(Sibling(b, u), a, t)
  {
    ParentAndSibling(a, t);
    ParentAndSibling(b, u);
    Nested(Sibling(a, t), t, Parent(b, u), u - 1, b);
  }

  lemma CalmIsAside(s: State, n: Leaf)
    requires Calm(s)
    ensures Aside(s, n)
  {
    forall m | m in s.leaf && m != n ensures Seated(s, m, |s.leaf[m].items|, {n}) {
      assert Seated(s, m, |s.leaf[m].items|, {});
    }
  }

  /** A leaf that loses a key leaves the others where merge_down would leave them. */
  lemma RemoveAside(s: State, n: Leaf, b: nat)
    requires Sound(s) && Calm(s) && n in s.leaf && b < |s.leaf[n].items| && Sound(RemoveItem(s, n, b))
    ensures OnlyMoved(s, RemoveItem(s, n, b), n) && Aside(RemoveItem(s, n, b), n)
  {
    CalmIsAside(s, n);
    assert RemoveItem(s, n, b).slots == s.slots;
    AsideMoved(s, RemoveItem(s, n, b), n);
  }

  /** When the empty leaf n leaves its slots to its sibling m, the others stay where they are. */
  lemma AbsorbAside(s: State, m: Leaf, n: Leaf)
    requires Sound(s) && Aside(s, n) && Placed(s, m) && Siblings(s, m, n)
    ensures Aside(Merge(s, m, n, s.owner), m) && NothingFreed(s, Merge(s, m, n, s.owner))
  {
    var u := Merge(s, m, n, s.owner);
    AbsorbRows(s, m, n);
    forall l | l in u.leaf && l != m ensures Seated(u, l, |u.leaf[l].items|, {m}) {
      assert Seated(s, l, |s.leaf[l].items|, {n});
      if |u.leaf[l].items| <= SPLITBOUND / 3 && u.leaf[l].typ > 0 {
        var r := s.leaf[l];
        var i: byte := Sibling(r.path, r.typ);
        if RowAt(s, r.at, i) == Self {
          var j: byte :| i <= j < i + Width(r.typ) && RowAt(s, r.at, j) != Self;
          assert RowAt(u, r.at, j) != Self;
        }
      }
    }
  }

  lemma AbsorbRows(s: State, m: Leaf, n: Leaf)
    requires Sound(s) && Placed(s, m) && Siblings(s, m, n)
    ensures var u := Merge(s, m, n, s.owner);
      && u.slots.Keys == s.slots.Keys && u.leaf.Keys == s.leaf.Keys - {n}
      && (forall l | l in u.leaf && l != m :: u.leaf[l] == s.leaf[l])
      && forall p, i: byte :: RowAt(u, p, i) == if RowAt(s, p, i) == Hold(n) then Hold(m) else RowAt(s, p, i)
  {
    assert Wf(s);
    var r := s.leaf[m];
    ParentAndSibling(r.path, r.typ);
    OnlyHere(s, n);
    OnlyHere(s, m);
  }

  // ------------------------------------------------------------ the outcome of a chain

  /** What merge_down on n does: no leaf or node is new, the total weight does not grow, and a child of the root goes
      only with few keys. If n has keys, every leaf is then as it was or can go no further, n included; n is still there
      if the other leaves were where merge_down would leave them. A leaf that could go no further deletes none that is
      wider, and one with many keys does nothing. */
  ghost predicate Course(s: State, u: State, n: Leaf)
    requires n in s.leaf
  {
    && u.leaf.Keys <= s.leaf.Keys && Potential(u.leaf) <= Potential(s.leaf) && Shed(s, u)
    && (s.leaf[n].items != [] ==>
          Calmed(s, u) && (n in u.leaf ==> Settled(u, n)) && (Aside(s, n) || Settled(s, n) ==> n in u.leaf))
    && (Settled(s, n) ==> forall x | x in s.leaf && s.leaf[x].typ < s.leaf[n].typ :: x in u.leaf)
    && (|s.leaf[n].items| > SPLITBOUND / 3 ==> u == s)
  }

  /** What it does if n has no keys: its sibling takes over and goes on, or n alone is gone. */
  ghost predicate Emptied(s: State, u: State, n: Leaf)
    requires n in s.leaf
  {
    if FacesSibling(s, n) then
      var m := RowAt(s, s.leaf[n].at, Sibling(s.leaf[n].path, s.leaf[n].typ)).leaf;
      Placed(s, m) && Siblings(s, m, n) && Course(Merge(s, m, n, s.owner), u, m)
    else s.leaf[n].typ != 0 || s.leaf[n].at == [] ==> Without(s, u, n)
  }

  ghost predicate Outcome(s: State, u: State, n: Leaf)
    requires n in s.leaf
  {
    Course(s, u, n) && (s.leaf[n].items == [] ==> Emptied(s, u, n))
  }

  /** All leaves but n are where merge_down would leave them, or n itself can go no further; so n will not be deleted
      behind the back of a call. */
  ghost predicate Tame(s: State, n: Leaf)
    requires n in s.leaf
  {
    Settled(s, n) || (Aside(s, n) && (s.leaf[n].items == [] ==> s.leaf[n].typ != 0 || s.leaf[n].at == []))
  }

  lemma TameMoved(s: State, u: State, n: Leaf)
    requires Sound(s) && Sound(u) && n in s.leaf && n in u.leaf && OnlyMoved(s, u, n) && u.leaf[n].items != []
    requires Tame(s, n) && (Settled(s, n) ==> Settled(u, n))
    ensures Tame(u, n)
  {
    if !Settled(s, n) { AsideMoved(s, u, n); }
  }

  lemma TameStays(s: State, u: State, n: Leaf)
    requires n in s.leaf && Tame(s, n) && s.leaf[n].items != [] && Outcome(s, u, n)
    ensures n in u.leaf
  {
  }

  lemma AbsorbTame(s: State, m: Leaf, n: Leaf)
    requires Sound(s) && n in s.leaf && Tame(s, n) && !Settled(s, n) && Placed(s, n) && Siblings(s, n, m)
    requires s.leaf[m].items != []
    ensures Placed(s, m) && Siblings(s, m, n) && m in Merge(s, m, n, s.owner).leaf && Tame(Merge(s, m, n, s.owner), m)
  {
    SiblingOrder(s, n, m);
    AbsorbAside(s, m, n);
    InConcat(s.leaf[m].items, s.leaf[n].items);
  }

  /** A leaf of a tidy trie may lose a key. */
  lemma RemoveTame(s: State, n: Leaf, b: nat)
    requires Sound(s) && Tidy(s) && n in s.leaf && b < |s.leaf[n].items| && Sound(RemoveItem(s, n, b))
    ensures n in RemoveItem(s, n, b).leaf && Tame(RemoveItem(s, n, b), n) && RemoveItem(s, n, b).slots == s.slots
  {
    BoundsFit();
    assert Seated(s, n, |s.leaf[n].items|, {});
    RemoveAside(s, n, b);
  }

  lemma EmptyIsNotSettled(s: State, n: Leaf)
    requires n in s.leaf && s.leaf[n].items == []
    ensures !Settled(s, n)
  {
  }

  /** A small leaf that covers a node below the root can go further. */
  lemma LowIsNotSettled(s: State, n: Leaf)
    requires n in s.leaf && s.leaf[n].typ == 0 && s.leaf[n].at != [] && |s.leaf[n].items| <= SPLITBOUND / 3
    ensures !Settled(s, n)
  {
  }

  lemma OutcomeSheds(s: State, u: State, n: Leaf)
    requires n in s.leaf && Outcome(s, u, n)
    ensures Shed(s, u) && u.leaf.Keys <= s.leaf.Keys && Potential(u.leaf) <= Potential(s.leaf)
  {
  }

  lemma OutcomeSettles(s: State, u: State, n: Leaf)
    requires n in s.leaf && Outcome(s, u, n) && s.leaf[n].items != [] && n in u.leaf
    ensures Settled(u, n)
  {
  }

  lemma FacesNoSibling(s: State, n: Leaf, v: Slot)
    requires n in s.leaf && 1 <= s.leaf[n].typ <= 8 && Faces(s, n, v)
    requires v.Hold? ==> v.leaf in s.leaf && s.leaf[v.leaf].typ != s.leaf[n].typ
    ensures !FacesSibling(s, n)
  {
  }

  lemma SpiltAfter(s: State, u: State, v: State, n: Leaf)
    requires Shed(s, u) && Items(s) == Items(u) && n in u.leaf && Outcome(u, v, n)
    ensures Shed(s, v) && (Spilt(s, v) <==> Spilt(s, u) || Spilt(u, v))
  {
    ShedTwice(s, u, v);
  }

  lemma OutcomeOfNothing(s: State, n: Leaf)
    requires n in s.leaf && Settled(s, n)
    ensures Outcome(s, s, n)
  {
    CalmedSame(s);
    SameNodes(s, s);
  }

  /** n alone is gone. */
  lemma OutcomeOfDrop(s: State, u: State, n: Leaf)
    requires Placed(s, n) && s.leaf[n].items == [] && !FacesSibling(s, n) && u == Drop(s, n)
    requires Potential(u.leaf) <= Potential(s.leaf)
    ensures Outcome(s, u, n)
  {
    SameNodes(s, u);
  }

  /** The empty leaf covered a node below the root. */
  lemma OutcomeOfCover(s: State, u: State, n: Leaf)
    requires n in s.leaf && s.leaf[n].items == [] && s.leaf[n].typ == 0 && s.leaf[n].at != []
    requires u.leaf.Keys <= s.leaf.Keys && Potential(u.leaf) <= Potential(s.leaf) && Shed(s, u)
    ensures Outcome(s, u, n)
  {
  }

  lemma FacesItsSibling(s: State, n: Leaf, m: Leaf)
    requires Sound(s) && Siblings(s, m, n) && Placed(s, m)
    ensures FacesSibling(s, n) && RowAt(s, s.leaf[n].at, Sibling(s.leaf[n].path, s.leaf[n].typ)) == Hold(m)
  {
    assert Wf(s);
    SiblingTwice(s.leaf[m].path, s.leaf[m].typ);
    assert Covers(s.leaf[m], s.leaf[m].path);
  }

  /** The sibling m of the empty leaf n has taken over and gone on. */
  lemma OutcomeOfAbsorb(s: State, u: State, n: Leaf, m: Leaf)
    requires Sound(s) && s.leaf.Keys >= {n, m} && s.leaf[n].items == [] && Siblings(s, m, n) && Placed(s, m)
    requires Placed(s, n)
    requires Outcome(Merge(s, m, n, s.owner), u, m) && Items(s) == Items(Merge(s, m, n, s.owner))
    requires Potential(Merge(s, m, n, s.owner).leaf) <= Potential(s.leaf)
    ensures Outcome(s, u, n)
  {
    hide Merge, Calmed, FacesSibling, Shed;
    AbsorbRows(s, m, n);
    FacesItsSibling(s, n, m);
    SameNodes(s, Merge(s, m, n, s.owner));
    ShedTwice(s, Merge(s, m, n, s.owner), u);
  }

  /** A step that moved n, which could go further, and what came after. */
  lemma OutcomeAfterMove(s: State, u: State, v: State, n: Leaf)
    requires Sound(s) && Sound(u) && n in s.leaf && n in u.leaf && u.leaf[n].items != [] && u.leaf.Keys <= s.leaf.Keys
    requires 0 < |s.leaf[n].items| <= SPLITBOUND / 3 && !Settled(s, n) && Shed(s, u) && Items(s) == Items(u)
    requires OnlyMoved(s, u, n) && Potential(u.leaf) < Potential(s.leaf) && Outcome(u, v, n)
    ensures Outcome(s, v, n) && Potential(v.leaf) < Potential(s.leaf)
  {
    MovedThenCalmed(s, u, v, n);
    ShedTwice(s, u, v);
    if Aside(s, n) { AsideMoved(s, u, n); }
  }

  /** The same when n took over its sibling, settled or not. */
  lemma OutcomeAfterMerge(s: State, u: State, v: State, n: Leaf, m: Leaf)
    requires Sound(s) && Sound(u) && n in s.leaf && n in u.leaf && u.leaf[n].items != []
    requires u.leaf.Keys == s.leaf.Keys - {m}
    requires m in s.leaf && s.leaf[m].typ == s.leaf[n].typ
    requires 0 < |s.leaf[n].items| <= SPLITBOUND / 3 && u.slots.Keys == s.slots.Keys && Items(s) == Items(u)
    requires Settled(s, n) ==> |u.leaf[n].items| > SPLITBOUND / 3
    requires OnlyMoved(s, u, n) && Potential(u.leaf) < Potential(s.leaf) && Outcome(u, v, n)
    ensures Outcome(s, v, n) && Potential(v.leaf) < Potential(s.leaf)
  {
    MovedThenCalmed(s, u, v, n);
    SameNodes(s, u);
    ShedTwice(s, u, v);
    if Aside(s, n) { AsideMoved(s, u, n); }
  }

  lemma OutcomeTwice(s: State, u: State, v: State, n: Leaf)
    requires n in s.leaf && n in u.leaf && u.leaf[n].items != [] && 0 < |s.leaf[n].items| <= SPLITBOUND / 3
    requires s.leaf[n].typ == 0 && Items(s) == Items(u)
    requires Sound(u) && Sound(v) && Outcome(s, u, n) && Outcome(u, v, n)
    ensures Outcome(s, v, n)
  {
    CalmedTwice(s, u, v);
    ShedTwice(s, u, v);
  }

  lemma OutcomeOfDetour(s: State, u: State, n: Leaf, other: Leaf)
    requires Sound(s) && Sound(u) && n in s.leaf && other in s.leaf && 1 <= s.leaf[n].typ < s.leaf[other].typ <= 8
    requires 0 < |s.leaf[n].items| <= SPLITBOUND / 3 && s.leaf[other].items != []
    requires Faces(s, n, Hold(other)) && Outcome(s, u, other)
    ensures Outcome(s, u, n)
  {
    DetourSettles(s, u, n, other);
    if Settled(s, n) || Aside(s, n) { DetourIsSettled(s, n, other); }
  }

  /** If n is settled, or all leaves but n, then so is the narrower leaf it faces. */
  lemma DetourIsSettled(s: State, n: Leaf, other: Leaf)
    requires Sound(s) && n in s.leaf && other in s.leaf && 1 <= s.leaf[n].typ < s.leaf[other].typ <= 8
    requires |s.leaf[n].items| <= SPLITBOUND / 3 && Faces(s, n, Hold(other))
    requires Settled(s, n) || Aside(s, n)
    ensures Settled(s, other)
  {
    assert Wf(s);
    var i: byte := Sibling(s.leaf[n].path, s.leaf[n].typ);
    WfLeaf(s, n);
    SiblingLeaf(s, n, other);
    assert HeldBy(s, other, s.leaf[n].at, i);
    ParentAndSibling(s.leaf[n].path, s.leaf[n].typ);
    Meets(s, n, other, i);
    if Settled(s, n) { SettledNeighbour(s, n, other); } else { OppositeIsSettled(s, n, other); }
  }

  /** What is tidy stays so when a key is erased. */
  lemma EraseRests(s: State, n: Leaf, b: nat, u: State)
    requires Sound(s) && Tidy(s) && n in s.leaf && b < |s.leaf[n].items| && Sound(RemoveItem(s, n, b)) && Sound(u)
    requires Outcome(RemoveItem(s, n, b), u, n)
    ensures Tidy(u)
  {
    var s1 := RemoveItem(s, n, b);
    RemoveAside(s, n, b);
    assert Seated(s, n, |s.leaf[n].items|, {});
    if s1.leaf[n].items != [] {
      MovedThenCalmed(s, s1, u, n);
      CalmKept(s, u);
      BusyKept(s, u);
    } else if FacesSibling(s1, n) {
      EraseAbsorbs(s, n, b, u);
    } else {
      BoundsFit();
      SameFaces(s, s1, n);
      assert Without(s, u, n);
      WithoutRests(s, u, n);
    }
  }

  lemma SameFaces(s: State, u: State, n: Leaf)
    requires n in s.leaf && n in u.leaf && u.slots == s.slots && u.leaf.Keys == s.leaf.Keys
    requires SamePlace(s.leaf[n], u.leaf[n])
    requires forall m | m in s.leaf && m != n :: u.leaf[m] == s.leaf[m]
    ensures FacesSibling(s, n) == FacesSibling(u, n)
  {
    assert forall p, i: byte :: RowAt(s, p, i) == RowAt(u, p, i);
  }

  lemma EraseAbsorbs(s: State, n: Leaf, b: nat, u: State)
    requires Sound(s) && Tidy(s) && n in s.leaf && b < |s.leaf[n].items| && Sound(RemoveItem(s, n, b)) && Sound(u)
    requires Outcome(RemoveItem(s, n, b), u, n) && RemoveItem(s, n, b).leaf[n].items == []
    requires FacesSibling(RemoveItem(s, n, b), n)
    ensures Tidy(u)
  {
    var s1 := RemoveItem(s, n, b);
    RemoveAside(s, n, b);
    var m := RowAt(s1, s1.leaf[n].at, Sibling(s1.leaf[n].path, s1.leaf[n].typ)).leaf;
    var s2 := Merge(s1, m, n, s1.owner);
    AbsorbAside(s1, m, n);
    AbsorbRows(s1, m, n);
    assert Seated(s, m, |s.leaf[m].items|, {});
    assert s1.leaf[m].items == s.leaf[m].items != [];
    assert s2.leaf[m].items == MergedItems(s1, m, n);
    assert Calmed(s, u);
    CalmKept(s, u);
    BusyKept(s, u);
  }

  // ------------------------------------------------------------ when a call ends at once

  lemma ManySettle(s: State, n: Leaf)
    requires Sound(s) && n in s.leaf && |s.leaf[n].items| > SPLITBOUND / 3
    ensures Settled(s, n)
  {
    TypeInRange(s, n);
  }

  lemma RootSettles(s: State, n: Leaf)
    requires n in s.leaf && s.leaf[n].typ == 0 && s.leaf[n].at == [] && s.leaf[n].items != []
    ensures Settled(s, n)
  {
  }

  /** What the sibling slot shows. */
  ghost predicate Faces(s: State, n: Leaf, v: Slot)
    requires n in s.leaf && 1 <= s.leaf[n].typ <= 8
  {
    Sibling(s.leaf[n].path, s.leaf[n].typ) < 256 && RowAt(s, s.leaf[n].at, Sibling(s.leaf[n].path, s.leaf[n].typ)) == v
  }

  lemma NodeSettles(s: State, n: Leaf)
    requires n in s.leaf && 1 <= s.leaf[n].typ <= 8 && s.leaf[n].items != [] && Faces(s, n, Down)
    ensures Settled(s, n)
  {
  }

  lemma TakenSettles(s: State, n: Leaf)
    requires n in s.leaf && 1 <= s.leaf[n].typ <= 8 && s.leaf[n].items != [] && Faces(s, n, Self) && !SiblingFree(s, n)
    ensures Settled(s, n)
  {
  }

  lemma FullNeighbourSettles(s: State, n: Leaf, m: Leaf)
    requires Sound(s) && n in s.leaf && m in s.leaf && 1 <= s.leaf[n].typ <= s.leaf[m].typ <= 8 && s.leaf[n].items != []
    requires Faces(s, n, Hold(m))
    requires if s.leaf[m].typ == s.leaf[n].typ then |s.leaf[n].items| + |s.leaf[m].items| >= SPLITBOUND
             else |s.leaf[m].items| > SPLITBOUND / 3
    ensures Settled(s, n)
  {
    BoundsFit();
  }

  // ------------------------------------------------------------ what a settled leaf's call does

  lemma SettledIsNotFree(s: State, n: Leaf)
    requires Sound(s) && n in s.leaf && 1 <= s.leaf[n].typ <= 8 && |s.leaf[n].items| <= SPLITBOUND / 3
    requires SiblingFree(s, n)
    ensures !Settled(s, n)
  {
    PlaceExists(s, n);
    WidthPositive(s.leaf[n].typ);
  }

  lemma WidthPositive(t: nat)
    requires t <= 8
    ensures Width(t) > 0
  {
  }

  lemma SettledNeighbour(s: State, n: Leaf, m: Leaf)
    requires n in s.leaf && 1 <= s.leaf[n].typ <= 8 && |s.leaf[n].items| <= SPLITBOUND / 3 && Settled(s, n)
    requires Faces(s, n, Hold(m))
    ensures m in s.leaf && s.leaf[n].items != []
    ensures s.leaf[m].typ == s.leaf[n].typ ==> |s.leaf[n].items| + |s.leaf[m].items| > SPLITBOUND / 3
    ensures s.leaf[m].typ != s.leaf[n].typ ==> Settled(s, m)
  {
  }
}
