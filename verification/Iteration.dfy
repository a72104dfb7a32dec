/** Iterators: `++` and `--` over the stored keys. */
module Iteration {
  import opened Bytes
  import opened Blocks
  import opened Config
  import opened Nodes
  import opened Shape
  import opened ShapeMoves
  import opened Heap
  import opened Search
  import opened Merging
  import opened Order
  import opened Rest
  import opened Memory
  import opened Trie
  import opened StableSet
  import opened Forest
  import Runs

  /** The node pointer means something in the trie. */
  ghost predicate Pointing(t: Trie, node: Child, index: int)
    reads t, t.heap, t.Repr
  {
    t.Valid() &&
    match node
    case Null => false
    case FwdChild(f) => f.prefix in t.at && t.at[f.prefix] == f && -1 <= index <= 256
    case LeafChild(n) => n in t.s.leaf && 0 <= index < |t.s.leaf[n].items|
  }

  /** The position before a step forward; before the first slot counts as at it. */
  ghost function Ahead0(node: Child, index: int): Pos
    requires node != Null && (node.LeafChild? ==> index >= 0)
  {
    match node
    case FwdChild(f) => InNode(f.prefix, if index < 0 then 0 else index)
    case LeafChild(n) => InLeaf(n, index)
  }

  /** The position before a step backward: slots up to `index` are still to be visited. */
  ghost function Behind0(node: Child, index: int): Pos
    requires node != Null && (node.LeafChild? ==> index >= 0)
  {
    match node
    case FwdChild(f) => InNode(f.prefix, if index > 255 then 256 else index + 1)
    case LeafChild(n) => InLeaf(n, index)
  }

  /** The first slot from `from` on that is taken; 256 if there is none. */
  method ScanForward(t: Trie, f: Fwd, ghost p: Path, from: nat) returns (i: nat)
    requires t.Valid() && p in t.at && t.at[p] == f && PosOk(t.s, InNode(p, from))
    ensures from <= i <= 256 && PosOk(t.s, InNode(p, i)) && SameAhead(t.s, InNode(p, from), InNode(p, i))
    ensures i > from ==> Less(Edge(p, from), Edge(p, i))
    ensures f.children.Length == 256 && (i < 256 ==> f.children[i] != FwdChild(f))
  {
    t.AboutNode(p);
    i := from;
    while i <= 255 && f.children[i] == FwdChild(f)
      invariant from <= i <= 256 && PosOk(t.s, InNode(p, i)) && SameAhead(t.s, InNode(p, from), InNode(p, i))
      invariant i > from ==> Less(Edge(p, from), Edge(p, i))
    {
      FreeSlot(t, p, i);
      OverSelf(t.s, p, i);
      if i > from { LessTransitive(Edge(p, from), Edge(p, i), Edge(p, i + 1)); }
      i := i + 1;
    }
  }

  /** The last slot up to `from` that is taken; -1 if there is none. */
  method ScanBackward(t: Trie, f: Fwd, ghost p: Path, from: int) returns (i: int)
    requires t.Valid() && p in t.at && t.at[p] == f && -1 <= from <= 255 && PosOk(t.s, InNode(p, from + 1))
    ensures -1 <= i <= from && PosOk(t.s, InNode(p, i + 1)) && SameBehind(t.s, InNode(p, from + 1), InNode(p, i + 1))
    ensures i < from ==> Less(Edge(p, i + 1), Edge(p, from + 1))
    ensures f.children.Length == 256 && (i >= 0 ==> f.children[i] != FwdChild(f))
  {
    t.AboutNode(p);
    i := from;
    while i >= 0 && f.children[i] == FwdChild(f)
      invariant -1 <= i <= from && PosOk(t.s, InNode(p, i + 1))
      invariant SameBehind(t.s, InNode(p, from + 1), InNode(p, i + 1))
      invariant i < from ==> Less(Edge(p, i + 1), Edge(p, from + 1))
    {
      FreeSlot(t, p, i);
      BackOverSelf(t.s, p, i);
      if i < from { LessTransitive(Edge(p, i), Edge(p, i + 1), Edge(p, from + 1)); }
      i := i - 1;
    }
  }

  lemma FreeSlot(t: Trie, p: Path, i: byte)
    requires t.Valid() && p in t.at && t.at[p].children.Length == 256 && t.at[p].children[i] == FwdChild(t.at[p])
    ensures RowAt(t.s, p, i) == Self
  {
    t.SelfMeansFree(p, i, i as int + 1);
  }

  /** The last slot that holds c. */
  method LastSlotOf(f: Fwd, c: Child, ghost at: byte) returns (i: byte)
    requires f.children.Length == 256 && f.children[at] == c
    ensures f.children[i] == c && forall j: byte | i < j :: f.children[j] != c
  {
    i := 255;
    while f.children[i] != c
      invariant at <= i && forall j: byte | i < j :: f.children[j] != c
      decreases i
    {
      i := i - 1;
    }
  }

  /** The first slot that holds c. */
  method FirstSlotOf(f: Fwd, c: Child, ghost at: byte) returns (i: byte)
    requires f.children.Length == 256 && f.children[at] == c
    ensures f.children[i] == c && forall j: byte | j < i :: f.children[j] != c
  {
    i := 0;
    while f.children[i] != c
      invariant i <= at && forall j: byte | j < i :: f.children[j] != c
      decreases at - i
    {
      i := i + 1;
    }
  }

  // ------------------------------------------------------------ one move

  /** A point of the walk that every move changes in the direction of the walk. */
  ghost function Front0(s: State, pos: Pos): seq<int>
    requires PosOk(s, pos)
  {
    match pos
    case InNode(p, i) => Edge(p, i)
    case InLeaf(n, j) => Edge(s.leaf[n].at, s.leaf[n].path)
  }

  ghost function Rear0(s: State, pos: Pos): seq<int>
    requires PosOk(s, pos)
  {
    match pos
    case InNode(p, i) => Edge(p, i)
    case InLeaf(n, j) => if s.leaf[n].typ <= 8 then Edge(s.leaf[n].at, s.leaf[n].path + Width(s.leaf[n].typ)) else []
  }

  /** The iterator is at the first key ahead of pos, or at the end because there is none. */
  ghost predicate AtNext(t: Trie, pos: Pos, node: Child, index: int)
    reads t, t.heap, t.Repr
    requires PosOk(t.s, pos)
  {
    if node.LeafChild? then index >= 0 && IsLeast(t.s, pos, node.leaf, index)
    else node == FwdChild(t.root) && index == 256 && forall k :: !Ahead(t.s, pos, k)
  }

  ghost predicate AtPrevious(t: Trie, pos: Pos, node: Child, index: int)
    reads t, t.heap, t.Repr
    requires PosOk(t.s, pos)
  {
    if node.LeafChild? then index >= 0 && IsGreatest(t.s, pos, node.leaf, index)
    else node == FwdChild(t.root) && index == -1 && forall k :: !Behind(t.s, pos, k)
  }

  /** Still in a node, with the same keys ahead, but further on. */
  ghost predicate MovedOn(t: Trie, pos: Pos, node: Child, index: int)
    reads t, t.heap, t.Repr
    requires PosOk(t.s, pos)
  {
    && node.FwdChild? && index >= 0 && PosOk(t.s, Ahead0(node, index))
    && SameAhead(t.s, pos, Ahead0(node, index)) && Less(Front0(t.s, pos), Front0(t.s, Ahead0(node, index)))
  }

  /** Still in a node, with the same keys behind, but further back. */
  ghost predicate MovedBack(t: Trie, pos: Pos, node: Child, index: int)
    reads t, t.heap, t.Repr
    requires PosOk(t.s, pos)
  {
    && node.FwdChild? && index <= 255 && PosOk(t.s, Behind0(node, index))
    && SameBehind(t.s, pos, Behind0(node, index)) && Less(Rear0(t.s, Behind0(node, index)), Rear0(t.s, pos))
  }

  lemma LeafFromSlot(t: Trie, p: Path, i: byte, n: Leaf)
    requires t.Valid() && p in t.at && t.at[p].children.Length == 256 && t.at[p].children[i] == LeafChild(n)
    ensures n in t.s.leaf && t.s.leaf[n].items != [] && t.s.leaf[n].at == p && Covers(t.s.leaf[n], i)
  {
    t.AboutNode(p);
    assert SlotOk(t.at[p].children[i], t.s.slots[p][i], p, i, t.at);
    t.LeafInSlot(p, n);
    HeldExactly(t.s, n);
  }

  lemma NodeFromSlot(t: Trie, p: Path, i: byte, g: Fwd)
    requires t.Valid() && p in t.at && t.at[p].children.Length == 256 && t.at[p].children[i] == FwdChild(g)
    requires g != t.at[p]
    ensures Sub(p, i) in t.at && g == t.at[Sub(p, i)] && g.prefix == Sub(p, i) && Sub(p, i) in t.s.slots
    ensures p in t.s.slots
  {
    t.AboutNode(p);
    assert SlotOk(t.at[p].children[i], t.s.slots[p][i], p, i, t.at);
    t.AboutNode(Sub(p, i));
  }

  lemma NoneBeyond(s: State)
    requires Sound(s) && PosOk(s, InNode([], 256)) && PosOk(s, InNode([], 0))
    ensures forall k :: !Ahead(s, InNode([], 256), k) && !Behind(s, InNode([], 0), k)
  {
    forall k: Key ensures Less(Enc(k), Edge([], 256)) && !Less(Enc(k), Edge([], 0)) {
      BelowEdge(Enc(k), [], 256);
      BelowEdge(Enc(k), [], 0);
    }
  }

  /** One move forward inside the structure; `again` asks for another. */
  method MoveForward(t: Trie, node: Child, index: int) returns (node': Child, index': int, again: bool)
    requires Pointing(t, node, index) && (node.FwdChild? ==> index >= 0) && PosOk(t.s, Ahead0(node, index))
    ensures Pointing(t, node', index')
    ensures again ==> MovedOn(t, Ahead0(node, index), node', index')
    ensures !again ==> AtNext(t, Ahead0(node, index), node', index')
  {
    if node.FwdChild? {
      node', index', again := ForwardInNode(t, node.fwd, node.fwd.prefix, index);
    } else {
      node', index', again := ForwardInLeaf(t, node.leaf, index);
    }
  }

  method ForwardInLeaf(t: Trie, n: Leaf, index: nat) returns (node': Child, index': int, again: bool)
    requires t.Valid() && n in t.s.leaf && index < |t.s.leaf[n].items|
    ensures Pointing(t, node', index')
    ensures again ==> MovedOn(t, InLeaf(n, index), node', index')
    ensures !again ==> AtNext(t, InLeaf(n, index), node', index')
  {
    hide Tidy;
    t.PlaceOf(n);
    node', index' := LeafChild(n), index + 1;
    if index' < |n.flat.firsts| {
      NeighboursInLeaf(t.s, n, index);
      return node', index', false;
    }
    HeldExactly(t.s, n);
    BlockEnds(t.s, n);
    LeaveLeaf(t.s, n);
    SlotsOfLeaf(t, n);
    var i := LastSlotOf(n.parent, LeafChild(n), t.s.leaf[n].path);
    LastIsEnd(t, n, i);
    return FwdChild(n.parent), i as int + 1, true;
  }

  /** The slots that point at a leaf are those of its block. */
  lemma SlotsOfLeaf(t: Trie, n: Leaf)
    requires t.Valid() && n in t.s.leaf
    ensures n.parent != null && n.parent.children.Length == 256 && t.s.leaf[n].typ <= 8
    ensures forall j: byte :: n.parent.children[j] == LeafChild(n) <==> Covers(t.s.leaf[n], j)
    ensures n.parent.children[t.s.leaf[n].path] == LeafChild(n)
  {
    t.PlaceOf(n);
    t.AboutNode(t.s.leaf[n].at);
    HeldExactly(t.s, n);
    forall j: byte ensures n.parent.children[j] == LeafChild(n) <==> Covers(t.s.leaf[n], j) {
      assert SlotOk(n.parent.children[j], t.s.slots[t.s.leaf[n].at][j], t.s.leaf[n].at, j, t.at);
    }
    assert Covers(t.s.leaf[n], t.s.leaf[n].path);
  }

  lemma LastIsEnd(t: Trie, n: Leaf, i: byte)
    requires t.Valid() && n in t.s.leaf && n.parent != null && n.parent.children.Length == 256
    requires n.parent.children[i] == LeafChild(n) && forall j: byte | i < j :: n.parent.children[j] != LeafChild(n)
    ensures t.s.leaf[n].typ <= 8 && i as int == t.s.leaf[n].path + Width(t.s.leaf[n].typ) - 1
  {
    SlotsOfLeaf(t, n);
    HeldExactly(t.s, n);
    var e: byte := t.s.leaf[n].path + Width(t.s.leaf[n].typ) - 1;
    assert Covers(t.s.leaf[n], e);
  }

  lemma FirstIsStart(t: Trie, n: Leaf, i: byte)
    requires t.Valid() && n in t.s.leaf && n.parent != null && n.parent.children.Length == 256
    requires n.parent.children[i] == LeafChild(n) && forall j: byte | j < i :: n.parent.children[j] != LeafChild(n)
    ensures i == t.s.leaf[n].path
  {
    SlotsOfLeaf(t, n);
  }

  method ForwardInNode(t: Trie, f: Fwd, ghost p: Path, index: nat) returns (node': Child, index': int, again: bool)
    requires t.Valid() && p in t.at && t.at[p] == f && f.prefix == p && index <= 256 && PosOk(t.s, InNode(p, index))
    ensures Pointing(t, node', index')
    ensures again ==> MovedOn(t, InNode(p, index), node', index')
    ensures !again ==> AtNext(t, InNode(p, index), node', index')
  {
    var i := ScanForward(t, f, p, index);
    t.AboutNode(p);
    if i == 256 && f.parent == null {
      NodeEdges(t.s, []);
      NoneBeyond(t.s);
      return FwdChild(f), 256, false;
    }
    if i == 256 {
      ParentSlot(t, p);
      OutForward(t, p, index);
      var j := LastSlotOf(f.parent, FwdChild(f), Last(p));
      return FwdChild(f.parent), j as int + 1, true;
    }
    var c := f.children[i];
    InForward(t, p, index, i);
    return c, 0, c.FwdChild?;
  }

  lemma OutForward(t: Trie, p: Path, index: nat)
    requires t.Valid() && p in t.at && p != [] && index <= 256 && PosOk(t.s, InNode(p, index))
    requires PosOk(t.s, InNode(p, 256))
    requires SameAhead(t.s, InNode(p, index), InNode(p, 256)) && (index < 256 ==> Less(Edge(p, index), Edge(p, 256)))
    requires Front(p) in t.at && t.at[Front(p)].prefix == Front(p)
    ensures MovedOn(t, InNode(p, index), FwdChild(t.at[Front(p)]), Last(p) as int + 1)
  {
    OutOfNode(t.s, p);
    StepOut(p);
    if index < 256 { LessTransitive(Edge(p, index), Edge(p, 256), Edge(Front(p), Last(p) + 1)); }
  }

  /** The walk enters what the taken slot i holds. */
  lemma InForward(t: Trie, p: Path, index: nat, i: byte)
    requires t.Valid() && p in t.at && index <= i && PosOk(t.s, InNode(p, index)) && PosOk(t.s, InNode(p, i))
    requires SameAhead(t.s, InNode(p, index), InNode(p, i)) && (index < i ==> Less(Edge(p, index), Edge(p, i)))
    requires t.at[p].children.Length == 256 && t.at[p].children[i] != FwdChild(t.at[p])
    ensures var c := t.at[p].children[i];
      Pointing(t, c, 0)
        && if c.LeafChild? then AtNext(t, InNode(p, index), c, 0) else MovedOn(t, InNode(p, index), c, 0)
  {
    t.AboutNode(p);
    var c := t.at[p].children[i];
    assert SlotOk(c, t.s.slots[p][i], p, i, t.at);
    if c.LeafChild? {
      LeafFromSlot(t, p, i, c.leaf);
      BlockEnds(t.s, c.leaf);
      FirstOfLeaf(t.s, c.leaf);
    } else {
      NodeFromSlot(t, p, i, c.fwd);
      IntoNode(t.s, p, i);
      if index < i { LessTransitive(Edge(p, index), Edge(p, i), Edge(Sub(p, i), 0)); }
    }
  }

  /** A node sits in exactly one slot of the node above. */
  lemma ParentSlot(t: Trie, p: Path)
    requires t.Valid() && p in t.at && p != []
    ensures Front(p) in t.at && t.at[p].parent == t.at[Front(p)] && t.at[Front(p)].children.Length == 256
    ensures t.at[Front(p)].prefix == Front(p)
    ensures forall j: byte :: t.at[Front(p)].children[j] == FwdChild(t.at[p]) <==> j == Last(p)
  {
    t.AboutNode(p);
    var q := Front(p);
    t.AboutNode(q);
    assert Wf(t.s);
    FrontLast(t.s, p);
    forall j: byte ensures t.at[q].children[j] == FwdChild(t.at[p]) <==> j == Last(p) {
      assert SlotOk(t.at[q].children[j], t.s.slots[q][j], q, j, t.at);
      if t.at[q].children[j] == FwdChild(t.at[p]) && t.s.slots[q][j] == Down {
        t.AboutNode(Sub(q, j));
        FrontOfSub(q, j);
      }
    }
  }

  /** One move backward inside the structure; `again` asks for another. */
  method MoveBackward(t: Trie, node: Child, index: int) returns (node': Child, index': int, again: bool)
    requires Pointing(t, node, index) && (node.FwdChild? ==> index <= 255) && PosOk(t.s, Behind0(node, index))
    ensures Pointing(t, node', index')
    ensures again ==> MovedBack(t, Behind0(node, index), node', index')
    ensures !again ==> AtPrevious(t, Behind0(node, index), node', index')
  {
    if node.FwdChild? {
      node', index', again := BackwardInNode(t, node.fwd, node.fwd.prefix, index);
    } else {
      node', index', again := BackwardInLeaf(t, node.leaf, index);
    }
  }

  method BackwardInLeaf(t: Trie, n: Leaf, index: nat) returns (node': Child, index': int, again: bool)
    requires t.Valid() && n in t.s.leaf && index < |t.s.leaf[n].items|
    ensures Pointing(t, node', index')
    ensures again ==> MovedBack(t, InLeaf(n, index), node', index')
    ensures !again ==> AtPrevious(t, InLeaf(n, index), node', index')
  {
    hide Tidy;
    t.PlaceOf(n);
    node', index' := LeafChild(n), index as int - 1;
    if index' >= 0 {
      NeighboursInLeaf(t.s, n, index - 1);
      return node', index', false;
    }
    HeldExactly(t.s, n);
    BlockEnds(t.s, n);
    LeaveLeaf(t.s, n);
    SlotsOfLeaf(t, n);
    var i := FirstSlotOf(n.parent, LeafChild(n), t.s.leaf[n].path);
    FirstIsStart(t, n, i);
    return FwdChild(n.parent), i as int - 1, true;
  }

  method BackwardInNode(t: Trie, f: Fwd, ghost p: Path, index: int) returns (node': Child, index': int, again: bool)
    requires t.Valid() && p in t.at && t.at[p] == f && f.prefix == p && -1 <= index <= 255
    requires PosOk(t.s, InNode(p, index + 1))
    ensures Pointing(t, node', index')
    ensures again ==> MovedBack(t, InNode(p, index + 1), node', index')
    ensures !again ==> AtPrevious(t, InNode(p, index + 1), node', index')
  {
    hide Tidy;
    var i := ScanBackward(t, f, p, index);
    t.AboutNode(p);
    if i == -1 && f.parent == null {
      NodeEdges(t.s, []);
      NoneBeyond(t.s);
      return FwdChild(f), -1, false;
    }
    if i == -1 {
      ParentSlot(t, p);
      OutBackward(t, p, index);
      var j := FirstSlotOf(f.parent, FwdChild(f), Last(p));
      return FwdChild(f.parent), j as int - 1, true;
    }
    var c := f.children[i];
    InBackward(t, p, index, i);
    if c.FwdChild? {
      return c, 255, true;
    }
    t.AboutLeaf(c.leaf);
    return c, |c.leaf.flat.firsts| - 1, false;
  }

  lemma OutBackward(t: Trie, p: Path, index: int)
    requires t.Valid() && p in t.at && p != [] && -1 <= index <= 255 && PosOk(t.s, InNode(p, index + 1))
    requires PosOk(t.s, InNode(p, 0))
    requires SameBehind(t.s, InNode(p, index + 1), InNode(p, 0))
    requires (index > -1 ==> Less(Edge(p, 0), Edge(p, index + 1)))
    requires Front(p) in t.at && t.at[Front(p)].prefix == Front(p)
    ensures MovedBack(t, InNode(p, index + 1), FwdChild(t.at[Front(p)]), Last(p) as int - 1)
  {
    OutOfNode(t.s, p);
    StepOut(p);
    if index > -1 { LessTransitive(Edge(Front(p), Last(p)), Edge(p, 0), Edge(p, index + 1)); }
  }

  lemma InBackward(t: Trie, p: Path, index: int, i: byte)
    requires t.Valid() && p in t.at && i as int <= index <= 255 && PosOk(t.s, InNode(p, index + 1))
    requires PosOk(t.s, InNode(p, i + 1))
    requires SameBehind(t.s, InNode(p, index + 1), InNode(p, i + 1))
    requires (i < index ==> Less(Edge(p, i + 1), Edge(p, index + 1)))
    requires t.at[p].children.Length == 256 && t.at[p].children[i] != FwdChild(t.at[p])
    ensures var c := t.at[p].children[i];
      if c.LeafChild? then
        c.leaf in t.s.leaf && t.s.leaf[c.leaf].items != []
          && AtPrevious(t, InNode(p, index + 1), c, |t.s.leaf[c.leaf].items| - 1)
      else Pointing(t, c, 255) && MovedBack(t, InNode(p, index + 1), c, 255)
  {
    t.AboutNode(p);
    var c := t.at[p].children[i];
    assert SlotOk(c, t.s.slots[p][i], p, i, t.at);
    if c.LeafChild? {
      EnterFromRight(t, p, i, c.leaf);
    } else {
      NodeFromSlot(t, p, i, c.fwd);
      IntoNode(t.s, p, i);
      if index > i { LessTransitive(Edge(Sub(p, i), 256), Edge(p, i + 1), Edge(p, index + 1)); }
    }
  }

  lemma EnterFromRight(t: Trie, p: Path, i: byte, n: Leaf)
    requires t.Valid() && p in t.at && t.at[p].children.Length == 256 && t.at[p].children[i] == LeafChild(n)
    requires PosOk(t.s, InNode(p, i + 1))
    ensures n in t.s.leaf && t.s.leaf[n].items != [] && IsGreatest(t.s, InNode(p, i + 1), n, |t.s.leaf[n].items| - 1)
  {
    LeafFromSlot(t, p, i, n);
    BlockEnds(t.s, n);
    LastOfLeaf(t.s, n);
  }

  // ------------------------------------------------------------ ++ and --

  lemma AheadCarries(t: Trie, a: Pos, b: Pos, node: Child, index: int)
    requires PosOk(t.s, a) && PosOk(t.s, b) && SameAhead(t.s, a, b) && AtNext(t, b, node, index)
    ensures AtNext(t, a, node, index)
  {
  }

  lemma BehindCarries(t: Trie, a: Pos, b: Pos, node: Child, index: int)
    requires PosOk(t.s, a) && PosOk(t.s, b) && SameBehind(t.s, a, b) && AtPrevious(t, b, node, index)
    ensures AtPrevious(t, a, node, index)
  {
  }

  /** Operator ++: to the first stored key after the iterator, or to the end. */
  method Increment(t: Trie, node: Child, index: int) returns (node': Child, index': int)
    requires Pointing(t, node, index) && PosOk(t.s, Ahead0(node, index))
    ensures Pointing(t, node', index') && AtNext(t, Ahead0(node, index), node', index')
    decreases Later(t.s, Front0(t.s, Ahead0(node, index)))
  {
    var from := if node.FwdChild? && index < 0 then 0 else index;
    var again;
    node', index', again := MoveForward(t, node, from);
    if again {
      ghost var pos, next := Ahead0(node, index), Ahead0(node', index');
      LaterShrinks(t.s, Front0(t.s, pos), next.p, next.i);
      node', index' := Increment(t, node', index');
      AheadCarries(t, pos, next, node', index');
    }
  }

  /** Operator --: to the last stored key before the iterator, or before the beginning. */
  method Decrement(t: Trie, node: Child, index: int) returns (node': Child, index': int)
    requires Pointing(t, node, index) && PosOk(t.s, Behind0(node, index))
    ensures Pointing(t, node', index') && AtPrevious(t, Behind0(node, index), node', index')
    decreases Earlier(t.s, Rear0(t.s, Behind0(node, index)))
  {
    var from := if node.FwdChild? && index > 255 then 255 else index;
    var again;
    node', index', again := MoveBackward(t, node, from);
    if again {
      ghost var pos, next := Behind0(node, index), Behind0(node', index');
      EarlierShrinks(t.s, Rear0(t.s, pos), next.p, next.i);
      node', index' := Decrement(t, node', index');
      BehindCarries(t, pos, next, node', index');
    }
  }

  /** A node and an index: a stored key, a slot of a forward node, or, at the root, the end at 256. */
  class Iterator {
    const trie: Trie
    var node: Child
    var index: int

    constructor (trie: Trie, index: int)
      ensures this.trie == trie && this.node == FwdChild(trie.root) && this.index == index
    {
      this.trie := trie;
      this.node := FwdChild(trie.root);
      this.index := index;
    }

    /** It points at key j of leaf n. */
    ghost predicate On(n: Leaf, j: nat)
      reads this
    {
      node == LeafChild(n) && index == j
    }

    method Advance()
      requires this !in trie.Repr && Pointing(trie, node, index) && PosOk(trie.s, Ahead0(node, index))
      modifies this
      ensures Pointing(trie, node, index) && PosOk(trie.s, old(Ahead0(node, index)))
      ensures AtNext(trie, old(Ahead0(node, index)), node, index)
    {
      node, index := Increment(trie, node, index);
    }

    method Retreat()
      requires this !in trie.Repr && Pointing(trie, node, index) && PosOk(trie.s, Behind0(node, index))
      modifies this
      ensures Pointing(trie, node, index) && PosOk(trie.s, old(Behind0(node, index)))
      ensures AtPrevious(trie, old(Behind0(node, index)), node, index)
    {
      node, index := Decrement(trie, node, index);
    }
  }

  // ------------------------------------------------------------ whole walks

  lemma RootPlaced(t: Trie)
    requires t.Valid()
    ensures Pointing(t, FwdChild(t.root), 0) && Pointing(t, FwdChild(t.root), 256)
    ensures t.root.prefix == [] && PosOk(t.s, InNode([], 0)) && PosOk(t.s, InNode([], 256))
    ensures forall k: Key :: HasKey(t.s, k) ==> Ahead(t.s, InNode([], 0), k) && Behind(t.s, InNode([], 256), k)
  {
    t.AboutNode([]);
    NodeEdges(t.s, []);
    NoneBeyond(t.s);
    forall k: Key | HasKey(t.s, k) ensures Ahead(t.s, InNode([], 0), k) && Behind(t.s, InNode([], 256), k) {
      assert !Behind(t.s, InNode([], 0), k) && !Ahead(t.s, InNode([], 256), k);
    }
  }

  /** A stored key has one position. */
  lemma OnePosition(s: State, n: Leaf, i: nat, m: Leaf, j: nat)
    requires Sound(s) && n in s.leaf && m in s.leaf && i < |s.leaf[n].items| && j < |s.leaf[m].items|
    requires KeyAt(s, n, i) == KeyAt(s, m, j)
    ensures n == m && i == j
  {
    assert Wf(s);
    OneHome(s, n, s.leaf[n].items[i], m, s.leaf[m].items[j]);
    LessIrreflexive(Enc(KeyAt(s, n, i)));
    if i < j { SortedAt(s, n, i, j); } else if j < i { SortedAt(s, n, j, i); }
  }

  /** From any stored key, ++ followed by -- returns to it. */
  method ForthAndBack(it: Iterator, n: Leaf, j: nat)
    requires it.trie.Valid() && it !in it.trie.Repr && n in it.trie.s.leaf && j < |it.trie.s.leaf[n].items|
    requires it.On(n, j)
    modifies it
    ensures it.On(n, j)
  {
    hide Tidy;
    ghost var t := it.trie;
    InsideLeaf(t.s, n, j);
    it.Advance();
    ghost var node, index := it.node, it.index;
    BackFrom(t, n, j, node, index);
    it.Retreat();
    Returned(t, n, j, node, index, it.node, it.index);
  }

  /** Where ++ arrived, key j of leaf n is the last key behind. */
  lemma BackFrom(t: Trie, n: Leaf, j: nat, node: Child, index: int)
    requires t.Valid() && n in t.s.leaf && j < |t.s.leaf[n].items| && Pointing(t, node, index)
    requires AtNext(t, InLeaf(n, j), node, index)
    ensures PosOk(t.s, Behind0(node, index)) && IsGreatest(t.s, Behind0(node, index), n, j)
  {
    RootPlaced(t);
    InsideLeaf(t.s, n, j);
    var here := KeyAt(t.s, n, j);
    forall k | Behind(t.s, Behind0(node, index), k)
      ensures k == here || Less(Enc(k), Enc(here))
    {
      LessTotal(Enc(k), Enc(here));
      EncInjective(k, here);
      if Less(Enc(here), Enc(k)) {
        assert Ahead(t.s, InLeaf(n, j), k);
        if node.LeafChild? { LessAsymmetric(Enc(k), Enc(KeyAt(t.s, node.leaf, index))); }
      }
    }
  }

  lemma Returned(t: Trie, n: Leaf, j: nat, node: Child, index: int, node': Child, index': int)
    requires node != Null && (node.LeafChild? ==> index >= 0)
    requires t.Valid() && PosOk(t.s, Behind0(node, index)) && IsGreatest(t.s, Behind0(node, index), n, j)
    requires AtPrevious(t, Behind0(node, index), node', index')
    ensures node' == LeafChild(n) && index' == j
  {
    assert Behind(t.s, Behind0(node, index), KeyAt(t.s, n, j));
    assert node'.LeafChild? && IsGreatest(t.s, Behind0(node, index), node'.leaf, index');
    var k, l := KeyAt(t.s, n, j), KeyAt(t.s, node'.leaf, index');
    if k != l { LessAsymmetric(Enc(k), Enc(l)); }
    OnePosition(t.s, n, j, node'.leaf, index');
  }

  /** From any stored key, -- followed by ++ returns to it. */
  method BackAndForth(it: Iterator, n: Leaf, j: nat)
    requires it.trie.Valid() && it !in it.trie.Repr && n in it.trie.s.leaf && j < |it.trie.s.leaf[n].items|
    requires it.On(n, j)
    modifies it
    ensures it.On(n, j)
  {
    hide Tidy;
    ghost var t := it.trie;
    InsideLeaf(t.s, n, j);
    it.Retreat();
    ghost var node, index := it.node, it.index;
    ForthFrom(t, n, j, node, index);
    it.Advance();
    CameBack(t, n, j, node, index, it.node, it.index);
  }

  /** Where -- arrived, key j of leaf n is the first key ahead. */
  lemma ForthFrom(t: Trie, n: Leaf, j: nat, node: Child, index: int)
    requires t.Valid() && n in t.s.leaf && j < |t.s.leaf[n].items| && Pointing(t, node, index)
    requires AtPrevious(t, InLeaf(n, j), node, index)
    ensures PosOk(t.s, Ahead0(node, index)) && IsLeast(t.s, Ahead0(node, index), n, j)
  {
    RootPlaced(t);
    InsideLeaf(t.s, n, j);
    var here := KeyAt(t.s, n, j);
    forall k | Ahead(t.s, Ahead0(node, index), k)
      ensures k == here || Less(Enc(here), Enc(k))
    {
      LessTotal(Enc(k), Enc(here));
      EncInjective(k, here);
      if Less(Enc(k), Enc(here)) {
        assert Behind(t.s, InLeaf(n, j), k);
        if node.LeafChild? { LessAsymmetric(Enc(k), Enc(KeyAt(t.s, node.leaf, index))); }
      }
    }
  }

  lemma CameBack(t: Trie, n: Leaf, j: nat, node: Child, index: int, node': Child, index': int)
    requires node != Null && (node.LeafChild? ==> index >= 0)
    requires t.Valid() && PosOk(t.s, Ahead0(node, index)) && IsLeast(t.s, Ahead0(node, index), n, j)
    requires AtNext(t, Ahead0(node, index), node', index')
    ensures node' == LeafChild(n) && index' == j
  {
    assert Ahead(t.s, Ahead0(node, index), KeyAt(t.s, n, j));
    assert node'.LeafChild? && IsLeast(t.s, Ahead0(node, index), node'.leaf, index');
    var k, l := KeyAt(t.s, n, j), KeyAt(t.s, node'.leaf, index');
    if k != l { LessAsymmetric(Enc(k), Enc(l)); }
    OnePosition(t.s, n, j, node'.leaf, index');
  }

  /** From before the first key, ++ followed by -- returns there, whether there is a key or not. */
  method BeginAndBack(it: Iterator)
    requires it.trie.Valid() && it !in it.trie.Repr && it.node == FwdChild(it.trie.root) && -1 <= it.index <= 0
    modifies it
    ensures it.node == FwdChild(it.trie.root) && it.index == -1
  {
    hide Tidy;
    RootPlaced(it.trie);
    it.Advance();
    NoneBefore(it.trie, it.node, it.index);
    it.Retreat();
  }

  lemma NoneBefore(t: Trie, node: Child, index: int)
    requires t.Valid() && Pointing(t, node, index) && PosOk(t.s, InNode([], 0)) && AtNext(t, InNode([], 0), node, index)
    ensures PosOk(t.s, Behind0(node, index)) && forall k: Key :: !Behind(t.s, Behind0(node, index), k)
  {
    RootPlaced(t);
    forall k: Key | HasKey(t.s, k) ensures Ahead(t.s, InNode([], 0), k) {
    }
    if node.LeafChild? {
      InsideLeaf(t.s, node.leaf, index);
      LessIrreflexive(Enc(KeyAt(t.s, node.leaf, index)));
      forall k: Key | HasKey(t.s, k) && Less(Enc(k), Enc(KeyAt(t.s, node.leaf, index))) ensures false {
        LessAsymmetric(Enc(k), Enc(KeyAt(t.s, node.leaf, index)));
      }
    }
  }

  /** From behind the last key, -- followed by ++ returns there. */
  method EndAndForth(it: Iterator)
    requires it.trie.Valid() && it !in it.trie.Repr && it.node == FwdChild(it.trie.root) && 255 <= it.index <= 256
    modifies it
    ensures it.node == FwdChild(it.trie.root) && it.index == 256
  {
    hide Tidy;
    RootPlaced(it.trie);
    it.Retreat();
    NoneAfter(it.trie, it.node, it.index);
    it.Advance();
  }

  lemma NoneAfter(t: Trie, node: Child, index: int)
    requires t.Valid() && Pointing(t, node, index) && PosOk(t.s, InNode([], 256))
    requires AtPrevious(t, InNode([], 256), node, index)
    ensures PosOk(t.s, Ahead0(node, index)) && forall k: Key :: !Ahead(t.s, Ahead0(node, index), k)
  {
    RootPlaced(t);
    forall k: Key | HasKey(t.s, k) ensures Behind(t.s, InNode([], 256), k) {
    }
    if node.LeafChild? {
      InsideLeaf(t.s, node.leaf, index);
      LessIrreflexive(Enc(KeyAt(t.s, node.leaf, index)));
      forall k: Key | HasKey(t.s, k) && Less(Enc(KeyAt(t.s, node.leaf, index)), Enc(k)) ensures false {
        LessAsymmetric(Enc(k), Enc(KeyAt(t.s, node.leaf, index)));
      }
    }
  }

  /** A walk from begin to end: every stored key once, in strictly increasing shortlex order. */
  method Keys(t: Trie) returns (keys: seq<seq<byte>>)
    requires t.Valid()
    ensures forall i | 0 <= i < |keys| :: 1 <= |keys[i]| <= 0xFFFF
    ensures forall i, j | 0 <= i < j < |keys| :: KeyLess(keys[i], keys[j])
    ensures forall k: Key :: k in keys <==> HasKey(t.s, k)
  {
    hide Tidy;
    keys := [];
    ghost var ks: seq<Key>, seen: set<Key> := [], {};
    RootPlaced(t);
    var it := new Iterator(t, 0);
    it.Advance();
    VisitNone(t, it.node, it.index);
    while it.node.LeafChild?
      invariant fresh(it) && it.trie == t
      invariant keys == ks && Visited(t, ks, it.node, it.index) && (forall k :: k in ks <==> k in seen)
      decreases Contents(t.s) - seen
    {
      var key;
      ghost var k;
      key, k := Visit(it, ks);
      keys, ks, seen := keys + [key], ks + [k], seen + {k};
    }
    VisitedAll(t, ks, it.node, it.index);
  }

  /** Reads the key at the iterator and moves on. */
  method Visit(it: Iterator, ghost ks: seq<Key>) returns (key: seq<byte>, ghost k: Key)
    requires it !in it.trie.Repr && it.node.LeafChild? && Visited(it.trie, ks, it.node, it.index)
    modifies it
    ensures Visited(it.trie, ks + [k], it.node, it.index)
    ensures key == k && k in Contents(it.trie.s) && k !in ks
  {
    ghost var n, j := it.node.leaf, it.index;
    InsideLeaf(it.trie.s, n, j);
    k := KeyAt(it.trie.s, n, j);
    key := Unpack(it.trie, it.node.leaf, it.index);
    it.Advance();
    VisitOne(it.trie, ks, n, j, it.node, it.index);
  }

  lemma VisitNone(t: Trie, node: Child, index: int)
    requires Pointing(t, node, index) && PosOk(t.s, InNode([], 0)) && AtNext(t, InNode([], 0), node, index)
    ensures Visited(t, [], node, index)
  {
    RootPlaced(t);
  }

  /** The keys passed so far, in order; the rest are at the iterator or ahead of it. */
  ghost predicate Visited(t: Trie, ks: seq<Key>, node: Child, index: int)
    reads t, t.heap, t.Repr
  {
    && Pointing(t, node, index)
    && (forall i, j | 0 <= i < j < |ks| :: Less(Enc(ks[i]), Enc(ks[j])))
    && (forall k | k in ks :: HasKey(t.s, k))
    && (if node.LeafChild? then
          && (forall k | k in ks :: Less(Enc(k), Enc(KeyAt(t.s, node.leaf, index))))
          && (forall k | HasKey(t.s, k) ::
            k in ks || k == KeyAt(t.s, node.leaf, index) || Less(Enc(KeyAt(t.s, node.leaf, index)), Enc(k)))
        else forall k | HasKey(t.s, k) :: k in ks)
  }

  lemma VisitOne(t: Trie, ks: seq<Key>, n: Leaf, j: nat, node: Child, index: int)
    requires n in t.s.leaf && j < |t.s.leaf[n].items| && Visited(t, ks, LeafChild(n), j)
    requires Pointing(t, node, index) && AtNext(t, InLeaf(n, j), node, index)
    ensures Visited(t, ks + [KeyAt(t.s, n, j)], node, index)
    ensures KeyAt(t.s, n, j) in Contents(t.s) && KeyAt(t.s, n, j) !in ks
  {
    InsideLeaf(t.s, n, j);
    var here := KeyAt(t.s, n, j);
    LessIrreflexive(Enc(here));
    if node.LeafChild? {
      var next := KeyAt(t.s, node.leaf, index);
      assert Ahead(t.s, InLeaf(n, j), next);
      forall k | k in ks ensures Less(Enc(k), Enc(next)) { LessTransitive(Enc(k), Enc(here), Enc(next)); }
    }
    forall k | HasKey(t.s, k) && k !in ks && k != here ensures Ahead(t.s, InLeaf(n, j), k) {
    }
  }

  lemma VisitedAll(t: Trie, ks: seq<Key>, node: Child, index: int)
    requires Visited(t, ks, node, index) && !node.LeafChild?
    ensures forall i, j | 0 <= i < j < |ks| :: KeyLess(ks[i], ks[j])
    ensures forall k: Key :: k in ks <==> HasKey(t.s, k)
  {
    forall i, j | 0 <= i < j < |ks| ensures KeyLess(ks[i], ks[j]) {
      EncOrderIsShortlex(ks[i], ks[j]);
    }
  }

  /** After any run on a new trie the walk lists exactly the keys that were inserted and not erased since. */
  method RunAndList(calls: seq<Runs.Call>, heap: BlockHeap) returns (keys: seq<seq<byte>>)
    requires Runs.Proper(calls) && heap.Valid() && |heap.free| >= |calls| + SPLITBOUND
    modifies heap
    ensures forall i | 0 <= i < |keys| :: 1 <= |keys[i]| <= 0xFFFF
    ensures forall i, j | 0 <= i < j < |keys| :: KeyLess(keys[i], keys[j])
    ensures forall k: Key :: k in keys <==> Runs.Kept(calls, |calls|, k)
  {
    hide Runs.Proper, Runs.Correct, Runs.HasId, Runs.Kept, Runs.Represents, Conserved, Exchanged, All, Trie.Valid;
    var t, answers := Runs.Run(calls, heap);
    keys := Keys(t);
  }
}
