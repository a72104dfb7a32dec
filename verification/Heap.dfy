/** How nodes in memory stand for the value of the trie, and the allocation of nodes. */
module Heap {
  import opened Bytes
  import opened Blocks
  import opened Entries
  import opened Memory
  import opened Nodes
  import opened Shape
  import opened ShapeOps
  import opened ShapeMoves

  method FillSlots(a: array<Child>, from: nat, to: nat, c: Child)
    requires from <= to <= a.Length
    modifies a
    ensures forall i | 0 <= i < a.Length :: a[i] == if from <= i < to then c else old(a[i])
  {
    for i := from to to
      invariant forall j | 0 <= j < a.Length :: a[j] == if from <= j < i then c else old(a[j])
    {
      a[i] := c;
    }
  }

  function Bucket(r: LeafRec): seq<Entry> {
    seq(|r.items|, i requires 0 <= i < |r.items| => EntryOf(r.items[i].key, |r.at|))
  }

  function IdSeq(items: seq<Item>): seq<nat> {
    seq(|items|, i requires 0 <= i < |items| => items[i].id)
  }

  function IdSet(ids: seq<nat>): set<nat> {
    set i | 0 <= i < |ids| :: ids[i]
  }

  lemma IdSetStep(ids: seq<nat>, k: nat)
    requires k < |ids|
    ensures IdSet(ids[..k+1]) == IdSet(ids[..k]) + {ids[k]}
  {
    var a, b := ids[..k+1], ids[..k];
    assert a == b + [ids[k]];
    assert a[k] == ids[k];
    forall x | x in IdSet(b) ensures x in IdSet(a) {
      var i :| 0 <= i < |b| && b[i] == x;
      assert a[i] == x;
    }
  }

  /** The owners once the ids point at n. */
  ghost function Pointed(owner: seq<Leaf>, ids: set<nat>, n: Leaf): seq<Leaf> {
    seq(|owner|, i requires 0 <= i < |owner| => if i in ids then n else owner[i])
  }

  /** What a slot holds, as a pointer. */
  ghost predicate SlotOk(c: Child, v: Slot, p: Path, i: byte, at: map<Path, Fwd>)
    requires p in at
  {
    match v
    case Self => c == FwdChild(at[p])
    case Down => Sub(p, i) in at && c == FwdChild(at[Sub(p, i)])
    case Hold(n) => c == LeafChild(n)
  }

  /** Node f stands at path p: its slots are as `row` says, its links as `at` says. */
  ghost predicate NodeOk(f: Fwd, p: Path, row: seq<Slot>, at: map<Path, Fwd>)
    reads f, f.children
  {
    && p in at && f == at[p] && f.prefix == p && f.children.Length == 256 == |row|
    && (if p == [] then f.parent == null else Front(p) in at && f.parent == at[Front(p)] && f.path == Last(p))
    && forall i: byte :: SlotOk(f.children[i], row[i], p, i, at)
  }

  /** The links of node f are those of path p. */
  ghost predicate LinksOk(f: Fwd, p: Path, at: map<Path, Fwd>)
    reads f
  {
    && p in at && f == at[p] && f.prefix == p && f.children.Length == 256
    && (if p == [] then f.parent == null else Front(p) in at && f.parent == at[Front(p)] && f.path == Last(p))
  }

  lemma NodeParts(f: Fwd, p: Path, row: seq<Slot>, at: map<Path, Fwd>)
    requires NodeOk(f, p, row, at)
    ensures LinksOk(f, p, at) && |row| == 256 && forall i: byte :: SlotOk(f.children[..][i], row[i], p, i, at)
  {
  }

  lemma NodeAgain(f: Fwd, p: Path, row: seq<Slot>, at: map<Path, Fwd>)
    requires LinksOk(f, p, at) && |row| == 256 && forall i: byte :: SlotOk(f.children[..][i], row[i], p, i, at)
    ensures NodeOk(f, p, row, at)
  {
  }

  /** Slots overwritten in memory and in the row alike. */
  lemma Overwritten(was: seq<Child>, now: seq<Child>, row: seq<Slot>, p: Path, at: map<Path, Fwd>, from: nat, to: nat,
                    c: Child, v: Slot)
    requires |was| == |now| == |row| == 256 && from <= to <= 256 && p in at
    requires forall i: byte :: SlotOk(was[i], row[i], p, i, at)
    requires forall i: byte :: now[i] == if from <= i < to then c else was[i]
    requires forall i: byte | from <= i < to :: SlotOk(c, v, p, i, at)
    ensures forall i: byte :: SlotOk(now[i], Fill(row, from, to, v)[i], p, i, at)
  {
  }

  lemma SameSlot(c: Child, v: Slot, p: Path, at: map<Path, Fwd>)
    requires p in at && SlotOk(c, v, p, 0, at) && v != Down
    ensures forall i: byte :: SlotOk(c, v, p, i, at)
  {
  }

  ghost predicate NodesIn(at: map<Path, Fwd>, region: set<object>) {
    forall p | p in at :: at[p] in region && at[p].children in region
  }

  /** No two nodes share their slots. */
  ghost predicate SlotsApart(at: map<Path, Fwd>) {
    forall p, q | p in at && q in at && p != q :: at[p].children != at[q].children
  }

  lemma OneNodeMore(at: map<Path, Fwd>, region: set<object>, q: Path, g: Fwd)
    requires NodesIn(at, region) && SlotsApart(at) && g.children !in region
    ensures NodesIn(at[q := g], region + {g, g.children}) && SlotsApart(at[q := g])
  {
  }

  /** The ids that a bucket lists for these items. */
  function ListedIds(items: seq<Item>, entries: bool): seq<nat> {
    if entries then IdSeq(items) else []
  }

  /** Leaf n has the place and type of its record and the bucket f, with one `first` per key. */
  ghost predicate LeafOk(n: Leaf, r: LeafRec, at: map<Path, Fwd>, f: Flat, entries: bool)
    reads n
  {
    && r.at in at && n.parent == at[r.at] && n.path == r.path && n.typ == r.typ
    && n.flat == f && |f.firsts| == |r.items| && f.ids == ListedIds(r.items, entries) && !n.deleted
  }

  ghost predicate Placed(s: State, n: Leaf) {
    n in s.leaf && Aligned(s.leaf[n].path, s.leaf[n].typ) && s.leaf[n].at in s.slots && |s.slots[s.leaf[n].at]| == 256
  }

  ghost function AddRow(s: State, q: Path, low: Slot, high: Slot): State {
    s.(slots := s.slots[q := seq(128, _ => low) + seq(128, _ => high)])
  }

  ghost predicate HalfOk(c: Child, v: Slot, g: Fwd) {
    c == if v.Hold? then LeafChild(v.leaf) else FwdChild(g)
  }

  method FreshNode(ghost p: Path, b: byte, f: Fwd, low: Leaf?, high: Leaf?) returns (g: Fwd)
    ensures fresh(g) && fresh(g.children)
    ensures g.prefix == Sub(p, b) && g.path == b && g.parent == f && g.children.Length == 256
    ensures forall i: byte :: HalfOk(g.children[i], if i < 128 then SlotOf(low) else SlotOf(high), g)
  {
    g := new Fwd(Sub(p, b), b, f);
    FillSlots(g.children, 0, 128, if low == null then FwdChild(g) else LeafChild(low));
    FillSlots(g.children, 128, 256, if high == null then FwdChild(g) else LeafChild(high));
  }

  ghost function SlotOf(n: Leaf?): Slot {
    if n == null then Self else Hold(n)
  }

  ghost function AddNode(s: State, p: Path, b: byte, low: Slot, high: Slot): State
    requires p in s.slots && |s.slots[p]| == 256 && Sub(p, b) !in s.slots
  {
    SetRow(AddRow(s, Sub(p, b), low, high), p, b, b + 1, Down)
  }

  lemma NodeOkGrows(f: Fwd, p: Path, row: seq<Slot>, at: map<Path, Fwd>, q: Path, g: Fwd)
    requires NodeOk(f, p, row, at) && q !in at
    ensures NodeOk(f, p, row, at[q := g])
  {
  }

  lemma LeafOkGrows(n: Leaf, r: LeafRec, at: map<Path, Fwd>, f: Flat, entries: bool, q: Path, g: Fwd)
    requires LeafOk(n, r, at, f, entries) && q !in at
    ensures LeafOk(n, r, at[q := g], f, entries)
  {
  }

  lemma LeafOkShrinks(n: Leaf, r: LeafRec, at: map<Path, Fwd>, f: Flat, entries: bool, q: Path)
    requires LeafOk(n, r, at, f, entries) && r.at != q
    ensures LeafOk(n, r, at - {q}, f, entries)
  {
  }

  lemma DownSlot(p: Path, b: byte, at: map<Path, Fwd>)
    requires p in at && Sub(p, b) in at
    ensures forall i: byte | b <= i < b + 1 :: SlotOk(FwdChild(at[Sub(p, b)]), Down, p, i, at)
  {
  }

  lemma SameUpdate<T>(m: map<Leaf, T>, n: Leaf)
    requires n in m
    ensures m[n := m[n]] == m
  {
  }

  /** The slots that hold leaf n, in memory and in the row. */
  lemma LeafSlots(was: seq<Child>, row: seq<Slot>, p: Path, at: map<Path, Fwd>, n: Leaf)
    requires |was| == |row| == 256 && p in at && forall i: byte :: SlotOk(was[i], row[i], p, i, at)
    ensures forall i: byte :: was[i] == LeafChild(n) <==> row[i] == Hold(n)
  {
    forall i: byte ensures was[i] == LeafChild(n) <==> row[i] == Hold(n) {
      assert SlotOk(was[i], row[i], p, i, at);
    }
  }

  /** A node whose slots hold `low` in one half and `high` in the other. */
  lemma NewNodeOk(g: Fwd, p: Path, b: byte, row: seq<Slot>, at: map<Path, Fwd>, low: Slot, high: Slot)
    requires p in at && Sub(p, b) in at && at[Sub(p, b)] == g && g.prefix == Sub(p, b) && g.path == b
    requires g.parent == at[p]
    requires g.children.Length == 256 && row == seq(128, _ => low) + seq(128, _ => high) && low != Down && high != Down
    requires forall i: byte :: HalfOk(g.children[i], if i < 128 then low else high, g)
    ensures NodeOk(g, Sub(p, b), row, at)
  {
    assert Front(Sub(p, b)) == p && Last(Sub(p, b)) == b;
  }

  /** Nothing leads to path q, starts from it or lies in it. */
  ghost predicate Unreferenced(s: State, q: Path) {
    && (forall p, i: byte | p in s.slots && i < |s.slots[p]| && s.slots[p][i] == Down :: Sub(p, i) != q)
    && (forall p | p in s.slots && p != [] :: Front(p) != q)
    && (forall n | n in s.leaf :: s.leaf[n].at != q)
  }

  lemma NodeOkShrinks(f: Fwd, p: Path, row: seq<Slot>, at: map<Path, Fwd>, q: Path)
    requires NodeOk(f, p, row, at) && p != q
    requires forall i: byte :: row[i] == Down ==> Sub(p, i) != q
    requires p != [] ==> Front(p) != q
    ensures NodeOk(f, p, row, at - {q})
  {
  }

  /** The slots that must change before node q can go. */
  lemma FreeNodeUnreferenced(s: State, q: Path, v: Slot)
    requires TreeOk(s) && q in s.slots && q != [] && v != Down
    requires forall i: byte :: Sub(q, i) !in s.slots
    requires forall n | n in s.leaf :: s.leaf[n].at != q
    ensures Front(q) in s.slots && |s.slots[Front(q)]| == 256 && Front(q) != q
    ensures Unreferenced(SetRow(s, Front(q), Last(q), Last(q) + 1, v), q)
  {
    FrontLast(s, q);
    var u := SetRow(s, Front(q), Last(q), Last(q) + 1, v);
    forall p, i: byte | p in u.slots && i < |u.slots[p]| && u.slots[p][i] == Down
      ensures Sub(p, i) != q
    {
      FrontOfSub(p, i);
    }
    forall p | p in u.slots && p != [] ensures Front(p) != q {
      FrontLast(s, p);
    }
  }
}
