/** Copy construction: the clone of a trie stores the same keys in nodes, leaves and blocks of its own. */
module Copying {
  import opened Bytes
  import opened Blocks
  import opened Config
  import opened Nodes
  import opened Shape
  import opened ShapeMoves
  import opened Heap
  import opened Splitting
  import opened Memory
  import opened Layout
  import opened Recovery
  import opened Teardown
  import opened Forest
  import opened Rest
  import opened Trie
  import opened Destructor

  type Renaming = map<Leaf, Leaf>

  function RenameSlot(v: Slot, rho: Renaming): Slot {
    match v
    case Hold(n) => if n in rho then Hold(rho[n]) else v
    case _ => v
  }

  function RenameRow(row: seq<Slot>, rho: Renaming): seq<Slot> {
    seq(|row|, i requires 0 <= i < |row| => RenameSlot(row[i], rho))
  }

  ghost predicate Injective(rho: Renaming) {
    forall n, k | n in rho && k in rho && n != k :: rho[n] != rho[k]
  }

  /** The trie s with every leaf n replaced by rho[n]. */
  ghost function Renamed(s: State, rho: Renaming): State
    requires s.leaf.Keys == rho.Keys && Injective(rho)
  {
    State(map p | p in s.slots :: RenameRow(s.slots[p], rho),
          map m | m in rho.Values :: s.leaf[Original(rho, m)],
          seq(|s.owner|, i requires 0 <= i < |s.owner| => if s.owner[i] in rho then rho[s.owner[i]] else s.owner[i]))
  }

  ghost function Original(rho: Renaming, m: Leaf): (n: Leaf)
    requires m in rho.Values
    ensures n in rho && rho[n] == m
  {
    var n :| n in rho && rho[n] == m;
    n
  }

  // ------------------------------------------------------------ a renamed trie is the same trie

  lemma RenamedLeaf(s: State, rho: Renaming, n: Leaf)
    requires s.leaf.Keys == rho.Keys && Injective(rho) && n in rho
    ensures rho[n] in Renamed(s, rho).leaf && Renamed(s, rho).leaf[rho[n]] == s.leaf[n]
  {
    assert rho[n] in rho.Values;
    var k := Original(rho, rho[n]);
  }

  lemma RenamedRow(s: State, rho: Renaming, p: Path, i: byte)
    requires Wf(s) && s.leaf.Keys == rho.Keys && Injective(rho)
    ensures RowAt(Renamed(s, rho), p, i) == RenameSlot(RowAt(s, p, i), rho)
    ensures RowAt(s, p, i).Hold? ==> RowAt(s, p, i).leaf in rho
  {
    if RowAt(s, p, i).Hold? { assert HeldBy(s, RowAt(s, p, i).leaf, p, i); }
  }

  lemma RenamedTree(s: State, rho: Renaming)
    requires Wf(s) && s.leaf.Keys == rho.Keys && Injective(rho)
    ensures TreeOk(Renamed(s, rho))
  {
    var u := Renamed(s, rho);
    forall p, i: byte | p in u.slots ensures |u.slots[p]| == 256 && (u.slots[p][i] == Down <==> s.slots[p][i] == Down) {
    }
  }

  lemma RenamedBlocks(s: State, rho: Renaming)
    requires Wf(s) && s.leaf.Keys == rho.Keys && Injective(rho)
    ensures BlocksOk(Renamed(s, rho))
  {
    var u := Renamed(s, rho);
    forall m | m in u.leaf ensures u.leaf[m].at in u.slots && Aligned(u.leaf[m].path, u.leaf[m].typ) {
      assert u.leaf[m] == s.leaf[Original(rho, m)];
    }
    forall m, i: byte | m in u.leaf && Covers(u.leaf[m], i) ensures RowAt(u, u.leaf[m].at, i) == Hold(m) {
      var n := Original(rho, m);
      RenamedRow(s, rho, s.leaf[n].at, i);
      assert RowAt(s, s.leaf[n].at, i) == Hold(n);
    }
    forall p, i: byte | p in u.slots && RowAt(u, p, i).Hold? ensures HeldBy(u, RowAt(u, p, i).leaf, p, i) {
      RenamedRow(s, rho, p, i);
      var n := RowAt(s, p, i).leaf;
      assert HeldBy(s, n, p, i);
      RenamedLeaf(s, rho, n);
    }
  }

  lemma RenamedLeaves(s: State, rho: Renaming)
    requires Wf(s) && s.leaf.Keys == rho.Keys && Injective(rho)
    ensures LeavesOk(Renamed(s, rho))
  {
    var u := Renamed(s, rho);
    forall m | m in u.leaf ensures ItemsFit(u.leaf[m]) && IdsOk(m, u.leaf[m].items, u.owner) {
      var n := Original(rho, m);
      assert IdsOk(n, s.leaf[n].items, s.owner);
    }
  }

  lemma RenamedItems(s: State, rho: Renaming)
    requires s.leaf.Keys == rho.Keys && Injective(rho)
    ensures Items(Renamed(s, rho)) == Items(s)
    ensures Bounded(s, {}) ==> Bounded(Renamed(s, rho), {})
  {
    var u := Renamed(s, rho);
    forall x | x in Items(s) ensures x in Items(u) {
      var n :| n in s.leaf && x in s.leaf[n].items;
      RenamedLeaf(s, rho, n);
    }
  }

  /** The copy satisfies the invariant and stores the same keys. */
  lemma RenamedKeeps(s: State, rho: Renaming)
    requires Sound(s) && s.leaf.Keys == rho.Keys && Injective(rho)
    ensures Sound(Renamed(s, rho)) && Items(Renamed(s, rho)) == Items(s)
    ensures Bounded(s, {}) ==> Bounded(Renamed(s, rho), {})
  {
    hide Renamed, Items, Bounded;
    assert Wf(s);
    RenamedTree(s, rho);
    RenamedBlocks(s, rho);
    RenamedLeaves(s, rho);
    RenamedItems(s, rho);
  }

  /** The copy is as tidy as the original. */
  lemma RenamedTidy(s: State, rho: Renaming)
    requires Sound(s) && Tidy(s) && s.leaf.Keys == rho.Keys && Injective(rho)
    ensures Tidy(Renamed(s, rho))
  {
    assert Wf(s);
    var u := Renamed(s, rho);
    forall m | m in u.leaf ensures Seated(u, m, |u.leaf[m].items|, {}) {
      var n := Original(rho, m);
      RenamedLeaf(s, rho, n);
      assert Seated(s, n, |s.leaf[n].items|, {});
      if |s.leaf[n].items| <= SPLITBOUND / 3 && s.leaf[n].typ > 0 { RenamedStops(s, rho, n); }
    }
    forall p | p in u.slots && p != [] ensures Shows(u, p, 0, 256) {
      assert Shows(s, p, 0, 256);
      var i: byte :| RowAt(s, p, i) != Self;
      RenamedRow(s, rho, p, i);
      assert RowAt(u, p, i) != Self;
    }
  }

  lemma RenamedStops(s: State, rho: Renaming, n: Leaf)
    requires Wf(s) && s.leaf.Keys == rho.Keys && Injective(rho) && n in s.leaf && 1 <= s.leaf[n].typ <= 8
    requires Stopped(s, n, |s.leaf[n].items|, {})
    ensures rho[n] in Renamed(s, rho).leaf && Renamed(s, rho).leaf[rho[n]] == s.leaf[n]
    ensures Stopped(Renamed(s, rho), rho[n], |s.leaf[n].items|, {})
  {
    RenamedLeaf(s, rho, n);
    hide Renamed, Sibling;
    var u, r := Renamed(s, rho), s.leaf[n];
    var i: byte := Sibling(r.path, r.typ);
    RenamedRow(s, rho, r.at, i);
    match RowAt(s, r.at, i)
    case Down =>
    case Self =>
      var j: byte :| i <= j < i + Width(r.typ) && RowAt(s, r.at, j) != Self;
      RenamedRow(s, rho, r.at, j);
      assert RowAt(u, r.at, j) != Self;
    case Hold(m) => RenamedLeaf(s, rho, m);
  }

  // ------------------------------------------------------------ what has been copied

  /** Path q leads through slots below i of node p. */
  predicate Through(q: Path, p: Path, i: int) {
    |q| > |p| && p <= q && q[|p|] < i
  }

  ghost function RowsThrough(s: State, p: Path, i: int): set<Path> {
    set q | q in s.slots && Through(q, p, i)
  }

  ghost function LeavesThrough(s: State, p: Path, i: int): set<Leaf> {
    set n | n in s.leaf && (Through(s.leaf[n].at, p, i) || (s.leaf[n].at == p && s.leaf[n].path < i))
  }

  /** Every copied leaf has the original's entries, in blocks that did not exist before. */
  ghost predicate BucketsCopied(s: State, rho: Renaming, g: Plots, before: Storage, now: Storage) {
    && rho.Keys <= s.leaf.Keys && Injective(rho) && g.Keys == rho.Values && Apart(g)
    && (forall n | n in rho :: Laid(g[rho[n]].flat, Bucket(s.leaf[n]), g[rho[n]].cells, now))
    && Exchanged(before, now, {}, All(g))
  }

  lemma LeafStart(s: State, n: Leaf)
    requires Wf(s) && n in s.leaf
    ensures s.leaf[n].at in s.slots && s.leaf[n].path < |s.slots[s.leaf[n].at]|
    ensures s.slots[s.leaf[n].at][s.leaf[n].path] == Hold(n)
  {
    assert Covers(s.leaf[n], s.leaf[n].path);
    assert RowAt(s, s.leaf[n].at, s.leaf[n].path) == Hold(n);
  }

  lemma ThroughStep(s: State, p: Path, i: byte)
    requires Sound(s) && p in s.slots && |s.slots[p]| == 256
    ensures s.slots[p][i] == Down ==>
      && Sub(p, i) in s.slots
      && RowsThrough(s, p, i + 1) == RowsThrough(s, p, i) + RowsThrough(s, Sub(p, i), 256) + {Sub(p, i)}
      && LeavesThrough(s, p, i + 1) == LeavesThrough(s, p, i) + LeavesThrough(s, Sub(p, i), 256)
      && RowsThrough(s, p, i) !! (RowsThrough(s, Sub(p, i), 256) + {Sub(p, i)})
      && LeavesThrough(s, p, i) !! LeavesThrough(s, Sub(p, i), 256)
    ensures s.slots[p][i] == Self ==>
      RowsThrough(s, p, i + 1) == RowsThrough(s, p, i) && LeavesThrough(s, p, i + 1) == LeavesThrough(s, p, i)
  {
    assert Wf(s);
    if s.slots[p][i] == Down {
      DownStep(s, p, i);
    } else if s.slots[p][i] == Self {
      NothingThrough(s, p, i);
    }
  }

  lemma DownStep(s: State, p: Path, i: byte)
    requires Wf(s) && p in s.slots && s.slots[p][i] == Down
    ensures Sub(p, i) in s.slots
    ensures RowsThrough(s, p, i + 1) == RowsThrough(s, p, i) + RowsThrough(s, Sub(p, i), 256) + {Sub(p, i)}
    ensures LeavesThrough(s, p, i + 1) == LeavesThrough(s, p, i) + LeavesThrough(s, Sub(p, i), 256)
    ensures RowsThrough(s, p, i) !! (RowsThrough(s, Sub(p, i), 256) + {Sub(p, i)})
    ensures LeavesThrough(s, p, i) !! LeavesThrough(s, Sub(p, i), 256)
  {
    forall q: Path
      ensures (Through(q, p, i + 1) <==> Through(q, p, i) || q == Sub(p, i) || Through(q, Sub(p, i), 256))
    {
      ThroughChild(q, p, i);
    }
    forall q: Path | Through(q, p, i) ensures q != Sub(p, i) && !Through(q, Sub(p, i), 256) { ThroughChild(q, p, i); }
    forall n | n in s.leaf && s.leaf[n].at == p ensures s.leaf[n].path != i { LeafStart(s, n); }
  }

  lemma ThroughChild(q: Path, p: Path, i: byte)
    ensures (q == Sub(p, i) || Through(q, Sub(p, i), 256)) <==> |q| > |p| && p <= q && q[|p|] == i
  {
    if |q| > |p| && p <= q && q[|p|] == i {
      assert q[..|p| + 1] == Sub(p, i);
    }
    if Through(q, Sub(p, i), 256) { assert q[..|p| + 1] == Sub(p, i); }
  }

  lemma NothingThrough(s: State, p: Path, i: byte)
    requires Wf(s) && p in s.slots && s.slots[p][i] != Down
    ensures RowsThrough(s, p, i + 1) == RowsThrough(s, p, i)
    ensures s.slots[p][i] == Self ==> LeavesThrough(s, p, i + 1) == LeavesThrough(s, p, i)
    ensures forall n | n in s.leaf :: Through(s.leaf[n].at, p, i + 1) ==> Through(s.leaf[n].at, p, i)
  {
    forall q | q in s.slots && Through(q, p, i + 1) ensures Through(q, p, i) {
      PrefixDown(s, q, |p|);
      assert q[..|p|] == p;
    }
    forall n | n in s.leaf && s.leaf[n].at == p && s.slots[p][i] == Self
      ensures s.leaf[n].path != i
    {
      LeafStart(s, n);
    }
  }

  /** A slot that shows a leaf: met for the first time there, or copied already. */
  lemma HoldStep(s: State, p: Path, i: byte, n: Leaf)
    requires Sound(s) && p in s.slots && |s.slots[p]| == 256 && s.slots[p][i] == Hold(n)
    ensures n in s.leaf && RowsThrough(s, p, i + 1) == RowsThrough(s, p, i)
    ensures s.leaf[n].path == i ==>
      LeavesThrough(s, p, i + 1) == LeavesThrough(s, p, i) + {n} && n !in LeavesThrough(s, p, i)
    ensures s.leaf[n].path != i ==> LeavesThrough(s, p, i + 1) == LeavesThrough(s, p, i) && n in LeavesThrough(s, p, i)
    ensures s.leaf[n].at == p
  {
    assert Wf(s);
    FirstMet(s, p, i, n);
    NothingThrough(s, p, i);
    forall k | k in s.leaf && s.leaf[k].at == p && s.leaf[k].path == i ensures k == n {
      assert Covers(s.leaf[k], i) && RowAt(s, p, i) == Hold(k);
    }
  }

  lemma NoneThrough(s: State, p: Path)
    ensures RowsThrough(s, p, 0) == {} && LeavesThrough(s, p, 0) == {}
  {
  }

  // ------------------------------------------------------------ combining copies

  lemma ExchangedTwice(a: Storage, b: Storage, c: Storage, p: set<Pointer>, q: set<Pointer>)
    requires Exchanged(a, b, {}, p) && Exchanged(b, c, {}, q)
    ensures Exchanged(a, c, {}, p + q)
  {
  }

  /** Two disjoint collections of copies, the second made after the first. */
  lemma JoinCopies(s: State, r1: Renaming, r2: Renaming, g1: Plots, g2: Plots, a: Storage, b: Storage, c: Storage)
    requires BucketsCopied(s, r1, g1, a, b) && BucketsCopied(s, r2, g2, b, c)
    requires r1.Keys !! r2.Keys && r1.Values !! r2.Values
    ensures BucketsCopied(s, r1 + r2, g1 + g2, a, c)
  {
    var r, g := r1 + r2, g1 + g2;
    JoinValues(r1, r2);
    JoinPointers(g1, g2);
    ExchangedTwice(a, b, c, All(g1), All(g2));
    JoinInjective(r1, r2);
    JoinApart(g1, g2, a, b, c);
    forall n | n in r ensures Laid(g[r[n]].flat, Bucket(s.leaf[n]), g[r[n]].cells, c) {
      JoinLaid(s, r1, r2, g1, g2, a, b, c, n);
    }
  }

  lemma JoinValues(r1: Renaming, r2: Renaming)
    requires r1.Keys !! r2.Keys
    ensures (r1 + r2).Values == r1.Values + r2.Values
  {
    var r := r1 + r2;
    forall n | n in r1 ensures r1[n] in r.Values { assert r[n] == r1[n]; }
    forall n | n in r2 ensures r2[n] in r.Values { assert r[n] == r2[n]; }
  }

  lemma JoinLaid(s: State, r1: Renaming, r2: Renaming, g1: Plots, g2: Plots, a: Storage, b: Storage, c: Storage,
                 n: Leaf)
    requires BucketsCopied(s, r1, g1, a, b) && BucketsCopied(s, r2, g2, b, c)
    requires r1.Keys !! r2.Keys && r1.Values !! r2.Values && (n in r1 || n in r2)
    ensures var r, g := r1 + r2, g1 + g2;
      r[n] in g && Laid(g[r[n]].flat, Bucket(s.leaf[n]), g[r[n]].cells, c)
  {
    if n in r2 {
      assert r2[n] in r2.Values;
    } else {
      assert r1[n] in r1.Values && r1[n] !in r2.Values;
      CopyStands(s, r1, g1, a, b, c, n, All(g2));
    }
  }

  lemma JoinPointers(g1: Plots, g2: Plots)
    requires g1.Keys !! g2.Keys
    ensures All(g1 + g2) == All(g1) + All(g2)
  {
    var g := g1 + g2;
    forall p | p in All(g1) ensures p in All(g) {
      var n :| n in g1 && p in Pointers(g1[n].cells);
      assert n in g && g[n] == g1[n];
    }
    forall p | p in All(g2) ensures p in All(g) {
      var n :| n in g2 && p in Pointers(g2[n].cells);
      assert n in g && g[n] == g2[n];
    }
  }

  lemma JoinInjective(r1: Renaming, r2: Renaming)
    requires Injective(r1) && Injective(r2) && r1.Keys !! r2.Keys && r1.Values !! r2.Values
    ensures Injective(r1 + r2)
  {
    forall n, k | n in r1 && k in r2 ensures r1[n] != r2[k] {
      assert r1[n] in r1.Values && r2[k] in r2.Values;
    }
  }

  lemma JoinApart(g1: Plots, g2: Plots, a: Storage, b: Storage, c: Storage)
    requires Apart(g1) && Apart(g2) && g1.Keys !! g2.Keys
    requires Exchanged(a, b, {}, All(g1)) && Exchanged(b, c, {}, All(g2))
    ensures Apart(g1 + g2)
  {
    forall n, k | n in g1 && k in g2 ensures Pointers(g1[n].cells) !! Pointers(g2[k].cells) {
      forall p | p in Pointers(g1[n].cells) ensures p in b { assert p in All(g1); }
      forall p | p in Pointers(g2[k].cells) ensures p !in b { assert p in All(g2); }
    }
  }

  /** A copy is not disturbed by later allocations. */
  lemma CopyStands(s: State, rho: Renaming, g: Plots, a: Storage, b: Storage, c: Storage, n: Leaf, more: set<Pointer>)
    requires BucketsCopied(s, rho, g, a, b) && Exchanged(b, c, {}, more) && n in rho
    ensures rho[n] in g && Laid(g[rho[n]].flat, Bucket(s.leaf[n]), g[rho[n]].cells, c)
  {
    assert rho[n] in rho.Values;
    OriginalStays(g[rho[n]].flat, Bucket(s.leaf[n]), g[rho[n]].cells, b, c);
  }

  lemma OneCopied(s: State, n: Leaf, m: Leaf, f: Flat, y: seq<Cell>, before: Storage, now: Storage)
    requires n in s.leaf && Laid(f, Bucket(s.leaf[n]), y, now) && Exchanged(before, now, {}, Pointers(y))
    ensures BucketsCopied(s, map[n := m], map[m := Plot(f, y)], before, now)
  {
    var rho: Renaming, g: Plots := map[n := m], map[m := Plot(f, y)];
    OnePlot(map[], m, Plot(f, y));
    assert rho[n] == m && rho.Values == {m} == g.Keys;
    assert BucketsCopied(s, rho, g, before, now);
  }

  lemma NothingCopied(s: State, blocks: Storage)
    ensures BucketsCopied(s, map[], map[], blocks, blocks)
  {
    var rho: Renaming, g: Plots := map[], map[];
    assert rho.Values == {} == g.Keys && rho.Keys == {};
    assert All(g) == {} && Exchanged(blocks, blocks, {}, {});
    assert BucketsCopied(s, rho, g, blocks, blocks);
  }

  // ------------------------------------------------------------ how many keys a part holds

  ghost function ItemsOf(s: State, leaves: set<Leaf>): set<Item> {
    set n, x | n in leaves && n in s.leaf && x in s.leaf[n].items :: x
  }

  /** The keys below the first i slots of node p. */
  ghost function Need(s: State, p: Path, i: nat): nat {
    |ItemsOf(s, LeavesThrough(s, p, i))|
  }

  lemma ItemsOfParts(s: State, a: set<Leaf>, b: set<Leaf>)
    requires Sound(s) && a !! b
    ensures |ItemsOf(s, a + b)| == |ItemsOf(s, a)| + |ItemsOf(s, b)|
  {
    assert Wf(s);
    assert ItemsOf(s, a + b) == ItemsOf(s, a) + ItemsOf(s, b);
    forall x | x in ItemsOf(s, a) ensures x !in ItemsOf(s, b) {
      var n :| n in a && n in s.leaf && x in s.leaf[n].items;
      forall k | k in b && k in s.leaf ensures x !in s.leaf[k].items {
        if x in s.leaf[k].items { OneHome(s, n, x, k, x); }
      }
    }
  }

  lemma {:induction false} DistinctCount(items: seq<Item>)
    requires forall i, j | 0 <= i < j < |items| :: items[i] != items[j]
    ensures |set x | x in items| == |items|
    decreases |items|
  {
    if items != [] {
      var rest := items[..|items|-1];
      DistinctCount(rest);
      assert items == rest + [items[|items|-1]];
      assert (set x | x in items) == (set x | x in rest) + {items[|items|-1]};
    }
  }

  lemma LeafCount(s: State, n: Leaf)
    requires Sound(s) && n in s.leaf
    ensures |ItemsOf(s, {n})| == |s.leaf[n].items|
  {
    WfLeaf(s, n);
    var items := s.leaf[n].items;
    forall i, j | 0 <= i < j < |items| ensures items[i] != items[j] { LessIrreflexive(Enc(items[i].key)); }
    DistinctCount(items);
    assert ItemsOf(s, {n}) == set x | x in items;
  }

  lemma NeedGrows(s: State, p: Path, i: nat, j: nat)
    requires i <= j
    ensures Need(s, p, i) <= Need(s, p, j)
  {
    var a, b := ItemsOf(s, LeavesThrough(s, p, i)), ItemsOf(s, LeavesThrough(s, p, j));
    assert a <= b;
    assert |b - a| == |b| - |a|;
  }

  lemma NeedOfChild(s: State, p: Path, i: byte)
    requires Sound(s) && p in s.slots && |s.slots[p]| == 256 && s.slots[p][i] == Down
    ensures Need(s, p, i + 1) == Need(s, p, i) + Need(s, Sub(p, i), 256)
  {
    ThroughStep(s, p, i);
    ItemsOfParts(s, LeavesThrough(s, p, i), LeavesThrough(s, Sub(p, i), 256));
  }

  lemma NeedOfLeaf(s: State, p: Path, i: byte, n: Leaf)
    requires Sound(s) && p in s.slots && |s.slots[p]| == 256 && s.slots[p][i] == Hold(n)
    ensures n in s.leaf
    ensures Need(s, p, i + 1) == Need(s, p, i) + if s.leaf[n].path == i then |s.leaf[n].items| else 0
  {
    HoldStep(s, p, i, n);
    if s.leaf[n].path == i {
      ItemsOfParts(s, LeavesThrough(s, p, i), {n});
      LeafCount(s, n);
    }
  }

  // ------------------------------------------------------------ the clone of one node and all below it

  /** The copy of a slot's content. */
  ghost predicate ShownOk(c: Child, v: Slot, rho: Renaming, q: Path, i: byte, at: map<Path, Fwd>)
    requires q in at
  {
    match v
    case Self => c == FwdChild(at[q])
    case Down => Sub(q, i) in at && c == FwdChild(at[Sub(q, i)])
    case Hold(n) => n in rho && c == LeafChild(rho[n])
  }

  /** Node f is the copy of node q as far as its first k slots go. */
  ghost predicate FaceOk(f: Fwd, q: Path, row: seq<Slot>, rho: Renaming, at: map<Path, Fwd>, k: nat)
    reads f.children
  {
    && f.prefix == q && f.children.Length == 256 == |row| && q in at && at[q] == f && k <= 256
    && forall i: byte | i < k :: ShownOk(f.children[i], row[i], rho, q, i, at)
  }

  ghost predicate LinkOk(f: Fwd, q: Path, at: map<Path, Fwd>)
    reads f
  {
    q != [] && Front(q) in at && f.parent == at[Front(q)] && f.path == Last(q)
  }

  /** The nodes below p are copied in full. */
  ghost predicate OthersCopied(s: State, rho: Renaming, at: map<Path, Fwd>, p: Path)
    reads set q | q in at && q != p :: at[q], set q | q in at && q != p :: at[q].children
  {
    forall q {:trigger at[q]} | q in at && q != p ::
      q in s.slots && FaceOk(at[q], q, s.slots[q], rho, at, 256) && LinkOk(at[q], q, at)
  }

  ghost predicate LeavesCopied(s: State, rho: Renaming, at: map<Path, Fwd>, g: Plots)
    reads rho.Values
  {
    forall n | n in rho :: n in s.leaf && rho[n] in g && LeafOk(rho[n], s.leaf[n], at, g[rho[n]].flat, false)
  }

  /** Node p, the leaves of its first i slots and everything below these slots have been copied. */
  ghost predicate Part(s: State, rho: Renaming, at: map<Path, Fwd>, g: Plots, before: Storage, now: Storage, p: Path,
                       i: nat)
    reads set q | q in at :: at[q], set q | q in at :: at[q].children, rho.Values
  {
    && p in at && p in s.slots && at.Keys == RowsThrough(s, p, i) + {p} && rho.Keys == LeavesThrough(s, p, i)
    && SlotsApart(at) && FaceOk(at[p], p, s.slots[p], rho, at, i) && OthersCopied(s, rho, at, p)
    && LeavesCopied(s, rho, at, g) && BucketsCopied(s, rho, g, before, now)
  }

  /** Every slot that is filled stays right as more is copied. */
  lemma FaceGrows(f: Fwd, q: Path, row: seq<Slot>, rho: Renaming, at: map<Path, Fwd>, k: nat, rho': Renaming,
                  at': map<Path, Fwd>)
    requires FaceOk(f, q, row, rho, at, k) && rho.Keys !! rho'.Keys && at.Keys !! at'.Keys
    ensures FaceOk(f, q, row, rho + rho', at + at', k) && FaceOk(f, q, row, rho' + rho, at' + at, k)
  {
  }

  lemma LinkGrows(f: Fwd, q: Path, at: map<Path, Fwd>, at': map<Path, Fwd>)
    requires LinkOk(f, q, at) && at.Keys !! at'.Keys
    ensures LinkOk(f, q, at + at') && LinkOk(f, q, at' + at)
  {
  }

  lemma LeavesGrow(s: State, rho: Renaming, at: map<Path, Fwd>, g: Plots, rho': Renaming, at': map<Path, Fwd>,
                   g': Plots)
    requires LeavesCopied(s, rho, at, g) && LeavesCopied(s, rho', at', g')
    requires rho.Keys !! rho'.Keys && at.Keys !! at'.Keys && rho.Values !! g'.Keys && rho'.Values <= g'.Keys
    ensures LeavesCopied(s, rho + rho', at + at', g + g')
  {
    forall n | n in rho + rho' ensures
      var m := (rho + rho')[n];
      n in s.leaf && m in g + g' && LeafOk(m, s.leaf[n], at + at', (g + g')[m].flat, false)
    {
      if n in rho' { assert rho'[n] in rho'.Values; } else { assert rho[n] in rho.Values; }
    }
  }

  lemma OthersGrow(s: State, rho: Renaming, at: map<Path, Fwd>, p: Path, rho': Renaming, at': map<Path, Fwd>, q: Path)
    requires OthersCopied(s, rho, at, p) && OthersCopied(s, rho', at', q) && q in at' && p in at
    requires q in s.slots && FaceOk(at'[q], q, s.slots[q], rho', at', 256) && LinkOk(at'[q], q, at)
    requires rho.Keys !! rho'.Keys && at.Keys !! at'.Keys
    ensures OthersCopied(s, rho + rho', at + at', p)
  {
    var a := at + at';
    forall r | r in a && r != p
      ensures r in s.slots && FaceOk(a[r], r, s.slots[r], rho + rho', a, 256) && LinkOk(a[r], r, a)
    {
      if r in at' {
        FaceGrows(at'[r], r, s.slots[r], rho', at', 256, rho, at);
        if r == q { LinkGrows(at'[r], r, at, at'); } else { LinkGrows(at'[r], r, at', at); }
      } else {
        FaceGrows(at[r], r, s.slots[r], rho, at, 256, rho', at');
        LinkGrows(at[r], r, at, at');
      }
    }
  }

  /** What was stored before stays. */
  ghost predicate Kept(start: Storage, now: Storage) {
    forall p | p in start :: p in now && now[p] == start[p]
  }

  lemma KeptOn(start: Storage, before: Storage, now: Storage, more: set<Pointer>)
    requires Kept(start, before) && Exchanged(before, now, {}, more)
    ensures Kept(start, now)
  {
  }

  /** The original, while it is being copied. */
  ghost predicate Source(t: Trie, start: Storage)
    reads t, t.heap, t.Repr
  {
    Standing(t) && !t.entries && Conserved(t.s.leaf, t.plots, start) && Kept(start, t.heap.blocks) && t.heap.Valid()
  }

  /** A new leaf with a copy of the bucket. */
  method CopyLeaf(t: Trie, n: Leaf, g: Fwd, encsize: u16, depth: nat, ghost start: Storage)
    returns (m: Leaf, ghost p: Plot)
    requires Source(t, start) && n in t.s.leaf && |t.heap.free| >= |t.s.leaf[n].items|
    requires depth == |t.s.leaf[n].at| && encsize == Collected(t.s.leaf[n].at)
    modifies t.heap
    ensures Source(t, start) && |t.heap.free| >= |old(t.heap.free)| - |t.s.leaf[n].items| && fresh(m)
    ensures m.parent == g && m.path == t.s.leaf[n].path && m.typ == t.s.leaf[n].typ && m.flat == p.flat
    ensures |m.flat.firsts| == |t.s.leaf[n].items| && m.flat.ids == [] && !m.deleted
    ensures Laid(p.flat, Bucket(t.s.leaf[n]), p.cells, t.heap.blocks)
    ensures Exchanged(old(t.heap.blocks), t.heap.blocks, {}, Pointers(p.cells))
  {
    hide Conserved, Laid, Exchanged, Kept, Trie.Matches, BlockHeap.Valid, Lengths;
    ghost var r, before := t.s.leaf[n], t.heap.blocks;
    t.PlaceOf(n);
    m := new Leaf(n.path, n.typ, g, EMPTY_BUCKET);
    SourceLeaf(t, start, n);
    ghost var x := r.items[0];
    var f, y := CloneBytes(n.flat, encsize, depth, t.heap, Bucket(r), t.plots[n].cells, |x.key|);
    LaidSizes(f, Bucket(r), y, t.heap.blocks);
    m.flat := f;
    p := Plot(f, y);
    KeptOn(start, before, t.heap.blocks, Pointers(y));
  }

  /** What the byte routine needs of a leaf of the original. */
  lemma SourceLeaf(t: Trie, start: Storage, n: Leaf)
    requires Source(t, start) && n in t.s.leaf
    ensures n in t.plots && n.flat == t.plots[n].flat && t.s.leaf[n].items != []
    ensures var r := t.s.leaf[n];
      var size := |r.items[0].key|;
      && Laid(n.flat, Bucket(r), t.plots[n].cells, t.heap.blocks)
      && Lengths(Bucket(r), |r.at|, size) && 1 <= size && |r.at| <= size + 1
        && Collected(r.at) == CollectedSize(size, |r.at|)
  {
    hide Conserved, Laid, Trie.Matches, BlockHeap.Valid, Lengths;
    t.PlaceOf(n);
    var r := t.s.leaf[n];
    LeafBytes(t.s.leaf, t.plots, start, n);
    OriginalStays(n.flat, Bucket(r), t.plots[n].cells, start, t.heap.blocks);
    WfLeaf(t.s, n);
    KeyLengths(r, r.items[0]);
    CollectedIs(r.at, |r.items[0].key|);
  }

  /** Fills slot i of the copy of node p. */
  method WriteSlot(g: Fwd, i: byte, c: Child, ghost s: State, ghost rho: Renaming, ghost at: map<Path, Fwd>,
                   ghost p: Path)
    requires p in at && at[p] == g && p in s.slots && SlotsApart(at)
    requires FaceOk(g, p, s.slots[p], rho, at, i) && OthersCopied(s, rho, at, p)
    requires ShownOk(c, s.slots[p][i], rho, p, i, at)
    modifies g.children
    ensures FaceOk(g, p, s.slots[p], rho, at, i + 1) && OthersCopied(s, rho, at, p)
  {
    hide LinkOk, ShownOk;
    g.children[i] := c;
    forall q | q in at && q != p
      ensures q in s.slots && FaceOk(at[q], q, s.slots[q], rho, at, 256) && LinkOk(at[q], q, at)
    {
      assert old(FaceOk(at[q], q, s.slots[q], rho, at, 256)) && old(LinkOk(at[q], q, at));
      assert at[q].children != g.children;
    }
  }

  /** The slot is filled with what needs no copying: the node itself, or the leaf of the slot before. */
  method CopyPlain(t: Trie, g: Fwd, i: byte, c: Child, ghost p: Path, ghost rho: Renaming, ghost at: map<Path, Fwd>,
                   ghost g2: Plots, ghost before: Storage)
    requires Part(t.s, rho, at, g2, before, t.heap.blocks, p, i) && at[p] == g && Sound(t.s) && |t.s.slots[p]| == 256
    requires RowsThrough(t.s, p, i + 1) == RowsThrough(t.s, p, i)
    requires LeavesThrough(t.s, p, i + 1) == LeavesThrough(t.s, p, i)
    requires ShownOk(c, t.s.slots[p][i], rho, p, i, at) && g.children !in t.Repr && Standing(t)
    modifies g.children
    ensures Part(t.s, rho, at, g2, before, t.heap.blocks, p, i + 1) && Standing(t)
  {
    hide FaceOk, OthersCopied, BucketsCopied, RowsThrough, LeavesThrough, Trie.Matches;
    WriteSlot(g, i, c, t.s, rho, at, p);
  }

  /** A leaf met for the first time. */
  method CopyHold(t: Trie, n: Leaf, g: Fwd, i: byte, encsize: u16, depth: nat, ghost p: Path, ghost rho: Renaming,
                  ghost at: map<Path, Fwd>, ghost g2: Plots, ghost start: Storage, ghost before: Storage)
    returns (ghost rho': Renaming, ghost g2': Plots)
    requires Source(t, start) && Part(t.s, rho, at, g2, before, t.heap.blocks, p, i) && at[p] == g
    requires g.children !in t.Repr
    requires |t.s.slots[p]| == 256 && t.s.slots[p][i] == Hold(n) && n in t.s.leaf && t.s.leaf[n].path == i
    requires depth == |p| && encsize == Collected(p) && |t.heap.free| >= |t.s.leaf[n].items|
    modifies g.children, t.heap
    ensures Source(t, start) && Part(t.s, rho', at, g2', before, t.heap.blocks, p, i + 1)
    ensures forall k | k in rho' :: (k in rho && rho'[k] == rho[k]) || fresh(rho'[k])
    ensures |t.heap.free| >= |old(t.heap.free)| - |t.s.leaf[n].items|
  {
    hide Conserved, Kept, Trie.Matches, BlockHeap.Valid, FaceOk, OthersCopied, BucketsCopied, RowsThrough,
         LeavesThrough, LeavesCopied, SlotsApart, Laid, Exchanged, LeafOk;
    ghost var s, now := t.s, t.heap.blocks;
    HoldStep(s, p, i, n);
    var m, q := CopyLeaf(t, n, g, encsize, depth, start);
    rho', g2' := rho + map[n := m], g2 + map[m := q];
    LeafJoins(s, rho, at, g2, before, now, p, i, n, m, q, t.heap.blocks);
    WriteSlot(g, i, LeafChild(m), s, rho', at, p);
  }

  /** What a new leaf adds to the copy of node p. */
  lemma LeafJoins(s: State, rho: Renaming, at: map<Path, Fwd>, g: Plots, a: Storage, b: Storage, p: Path, i: byte,
                  n: Leaf, m: Leaf, q: Plot, c: Storage)
    requires p in at && p in s.slots && Part(s, rho, at, g, a, b, p, i) && n in s.leaf && n !in rho && m !in rho.Values
    requires Laid(q.flat, Bucket(s.leaf[n]), q.cells, c) && Exchanged(b, c, {}, Pointers(q.cells))
    requires s.leaf[n].at in at && m.parent == at[s.leaf[n].at] && m.path == s.leaf[n].path && m.typ == s.leaf[n].typ
    requires m.flat == q.flat && |m.flat.firsts| == |s.leaf[n].items| && m.flat.ids == [] && !m.deleted
    ensures var rho', g' := rho + map[n := m], g + map[m := q];
      && rho'.Keys == rho.Keys + {n} && rho'[n] == m
      && FaceOk(at[p], p, s.slots[p], rho', at, i) && OthersCopied(s, rho', at, p)
      && LeavesCopied(s, rho', at, g') && BucketsCopied(s, rho', g', a, c)
      && ShownOk(LeafChild(m), Hold(n), rho', p, i, at)
  {
    hide FaceOk, OthersCopied, BucketsCopied, RowsThrough, LeavesThrough, Laid, Exchanged, LeavesCopied, SlotsApart;
    var r2: Renaming := map[n := m];
    OneCopied(s, n, m, q.flat, q.cells, b, c);
    assert r2[n] == m && r2.Values == {m};
    JoinCopies(s, rho, r2, g, map[m := q], a, b, c);
    FaceGrows(at[p], p, s.slots[p], rho, at, i, r2, map[]);
    NoMoreNodes(s, rho, at, p, r2);
    CopiedKeys(s, rho, g, a, b);
    NewLeafOk(s, rho, at, g, n, m, q);
    assert at + map[] == at;
  }

  lemma NoMoreNodes(s: State, rho: Renaming, at: map<Path, Fwd>, p: Path, r2: Renaming)
    requires OthersCopied(s, rho, at, p) && rho.Keys !! r2.Keys
    ensures OthersCopied(s, rho + r2, at, p)
  {
    forall q | q in at && q != p ensures FaceOk(at[q], q, s.slots[q], rho + r2, at, 256) {
      FaceGrows(at[q], q, s.slots[q], rho, at, 256, r2, map[]);
      assert at + map[] == at;
    }
  }

  lemma NewLeafOk(s: State, rho: Renaming, at: map<Path, Fwd>, g: Plots, n: Leaf, m: Leaf, q: Plot)
    requires LeavesCopied(s, rho, at, g) && n in s.leaf && n !in rho && m !in rho.Values && g.Keys == rho.Values
    requires s.leaf[n].at in at && m.parent == at[s.leaf[n].at] && m.path == s.leaf[n].path && m.typ == s.leaf[n].typ
    requires m.flat == q.flat && |m.flat.firsts| == |s.leaf[n].items| && m.flat.ids == [] && !m.deleted
    ensures LeavesCopied(s, rho + map[n := m], at, g + map[m := q])
  {
    forall k | k in rho ensures rho[k] != m { assert rho[k] in rho.Values; }
  }

  /** A child node with everything below it. */
  method CopyDown(t: Trie, child: Fwd, g: Fwd, i: byte, encsize: u16, depth: nat, ghost p: Path, ghost rho: Renaming,
                  ghost at: map<Path, Fwd>, ghost g2: Plots, ghost start: Storage, ghost before: Storage)
    returns (ghost rho': Renaming, ghost at': map<Path, Fwd>, ghost g2': Plots)
    requires Source(t, start) && Part(t.s, rho, at, g2, before, t.heap.blocks, p, i) && at[p] == g
    requires g.children !in t.Repr
    requires |t.s.slots[p]| == 256 && t.s.slots[p][i] == Down && Sub(p, i) in t.at && t.at[Sub(p, i)] == child
    requires child.path == i
    requires depth == |p| <= 0x1_0000 && encsize == Collected(p) && |t.heap.free| >= Need(t.s, Sub(p, i), 256)
    modifies g.children, t.heap
    ensures Source(t, start) && Part(t.s, rho', at', g2', before, t.heap.blocks, p, i + 1) && at'[p] == g
    ensures forall k | k in rho' :: (k in rho && rho'[k] == rho[k]) || fresh(rho'[k])
    ensures forall q | q in at' :: (q in at && at'[q] == at[q]) || (fresh(at'[q]) && fresh(at'[q].children))
    ensures |t.heap.free| >= |old(t.heap.free)| - Need(t.s, Sub(p, i), 256)
    decreases 0x1_0000 - |p|, 0
  {
    hide Conserved, Kept, Trie.Matches, BlockHeap.Valid, FaceOk, OthersCopied, BucketsCopied, RowsThrough,
         LeavesThrough, Laid, Exchanged, LeavesCopied, Need;
    ghost var s, now, q := t.s, t.heap.blocks, Sub(p, i);
    ThroughStep(s, p, i);
    BelowCollects(p, i);
    PathBound(s, q);
    var nn := new Fwd(q, 0, g);
    ghost var r2, a2, gb := CopyNode(t, child, nn, Below(encsize, depth, i), depth + 1, q, start);
    rho', at', g2' := rho + r2, at + a2, g2 + gb;
    NodeLinked(nn, p, i, at);
    ChildJoins(s, rho, at, g2, before, now, p, i, r2, a2, gb, t.heap.blocks);
    ApartTogether(at, a2);
    WriteSlot(g, i, FwdChild(nn), s, rho', at', p);
  }

  lemma NotBelowItself(s: State, p: Path, i: byte)
    ensures p !in RowsThrough(s, Sub(p, i), 256) + {Sub(p, i)}
  {
  }

  /** What the copy of a child adds to that of node p. */
  lemma ChildJoins(s: State, rho: Renaming, at: map<Path, Fwd>, g: Plots, a: Storage, b: Storage, p: Path, i: byte,
                   rho': Renaming, at': map<Path, Fwd>, g': Plots, c: Storage)
    requires Sound(s) && Part(s, rho, at, g, a, b, p, i) && Part(s, rho', at', g', b, c, Sub(p, i), 256)
    requires |s.slots[p]| == 256 && s.slots[p][i] == Down && LinkOk(at'[Sub(p, i)], Sub(p, i), at)
    requires rho.Values !! rho'.Values
    ensures at.Keys !! at'.Keys && (at + at').Keys == RowsThrough(s, p, i + 1) + {p}
    ensures (rho + rho').Keys == LeavesThrough(s, p, i + 1) && (at + at')[p] == at[p]
    ensures FaceOk(at[p], p, s.slots[p], rho + rho', at + at', i) && OthersCopied(s, rho + rho', at + at', p)
    ensures LeavesCopied(s, rho + rho', at + at', g + g') && BucketsCopied(s, rho + rho', g + g', a, c)
    ensures ShownOk(FwdChild(at'[Sub(p, i)]), Down, rho + rho', p, i, at + at')
  {
    hide FaceOk, OthersCopied, BucketsCopied, RowsThrough, LeavesThrough, LeavesCopied, SlotsApart, LinkOk;
    var q := Sub(p, i);
    ThroughStep(s, p, i);
    NotBelowItself(s, p, i);
    CopiedKeys(s, rho, g, a, b);
    CopiedKeys(s, rho', g', b, c);
    JoinCopies(s, rho, rho', g, g', a, b, c);
    OthersGrow(s, rho, at, p, rho', at', q);
    FaceGrows(at[p], p, s.slots[p], rho, at, i, rho', at');
    LeavesGrow(s, rho, at, g, rho', at', g');
  }

  lemma NodeLinked(f: Fwd, p: Path, i: byte, at: map<Path, Fwd>)
    requires p in at && f.parent == at[p] && f.path == i
    ensures LinkOk(f, Sub(p, i), at)
  {
    FrontOfSub(p, i);
  }

  lemma CopiedKeys(s: State, rho: Renaming, g: Plots, before: Storage, now: Storage)
    requires BucketsCopied(s, rho, g, before, now)
    ensures g.Keys == rho.Values
  {
  }

  lemma ApartTogether(a: map<Path, Fwd>, b: map<Path, Fwd>)
    requires SlotsApart(a) && SlotsApart(b) && a.Keys !! b.Keys
    requires forall p, q | p in a && q in b :: a[p].children != b[q].children
    ensures SlotsApart(a + b)
  {
  }

  lemma PathBound(s: State, p: Path)
    requires Sound(s) && p in s.slots
    ensures |p| <= 0x1_0000 && |s.slots[p]| == 256
  {
    assert Wf(s);
    assert DepthOk(p);
  }

  /** Copies what slot i of node p shows: itself, the leaf of the slot before it, a new leaf, or a child node. */
  method CopySlot(t: Trie, f: Fwd, g: Fwd, i: byte, encsize: u16, depth: nat, ghost p: Path, ghost rho: Renaming,
                  ghost at: map<Path, Fwd>, ghost g2: Plots, ghost start: Storage, ghost before: Storage)
    returns (ghost rho': Renaming, ghost at': map<Path, Fwd>, ghost g2': Plots)
    requires Source(t, start) && Part(t.s, rho, at, g2, before, t.heap.blocks, p, i) && at[p] == g
    requires g.children !in t.Repr
    requires p in t.at && t.at[p] == f && f.children.Length == 256 && |t.s.slots[p]| == 256
    requires depth == |p| <= 0x1_0000 && encsize == Collected(p)
    requires |t.heap.free| >= Need(t.s, p, i + 1) - Need(t.s, p, i)
    modifies g.children, t.heap
    ensures Source(t, start) && Part(t.s, rho', at', g2', before, t.heap.blocks, p, i + 1) && at'[p] == g
    ensures forall k | k in rho' :: (k in rho && rho'[k] == rho[k]) || fresh(rho'[k])
    ensures forall q | q in at' :: (q in at && at'[q] == at[q]) || (fresh(at'[q]) && fresh(at'[q].children))
    ensures |t.heap.free| >= |old(t.heap.free)| - (Need(t.s, p, i + 1) - Need(t.s, p, i))
    decreases 0x1_0000 - |p|, 1
  {
    hide Conserved, Kept, Trie.Matches, BlockHeap.Valid, OthersCopied, BucketsCopied, RowsThrough, LeavesThrough,
         LeavesCopied, Need, Collected;
    rho', at', g2' := rho, at, g2;
    SlotIs(t, p, i);
    ThroughStep(t.s, p, i);
    var child := f.children[i];
    if child == FwdChild(f) {
      SameNeed(t.s, p, i);
      CopyPlain(t, g, i, FwdChild(g), p, rho, at, g2, before);
      return;
    }
    if t.s.slots[p][i].Hold? {
      FirstMet(t.s, p, i, child.leaf);
      HoldStep(t.s, p, i, child.leaf);
      NeedOfLeaf(t.s, p, i, child.leaf);
    }
    if i > 0 { SameAsBefore(t, p, i); }
    if i > 0 && child == f.children[i-1] {
      CopyPlain(t, g, i, g.children[i-1], p, rho, at, g2, before);
      return;
    }
    match child {
      case FwdChild(c) =>
        NeedOfChild(t.s, p, i);
        rho', at', g2' := CopyDown(t, c, g, i, encsize, depth, p, rho, at, g2, start, before);
      case LeafChild(n) =>
        rho', g2' := CopyHold(t, n, g, i, encsize, depth, p, rho, at, g2, start, before);
      case Null =>
    }
  }

  lemma SameNeed(s: State, p: Path, i: nat)
    requires LeavesThrough(s, p, i + 1) == LeavesThrough(s, p, i)
    ensures Need(s, p, i + 1) == Need(s, p, i)
  {
  }

  /** Copies node p into g, with everything below it, slot by slot. */
  method CopyNode(t: Trie, f: Fwd, g: Fwd, encsize: u16, depth: nat, ghost p: Path, ghost start: Storage)
    returns (ghost rho: Renaming, ghost at: map<Path, Fwd>, ghost g2: Plots)
    requires Source(t, start) && p in t.at && t.at[p] == f && p in t.s.slots
    requires g.prefix == p && g.children.Length == 256 && g !in t.Repr && g.children !in t.Repr
    requires depth == |p| && encsize == Collected(p) && |t.heap.free| >= Need(t.s, p, 256)
    modifies g, g.children, t.heap
    ensures Source(t, start) && g.parent == old(g.parent) && g.path == f.path
    ensures Part(t.s, rho, at, g2, old(t.heap.blocks), t.heap.blocks, p, 256) && at[p] == g
    ensures forall q | q in at && q != p :: fresh(at[q]) && fresh(at[q].children)
    ensures forall n | n in rho :: fresh(rho[n])
    ensures |t.heap.free| >= |old(t.heap.free)| - Need(t.s, p, 256)
    decreases 0x1_0000 - |p|, 2
  {
    hide Conserved, Kept, Trie.Matches, BlockHeap.Valid, OthersCopied, BucketsCopied, RowsThrough, LeavesThrough,
         LeavesCopied, Need, FaceOk;
    ghost var before, s := t.heap.blocks, t.s;
    PathBound(s, p);
    t.AboutNode(p);
    g.path := f.path;
    rho, at, g2 := map[], map[p := g], map[];
    NothingYet(s, p, g, before);
    for i := 0 to 256
      invariant Source(t, start) && g.parent == old(g.parent) && g.path == f.path
      invariant Part(s, rho, at, g2, before, t.heap.blocks, p, i) && at[p] == g
      invariant forall q | q in at && q != p :: fresh(at[q]) && fresh(at[q].children)
      invariant forall n | n in rho :: fresh(rho[n])
      invariant |t.heap.free| >= |old(t.heap.free)| - Need(s, p, i)
    {
      NeedGrows(s, p, i + 1, 256);
      rho, at, g2 := CopySlot(t, f, g, i, encsize, depth, p, rho, at, g2, start, before);
    }
  }

  lemma NothingYet(s: State, p: Path, g: Fwd, blocks: Storage)
    requires p in s.slots && |s.slots[p]| == 256 && g.prefix == p && g.children.Length == 256
    ensures Part(s, map[], map[p := g], map[], blocks, blocks, p, 0) && Need(s, p, 0) == 0
  {
    NoneThrough(s, p);
    NothingCopied(s, blocks);
    assert ItemsOf(s, {}) == {};
  }

  lemma WholeTrie(s: State)
    requires Sound(s)
    ensures RowsThrough(s, [], 256) + {[]} == s.slots.Keys && LeavesThrough(s, [], 256) == s.leaf.Keys
    ensures Need(s, [], 256) == |Items(s)|
  {
    assert Wf(s);
    forall q: Path ensures Through(q, [], 256) <==> q != [] {
    }
    assert ItemsOf(s, s.leaf.Keys) == Items(s);
  }

  // ------------------------------------------------------------ the copy as a trie

  ghost function Objects(at: map<Path, Fwd>, rho: Renaming): set<object> {
    (set q | q in at :: at[q]) + (set q | q in at :: at[q].children) + rho.Values
  }

  lemma CopiedNode(s: State, rho: Renaming, at: map<Path, Fwd>, q: Path)
    requires Sound(s) && q in at && at.Keys == s.slots.Keys && s.leaf.Keys == rho.Keys && Injective(rho)
    requires FaceOk(at[q], q, s.slots[q], rho, at, 256)
    requires if q == [] then at[q].parent == null else LinkOk(at[q], q, at)
    ensures q in Renamed(s, rho).slots && NodeOk(at[q], q, Renamed(s, rho).slots[q], at)
  {
    forall i: byte ensures SlotOk(at[q].children[i], RenameRow(s.slots[q], rho)[i], q, i, at) {
      assert ShownOk(at[q].children[i], s.slots[q][i], rho, q, i, at);
    }
  }

  /** The copied objects are what the renamed trie says. */
  lemma CopyMirrors(s: State, u: Trie, rho: Renaming, at: map<Path, Fwd>, g: Plots, before: Storage, now: Storage)
    requires Sound(s) && Part(s, rho, at, g, before, now, [], 256) && at[[]].parent == null
    requires s.leaf.Keys == rho.Keys && at.Keys == s.slots.Keys && Injective(rho)
    requires u.at == at && u.plots == g && u.s == Renamed(s, rho) && Objects(at, rho) <= u.Repr && !u.entries
    requires u.gone == {}
    ensures u.at.Keys == u.s.slots.Keys && u.Mirrors(u.s)
  {
    hide FaceOk, LinkOk, NodeOk, RowsThrough, LeavesThrough, BucketsCopied, Renamed, SlotsApart;
    RenamedShape(s, rho);
    forall q | q in at ensures q in s.slots && NodeOk(at[q], q, Renamed(s, rho).slots[q], at) {
      CopiedNode(s, rho, at, q);
    }
    CopiedKeys(s, rho, g, before, now);
    forall m | m in u.s.leaf ensures m in u.Repr && m in g && LeafOk(m, u.s.leaf[m], at, g[m].flat, false) {
      var n := Original(rho, m);
      RenamedLeaf(s, rho, n);
      assert LeafOk(rho[n], s.leaf[n], at, g[rho[n]].flat, false);
    }
    assert NodesIn(at, u.Repr);
  }

  lemma RenamedShape(s: State, rho: Renaming)
    requires s.leaf.Keys == rho.Keys && Injective(rho)
    ensures Renamed(s, rho).slots.Keys == s.slots.Keys && Renamed(s, rho).leaf.Keys == rho.Values
  {
  }

  /** The copy's blocks are accounted for. */
  lemma CopyConserved(s: State, rho: Renaming, g: Plots, before: Storage, now: Storage)
    requires s.leaf.Keys == rho.Keys && BucketsCopied(s, rho, g, before, now)
    ensures Conserved(Renamed(s, rho).leaf, g, now) && Exchanged(before, now, {}, All(g))
  {
    var u := Renamed(s, rho);
    forall m | m in u.leaf ensures Holds(u.leaf[m], g[m], now) {
      var n := Original(rho, m);
      RenamedLeaf(s, rho, n);
    }
  }

  /** The original's blocks still are, and are not the copy's. */
  lemma SourceConserved(m: Leaves, g: Plots, start: Storage, now: Storage, more: set<Pointer>)
    requires Conserved(m, g, start) && Exchanged(start, now, {}, more)
    ensures Conserved(m, g, now) && All(g) !! more
  {
    forall n | n in m ensures Holds(m[n], g[n], now) { StillHolds(m[n], g[n], start, now); }
  }

  lemma SourceStarts(t: Trie)
    requires t.Valid() && !t.entries
    ensures Source(t, t.heap.blocks) && [] in t.s.slots && [] in t.at && t.root == t.at[[]]
  {
    assert Conserved(t.s.leaf, t.plots, t.heap.blocks);
    RootInSlots(t.s) by { assert Wf(t.s); }
  }

  /** Copies the root and everything below it into the root of a new trie. */
  method CopyRoot(t: Trie, root: Fwd) returns (ghost rho: Renaming, ghost at: map<Path, Fwd>, ghost g: Plots)
    requires t.Valid() && !t.entries && |t.heap.free| >= |Items(t.s)|
    requires root.prefix == [] && root.parent == null && root.children.Length == 256
    requires root !in t.Repr && root.children !in t.Repr
    modifies root, root.children, t.heap
    ensures t.Valid() && All(t.plots) !! All(g) && Exchanged(old(t.heap.blocks), t.heap.blocks, {}, All(g))
    ensures Part(t.s, rho, at, g, old(t.heap.blocks), t.heap.blocks, [], 256) && [] in at && at[[]] == root
    ensures root.parent == null
    ensures rho.Keys == t.s.leaf.Keys && at.Keys == t.s.slots.Keys && Injective(rho)
    ensures Conserved(Renamed(t.s, rho).leaf, g, t.heap.blocks)
    ensures forall o | o in Objects(at, rho) :: o == root || o == root.children || fresh(o)
    ensures |t.heap.free| >= |old(t.heap.free)| - |Items(t.s)|
  {
    hide Conserved, BucketsCopied, Renamed, Items, RowsThrough, LeavesThrough, Kept, All, Exchanged, FaceOk,
         OthersCopied, LeavesCopied, BlockHeap.Valid, Trie.Matches, SlotsApart, Tidy;
    ghost var start := t.heap.blocks;
    SourceStarts(t);
    WholeTrie(t.s);
    rho, at, g := CopyNode(t, t.root, root, 0, 0, [], start);
    PartParts(t.s, rho, at, g, start, t.heap.blocks, [], 256);
    CopyConserved(t.s, rho, g, start, t.heap.blocks);
    SourceConserved(t.s.leaf, t.plots, start, t.heap.blocks, All(g));
  }

  /** The new trie takes over the copied objects. */
  ghost method Adopt(u: Trie, s: State, rho: Renaming, at: map<Path, Fwd>, g: Plots, before: Storage)
    requires Sound(s) && Bounded(s, {}) && Tidy(s) && Part(s, rho, at, g, before, u.heap.blocks, [], 256)
    requires [] in at && at[[]] == u.root && u.root.parent == null
    requires s.leaf.Keys == rho.Keys && at.Keys == s.slots.Keys && Injective(rho) && !u.entries && u.owner == []
    requires u.gone == {} && u.heap.Valid() && Conserved(Renamed(s, rho).leaf, g, u.heap.blocks)
    modifies u`s, u`at, u`plots, u`Repr
    ensures u.Valid() && u.s == Renamed(s, rho) && u.plots == g && u.Repr == {u} + Objects(at, rho)
    ensures Items(u.s) == Items(s)
  {
    hide Conserved, Part, Renamed, Items, Trie.Mirrors, All, Objects, BlockHeap.Valid, Tidy;
    u.s, u.at, u.plots, u.Repr := Renamed(s, rho), at, g, {u} + Objects(at, rho);
    CopyMirrors(s, u, rho, at, g, before, u.heap.blocks);
    NoHeapAmong(at, rho, u.heap);
    RenamedKeeps(s, rho);
    RenamedTidy(s, rho);
  }

  lemma NoHeapAmong(at: map<Path, Fwd>, rho: Renaming, heap: BlockHeap)
    ensures heap as object !in Objects(at, rho)
  {
  }

  /** The copy is a trie with the same keys in nodes, leaves and blocks of its own; the original stays as it was. */
  method Copy(t: Trie) returns (u: Trie, ghost rho: Renaming)
    requires t.Valid() && !t.entries && |t.heap.free| >= |Items(t.s)|
    modifies t.heap
    ensures t.Valid() && u.Valid() && u.heap == t.heap && !u.entries && fresh(u.Repr)
    ensures rho.Keys == t.s.leaf.Keys && Injective(rho) && u.s == Renamed(t.s, rho) && Items(u.s) == Items(t.s)
    ensures All(t.plots) !! All(u.plots) && Exchanged(old(t.heap.blocks), t.heap.blocks, {}, All(u.plots))
    ensures |t.heap.free| >= |old(t.heap.free)| - |Items(t.s)|
  {
    hide Conserved, Part, Renamed, Items, Trie.Matches, All, Exchanged, Objects, BlockHeap.Valid, Sound, Bounded, Tidy;
    u := new Trie(t.heap, false);
    u.AboutRoot();
    ghost var start := t.heap.blocks;
    ghost var at, g;
    rho, at, g := CopyRoot(t, u.root);
    Adopt(u, t.s, rho, at, g, start);
  }

  lemma PartParts(s: State, rho: Renaming, at: map<Path, Fwd>, g: Plots, before: Storage, now: Storage, p: Path, i: nat)
    requires Part(s, rho, at, g, before, now, p, i)
    ensures at.Keys == RowsThrough(s, p, i) + {p} && rho.Keys == LeavesThrough(s, p, i) && Injective(rho)
    ensures BucketsCopied(s, rho, g, before, now)
  {
  }
}
