/** The buckets of all leaves over one heap: every block belongs to exactly one entry of one leaf, through every bucket
    change. */
module Forest {
  import opened Bytes
  import opened Blocks
  import opened Config
  import opened Entries
  import opened Nodes
  import opened Shape
  import opened ShapeOps
  import opened ShapeMoves
  import opened Heap
  import opened Splitting
  import opened Search
  import opened Merging
  import opened Memory
  import opened Layout
  import opened FlatBucket
  import opened FlatMoves
  import opened FlatInject

  /** A leaf's bucket in memory. */
  datatype Plot = Plot(flat: Flat, cells: seq<Cell>)

  type Leaves = map<Leaf, LeafRec>
  type Plots = map<Leaf, Plot>

  ghost predicate Holds(r: LeafRec, p: Plot, blocks: Storage) {
    Laid(p.flat, Bucket(r), p.cells, blocks)
  }

  ghost function PointersOf(g: Plots, which: set<Leaf>): set<Pointer> {
    set n, p | n in which && n in g && p in Pointers(g[n].cells) :: p
  }

  /** The blocks of all leaves. */
  ghost function All(g: Plots): set<Pointer> {
    PointersOf(g, g.Keys)
  }

  ghost predicate Apart(g: Plots) {
    forall n, k | n in g && k in g && n != k :: Pointers(g[n].cells) !! Pointers(g[k].cells)
  }

  /** Every bucket lies in memory as its leaf says, and no block is referred to twice. */
  ghost predicate Conserved(m: Leaves, g: Plots, blocks: Storage) {
    && g.Keys == m.Keys && Apart(g)
    && (forall n | n in m :: Holds(m[n], g[n], blocks))
    && All(g) <= blocks.Keys
  }

  // ------------------------------------------------------------ replacing some buckets

  lemma StillHolds(r: LeafRec, p: Plot, before: Storage, after: Storage)
    requires Holds(r, p, before)
    requires forall q | q in Pointers(p.cells) && q in before :: q in after && after[q] == before[q]
    ensures Holds(r, p, after)
  {
    var es := Bucket(r);
    LaidParts(p.flat, es, p.cells, before);
    forall i | 0 <= i < |es| ensures Keeps(after, p.cells[i], es[i].residue) {
      assert Keeps(before, p.cells[i], es[i].residue);
      assert p.cells[i].Block? ==> p.cells[i].ptr in Pointers(p.cells);
    }
  }

  /** Buckets of the leaves `gone` are replaced by those of g2, and their blocks exchanged. */
  lemma Replace(m: Leaves, g: Plots, before: Storage, after: Storage, gone: set<Leaf>, m2: Leaves, g2: Plots)
    requires Conserved(m, g, before) && gone <= m.Keys
    requires m2.Keys == g2.Keys && m2.Keys !! (m.Keys - gone) && Apart(g2)
    requires forall n | n in m2 :: Holds(m2[n], g2[n], after)
    requires Exchanged(before, after, PointersOf(g, gone), All(g2))
    ensures Conserved(m - gone + m2, g - gone + g2, after)
    ensures Exchanged(before, after, All(g), All(g - gone + g2))
  {
    var m3, g3 := m - gone + m2, g - gone + g2;
    ReplaceApart(m, g, before, after, gone, g2);
    forall n | n in m3 ensures Holds(m3[n], g3[n], after) {
      if n !in m2 {
        Undisturbed(m, g, before, gone, n);
        StillHolds(m[n], g[n], before, after);
      }
    }
    ReplaceBlocks(m, g, before, after, gone, g2);
  }

  lemma Undisturbed(m: Leaves, g: Plots, before: Storage, gone: set<Leaf>, n: Leaf)
    requires Conserved(m, g, before) && gone <= m.Keys && n in m && n !in gone
    ensures forall p | p in Pointers(g[n].cells) :: p in before && p !in PointersOf(g, gone)
  {
    forall p | p in Pointers(g[n].cells) ensures p in before && p !in PointersOf(g, gone) {
      assert p in All(g);
      forall k | k in gone && k in g
        ensures p !in Pointers(g[k].cells)
      {
        assert Pointers(g[n].cells) !! Pointers(g[k].cells);
      }
    }
  }

  lemma ReplaceApart(m: Leaves, g: Plots, before: Storage, after: Storage, gone: set<Leaf>, g2: Plots)
    requires Conserved(m, g, before) && gone <= m.Keys && g2.Keys !! (m.Keys - gone) && Apart(g2)
    requires Exchanged(before, after, PointersOf(g, gone), All(g2))
    ensures Apart(g - gone + g2)
  {
    var g3 := g - gone + g2;
    forall n, k | n in g3 && k in g3 && n != k ensures Pointers(g3[n].cells) !! Pointers(g3[k].cells) {
      if n !in g2 && k in g2 { OldAndNew(m, g, before, after, gone, g2, n, k); }
      if k !in g2 && n in g2 { OldAndNew(m, g, before, after, gone, g2, k, n); }
    }
  }

  lemma OldAndNew(m: Leaves, g: Plots, before: Storage, after: Storage, gone: set<Leaf>, g2: Plots, n: Leaf, k: Leaf)
    requires Conserved(m, g, before) && gone <= m.Keys && n in g && n !in gone && k in g2
    requires Exchanged(before, after, PointersOf(g, gone), All(g2))
    ensures Pointers(g[n].cells) !! Pointers(g2[k].cells)
  {
    Undisturbed(m, g, before, gone, n);
    forall p | p in Pointers(g2[k].cells) ensures p in All(g2) {
    }
  }

  /** The blocks of a collection of leaves are those of its parts. */
  lemma AllParts(g: Plots, gone: set<Leaf>, g2: Plots)
    requires g2.Keys !! (g.Keys - gone)
    ensures All(g) == PointersOf(g, g.Keys - gone) + PointersOf(g, gone)
    ensures All(g - gone + g2) == PointersOf(g, g.Keys - gone) + All(g2)
  {
    var g3 := g - gone + g2;
    forall p | p in All(g3) ensures p in PointersOf(g, g.Keys - gone) + All(g2) {
      var n :| n in g3 && p in Pointers(g3[n].cells);
      assert n in g2 || (n in g && n !in gone && g3[n] == g[n]);
    }
    forall p | p in PointersOf(g, g.Keys - gone) ensures p in All(g3) {
      var n :| n in g && n !in gone && p in Pointers(g[n].cells);
      assert n in g3 && g3[n] == g[n];
    }
    forall p | p in All(g2) ensures p in All(g3) {
      var n :| n in g2 && p in Pointers(g2[n].cells);
      assert n in g3 && g3[n] == g2[n];
    }
  }

  lemma ReplaceBlocks(m: Leaves, g: Plots, before: Storage, after: Storage, gone: set<Leaf>, g2: Plots)
    requires Conserved(m, g, before) && gone <= m.Keys && g2.Keys !! (m.Keys - gone)
    requires Exchanged(before, after, PointersOf(g, gone), All(g2))
    ensures All(g - gone + g2) <= after.Keys && Exchanged(before, after, All(g), All(g - gone + g2))
  {
    AllParts(g, gone, g2);
    forall p | p in PointersOf(g, g.Keys - gone) ensures p in before && p !in PointersOf(g, gone) {
      var n :| n in g && n !in gone && p in Pointers(g[n].cells);
      Undisturbed(m, g, before, gone, n);
    }
  }

  // ------------------------------------------------------------ one leaf's bucket changes

  /** Leaf n of the trie, with the facts that the byte routines need. */
  lemma LeafBytes(m: Leaves, g: Plots, blocks: Storage, n: Leaf)
    requires Conserved(m, g, blocks) && n in m
    ensures n in g && Laid(g[n].flat, Bucket(m[n]), g[n].cells, blocks)
    ensures |g[n].cells| == |m[n].items| == |g[n].flat.firsts| && Pointers(g[n].cells) <= blocks.Keys
  {
    LaidSizes(g[n].flat, Bucket(m[n]), g[n].cells, blocks);
    forall p | p in Pointers(g[n].cells) ensures p in blocks { assert p in All(g); }
  }

  lemma ReplaceOne(m: Leaves, g: Plots, before: Storage, after: Storage, n: Leaf, r: LeafRec, p: Plot)
    requires Conserved(m, g, before) && n in m && Holds(r, p, after)
    requires n in g && Exchanged(before, after, Pointers(g[n].cells), Pointers(p.cells))
    ensures Conserved(m[n := r], g[n := p], after) && Exchanged(before, after, All(g), All(g[n := p]))
  {
    hide Conserved, Holds, Exchanged, PointersOf, Apart;
    var m2: Leaves, g2: Plots := map[n := r], map[n := p];
    OnePlot(g, n, p);
    Replace(m, g, before, after, {n}, m2, g2);
    assert m - {n} + m2 == m[n := r] && g - {n} + g2 == g[n := p];
  }

  lemma OnePlot(g: Plots, n: Leaf, p: Plot)
    ensures var g2: Plots := map[n := p];
      g2.Keys == {n} && Apart(g2) && All(g2) == PointersOf(g2, {n}) == Pointers(p.cells)
    ensures n in g ==> PointersOf(g, {n}) == Pointers(g[n].cells)
    ensures PointersOf(g, {}) == {}
  {
  }

  /** A leaf that only gets another block of slots keeps its bytes. */
  lemma Relabel(m: Leaves, g: Plots, blocks: Storage, n: Leaf, r: LeafRec)
    requires Conserved(m, g, blocks) && n in m && r.items == m[n].items && |r.at| == |m[n].at|
    ensures Conserved(m[n := r], g, blocks)
  {
    assert Bucket(r) == Bucket(m[n]);
  }

  lemma AddOne<T>(m: map<Leaf, T>, n: Leaf, x: T)
    ensures m - {} + map[n := x] == m[n := x]
  {
  }

  lemma EmptyPlot(r: LeafRec, blocks: Storage)
    requires r.items == []
    ensures Holds(r, Plot(EMPTY_BUCKET, []), blocks) && Exchanged(blocks, blocks, {}, {}) && Pointers([]) == {}
  {
    LaidEmpty(blocks);
    assert Bucket(r) == [];
  }

  lemma KnownLeaves(m: Leaves, g: Plots, blocks: Storage)
    requires Conserved(m, g, blocks)
    ensures g.Keys == m.Keys && All(g) <= blocks.Keys
  {
  }

  /** A fresh leaf has an empty bucket. */
  lemma ClaimForest(m: Leaves, g: Plots, blocks: Storage, n: Leaf, r: LeafRec)
    requires Conserved(m, g, blocks) && n !in m && r.items == []
    ensures Conserved(m[n := r], g[n := Plot(EMPTY_BUCKET, [])], blocks)
    ensures All(g[n := Plot(EMPTY_BUCKET, [])]) == All(g)
  {
    hide Conserved, PointersOf, Apart, Laid, Holds, Exchanged;
    var p := Plot(EMPTY_BUCKET, []);
    var m2: Leaves, g2: Plots := map[n := r], map[n := p];
    EmptyPlot(r, blocks);
    KnownLeaves(m, g, blocks);
    OnePlot(g, n, p);
    AddOne(m, n, r);
    AddOne(g, n, p);
    Replace(m, g, blocks, blocks, {}, m2, g2);
    AllParts(g, {}, g2);
    AllParts(g, {}, map[]);
    assert PointersOf(g, g.Keys - {}) == All(g);
  }

  /** A leaf that goes away empty leaves no block behind. */
  lemma DropForest(m: Leaves, g: Plots, blocks: Storage, n: Leaf)
    requires Conserved(m, g, blocks) && n in m && m[n].items == []
    ensures Conserved(m - {n}, g - {n}, blocks) && All(g - {n}) == All(g)
  {
    var none: Leaves, no: Plots := map[], map[];
    LeafBytes(m, g, blocks, n);
    OnePlot(g, n, g[n]);
    assert PointersOf(g, {n}) == {} == All(no);
    Replace(m, g, blocks, blocks, {n}, none, no);
    AllParts(g, {n}, no);
    assert m - {n} + none == m - {n} && g - {n} + no == g - {n};
  }

  lemma MoreTaken(before: Storage, after: Storage, cells: seq<Cell>, b: nat, c: Cell)
    requires Exchanged(before, after, {}, Pointers([c])) && Pointers(cells) <= before.Keys && b <= |cells|
    ensures Exchanged(before, after, Pointers(cells), Pointers(InsertAt(cells, b, c)))
  {
    assert Pointers(InsertAt(cells, b, c)) == Pointers(cells) + Pointers([c]);
  }

  lemma LessTaken(before: Storage, after: Storage, cells: seq<Cell>, b: nat)
    requires b < |cells| && Exchanged(before, after, Pointers([cells[b]]), {})
    requires Pointers(cells) <= before.Keys && NoSharing(cells)
    ensures Exchanged(before, after, Pointers(cells), Pointers(RemoveAt(cells, b)))
  {
    RemovePointers(cells, b);
    assert cells[b] in [cells[b]];
  }

  /** Inserting a key on the bytes is inserting it in the trie, and keeps every block accounted for. */
  method InsertInForest(ghost s: State, ghost g: Plots, n: Leaf, f: Flat, key: Key, d: nat, b: nat, id: nat,
                        entries: bool, heap: BlockHeap)
    returns (f': Flat, ghost p: Plot)
    requires Sound(s) && n in s.leaf && Conserved(s.leaf, g, heap.blocks) && n in g && g[n].flat == f
    requires Fits(key, s.leaf[n]) && d == |s.leaf[n].at| && b <= |s.leaf[n].items| && (entries ==> id == |s.owner|)
    requires f.ids == ListedIds(s.leaf[n].items, entries)
    requires heap.Valid() && heap.free != []
    modifies heap
    ensures heap.Valid() && p.flat == f' && Conserved(InsertItem(s, n, b, key).leaf, g[n := p], heap.blocks)
    ensures Exchanged(old(heap.blocks), heap.blocks, All(g), All(g[n := p]))
    ensures |f'.firsts| == |s.leaf[n].items| + 1 && f'.ids == ListedIds(InsertItem(s, n, b, key).leaf[n].items, entries)
  {
    hide Conserved, Exchanged, Lays;
    ghost var r, cells := s.leaf[n], g[n].cells;
    ghost var before, es := heap.blocks, Bucket(r);
    LeafBytes(s.leaf, g, before, n);
    WfLeaf(s, n);
    SpellsKey(key, d);
    LengthsOfLeaf(r, |key|);
    ghost var c, x := Inline([]), Item(key, |s.owner|);
    f', c := InsertBytes(f, key, d, b, id, entries, heap, es, cells);
    p := Plot(f', InsertAt(cells, b, c));
    BucketInsert(r, b, x);
    ListedInsert(r.items, b, x, entries, id);
    MoreTaken(before, heap.blocks, cells, b, c);
    ReplaceOne(s.leaf, g, before, heap.blocks, n, r.(items := InsertAt(r.items, b, x)), p);
    LaidSizes(f', InsertAt(es, b, EntryOf(key, d)), p.cells, heap.blocks);
  }

  lemma ListedInsert(items: seq<Item>, b: nat, x: Item, entries: bool, id: nat)
    requires b <= |items| && (entries ==> id == x.id)
    ensures (if entries then InsertAt(ListedIds(items, entries), b, id) else [])
      == ListedIds(InsertAt(items, b, x), entries)
  {
    BucketInsert(LeafRec([], 0, 0, items), b, x);
  }

  /** Erasing a key on the bytes. */
  method EraseInForest(ghost s: State, ghost g: Plots, n: Leaf, f: Flat, b: nat, onHeap: int, d: nat, heap: BlockHeap,
                       entries: bool, ghost size: nat)
    returns (f': Flat, ghost p: Plot)
    requires Sound(s) && n in s.leaf && Conserved(s.leaf, g, heap.blocks) && n in g && g[n].flat == f
    requires b < |s.leaf[n].items| <= SPLITBOUND && d == |s.leaf[n].at|
    requires 1 <= size <= 0xFFFF && SpellsLength(s.leaf[n].at, size) && onHeap == size - d
    requires f.ids == ListedIds(s.leaf[n].items, entries)
    requires heap.Valid()
    modifies heap
    ensures heap.Valid() && p.flat == f' && Conserved(RemoveItem(s, n, b).leaf, g[n := p], heap.blocks)
    ensures Exchanged(old(heap.blocks), heap.blocks, All(g), All(g[n := p]))
    ensures |f'.firsts| == |s.leaf[n].items| - 1 && f'.ids == ListedIds(RemoveItem(s, n, b).leaf[n].items, entries)
  {
    hide Conserved, Exchanged, Lays;
    ghost var r, cells := s.leaf[n], g[n].cells;
    ghost var before, es := heap.blocks, Bucket(r);
    LeafBytes(s.leaf, g, before, n);
    WfLeaf(s, n);
    DepthFits(r, size);
    LengthsOfLeaf(r, size);
    f' := EraseBytes(f, b, onHeap, d, heap, es, cells, size);
    p := Plot(f', RemoveAt(cells, b));
    BucketRemove(r, b);
    LaidParts(f, es, cells, before);
    NotShared(before, cells, es);
    LessTaken(before, heap.blocks, cells, b);
    ReplaceOne(s.leaf, g, before, heap.blocks, n, r.(items := RemoveAt(r.items, b)), p);
    LaidSizes(f', RemoveAt(es, b), p.cells, heap.blocks);
  }

  lemma NotShared(blocks: Storage, cells: seq<Cell>, es: seq<Entry>)
    requires Stores(blocks, cells, es)
    ensures NoSharing(cells)
  {
  }

  /** A path that spells a length is no longer than that length allows. */
  lemma DepthFits(r: LeafRec, size: nat)
    requires DepthOk(r.at) && SpellsLength(r.at, size) && 1 <= size
    ensures |r.at| <= size + 1
  {
  }

  // ------------------------------------------------------------ the books of one trie

  /** The blocks in use, the number of free addresses, and the blocks that belong to one trie. */
  datatype Books = Books(blocks: Storage, free: nat, mine: set<Pointer>)

  /** From books a to books b, blocks of the trie were freed and allocated and no others touched; no address got
      lost. */
  ghost predicate Fair(a: Books, b: Books) {
    && a.free + |a.mine| == b.free + |b.mine|
    && forall x {:trigger Exchanged(a.blocks, x, a.mine, b.mine)} | x == b.blocks ::
      Exchanged(a.blocks, x, a.mine, b.mine)
  }

  lemma FairChain(a: Books, b: Books, c: Books)
    requires Fair(a, b) && Fair(b, c)
    ensures Fair(a, c)
  {
    ExchangedChain(a.blocks, b.blocks, c.blocks, a.mine, b.mine, c.mine);
  }

  lemma FairStep(a: Books, b: Books)
    requires Exchanged(a.blocks, b.blocks, a.mine, b.mine) && a.free + InUse(a.blocks) == b.free + InUse(b.blocks)
    ensures Fair(a, b)
  {
    ExchangedCount(a.blocks, b.blocks, a.mine, b.mine);
  }

  lemma FairSame(a: Books)
    requires a.mine <= a.blocks.Keys
    ensures Fair(a, a)
  {
  }

  /** Room for the keys that have no block yet, for `more` further keys, and for one bucket being rewritten. */
  ghost predicate HasRoom(b: Books, items: set<Item>, more: nat) {
    b.free + |b.mine| >= |items| + more + SPLITBOUND
  }

  lemma OneMore(items: set<Item>, x: Item)
    ensures |items + {x}| <= |items| + 1
  {
    if x in items { assert items + {x} == items; }
  }

  /** The same as Conserved, put so that the verifier looks inside only where Conserved is mentioned. */
  ghost predicate Sustained(m: Leaves, g: Plots, blocks: Storage) {
    forall x {:trigger Conserved(x, g, blocks)} | x == m :: Conserved(x, g, blocks)
  }

  lemma {:induction false} ImageOf(a: set<Pointer>, f: map<Pointer, Item>, b: set<Item>)
    requires a <= f.Keys && (forall p | p in a :: f[p] in b)
    requires (forall p, q | p in a && q in a && f[p] == f[q] :: p == q)
    ensures |a| <= |b|
    decreases |a|
  {
    if a != {} {
      var p :| p in a;
      ImageOf(a - {p}, f, b - {f[p]});
    }
  }

  /** The stored key whose residue is in block p. */
  ghost predicate Owns(m: Leaves, g: Plots, p: Pointer, n: Leaf, i: nat)
    requires g.Keys == m.Keys
  {
    n in m && i < |m[n].items| && i < |g[n].cells| && g[n].cells[i] == Block(p)
  }

  lemma HasOwner(m: Leaves, g: Plots, blocks: Storage, p: Pointer)
    requires Conserved(m, g, blocks) && p in All(g)
    ensures g.Keys == m.Keys && exists n, i: nat :: n in m && Owns(m, g, p, n, i)
  {
    var n :| n in g && p in Pointers(g[n].cells);
    LeafBytes(m, g, blocks, n);
    var i: nat :| i < |g[n].cells| && g[n].cells[i] == Block(p);
    assert Owns(m, g, p, n, i);
  }

  ghost function KeyOfBlock(m: Leaves, g: Plots, blocks: Storage, p: Pointer): (x: Item)
    requires Conserved(m, g, blocks) && p in All(g)
    ensures g.Keys == m.Keys && exists n, i: nat :: n in m && Owns(m, g, p, n, i) && x == m[n].items[i]
  {
    HasOwner(m, g, blocks, p);
    var n, i: nat :| n in m && Owns(m, g, p, n, i);
    m[n].items[i]
  }

  lemma SamePosition(items: seq<Item>, i: nat, j: nat)
    requires Sorted(items) && i < |items| && j < |items| && items[i] == items[j]
    ensures i == j
  {
    LessIrreflexive(Enc(items[i].key));
  }

  lemma OneBlock(s: State, g: Plots, p: Pointer, n: Leaf, i: nat, q: Pointer, k: Leaf, j: nat)
    requires Sound(s) && g.Keys == s.leaf.Keys
    requires Owns(s.leaf, g, p, n, i) && Owns(s.leaf, g, q, k, j) && s.leaf[n].items[i] == s.leaf[k].items[j]
    ensures p == q
  {
    assert Wf(s);
    OneHome(s, n, s.leaf[n].items[i], k, s.leaf[k].items[j]);
    SamePosition(s.leaf[n].items, i, j);
  }

  /** No more blocks than keys. */
  lemma BlocksPerKey(s: State, g: Plots, blocks: Storage)
    requires Sound(s) && Conserved(s.leaf, g, blocks)
    ensures |All(g)| <= |Items(s)|
  {
    hide Conserved, All;
    KnownLeaves(s.leaf, g, blocks);
    var f := map p | p in All(g) :: KeyOfBlock(s.leaf, g, blocks, p);
    forall p | p in All(g) ensures f[p] in Items(s) {
      assert f[p] == KeyOfBlock(s.leaf, g, blocks, p);
      var n, i: nat :| n in s.leaf && Owns(s.leaf, g, p, n, i) && f[p] == s.leaf[n].items[i];
      assert s.leaf[n].items[i] in s.leaf[n].items;
    }
    forall p, q | p in All(g) && q in All(g) && f[p] == f[q] ensures p == q {
      var n, i: nat :| n in s.leaf && Owns(s.leaf, g, p, n, i) && f[p] == s.leaf[n].items[i];
      var k, j: nat :| k in s.leaf && Owns(s.leaf, g, q, k, j) && f[q] == s.leaf[k].items[j];
      OneBlock(s, g, p, n, i, q, k, j);
    }
    ImageOf(All(g), f, Items(s));
  }

  // ------------------------------------------------------------ one bucket becomes two, two become one

  lemma TwoPlots(g: Plots, a: Leaf, b: Leaf, p: Plot, q: Plot)
    requires a != b
    ensures var g2: Plots := map[a := p, b := q];
      g2.Keys == {a, b} && All(g2) == PointersOf(g2, {a, b}) == Pointers(p.cells) + Pointers(q.cells)
    ensures Pointers(p.cells) !! Pointers(q.cells) ==> Apart(map[a := p, b := q])
  {
    var g2: Plots := map[a := p, b := q];
    assert forall n | n in {a, b} :: n in g2;
    assert g2[a] == p && g2[b] == q;
  }

  /** Leaf n shares its bucket with the new leaf h. */
  lemma ReplaceTwo(m: Leaves, g: Plots, before: Storage, after: Storage, n: Leaf, h: Leaf, rn: LeafRec, rh: LeafRec,
                   p: Plot, q: Plot)
    requires Conserved(m, g, before) && n in m && n in g && h !in m
    requires Holds(rn, p, after) && Holds(rh, q, after) && Pointers(p.cells) !! Pointers(q.cells)
    requires Exchanged(before, after, Pointers(g[n].cells), Pointers(p.cells) + Pointers(q.cells))
    ensures Conserved(m[n := rn][h := rh], g[n := p][h := q], after)
    ensures Exchanged(before, after, All(g), All(g[n := p][h := q]))
  {
    hide Conserved, Holds, Exchanged, PointersOf, Apart;
    var m2: Leaves, g2: Plots := map[n := rn, h := rh], map[n := p, h := q];
    OnePlot(g, n, p);
    TwoPlots(g, n, h, p, q);
    KnownLeaves(m, g, before);
    Replace(m, g, before, after, {n}, m2, g2);
    assert m - {n} + m2 == m[n := rn][h := rh];
    assert g - {n} + g2 == g[n := p][h := q];
  }

  lemma Untouched(blocks: Storage, cells: seq<Cell>, n: nat)
    requires Pointers(cells) <= blocks.Keys && NoSharing(cells) && n <= |cells|
    ensures Exchanged(blocks, blocks, Pointers(cells), Pointers(cells[..n]) + Pointers(cells[n..]))
    ensures Pointers(cells[..n]) !! Pointers(cells[n..])
  {
    CutPointers(cells, n);
  }

  /** The bucket of n cut at lcnt, where the tested bit of the next byte becomes one. */
  ghost predicate Halved(s: State, g: Plots, blocks: Storage, n: Leaf, lcnt: nat, lo: Flat, hi: Flat, p: Plot,
                         q: Plot) {
    && Placed(s, n) && n in g && s.leaf[n].typ < 8 && lcnt <= |s.leaf[n].items| && lcnt <= |g[n].cells|
    && Partition(s.leaf[n], lcnt)
    && p == Plot(lo, g[n].cells[..lcnt]) && q == Plot(hi, g[n].cells[lcnt..])
    && Holds(Low(s.leaf[n], lcnt), p, blocks) && Holds(High(s.leaf[n], lcnt), q, blocks)
  }

  /** split_node on the bytes: where the keys with the tested bit begin, and the bucket cut there. */
  method HalveInForest(ghost s: State, ghost g: Plots, n: Leaf, f: Flat, typ: nat, bsize: int, d: nat, ghost x: Item,
                       ghost blocks: Storage)
    returns (lcnt: nat, lo: Flat, hi: Flat, ghost p: Plot, ghost q: Plot)
    requires Sound(s) && n in s.leaf && Conserved(s.leaf, g, blocks) && n in g && g[n].flat == f
    requires typ == s.leaf[n].typ < 8 && d == |s.leaf[n].at| && x in s.leaf[n].items && bsize == |x.key| - d
    requires f.ids == [] || |f.ids| == |s.leaf[n].items|
    ensures Halved(s, g, blocks, n, lcnt, lo, hi, p, q)
    ensures lo.ids == IdsTo(f.ids, lcnt) && hi.ids == IdsFrom(f.ids, lcnt)
  {
    hide Conserved, Partition, Lays;
    ghost var r, cells := s.leaf[n], g[n].cells;
    ghost var es := Bucket(r);
    LeafBytes(s.leaf, g, blocks, n);
    WfLeaf(s, n);
    HighBytes(s, n);
    KeyLengths(r, x);
    lcnt, lo, hi := HalveBytes(f, typ, bsize, d, es, cells, blocks, |x.key|);
    CountIsPartition(r, lcnt);
    p, q := Plot(lo, cells[..lcnt]), Plot(hi, cells[lcnt..]);
    HalfBuckets(r, lcnt);
  }

  /** Sharing the halves out keeps every block accounted for. */
  lemma HalveForest(m: Leaves, g: Plots, blocks: Storage, n: Leaf, h: Leaf, lcnt: nat, lo: Flat, hi: Flat)
    requires Conserved(m, g, blocks) && n in m && n in g && h !in m && lcnt <= |g[n].cells|
    requires m[n].typ < 8 && Aligned(m[n].path, m[n].typ) && lcnt <= |m[n].items|
    requires Holds(Low(m[n], lcnt), Plot(lo, g[n].cells[..lcnt]), blocks)
    requires Holds(High(m[n], lcnt), Plot(hi, g[n].cells[lcnt..]), blocks)
    ensures var g' := g[n := Plot(lo, g[n].cells[..lcnt])][h := Plot(hi, g[n].cells[lcnt..])];
      && Conserved(m[n := Low(m[n], lcnt)][h := High(m[n], lcnt)], g', blocks)
      && Exchanged(blocks, blocks, All(g), All(g'))
  {
    hide Conserved, Holds, Exchanged, Lays;
    var cells, es := g[n].cells, Bucket(m[n]);
    LeafBytes(m, g, blocks, n);
    LaidParts(g[n].flat, es, cells, blocks);
    NotShared(blocks, cells, es);
    Untouched(blocks, cells, lcnt);
    ReplaceTwo(m, g, blocks, blocks, n, h, Low(m[n], lcnt), High(m[n], lcnt), Plot(lo, cells[..lcnt]),
      Plot(hi, cells[lcnt..]));
  }

  lemma HalvedForest(s: State, g: Plots, blocks: Storage, n: Leaf, h: Leaf, lcnt: nat, lo: Flat, hi: Flat, p: Plot,
                     q: Plot, owner: seq<Leaf>)
    requires Conserved(s.leaf, g, blocks) && Halved(s, g, blocks, n, lcnt, lo, hi, p, q) && h !in s.leaf
    ensures Conserved(Split(s, n, n, h, lcnt, owner).leaf, g[n := p][h := q], blocks)
    ensures Exchanged(blocks, blocks, All(g), All(g[n := p][h := q]))
  {
    hide Conserved, Exchanged, All, Holds, Partition;
    HalveForest(s.leaf, g, blocks, n, h, lcnt, lo, hi);
  }

  lemma HalvesSuit(s: State, g: Plots, blocks: Storage, n: Leaf, lcnt: nat, lo: Flat, hi: Flat, p: Plot, q: Plot,
                   entries: bool)
    requires Halved(s, g, blocks, n, lcnt, lo, hi, p, q)
    requires lo.ids == IdsTo(ListedIds(s.leaf[n].items, entries), lcnt)
    requires hi.ids == IdsFrom(ListedIds(s.leaf[n].items, entries), lcnt)
    ensures |lo.firsts| == lcnt && lo.ids == ListedIds(Low(s.leaf[n], lcnt).items, entries)
    ensures |hi.firsts| == |s.leaf[n].items| - lcnt && hi.ids == ListedIds(High(s.leaf[n], lcnt).items, entries)
  {
    hide Partition, Lays;
    ListedParts(s.leaf[n].items, entries, lcnt);
    LaidSizes(lo, Bucket(Low(s.leaf[n], lcnt)), p.cells, blocks);
    LaidSizes(hi, Bucket(High(s.leaf[n], lcnt)), q.cells, blocks);
  }

  lemma ListedParts(items: seq<Item>, entries: bool, n: nat)
    requires n <= |items|
    ensures IdsTo(ListedIds(items, entries), n) == ListedIds(items[..n], entries)
    ensures IdsFrom(ListedIds(items, entries), n) == ListedIds(items[n..], entries)
  {
  }

  /** Narrowing a leaf to one half leaves its bucket alone. */
  lemma ShrinkForest(s: State, g: Plots, blocks: Storage, n: Leaf, high: bool)
    requires Conserved(s.leaf, g, blocks) && Placed(s, n) && s.leaf[n].typ < 8
    ensures Conserved(Shrink(s, n, high).leaf, g, blocks)
  {
    hide Conserved;
    var r := s.leaf[n];
    Halves(r.path, r.typ);
    assert r.items[0..] == r.items && r.items[..|r.items|] == r.items;
    Relabel(s.leaf, g, blocks, n, if high then High(r, 0) else Low(r, |r.items|));
  }

  /** The part of a leaf's keys that goes to one half of the node below it. */
  ghost function HalfBelow(r: LeafRec, path: byte, from: nat, to: nat): LeafRec
    requires from <= to <= |r.items|
  {
    LeafRec(Sub(r.at, r.path), path, 1, r.items[from..to])
  }

  /** All keys of the leaf go to one half. */
  lemma OneSided(m: Leaves, g: Plots, before: Storage, after: Storage, n: Leaf, r: LeafRec, p: Plot, rest: Plot)
    requires Conserved(m, g, before) && n in m && n in g && Holds(r, p, after) && rest.cells == []
    requires Exchanged(before, after, Pointers(g[n].cells), Pointers(p.cells) + Pointers(rest.cells))
    ensures Conserved(m[n := r], g[n := p], after) && Exchanged(before, after, All(g), All(g[n := p]))
    ensures |p.flat.firsts| == |r.items|
  {
    hide Conserved, Exchanged, All, Lays;
    LaidSizes(p.flat, Bucket(r), p.cells, after);
    assert Pointers(p.cells) + Pointers(rest.cells) == Pointers(p.cells);
    ReplaceOne(m, g, before, after, n, r, p);
  }

  lemma SumSwaps(p: Plot, q: Plot)
    ensures Pointers(p.cells) + Pointers(q.cells) == Pointers(q.cells) + Pointers(p.cells)
  {
  }

  /** The state after all keys went to one half of the new node. */
  lemma PushedForest(s: State, g: Plots, before: Storage, after: Storage, n: Leaf, high: bool, p: Plot, rest: Plot)
    requires Conserved(s.leaf, g, before) && Placed(s, n) && n in g && s.leaf[n].typ == 8 && rest.cells == []
    requires Sub(s.leaf[n].at, s.leaf[n].path) !in s.slots
    requires Holds(HalfBelow(s.leaf[n], if high then 128 else 0, 0, |s.leaf[n].items|), p, after)
    requires Exchanged(before, after, Pointers(g[n].cells), Pointers(p.cells) + Pointers(rest.cells))
    ensures Conserved(Shrink(Lower(s, n), n, high).leaf, g[n := p], after)
    ensures Exchanged(before, after, All(g), All(g[n := p])) && |p.flat.firsts| == |s.leaf[n].items|
  {
    hide Conserved, Exchanged, All, Holds, Shrink, Lower;
    var r := s.leaf[n];
    assert r.items[0..|r.items|] == r.items;
    if high { PushHighState(s, n); } else { PushLowState(s, n); }
    OneSided(s.leaf, g, before, after, n, HalfBelow(r, if high then 128 else 0, 0, |r.items|), p, rest);
  }

  /** The low keys go to a new leaf, the high ones stay with n. */
  lemma TwoSided(s: State, g: Plots, before: Storage, after: Storage, n: Leaf, low: Leaf, lcnt: nat, p: Plot, q: Plot,
                 owner: seq<Leaf>)
    requires Conserved(s.leaf, g, before) && Placed(s, n) && n in g && s.leaf[n].typ == 8 && lcnt <= |s.leaf[n].items|
    requires low !in s.leaf && Sub(s.leaf[n].at, s.leaf[n].path) !in s.slots
    requires Holds(HalfBelow(s.leaf[n], 0, 0, lcnt), p, after)
    requires Holds(HalfBelow(s.leaf[n], 128, lcnt, |s.leaf[n].items|), q, after)
    requires Pointers(p.cells) !! Pointers(q.cells)
    requires Exchanged(before, after, Pointers(g[n].cells), Pointers(p.cells) + Pointers(q.cells))
    ensures Conserved(Split(Lower(s, n), n, low, n, lcnt, owner).leaf, g[low := p][n := q], after)
    ensures Exchanged(before, after, All(g), All(g[low := p][n := q]))
  {
    hide Conserved, Exchanged, All, Holds, Split, Lower;
    var r := s.leaf[n];
    assert r.items[0..lcnt] == r.items[..lcnt] && r.items[lcnt..|r.items|] == r.items[lcnt..];
    PushBothState(s, n, low, lcnt, owner);
    assert Pointers(p.cells) + Pointers(q.cells) == Pointers(q.cells) + Pointers(p.cells);
    ReplaceTwo(s.leaf, g, before, after, n, low, HalfBelow(r, 128, lcnt, |r.items|), HalfBelow(r, 0, 0, lcnt), q, p);
    assert g[n := q][low := p] == g[low := p][n := q];
    SwapUpdates(s.leaf, n, low, HalfBelow(r, 128, lcnt, |r.items|), HalfBelow(r, 0, 0, lcnt));
  }

  lemma SwapUpdates<T>(m: map<Leaf, T>, a: Leaf, b: Leaf, x: T, y: T)
    requires a != b
    ensures m[a := x][b := y] == m[b := y][a := x]
  {
  }

  /** The sizes and ids of the two pushed-down buckets. */
  lemma PushedSuit(r: LeafRec, blocks: Storage, lcnt: nat, lo: Flat, hi: Flat, p: Plot, q: Plot, entries: bool)
    requires lcnt <= |r.items| && p.flat == lo && q.flat == hi
    requires Holds(HalfBelow(r, 0, 0, lcnt), p, blocks) && Holds(HalfBelow(r, 128, lcnt, |r.items|), q, blocks)
    requires lo.ids == IdsTo(ListedIds(r.items, entries), lcnt) && hi.ids == IdsFrom(ListedIds(r.items, entries), lcnt)
    ensures |lo.firsts| == lcnt && lo.ids == ListedIds(r.items[0..lcnt], entries)
    ensures |hi.firsts| == |r.items| - lcnt && hi.ids == ListedIds(r.items[lcnt..|r.items|], entries)
    ensures lcnt == 0 ==> p.cells == []
    ensures lcnt == |r.items| ==> q.cells == []
  {
    hide Lays;
    assert r.items[0..lcnt] == r.items[..lcnt] && r.items[lcnt..|r.items|] == r.items[lcnt..];
    ListedParts(r.items, entries, lcnt);
    LaidSizes(lo, Bucket(HalfBelow(r, 0, 0, lcnt)), p.cells, blocks);
    LaidSizes(hi, Bucket(HalfBelow(r, 128, lcnt, |r.items|)), q.cells, blocks);
  }

  /** An empty leaf gives its slots to its sibling. */
  lemma AbsorbForest(s: State, g: Plots, blocks: Storage, m: Leaf, n: Leaf, owner: seq<Leaf>)
    requires Conserved(s.leaf, g, blocks) && Placed(s, m) && Siblings(s, m, n) && s.leaf[n].items == []
    ensures Conserved(Merge(s, m, n, owner).leaf, g - {n}, blocks) && All(g - {n}) == All(g)
  {
    hide Conserved, All;
    DropForest(s.leaf, g, blocks, n);
    assert MergedItems(s, m, n) == s.leaf[m].items;
    Relabel(s.leaf - {n}, g - {n}, blocks, m, Widened(s.leaf[m], MergedItems(s, m, n)));
  }

  /** Any key of the leaf tells the lengths of all of them. */
  lemma KeyLengths(r: LeafRec, x: Item)
    requires ItemsFit(r) && x in r.items
    ensures Lengths(Bucket(r), |r.at|, |x.key|) && |r.at| <= |x.key| + 1 && SpellsLength(r.at, |x.key|)
  {
    assert Fits(x.key, r);
    SpellsKey(x.key, |r.at|);
    LengthsOfLeaf(r, |x.key|);
  }

  /** What split_fwd knows of a full bucket after its first loop. */
  ghost predicate Measured(r: LeafRec, lengths: seq<u16>, lcnt: nat, lsize: int, hsize: int, none: bool) {
    var es := Bucket(r);
    && Short(es) && Even(es, none) && KnownLengths(lengths, es)
    && lcnt <= |es| && Short(CutAll(es)) && |CutAll(es)| == |es|
    && lsize == Offset(CutAll(es), lcnt) && hsize == HighSum(es, lcnt, |es|, none)
  }

  /** The first loop of split_fwd. */
  method MeasureInForest(ghost s: State, ghost g: Plots, n: Leaf, f: Flat, bsize: int, d: nat, ghost x: Item,
                         ghost blocks: Storage)
    returns (lengths: seq<u16>, lcnt: nat, lsize: int, hsize: int, ghost none: bool)
    requires Sound(s) && n in s.leaf && Conserved(s.leaf, g, blocks) && n in g && g[n].flat == f
    requires s.leaf[n].typ == 8 && |s.leaf[n].items| == SPLITBOUND
    requires d == |s.leaf[n].at| && x in s.leaf[n].items && bsize == |x.key| - d
    ensures lcnt <= |s.leaf[n].items| && Placed(s, n) && Partition(Lower(s, n).leaf[n], lcnt)
    ensures Measured(s.leaf[n], lengths, lcnt, lsize, hsize, none)
  {
    hide Conserved, Partition, Lays, Lower, Monotone, Los;
    ghost var r, cells := s.leaf[n], g[n].cells;
    ghost var es := Bucket(r);
    LeafBytes(s.leaf, g, blocks, n);
    WfLeaf(s, n);
    KeyLengths(r, x);
    FullIsPushable(s, n, x);
    LowBytes(s, n);
    BoundsFit();
    none := SingleSlotIsEven(r, |x.key|);
    LengthsAreShort(es, d, |x.key|);
    lengths, lcnt, lsize, hsize := PushSizes(f, bsize, d, es, cells, blocks, |x.key|, none);
    LowBits(es);
    CountBelow(s, n, lcnt);
  }

  lemma LowBits(es: seq<Entry>)
    ensures |Los(es)| == |es| && forall j | 0 <= j < |es| :: Los(es)[j] == es[j].lo
  {
  }

  /** The second loop of split_fwd: every entry moves one path byte down, into one of two new buckets. */
  method PushInForest(ghost m: Leaves, ghost g: Plots, n: Leaf, f: Flat, lengths: seq<u16>, lcnt: nat, lsize: int,
                      hsize: int, heap: BlockHeap, ghost lr: LeafRec, ghost hr: LeafRec, ghost none: bool)
    returns (lo: Flat, hi: Flat, ghost p: Plot, ghost q: Plot)
    requires Conserved(m, g, heap.blocks) && n in m && n in g && g[n].flat == f
    requires Measured(m[n], lengths, lcnt, lsize, hsize, none) && (forall x | x in m[n].items :: |m[n].at| <= |x.key|)
    requires |lr.at| == |hr.at| == |m[n].at| + 1 && lr.items == m[n].items[..lcnt] && hr.items == m[n].items[lcnt..]
    requires heap.Valid() && |heap.free| >= |m[n].items|
    modifies heap
    ensures heap.Valid() && p.flat == lo && q.flat == hi && Holds(lr, p, heap.blocks) && Holds(hr, q, heap.blocks)
    ensures Pointers(p.cells) !! Pointers(q.cells)
    ensures Exchanged(old(heap.blocks), heap.blocks, Pointers(g[n].cells), Pointers(p.cells) + Pointers(q.cells))
    ensures |p.cells| == lcnt && |q.cells| == |m[n].items| - lcnt
    ensures lo.ids == IdsTo(f.ids, lcnt) && hi.ids == IdsFrom(f.ids, lcnt)
  {
    hide Conserved, Exchanged, Lays;
    ghost var cells, es := g[n].cells, Bucket(m[n]);
    LeafBytes(m, g, heap.blocks, n);
    ghost var y;
    lo, hi, y := PushBytes(f, lengths, lcnt, lsize, hsize, heap, es, cells, none);
    p, q := Plot(lo, y[..lcnt]), Plot(hi, y[lcnt..]);
    CutApart(m[n], lr, hr, lcnt);
    CutPointers(y, lcnt);
  }

  lemma PlotsApart(m: Leaves, g: Plots, blocks: Storage, n: Leaf, k: Leaf)
    requires Conserved(m, g, blocks) && n in m && k in m && n != k
    ensures n in g && k in g && Pointers(g[n].cells) !! Pointers(g[k].cells)
    ensures PointersOf(g, {n, k}) == Pointers(g[n].cells) + Pointers(g[k].cells)
    ensures PointersOf(g, {n, k}) <= blocks.Keys
  {
    forall p | p in PointersOf(g, {n, k}) ensures p in blocks { assert p in All(g); }
  }

  /** merge_nodes on the bytes: the entries of both siblings, low half first. */
  method MergeInForest(ghost s: State, ghost g: Plots, n: Leaf, k: Leaf, f: Flat, fk: Flat, path: byte, typ: nat,
                       entries: bool, ghost blocks: Storage)
    returns (f': Flat, ghost p: Plot)
    requires Siblings(s, n, k) && Conserved(s.leaf, g, blocks) && n in g && k in g && g[n].flat == f && g[k].flat == fk
    requires path == s.leaf[n].path && typ == s.leaf[n].typ <= 8
    requires f.ids == ListedIds(s.leaf[n].items, entries) && fk.ids == ListedIds(s.leaf[k].items, entries)
    ensures p.flat == f' && |f'.firsts| == |MergedItems(s, n, k)| && f'.ids == ListedIds(MergedItems(s, n, k), entries)
    ensures Conserved((s.leaf - {k})[n := Widened(s.leaf[n], MergedItems(s, n, k))], (g - {k})[n := p], blocks)
    ensures Exchanged(blocks, blocks, All(g), All((g - {k})[n := p]))
  {
    hide Conserved, Lays, Exchanged;
    ghost var rn, rk := s.leaf[n], s.leaf[k];
    LeafBytes(s.leaf, g, blocks, n);
    LeafBytes(s.leaf, g, blocks, k);
    PlotsApart(s.leaf, g, blocks, n, k);
    ghost var r := Widened(rn, MergedItems(s, n, k));
    if TestBit(path, Mask(typ - 1)) {
      f' := MergeBytes(fk, f, Bucket(rk), Bucket(rn), g[k].cells, g[n].cells, blocks);
      p := Plot(f', g[k].cells + g[n].cells);
      BucketConcat(rk, rn, r);
    } else {
      f' := MergeBytes(f, fk, Bucket(rn), Bucket(rk), g[n].cells, g[k].cells, blocks);
      p := Plot(f', g[n].cells + g[k].cells);
      BucketConcat(rn, rk, r);
    }
    LaidSizes(f', Bucket(r), p.cells, blocks);
    JoinOne(s.leaf, g, blocks, n, k, r, p);
  }

  lemma JoinOne(m: Leaves, g: Plots, blocks: Storage, n: Leaf, k: Leaf, r: LeafRec, p: Plot)
    requires Conserved(m, g, blocks) && n in m && k in m && n != k && n in g && k in g && Holds(r, p, blocks)
    requires p.cells == g[k].cells + g[n].cells || p.cells == g[n].cells + g[k].cells
    ensures Conserved((m - {k})[n := r], (g - {k})[n := p], blocks)
    ensures Exchanged(blocks, blocks, All(g), All((g - {k})[n := p]))
  {
    hide Conserved, Holds, PointersOf, Apart;
    var m2: Leaves, g2: Plots := map[n := r], map[n := p];
    OnePlot(g, n, p);
    PlotsApart(m, g, blocks, n, k);
    assert Pointers(p.cells) == Pointers(g[n].cells) + Pointers(g[k].cells);
    KnownLeaves(m, g, blocks);
    Replace(m, g, blocks, blocks, {n, k}, m2, g2);
    assert m - {n, k} + m2 == (m - {k})[n := r] && g - {n, k} + g2 == (g - {k})[n := p];
  }

  /** readd_byte on the bytes. */
  method LiftInForest(ghost s: State, ghost g: Plots, n: Leaf, f: Flat, inject: byte, onHeap: int, byte: nat,
                      heap: BlockHeap, ghost size: nat)
    returns (f': Flat, ghost p: Plot)
    requires Sound(s) && n in s.leaf && Conserved(s.leaf, g, heap.blocks) && n in g && g[n].flat == f
    requires s.leaf[n].at != [] && Front(s.leaf[n].at) in s.slots && |s.slots[Front(s.leaf[n].at)]| == 256
    requires Stage(Front(s.leaf[n].at), size, onHeap, byte - 1) && SpellsLength(s.leaf[n].at, size)
    requires inject == Last(s.leaf[n].at)
    requires heap.Valid() && |heap.free| >= |s.leaf[n].items|
    modifies heap
    ensures heap.Valid() && p.flat == f' && Conserved(Lift(s, n).leaf, g[n := p], heap.blocks)
    ensures Exchanged(old(heap.blocks), heap.blocks, All(g), All(g[n := p]))
    ensures |f'.firsts| == |s.leaf[n].items| && f'.ids == f.ids
  {
    hide Conserved, Exchanged, Lays, InjectAll;
    ghost var r, cells, before := s.leaf[n], g[n].cells, heap.blocks;
    ghost var es := Bucket(r);
    ghost var q := LeafRec(Front(r.at), Last(r.at), 8, r.items);
    LeafBytes(s.leaf, g, before, n);
    WfLeaf(s, n);
    LengthsOfLeaf(r, size);
    SizesAreRight(r, size, onHeap, byte);
    ghost var y;
    if byte <= 1 {
      f', y := ReaddSizesBytes(f, inject, onHeap, heap, es, cells, size);
      InjectBucket(r, q, SizesFromLow(es, size));
    } else {
      DepthFits(r, size);
      f', y := ReaddByteBytes(f, inject, onHeap, byte, heap, es, cells, size);
      InjectBucket(r, q, SameSizes(es, onHeap));
    }
    p := Plot(f', y);
    LaidSizes(f', Bucket(q), y, heap.blocks);
    ReplaceOne(s.leaf, g, before, heap.blocks, n, q, p);
  }
}
