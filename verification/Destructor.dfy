/** The destructor walks the forward nodes with an explicit stack, frees every block of the trie once and deletes every
    leaf and every node below the root once. */
module Destructor {
  import opened Bytes
  import opened Config
  import opened Nodes
  import opened Shape
  import opened ShapeOps
  import opened ShapeMoves
  import opened Heap
  import opened Splitting
  import opened Merging
  import opened Memory
  import opened Layout
  import opened Recovery
  import opened Teardown
  import opened Forest
  import opened Trie
  import opened Runs

  /** A forward node to visit; encsize has the length bytes read on the way. */
  datatype Context = Context(fwd: Fwd, depth: nat, encsize: u16)

  /** The length bytes that a path spells. */
  function Collected(p: Path): u16 {
    if |p| == 0 then 0
    else if |p| == 1 then (p[0] as int) * 256
    else (p[0] as int) * 256 + p[1]
  }

  /** One more byte of the path: bits are added from the most significant to the least. */
  function Below(encsize: u16, depth: nat, i: byte): u16 {
    if depth == 0 then SetHigh(encsize, i) else if depth == 1 then SetLow(encsize, i) else encsize
  }

  lemma BelowCollects(p: Path, i: byte)
    ensures Below(Collected(p), |p|, i) == Collected(Sub(p, i))
  {
  }

  lemma CollectedIs(p: Path, size: nat)
    requires SpellsLength(p, size) && size <= 0xFFFF
    ensures Collected(p) == CollectedSize(size, |p|)
  {
  }

  // ------------------------------------------------------------ what is left to do

  /** Every node knows its own path. */
  ghost predicate Named(s: State, at: map<Path, Fwd>) {
    at.Keys == s.slots.Keys && forall p | p in at :: at[p].prefix == p
  }

  /** What is pushed for the child of node p in slot i. */
  ghost function ChildAt(at: map<Path, Fwd>, p: Path, i: byte): Context
    requires Sub(p, i) in at
  {
    Context(at[Sub(p, i)], |p| + 1, Collected(Sub(p, i)))
  }

  ghost function Paths(stack: seq<Context>): set<Path> {
    set c | c in stack :: c.fwd.prefix
  }

  /** The context is that of the node at its path. */
  ghost predicate ContextOk(at: map<Path, Fwd>, c: Context) {
    var p := c.fwd.prefix;
    p in at && at[p] == c.fwd && c.depth == |p| && c.encsize == Collected(p)
  }

  /** What the stack says of a node is right, and the node is unvisited. */
  ghost predicate ContextsOk(at: map<Path, Fwd>, stack: seq<Context>, done: set<Path>) {
    && done <= at.Keys
    && (forall c | c in stack :: ContextOk(at, c) && c.fwd.prefix !in done)
    && (forall i, j | 0 <= i < j < |stack| :: stack[i].fwd.prefix != stack[j].fwd.prefix)
  }

  /** Exactly the root and the children of visited nodes are visited or on the stack. */
  ghost predicate Frontier(s: State, todo: set<Path>, done: set<Path>) {
    && (forall p | p in s.slots && (p == [] || Front(p) in done) :: p in done || p in todo)
    && (forall p | p in done || p in todo :: p == [] || Front(p) in done)
  }

  /** Every node is behind, on the stack, or below a node on the stack; nodes on the stack are unvisited and listed
      once. */
  ghost predicate Pending(s: State, at: map<Path, Fwd>, stack: seq<Context>, done: set<Path>) {
    ContextsOk(at, stack, done) && Frontier(s, Paths(stack), done)
  }

  /** Leaves that have not been cleaned: not in a visited node, nor before slot i of node p. */
  ghost function Left(s: State, done: set<Path>, p: Path, i: nat): set<Leaf> {
    set n | n in s.leaf && s.leaf[n].at !in done && !(s.leaf[n].at == p && s.leaf[n].path < i)
  }

  /** Of the trie's blocks those of the leaves `left` are still in use; nothing else changed. */
  ghost predicate Remaining(g: Plots, start: Storage, now: Storage, left: set<Leaf>) {
    now.Keys == start.Keys - All(g) + PointersOf(g, left) && forall p | p in now :: p in start && now[p] == start[p]
  }

  lemma RemainingStart(s: State, g: Plots, blocks: Storage)
    requires Conserved(s.leaf, g, blocks)
    ensures Left(s, {}, [], 0) == g.Keys && Remaining(g, blocks, blocks, Left(s, {}, [], 0))
  {
    assert Left(s, {}, [], 0) == g.Keys;
  }

  /** Cleaning leaf n leaves the blocks of the others. */
  lemma CleanOne(s: State, g: Plots, start: Storage, now: Storage, next: Storage, left: set<Leaf>, n: Leaf)
    requires Conserved(s.leaf, g, start) && left <= g.Keys && n in left && Remaining(g, start, now, left)
    requires Exchanged(now, next, Pointers(g[n].cells), {})
    ensures Remaining(g, start, next, left - {n})
  {
    hide Conserved;
    KnownLeaves(s.leaf, g, start);
    forall p | p in PointersOf(g, left - {n}) ensures p in next {
      var k :| k in left - {n} && k in g && p in Pointers(g[k].cells);
      PlotsApart(s.leaf, g, start, n, k);
      assert p in PointersOf(g, left);
    }
    forall p | p in next && p in All(g) ensures p in PointersOf(g, left - {n}) {
      assert p in PointersOf(g, left) && p !in Pointers(g[n].cells);
    }
    assert Pointers(g[n].cells) <= All(g);
  }

  /** The bucket of a leaf that is left is still in order. */
  lemma StillLaid(s: State, g: Plots, start: Storage, now: Storage, left: set<Leaf>, n: Leaf)
    requires Conserved(s.leaf, g, start) && left <= g.Keys && n in left && Remaining(g, start, now, left)
    ensures n in s.leaf && Laid(g[n].flat, Bucket(s.leaf[n]), g[n].cells, now)
  {
    forall p | p in Pointers(g[n].cells) ensures p in now { assert p in PointersOf(g, left); }
    StillHolds(s.leaf[n], g[n], start, now);
  }

  // ------------------------------------------------------------ one slot

  /** A leaf is first met at its own first slot, and the slots behind that show it again. */
  lemma FirstMet(s: State, p: Path, i: byte, n: Leaf)
    requires Sound(s) && p in s.slots && |s.slots[p]| == 256 && s.slots[p][i] == Hold(n)
    ensures n in s.leaf && s.leaf[n].at == p && s.leaf[n].path <= i
    ensures (i > 0 && s.slots[p][i-1] == Hold(n)) <==> i > s.leaf[n].path
  {
    assert Wf(s);
    assert RowAt(s, p, i) == Hold(n);
    assert HeldBy(s, n, p, i);
    OnlyHere(s, n);
    if i > 0 {
      var h: byte := i - 1;
      assert RowAt(s, p, h) == s.slots[p][h];
    }
  }

  /** Passing slot i: only a leaf whose block starts there is no longer left. */
  lemma LeftStep(s: State, done: set<Path>, p: Path, i: byte)
    requires Sound(s) && p in s.slots && p !in done && |s.slots[p]| == 256
    ensures Left(s, done, p, i + 1) ==
      match s.slots[p][i]
      case Hold(n) => if n in s.leaf && s.leaf[n].path == i then Left(s, done, p, i) - {n} else Left(s, done, p, i)
      case _ => Left(s, done, p, i)
  {
    assert Wf(s);
    forall n | n in s.leaf && s.leaf[n].at == p && s.leaf[n].path == i ensures s.slots[p][i] == Hold(n) {
      assert Covers(s.leaf[n], i);
      assert RowAt(s, p, i) == Hold(n);
    }
    if s.slots[p][i].Hold? { FirstMet(s, p, i, s.slots[p][i].leaf); }
  }

  /** At the end of its row a node is behind. */
  lemma RowDone(s: State, done: set<Path>, p: Path)
    ensures Left(s, done, p, 256) == Left(s, done + {p}, [], 0)
  {
  }

  /** The trie as it is while its blocks are being freed. */
  ghost predicate Standing(t: Trie)
    reads t, t.Repr
  {
    t.Matches() && Sound(t.s) && Bounded(t.s, {})
  }

  /** What a slot of a node shows. */
  lemma SlotIs(t: Trie, p: Path, i: byte)
    requires Standing(t) && p in t.at && t.at[p].children.Length == 256 && p in t.s.slots && |t.s.slots[p]| == 256
    ensures var c := t.at[p].children[i];
      match t.s.slots[p][i]
      case Self => c == FwdChild(t.at[p])
      case Down => Sub(p, i) in t.at && c == FwdChild(t.at[Sub(p, i)]) && c.fwd != t.at[p] && c.fwd.path == i
        && c.fwd.prefix == Sub(p, i)
      case Hold(n) => c == LeafChild(n)
  {
    t.AboutNode(p);
    assert SlotOk(t.at[p].children[i], t.s.slots[p][i], p, i, t.at);
    if t.s.slots[p][i] == Down {
      t.AboutNode(Sub(p, i));
      t.DownIsElsewhere(p, i);
      FrontOfSub(p, i);
    }
  }

  /** A taken slot shows what the slot before it shows only if both show one leaf. */
  lemma SameAsBefore(t: Trie, p: Path, i: byte)
    requires Standing(t) && p in t.at && t.at[p].children.Length == 256 && p in t.s.slots && |t.s.slots[p]| == 256
    requires i > 0 && t.s.slots[p][i] != Self
    ensures t.at[p].children[i] == t.at[p].children[i-1] <==>
      t.s.slots[p][i].Hold? && t.s.slots[p][i-1] == t.s.slots[p][i]
  {
    SlotIs(t, p, i);
    SlotIs(t, p, i - 1);
    if t.s.slots[p][i] == Down && t.s.slots[p][i-1] == Down {
      assert Sub(p, i)[|p|] == i && Sub(p, i - 1)[|p|] == i - 1;
    }
  }

  // ------------------------------------------------------------ one node

  /** The forward children in the first i slots. */
  ghost function Children(s: State, at: map<Path, Fwd>, p: Path, i: nat): seq<Context>
    requires p in s.slots && i <= 256
  {
    if i == 0 then []
    else if i <= |s.slots[p]| && s.slots[p][i-1] == Down && Sub(p, i - 1) in at then
      Children(s, at, p, i - 1) + [ChildAt(at, p, i - 1)]
    else Children(s, at, p, i - 1)
  }

  /** The leaves in `gone` are those that are not left, each of them once. */
  ghost predicate Deleted(s: State, gone: seq<Leaf>, left: set<Leaf>) {
    && (forall n | n in gone :: n in s.leaf && n !in left) && (forall n | n in s.leaf && n !in left :: n in gone)
    && forall i, j | 0 <= i < j < |gone| :: gone[i] != gone[j]
  }

  lemma DeleteOne(s: State, gone: seq<Leaf>, left: set<Leaf>, n: Leaf)
    requires Deleted(s, gone, left) && n in left && n in s.leaf
    ensures Deleted(s, gone + [n], left - {n})
  {
  }

  /** Passes one slot: cleans and deletes a leaf met for the first time, or notes a forward child. */
  method CleanSlot(t: Trie, c: Context, i: byte, ghost start: Storage, ghost done: set<Path>, ghost gone: seq<Leaf>)
    returns (more: seq<Context>, ghost gone': seq<Leaf>)
    requires Standing(t) && Conserved(t.s.leaf, t.plots, start) && ContextOk(t.at, c) && c.fwd.prefix !in done
    requires c.fwd.children.Length == 256 && c.fwd.prefix in t.s.slots && |t.s.slots[c.fwd.prefix]| == 256
    requires t.heap.Valid() && Remaining(t.plots, start, t.heap.blocks, Left(t.s, done, c.fwd.prefix, i))
    requires Deleted(t.s, gone, Left(t.s, done, c.fwd.prefix, i))
    modifies t.heap
    ensures t.heap.Valid() && Remaining(t.plots, start, t.heap.blocks, Left(t.s, done, c.fwd.prefix, i + 1))
    ensures Deleted(t.s, gone', Left(t.s, done, c.fwd.prefix, i + 1))
    ensures Children(t.s, t.at, c.fwd.prefix, i) + more == Children(t.s, t.at, c.fwd.prefix, i + 1)
  {
    hide Conserved, Remaining, Left, Bounded, Deleted, Collected, BlockHeap.Valid, Trie.Matches;
    ghost var p := c.fwd.prefix;
    more, gone' := [], gone;
    LeftStep(t.s, done, p, i);
    SlotIs(t, p, i);
    if i > 0 && t.s.slots[p][i] != Self { SameAsBefore(t, p, i); }
    var child := c.fwd.children[i];
    if child.LeafChild? { FirstMet(t.s, p, i, child.leaf); }
    if child == FwdChild(c.fwd) || (i > 0 && child == c.fwd.children[i-1]) {
      return;
    }
    match child {
      case FwdChild(f) =>
        BelowCollects(p, i);
        more := [Context(f, c.depth + 1, Below(c.encsize, c.depth, f.path))];
      case LeafChild(n) =>
        CleanLeaf(t, n, c, start, done, i);
        DeleteOne(t.s, gone, Left(t.s, done, p, i), n);
        gone' := gone + [n];
      case Null =>
    }
  }

  /** Frees the bucket of a leaf. */
  method CleanLeaf(t: Trie, n: Leaf, c: Context, ghost start: Storage, ghost done: set<Path>, ghost i: nat)
    requires Standing(t) && Conserved(t.s.leaf, t.plots, start)
    requires n in t.s.leaf && t.s.leaf[n].at == c.fwd.prefix && t.s.leaf[n].path == i && c.fwd.prefix !in done
    requires ContextOk(t.at, c)
    requires t.heap.Valid() && Remaining(t.plots, start, t.heap.blocks, Left(t.s, done, c.fwd.prefix, i))
    modifies t.heap
    ensures t.heap.Valid() && Remaining(t.plots, start, t.heap.blocks, Left(t.s, done, c.fwd.prefix, i) - {n})
    ensures n in Left(t.s, done, c.fwd.prefix, i)
  {
    hide Conserved, Remaining, Exchanged, Laid, Trie.Matches, BlockHeap.Valid;
    ghost var r, now, left := t.s.leaf[n], t.heap.blocks, Left(t.s, done, c.fwd.prefix, i);
    KnownLeaves(t.s.leaf, t.plots, start);
    t.PlaceOf(n);
    assert n in left && left <= t.plots.Keys;
    StillLaid(t.s, t.plots, start, now, left, n);
    WfLeaf(t.s, n);
    ghost var x := r.items[0];
    KeyLengths(r, x);
    CollectedIs(r.at, |x.key|);
    CleanBytes(n.flat, c.encsize, c.depth, t.heap, Bucket(r), t.plots[n].cells, |x.key|);
    CleanOne(t.s, t.plots, start, now, t.heap.blocks, left, n);
  }

  /** Frees the buckets of the leaves that start in a node, deletes these leaves, and notes the node's forward
      children. */
  method CleanRow(t: Trie, c: Context, rest: seq<Context>, ghost start: Storage, ghost done: set<Path>,
                  ghost gone: seq<Leaf>)
    returns (stack: seq<Context>, ghost gone': seq<Leaf>)
    requires Standing(t) && Conserved(t.s.leaf, t.plots, start) && ContextOk(t.at, c) && c.fwd.prefix !in done
    requires t.heap.Valid() && Remaining(t.plots, start, t.heap.blocks, Left(t.s, done, c.fwd.prefix, 0))
    requires Deleted(t.s, gone, Left(t.s, done, c.fwd.prefix, 0))
    modifies t.heap
    ensures t.heap.Valid() && Remaining(t.plots, start, t.heap.blocks, Left(t.s, done + {c.fwd.prefix}, [], 0))
    ensures Deleted(t.s, gone', Left(t.s, done + {c.fwd.prefix}, [], 0))
    ensures c.fwd.prefix in t.s.slots && stack == rest + Children(t.s, t.at, c.fwd.prefix, 256)
  {
    hide Conserved, Remaining, Left, Bounded, Trie.Matches, Deleted, Collected, BlockHeap.Valid, All;
    ghost var p := c.fwd.prefix;
    t.AboutNode(p);
    stack, gone' := rest, gone;
    for i := 0 to 256
      invariant t.heap.Valid() && Remaining(t.plots, start, t.heap.blocks, Left(t.s, done, p, i))
      invariant Standing(t) && Deleted(t.s, gone', Left(t.s, done, p, i))
      invariant stack == rest + Children(t.s, t.at, p, i)
    {
      var more;
      more, gone' := CleanSlot(t, c, i, start, done, gone');
      stack := stack + more;
    }
    RowDone(t.s, done, p);
  }

  // ------------------------------------------------------------ the whole walk

  ghost predicate ChildBefore(s: State, at: map<Path, Fwd>, p: Path, i: nat, c: Context)
    requires p in s.slots
  {
    exists j: byte :: j < i && j < |s.slots[p]| && s.slots[p][j] == Down && Sub(p, j) in at && c == ChildAt(at, p, j)
  }

  lemma {:induction false} ChildrenAre(s: State, at: map<Path, Fwd>, p: Path, i: nat)
    requires p in s.slots && i <= |s.slots[p]| <= 256 && Named(s, at)
    ensures forall c | c in Children(s, at, p, i) :: ChildBefore(s, at, p, i, c)
    ensures forall j: byte | j < i && s.slots[p][j] == Down && Sub(p, j) in at ::
      Sub(p, j) in Paths(Children(s, at, p, i))
    ensures forall a, b | 0 <= a < b < |Children(s, at, p, i)| ::
      Children(s, at, p, i)[a].fwd.prefix != Children(s, at, p, i)[b].fwd.prefix
  {
    if i > 0 {
      ChildrenAre(s, at, p, i - 1);
      var j: byte := i - 1;
      if s.slots[p][j] == Down && Sub(p, j) in at {
        AppendChild(s, at, p, Children(s, at, p, i - 1), j);
      } else {
        forall c | c in Children(s, at, p, i)
          ensures ChildBefore(s, at, p, i, c)
        {
          assert ChildBefore(s, at, p, i - 1, c);
        }
      }
    }
  }

  lemma AppendChild(s: State, at: map<Path, Fwd>, p: Path, cs: seq<Context>, j: byte)
    requires p in s.slots && j < |s.slots[p]| <= 256 && s.slots[p][j] == Down && Named(s, at) && Sub(p, j) in at
    requires forall c | c in cs :: ChildBefore(s, at, p, j, c)
    requires forall k: byte | k < j && s.slots[p][k] == Down && Sub(p, k) in at :: Sub(p, k) in Paths(cs)
    requires forall a, b | 0 <= a < b < |cs| :: cs[a].fwd.prefix != cs[b].fwd.prefix
    ensures var ds := cs + [ChildAt(at, p, j)];
      && (forall c | c in ds :: ChildBefore(s, at, p, j + 1, c))
      && (forall k: byte | k < j + 1 && s.slots[p][k] == Down && Sub(p, k) in at :: Sub(p, k) in Paths(ds))
      && (forall a, b | 0 <= a < b < |ds| :: ds[a].fwd.prefix != ds[b].fwd.prefix)
  {
    var last := ChildAt(at, p, j);
    var ds := cs + [last];
    assert last in ds && ChildBefore(s, at, p, j + 1, last);
    assert Paths(ds) == Paths(cs) + {last.fwd.prefix};
    forall c | c in cs ensures ChildBefore(s, at, p, j + 1, c) {
      var k: byte :| k < j && s.slots[p][k] == Down && Sub(p, k) in at && c == ChildAt(at, p, k);
    }
    forall a, b | 0 <= a < b < |ds| ensures ds[a].fwd.prefix != ds[b].fwd.prefix {
      if b == |cs| {
        assert cs[a] in cs;
        var k: byte :| k < j && Sub(p, k) in at && cs[a] == ChildAt(at, p, k);
        assert Sub(p, k)[|p|] == k && Sub(p, j)[|p|] == j;
      }
    }
  }

  /** The children of an unvisited node are new. */
  lemma NewChildren(s: State, at: map<Path, Fwd>, stack: seq<Context>, done: set<Path>, c: Context)
    requires Sound(s) && Named(s, at) && Pending(s, at, stack, done) && c in stack
    ensures var p := c.fwd.prefix;
      && p in s.slots && |s.slots[p]| == 256
      && (forall d | d in Children(s, at, p, 256) ::
            && ContextOk(at, d) && d.fwd.prefix != [] && Front(d.fwd.prefix) == p
            && d.fwd.prefix !in done && d.fwd.prefix != p && d.fwd.prefix !in Paths(stack))
      && (forall q | q in s.slots && q != [] && Front(q) == p :: q in Paths(Children(s, at, p, 256)))
  {
    assert Wf(s);
    var p := c.fwd.prefix;
    ChildrenAre(s, at, p, 256);
    forall d | d in Children(s, at, p, 256) ensures ContextOk(at, d) && d.fwd.prefix != [] && Front(d.fwd.prefix) == p {
      assert ChildBefore(s, at, p, 256, d);
      var j: byte :| j < 256 && s.slots[p][j] == Down && Sub(p, j) in at && d == ChildAt(at, p, j);
      FrontOfSub(p, j);
    }
    forall q | q in s.slots && q != [] && Front(q) == p ensures q in Paths(Children(s, at, p, 256)) {
      assert q == Sub(p, Last(q));
    }
  }

  lemma ChildrenDistinct(s: State, at: map<Path, Fwd>, p: Path)
    requires p in s.slots && |s.slots[p]| == 256 && Named(s, at)
    ensures forall a, b | 0 <= a < b < |Children(s, at, p, 256)| ::
      Children(s, at, p, 256)[a].fwd.prefix != Children(s, at, p, 256)[b].fwd.prefix
  {
    ChildrenAre(s, at, p, 256);
  }

  /** Visiting the top of the stack. */
  lemma Visit(s: State, at: map<Path, Fwd>, stack: seq<Context>, done: set<Path>)
    requires Sound(s) && Named(s, at) && Pending(s, at, stack, done) && stack != []
    ensures var c := stack[|stack|-1];
      && ContextOk(at, c) && c.fwd.prefix !in done && c.fwd.prefix in at && at[c.fwd.prefix] == c.fwd
      && c.fwd.prefix in s.slots && |s.slots[c.fwd.prefix]| == 256
      && Pending(s, at, stack[..|stack|-1] + Children(s, at, c.fwd.prefix, 256), done + {c.fwd.prefix})
  {
    hide Children, Collected, Frontier, Paths;
    var c, rest := stack[|stack|-1], stack[..|stack|-1];
    assert stack == rest + [c];
    assert c in stack;
    NewChildren(s, at, stack, done, c);
    var cs := Children(s, at, c.fwd.prefix, 256);
    VisitContexts(s, at, rest, c, cs, stack, done);
    VisitFrontier(s, rest, c, cs, stack, done);
  }

  lemma VisitContexts(s: State, at: map<Path, Fwd>, rest: seq<Context>, c: Context, cs: seq<Context>,
                      stack: seq<Context>, done: set<Path>)
    requires stack == rest + [c] && ContextsOk(at, stack, done) && Named(s, at)
    requires c.fwd.prefix in s.slots && |s.slots[c.fwd.prefix]| == 256 && cs == Children(s, at, c.fwd.prefix, 256)
    requires forall d | d in cs ::
      ContextOk(at, d) && d.fwd.prefix !in done && d.fwd.prefix != c.fwd.prefix && d.fwd.prefix !in Paths(stack)
    ensures ContextsOk(at, rest + cs, done + {c.fwd.prefix})
  {
    hide Children, Collected, ContextOk;
    ChildrenDistinct(s, at, c.fwd.prefix);
    VisitDistinct(rest, c, cs, stack);
    assert c in stack && ContextOk(at, c);
    assert c.fwd.prefix in at.Keys by { ContextIn(at, c); }
  }

  lemma ContextIn(at: map<Path, Fwd>, c: Context)
    requires ContextOk(at, c)
    ensures c.fwd.prefix in at
  {
  }

  lemma VisitFrontier(s: State, rest: seq<Context>, c: Context, cs: seq<Context>, stack: seq<Context>, done: set<Path>)
    requires stack == rest + [c] && Frontier(s, Paths(stack), done)
    requires forall d | d in cs :: d.fwd.prefix != [] && Front(d.fwd.prefix) == c.fwd.prefix
    requires forall p | p in s.slots && p != [] && Front(p) == c.fwd.prefix :: p in Paths(cs)
    ensures Frontier(s, Paths(rest + cs), done + {c.fwd.prefix})
  {
    assert Paths(stack) == Paths(rest) + {c.fwd.prefix} && Paths(rest + cs) == Paths(rest) + Paths(cs);
  }

  lemma VisitDistinct(rest: seq<Context>, c: Context, cs: seq<Context>, stack: seq<Context>)
    requires stack == rest + [c]
    requires forall i, j | 0 <= i < j < |stack| :: stack[i].fwd.prefix != stack[j].fwd.prefix
    requires forall a, b | 0 <= a < b < |cs| :: cs[a].fwd.prefix != cs[b].fwd.prefix
    requires forall d | d in cs :: d.fwd.prefix !in Paths(stack)
    ensures forall i, j | 0 <= i < j < |rest + cs| :: (rest + cs)[i].fwd.prefix != (rest + cs)[j].fwd.prefix
    ensures forall d | d in rest :: d.fwd.prefix != c.fwd.prefix
  {
    var all := rest + cs;
    forall i, j | 0 <= i < j < |all| ensures all[i].fwd.prefix != all[j].fwd.prefix {
      if j < |rest| {
        assert stack[i].fwd.prefix != stack[j].fwd.prefix;
      } else if i < |rest| {
        assert stack[i] in stack && all[j] in cs;
      } else {
        assert cs[i-|rest|].fwd.prefix != cs[j-|rest|].fwd.prefix;
      }
    }
    forall d | d in rest ensures d.fwd.prefix != c.fwd.prefix {
      var i :| 0 <= i < |rest| && rest[i] == d;
      assert stack[i].fwd.prefix != stack[|rest|].fwd.prefix;
    }
  }

  /** With nothing on the stack every node has been visited. */
  lemma {:induction false} AllVisited(s: State, at: map<Path, Fwd>, done: set<Path>, p: Path)
    requires Sound(s) && Pending(s, at, [], done) && p in s.slots
    ensures p in done
    decreases |p|
  {
    assert Wf(s);
    if p != [] {
      assert p == Sub(Front(p), Last(p));
      AllVisited(s, at, done, Front(p));
    }
  }

  lemma NoneLeft(s: State, at: map<Path, Fwd>, done: set<Path>)
    requires Sound(s) && Named(s, at) && Pending(s, at, [], done)
    ensures Left(s, done, [], 0) == {} && done == s.slots.Keys
  {
    forall p | p in s.slots ensures p in done { AllVisited(s, at, done, p); }
    forall n | n in s.leaf ensures s.leaf[n].at in done { WfLeaf(s, n); }
  }

  lemma WalkStart(s: State, at: map<Path, Fwd>)
    requires Sound(s) && Named(s, at)
    ensures [] in at && Pending(s, at, [Context(at[[]], 0, 0)], {})
  {
    assert Wf(s);
    assert Paths([Context(at[[]], 0, 0)]) == {[]};
  }

  lemma NodesAreNamed(t: Trie)
    requires t.Matches()
    ensures Named(t.s, t.at) && t.root == t.at[[]]
  {
    forall p | p in t.at ensures t.at[p].prefix == p { t.AboutNode(p); }
  }

  /** The nodes in `nodes` are the visited ones below the root, each of them once. */
  ghost predicate NodesDeleted(at: map<Path, Fwd>, done: set<Path>, nodes: seq<Fwd>) {
    && (forall f | f in nodes :: f.prefix in done && f.prefix != [] && f.prefix in at && at[f.prefix] == f)
    && (forall p | p in done && p != [] && p in at :: at[p] in nodes)
    && forall i, j | 0 <= i < j < |nodes| :: nodes[i] != nodes[j]
  }

  lemma DeleteNode(at: map<Path, Fwd>, done: set<Path>, nodes: seq<Fwd>, c: Context)
    requires NodesDeleted(at, done, nodes) && ContextOk(at, c) && c.fwd.prefix !in done
    ensures NodesDeleted(at, done + {c.fwd.prefix}, if c.fwd.prefix == [] then nodes else nodes + [c.fwd])
  {
  }

  /** The destructor frees every block of the trie and no other, and deletes every leaf and every forward node but the
      root, each of them once. */
  method Destroy(t: Trie) returns (ghost leaves: seq<Leaf>, ghost nodes: seq<Fwd>)
    requires t.Valid()
    modifies t.heap
    ensures t.heap.Valid() && Exchanged(old(t.heap.blocks), t.heap.blocks, All(t.plots), {})
    ensures Deleted(t.s, leaves, {}) && NodesDeleted(t.at, t.s.slots.Keys, nodes)
  {
    hide Conserved, Pending, Left, Remaining, Trie.Matches, Deleted, NodesDeleted, Children, All, ContextOk,
         BlockHeap.Valid, Exchanged;
    ghost var start, s, at := t.heap.blocks, t.s, t.at;
    ghost var done: set<Path> := {};
    leaves, nodes := [], [];
    NodesAreNamed(t);
    var stack := [Context(t.root, 0, 0)];
    WalkStart(s, at);
    RemainingStart(s, t.plots, start);
    NothingDeleted(s, t.plots, start, at);
    while stack != []
      invariant t.heap.Valid() && Standing(t) && Pending(s, at, stack, done)
      invariant Remaining(t.plots, start, t.heap.blocks, Left(s, done, [], 0))
      invariant Deleted(s, leaves, Left(s, done, [], 0)) && NodesDeleted(at, done, nodes)
      decreases |s.slots.Keys - done|
    {
      var next := stack[|stack|-1];
      Visit(s, at, stack, done);
      NothingPassed(s, done, next.fwd.prefix);
      stack, leaves := CleanRow(t, next, stack[..|stack|-1], start, done, leaves);
      t.NodeIs(next.fwd.prefix);
      DeleteNode(at, done, nodes, next);
      if next.fwd != t.root { nodes := nodes + [next.fwd]; }
      assert s.slots.Keys - (done + {next.fwd.prefix}) < s.slots.Keys - done;
      SmallerSet(s.slots.Keys - (done + {next.fwd.prefix}), s.slots.Keys - done);
      done := done + {next.fwd.prefix};
    }
    NoneLeft(s, at, done);
    NothingRemains(t.plots, start, t.heap.blocks, s);
  }

  lemma NothingPassed(s: State, done: set<Path>, p: Path)
    ensures Left(s, done, p, 0) == Left(s, done, [], 0)
  {
  }

  lemma NothingDeleted(s: State, g: Plots, start: Storage, at: map<Path, Fwd>)
    requires Conserved(s.leaf, g, start)
    ensures Deleted(s, [], Left(s, {}, [], 0)) && NodesDeleted(at, {}, [])
  {
  }

  lemma SmallerSet(a: set<Path>, b: set<Path>)
    requires a < b
    ensures |a| < |b|
  {
    assert b == a + (b - a);
    var x :| x in b - a;
  }

  lemma NothingRemains(g: Plots, start: Storage, now: Storage, s: State)
    requires Conserved(s.leaf, g, start) && Remaining(g, start, now, {})
    ensures Exchanged(start, now, All(g), {})
  {
    assert PointersOf(g, {}) == {};
  }

  // ------------------------------------------------------------ whole lives

  /** A trie that is built, used and destroyed leaves the blocks exactly as it found them. */
  method WholeLife(calls: seq<Call>, heap: BlockHeap) returns (answers: seq<Answer>)
    requires Proper(calls) && heap.Valid() && |heap.free| >= |calls| + SPLITBOUND
    modifies heap
    ensures |answers| == |calls| && forall i | 0 <= i < |calls| :: Correct(calls, i, answers[i])
    ensures heap.Valid() && heap.blocks == old(heap.blocks)
  {
    hide Legal, Replies, Conserved, All, Represents, Proper, Correct, HasId;
    var t;
    t, answers := Run(calls, heap);
    var leaves, nodes := Destroy(t);
    BackToStart(old(heap.blocks), heap.blocks, All(t.plots));
  }

  lemma BackToStart(a: Storage, c: Storage, mine: set<Pointer>)
    requires exists b :: Exchanged(a, b, {}, mine) && Exchanged(b, c, mine, {})
    ensures c == a
  {
    var b :| Exchanged(a, b, {}, mine) && Exchanged(b, c, mine, {});
    ExchangedChain(a, b, c, {}, mine, {});
  }
}
