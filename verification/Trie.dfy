/** The trie of the library: insertion with splitting, lookup, and erasure with merging, down to the bytes of its
    buckets. */
module Trie {
  import opened Bytes
  import opened Blocks
  import opened Config
  import opened Memory
  import opened Nodes
  import opened Shape
  import opened ShapeOps
  import opened ShapeMoves
  import opened Heap
  import opened Splitting
  import opened Search
  import opened Merging
  import opened Layout
  import opened FlatBucket
  import opened Forest
  import opened Rest
  import opened Census
  import opened Settling

  /** What a failed lookup returns for an id. */
  const NO_ID: nat := 0xFFFF_FFFF_FFFF_FFFF

  class Trie {
    const root: Fwd
    const heap: BlockHeap
    /** Whether every key gets an id (stable set, map) or none does (plain set). */
    const entries: bool
    /** For every id ever issued, the leaf its entry points back to. */
    var owner: seq<Leaf>
    /** Whether readd_sizes has ever had more keys to handle than its array of lengths has places. */
    var overrun: bool
    /** Whether merge_down has ever looked at a leaf after its deletion. */
    var dangling: bool

    ghost var s: State
    ghost var at: map<Path, Fwd>
    ghost var plots: Plots
    ghost var gone: set<Leaf>
    ghost var Repr: set<object>

    /** The nodes in memory are what t says: every forward node by its path, every leaf by its record. */
    ghost predicate Mirrors(t: State)
      reads this, Repr
      requires at.Keys == t.slots.Keys
    {
      && NodesIn(at, Repr) && SlotsApart(at)
      && (forall p {:trigger NodeOk(at[p], p, t.slots[p], at)} | p in at :: NodeOk(at[p], p, t.slots[p], at))
      && (forall n | n in t.leaf :: n in Repr && n in plots)
      && (forall n {:trigger LeafOk(n, t.leaf[n], at, plots[n].flat, entries)} | n in t.leaf ::
            LeafOk(n, t.leaf[n], at, plots[n].flat, entries))
      && (forall n {:trigger n in gone} | n in gone :: n in Repr && n.deleted && n !in t.leaf)
    }

    /** Memory is as the ghost value s says. Mirrors(s) is put so that the verifier opens it only where it is
        mentioned. */
    ghost predicate Matches()
      reads this, Repr
      ensures Matches() ==> this in Repr && heap !in Repr
    {
      && this in Repr && heap !in Repr && [] in at && root == at[[]] && at.Keys == s.slots.Keys
      && owner == (if entries then s.owner else [])
      && forall t {:trigger Mirrors(t)} | t == s :: Mirrors(t)
    }

    /** Every bucket lies in memory as its leaf says, and the blocks in use that are the trie's belong to one key
        each. */
    ghost predicate Backed()
      reads this, heap
    {
      heap.Valid() && Sustained(s.leaf, plots, heap.blocks)
    }

    /** The blocks in use, the number of free addresses, and the trie's own blocks. */
    ghost function Accounts(): Books
      reads this, heap
    {
      Books(heap.blocks, |heap.free|, All(plots))
    }

    /** Memory is as it should be, with enough free addresses to rewrite a bucket. */
    ghost predicate Ready()
      reads this, heap, Repr
      ensures Ready() ==> this in Repr && heap !in Repr
    {
      Matches() && Backed() && HasRoom(Accounts(), Items(s), 0)
    }

    constructor (heap: BlockHeap, entries: bool)
      requires heap.Valid()
      ensures Matches() && fresh(Repr) && Backed()
      ensures this.heap == heap && this.entries == entries && !overrun && !dangling
      ensures Sound(s) && s == EMPTY_STATE && plots == map[] && gone == {}
    {
      var r := new Fwd([], 0, null);
      root := r;
      this.heap := heap;
      this.entries := entries;
      owner := [];
      overrun := false;
      dangling := false;
      gone := {};
      s := EMPTY_STATE;
      at := map[[] := r];
      plots := map[];
      Repr := {this, r, r.children};
      new;
      FillSlots(r.children, 0, 256, FwdChild(r));
      assert Conserved(s.leaf, plots, heap.blocks);
    }

    /** The leaf's fields are those of its record. */
    lemma AboutLeaf(n: Leaf)
      requires Matches() && n in s.leaf
      ensures n in Repr && n in plots && LeafOk(n, s.leaf[n], at, plots[n].flat, entries)
    {
      assert Mirrors(s);
    }

    /** The node's slots and links are those of its path. */
    lemma AboutNode(p: Path)
      requires Matches() && p in at
      ensures p in s.slots && at[p] in Repr && at[p].children in Repr && NodeOk(at[p], p, s.slots[p], at)
    {
      assert Mirrors(s);
    }

    lemma AboutRoot()
      requires Matches()
      ensures [] in at && root == at[[]] && root in Repr && root.children in Repr
      ensures root.prefix == [] && root.parent == null && root.children.Length == 256 && (!entries ==> owner == [])
    {
      AboutNode([]);
    }

    method SetSlots(f: Fwd, from: nat, to: nat, c: Child, ghost v: Slot)
      requires Matches() && f.prefix in at && at[f.prefix] == f && from <= to <= 256
      requires f.prefix in s.slots && |s.slots[f.prefix]| == 256
      requires v == Self || v.Hold?
      requires SlotOk(c, v, f.prefix, 0, at)
      modifies this`s, f.children
      ensures Matches() && s == old(SetRow(s, f.prefix, from, to, v))
    {
      hide LeafOk, NodeOk, SlotOk, LinksOk, NodesIn, Fill;
      assert Mirrors(s);
      ghost var p, was, row := f.prefix, f.children[..], s.slots[f.prefix];
      NodeParts(f, p, row, at);
      SameSlot(c, v, p, at);
      FillSlots(f.children, from, to, c);
      s := SetRow(s, p, from, to, v);
      Overwritten(was, f.children[..], row, p, at, from, to, c, v);
      NodeAgain(f, p, s.slots[p], at);
      assert forall t {:trigger NodeOk(at[t], t, s.slots[t], at)} | t in at :: NodeOk(at[t], t, s.slots[t], at);
      assert Mirrors(s);
    }

    /** The bucket of plot p is one for record r. */
    ghost predicate Suits(f: Flat, r: LeafRec, p: Plot) {
      p.flat == f && |f.firsts| == |r.items| && f.ids == ListedIds(r.items, entries)
    }

    /** Overwrites a leaf's fields. */
    method Rewrite(n: Leaf, parent: Fwd, path: byte, typ: nat, flat: Flat, ghost r: LeafRec, ghost p: Plot)
      requires Matches() && n in s.leaf
      requires r.at in at && parent == at[r.at] && path == r.path && typ == r.typ && Suits(flat, r, p)
      modifies this`s, this`plots, n
      ensures Matches() && s == SetLeaf(old(s), n, r) && plots == old(plots)[n := p]
    {
      hide NodeOk, SlotsApart, ListedIds;
      AboutLeaf(n);
      assert Mirrors(s);
      n.Assign(path, typ, parent, flat);
      s, plots := SetLeaf(s, n, r), plots[n := p];
      assert LeafOk(n, r, at, p.flat, entries);
      assert Mirrors(s);
    }

    /** A newly allocated leaf becomes part of the trie. */
    method AdoptLeaf(n: Leaf, parent: Fwd, path: byte, typ: nat, flat: Flat, ghost r: LeafRec, ghost p: Plot)
      requires Matches() && n !in Repr && !n.deleted
      requires r.at in at && parent == at[r.at] && path == r.path && typ == r.typ && Suits(flat, r, p)
      modifies this`s, this`plots, this`Repr, n
      ensures Matches() && Repr == old(Repr) + {n}
      ensures s == SetLeaf(old(s), n, r) && plots == old(plots)[n := p]
    {
      hide NodeOk, SlotsApart, ListedIds;
      assert Mirrors(s);
      n.Assign(path, typ, parent, flat);
      Repr := Repr + {n};
      s, plots := SetLeaf(s, n, r), plots[n := p];
      assert LeafOk(n, r, at, p.flat, entries);
      assert Mirrors(s);
    }

    /** Deletes a leaf that no slot shows any more. */
    method DeleteLeaf(n: Leaf)
      requires Matches() && n in s.leaf
      modifies this`s, this`plots, this`gone, n`deleted
      ensures Matches() && s == DropLeaf(old(s), n) && plots == old(plots) - {n} && gone == old(gone) + {n}
    {
      hide NodeOk, LeafOk, NodesIn, SlotsApart;
      assert Mirrors(s);
      n.deleted := true;
      s, plots, gone := DropLeaf(s, n), plots - {n}, gone + {n};
      assert Mirrors(s);
    }

    /** The entries of these ids now point back to n. */
    method Repoint(ids: seq<nat>, n: Leaf, ghost items: seq<Item>)
      requires Matches() && ids == ListedIds(items, entries) && forall i | 0 <= i < |items| :: items[i].id < |s.owner|
      modifies this`s, this`owner
      ensures Matches() && s == old(s).(owner := s.owner)
      ensures Repointed(old(s.owner), s.owner, Ids(items), n)
    {
      hide NodeOk, LeafOk, NodesIn, SlotsApart;
      assert Mirrors(s);
      if entries { RepointAll(ids, n); }
      IdsOfSeq(items);
      s := s.(owner := Pointed(s.owner, Ids(items), n));
      assert Mirrors(s);
    }

    method RepointAll(ids: seq<nat>, n: Leaf)
      requires forall i | 0 <= i < |ids| :: ids[i] < |owner|
      modifies this`owner
      ensures owner == Pointed(old(owner), IdSet(ids), n)
    {
      for k := 0 to |ids|
        invariant owner == Pointed(old(owner), IdSet(ids[..k]), n)
      {
        IdSetStep(ids, k);
        owner := owner[ids[k] := n];
      }
      assert ids[..|ids|] == ids;
    }

    /** The next id, if the trie keeps ids; its entry points at n. */
    method NextId(n: Leaf) returns (id: nat)
      requires Matches()
      modifies this`s, this`owner
      ensures Matches() && s == old(s).(owner := old(s.owner) + [n])
      ensures id == if entries then |old(s.owner)| else 0
    {
      hide NodeOk, LeafOk, NodesIn, SlotsApart;
      assert Mirrors(s);
      id := 0;
      if entries {
        id := |owner|;
        owner := owner + [n];
      }
      s := s.(owner := s.owner + [n]);
      assert Mirrors(s);
    }

    /** A new forward node in slot b of f; null stands for a half whose slots are free. */
    method NewNode(f: Fwd, b: byte, low: Leaf?, high: Leaf?) returns (g: Fwd)
      requires Matches() && f.prefix in at && at[f.prefix] == f
      requires f.prefix in s.slots && |s.slots[f.prefix]| == 256 && Sub(f.prefix, b) !in at
      modifies this`s, this`Repr, this`at, f.children
      ensures Matches() && fresh(g) && fresh(g.children) && fresh(Repr - old(Repr))
      ensures at == old(at)[Sub(f.prefix, b) := g] && s.leaf == old(s.leaf)
      ensures s == old(AddNode(s, f.prefix, b, SlotOf(low), SlotOf(high)))
    {
      ghost var p := f.prefix;
      AboutNode(p);
      g := FreshNode(p, b, f, low, high);
      LinkNode(f, b, g, SlotOf(low), SlotOf(high));
    }

    method LinkNode(f: Fwd, b: byte, g: Fwd, ghost low: Slot, ghost high: Slot)
      requires Matches() && f.prefix in at && at[f.prefix] == f
      requires f.prefix in s.slots && |s.slots[f.prefix]| == 256 && Sub(f.prefix, b) !in at
      requires g !in Repr && g.children !in Repr
      requires g.prefix == Sub(f.prefix, b) && g.path == b && g.parent == f && g.children.Length == 256
      requires low != Down && high != Down
      requires forall i: byte :: HalfOk(g.children[i], if i < 128 then low else high, g)
      modifies this`s, this`Repr, this`at, f.children
      ensures Matches() && Repr == old(Repr) + {g, g.children}
      ensures at == old(at)[Sub(f.prefix, b) := g]
      ensures s == old(AddNode(s, f.prefix, b, low, high))
    {
      AdoptNode(f, b, g, low, high);
      SetDown(f, b, g);
    }

    method SetDown(f: Fwd, b: byte, g: Fwd)
      requires Matches() && f.prefix in at && at[f.prefix] == f
      requires f.prefix in s.slots && |s.slots[f.prefix]| == 256
      requires Sub(f.prefix, b) in at && at[Sub(f.prefix, b)] == g
      modifies this`s, f.children
      ensures Matches() && s == old(SetRow(s, f.prefix, b, b + 1, Down))
    {
      hide LeafOk, NodeOk, SlotOk, LinksOk, NodesIn, Fill;
      assert Mirrors(s);
      ghost var p, was, row := f.prefix, f.children[..], s.slots[f.prefix];
      NodeParts(f, p, row, at);
      DownSlot(p, b, at);
      f.children[b] := FwdChild(g);
      s := SetRow(s, p, b, b + 1, Down);
      Overwritten(was, f.children[..], row, p, at, b, b + 1, FwdChild(g), Down);
      NodeAgain(f, p, s.slots[p], at);
      assert Mirrors(s);
    }

    ghost method AdoptNode(f: Fwd, b: byte, g: Fwd, low: Slot, high: Slot)
      requires Matches() && f.prefix in at && at[f.prefix] == f
      requires Sub(f.prefix, b) !in at
      requires g !in Repr && g.children !in Repr
      requires g.prefix == Sub(f.prefix, b) && g.path == b && g.parent == f && g.children.Length == 256
      requires low != Down && high != Down
      requires forall i: byte :: HalfOk(g.children[i], if i < 128 then low else high, g)
      modifies this`s, this`Repr, this`at
      ensures Matches() && Repr == old(Repr) + {g, g.children}
      ensures at == old(at)[Sub(f.prefix, b) := g]
      ensures s == old(AddRow(s, Sub(f.prefix, b), low, high))
    {
      hide LeafOk, NodeOk, ListedIds, Fill, NodesIn, SlotsApart;
      assert Mirrors(s);
      var p, q := f.prefix, Sub(f.prefix, b);
      var was, had := at, s;
      OneNodeMore(at, Repr, q, g);
      at := at[q := g];
      s := AddRow(s, q, low, high);
      Repr := Repr + {g, g.children};
      assert Front(q) == p && Last(q) == b;
      NewNodeOk(g, p, b, s.slots[q], at, low, high);
      forall t {:trigger NodeOk(at[t], t, s.slots[t], at)} | t in at ensures NodeOk(at[t], t, s.slots[t], at) {
        if t != q {
          assert NodeOk(was[t], t, had.slots[t], was);
          NodeOkGrows(was[t], t, had.slots[t], was, q, g);
        }
      }
      forall n {:trigger LeafOk(n, s.leaf[n], at, plots[n].flat, entries)} | n in s.leaf
        ensures LeafOk(n, s.leaf[n], at, plots[n].flat, entries)
      {
        assert LeafOk(n, s.leaf[n], was, plots[n].flat, entries);
        LeafOkGrows(n, s.leaf[n], was, plots[n].flat, entries, q, g);
      }
      assert Mirrors(s);
    }

    // ---------------------------------------------------------- accounts

    /** The leaves that the trie has or has had. */
    ghost function Known(): set<Leaf>
      reads this
    {
      s.leaf.Keys + gone
    }

    /** A leaf that the trie has had is marked as deleted exactly if it is no longer there. */
    lemma DeletedOrThere(n: Leaf)
      requires Matches() && n in Known()
      ensures n.deleted <==> n !in s.leaf
    {
      hide NodeOk, NodesIn, SlotsApart;
      assert Mirrors(s);
      if n in s.leaf { AboutLeaf(n); }
    }

    /** What the byte routines need of leaf n. */
    lemma AboutBucket(n: Leaf)
      requires Matches() && Backed() && n in s.leaf
      ensures n in Repr && n in plots && Suits(n.flat, s.leaf[n], plots[n]) && Conserved(s.leaf, plots, heap.blocks)
      ensures n.typ == s.leaf[n].typ && n.path == s.leaf[n].path
    {
      AboutLeaf(n);
    }

    /** Leaf n, its fields and the node it hangs from. */
    lemma PlaceOf(n: Leaf)
      requires Matches() && n in s.leaf
      ensures n in Repr && n in plots && Suits(n.flat, s.leaf[n], plots[n])
      ensures n.typ == s.leaf[n].typ && n.path == s.leaf[n].path
      ensures s.leaf[n].at in at && n.parent == at[s.leaf[n].at] && n.parent.prefix == s.leaf[n].at
      ensures n.parent in Repr && n.parent.children in Repr && n.parent.children.Length == 256
      ensures s.leaf[n].at in s.slots && |s.slots[s.leaf[n].at]| == 256
      ensures at.Keys == s.slots.Keys
      ensures n.parent == root <==> s.leaf[n].at == []
    {
      AboutLeaf(n);
      AboutNode(s.leaf[n].at);
      AboutNode([]);
    }

    /** Between operations no block in use is missing from the books. */
    lemma Unmoved()
      requires Backed()
      ensures Fair(Accounts(), Accounts())
    {
      KnownLeaves(s.leaf, plots, heap.blocks);
      FairSame(Accounts());
    }

    lemma Opening()
      requires heap.Valid()
      ensures Accounts().free + InUse(Accounts().blocks) == heap.total
    {
      heap.Count();
    }

    /** An exchange of blocks leaves the books in order. */
    lemma Closing(a: Books)
      requires heap.Valid() && a.free + InUse(a.blocks) == heap.total
      requires Exchanged(a.blocks, heap.blocks, a.mine, All(plots))
      ensures Fair(a, Accounts())
    {
      heap.Count();
      FairStep(a, Accounts());
    }

    /** Room for one bucket to be rewritten. */
    lemma RoomToWork()
      requires Ready() && Sound(s)
      ensures |heap.free| >= SPLITBOUND
    {
      BlocksPerKey(s, plots, heap.blocks);
    }

    // ---------------------------------------------------------- splitting

    /** A leaf that has just reached SPLITBOUND keys, in an otherwise sound and tidy trie. */
    ghost predicate Full(n: Leaf)
      reads this
    {
      Sound(s) && n in s.leaf && |s.leaf[n].items| == SPLITBOUND && Bounded(s, {n}) && Tidy(s)
    }

    /** n gives up the low half of its block, where it has no keys. */
    method KeepHigh(n: Leaf, jumppar: Fwd)
      requires Ready() && Full(n) && s.leaf[n].typ < 8 && Partition(s.leaf[n], 0)
      requires s.leaf[n].at in at && jumppar == at[s.leaf[n].at]
      modifies Repr
      ensures Ready() && Repr == old(Repr) && at == old(at) && Full(n) && Items(s) == old(Items(s))
      ensures s.slots.Keys == old(s.slots.Keys)
      ensures s.leaf[n].at == old(s.leaf[n].at) && s.leaf[n].typ == old(s.leaf[n].typ) + 1
      ensures s.leaf[n].items == old(s.leaf[n].items) && s.owner == old(s.owner)
      ensures plots == old(plots) && overrun == old(overrun) && dangling == old(dangling)
    {
      hide Conserved, Matches, All, Items, BlockHeap.Valid, Wf, Shrink, Partition, Placed, Tidy;
      WfLeaf(s, n);
      PlaceOf(n);
      ShrunkKeeps(s, n, true);
      ShrunkRests(s, n, true);
      ShrinkForest(s, plots, heap.blocks, n, true);
      MoveToHigh(n, jumppar);
    }

    method MoveToHigh(n: Leaf, jumppar: Fwd)
      requires Matches() && Placed(s, n) && s.leaf[n].typ < 8
      requires s.leaf[n].at in at && jumppar == at[s.leaf[n].at]
      modifies this`s, this`plots, n, jumppar.children
      ensures Matches() && plots == old(plots)
      ensures s == Shrink(old(s), n, true)
    {
      hide Matches, Aligned;
      PlaceOf(n);
      ghost var r := s.leaf[n];
      var mid := n.path + Mask(n.typ);
      assert r.path + Mask(r.typ) < 256 by { Halves(r.path, r.typ); }
      SetSlots(jumppar, n.path, mid, FwdChild(jumppar), Self);
      assert r.items[0..] == r.items;
      SameUpdate(plots, n);
      Rewrite(n, jumppar, mid, n.typ + 1, n.flat, LeafRec(r.at, mid, r.typ + 1, r.items), plots[n]);
    }

    /** n gives up the high half of its block, where it has no keys. */
    method KeepLow(n: Leaf, jumppar: Fwd)
      requires Ready() && Full(n) && s.leaf[n].typ < 8 && Partition(s.leaf[n], |s.leaf[n].items|)
      requires s.leaf[n].at in at && jumppar == at[s.leaf[n].at]
      modifies Repr
      ensures Ready() && Repr == old(Repr) && at == old(at) && Full(n) && Items(s) == old(Items(s))
      ensures s.slots.Keys == old(s.slots.Keys)
      ensures s.leaf[n].at == old(s.leaf[n].at) && s.leaf[n].typ == old(s.leaf[n].typ) + 1
      ensures s.leaf[n].items == old(s.leaf[n].items) && s.owner == old(s.owner)
      ensures plots == old(plots) && overrun == old(overrun) && dangling == old(dangling)
    {
      hide Conserved, Matches, All, Items, BlockHeap.Valid, Wf, Shrink, Partition, Placed, Tidy;
      WfLeaf(s, n);
      PlaceOf(n);
      ShrunkKeeps(s, n, false);
      ShrunkRests(s, n, false);
      ShrinkForest(s, plots, heap.blocks, n, false);
      MoveToLow(n, jumppar);
    }

    method MoveToLow(n: Leaf, jumppar: Fwd)
      requires Matches() && Placed(s, n) && s.leaf[n].typ < 8
      requires s.leaf[n].at in at && jumppar == at[s.leaf[n].at]
      modifies this`s, this`plots, n, jumppar.children
      ensures Matches() && plots == old(plots)
      ensures s == Shrink(old(s), n, false)
    {
      hide Matches;
      PlaceOf(n);
      ghost var r := s.leaf[n];
      var mid := n.path + Mask(n.typ);
      assert r.path + Width(r.typ) == mid + Mask(r.typ) && mid < 256 by { Halves(r.path, r.typ); }
      SetSlots(jumppar, mid, mid + Mask(n.typ), FwdChild(jumppar), Self);
      assert r.items[..|r.items|] == r.items;
      SameUpdate(plots, n);
      Rewrite(n, jumppar, n.path, n.typ + 1, n.flat, LeafRec(r.at, r.path, r.typ + 1, r.items), plots[n]);
    }

    /** A new leaf on a whole block of slots. */
    method AddLeaf(f: Fwd, path: byte, typ: nat, flat: Flat, ghost r: LeafRec, ghost p: Plot) returns (h: Leaf)
      requires Matches() && r.at in at && f == at[r.at] && f.prefix == r.at && path == r.path && typ == r.typ <= 8
      requires r.at in s.slots && |s.slots[r.at]| == 256 && path + Width(typ) <= 256 && Suits(flat, r, p)
      modifies this`s, this`plots, this`Repr, f.children
      ensures Matches() && fresh(h) && fresh(Repr - old(Repr)) && plots == old(plots)[h := p]
      ensures s == SetLeaf(SetRow(old(s), r.at, path, path + Width(typ), Hold(h)), h, r)
    {
      hide Mirrors, NodeOk, LeafOk;
      h := new Leaf(path, typ, f, EMPTY_BUCKET);
      SetSlots(f, path, path + Width(typ), LeafChild(h), Hold(h));
      AdoptLeaf(h, f, path, typ, flat, r, p);
    }

    /** A new leaf on the slots from `mid` on, with the high part of n's bucket; n keeps the low part. */
    method SplitOff(n: Leaf, f: Fwd, mid: byte, typ: nat, lo: Flat, hi: Flat, ghost lr: LeafRec, ghost hr: LeafRec,
                    ghost p: Plot, ghost q: Plot)
      returns (h: Leaf)
      requires Matches() && n in s.leaf && Suits(lo, lr, p) && Suits(hi, hr, q)
      requires lr.at == hr.at == s.leaf[n].at && lr.at in at && f == at[lr.at] && f.prefix == lr.at
      requires hr.path == mid && lr.path == s.leaf[n].path && lr.typ == hr.typ == typ <= 8
      requires lr.at in s.slots && |s.slots[lr.at]| == 256 && mid + Width(typ) <= 256
      modifies this`s, this`plots, this`Repr, n, f.children
      ensures Matches() && fresh(h) && fresh(Repr - old(Repr)) && h !in old(s.leaf)
      ensures s == SetLeaf(SetLeaf(SetRow(old(s), hr.at, mid, mid + Width(typ), Hold(h)), h, hr), n, lr)
      ensures plots == old(plots)[n := p][h := q]
    {
      hide Matches, Aligned;
      PlaceOf(n);
      h := AddLeaf(f, mid, typ, hi, hr, q);
      Rewrite(n, f, n.path, typ, lo, lr, p);
    }

    /** A new leaf takes the high half of n's block and the keys from lcnt on. */
    method TakeHigh(n: Leaf, jumppar: Fwd, lcnt: nat, lo: Flat, hi: Flat, ghost p: Plot, ghost q: Plot)
      returns (h: Leaf)
      requires Matches() && Placed(s, n) && s.leaf[n].typ < 8 && lcnt <= |s.leaf[n].items|
      requires s.leaf[n].at in at && jumppar == at[s.leaf[n].at]
      requires forall i: byte | Covers(s.leaf[n], i) :: s.slots[s.leaf[n].at][i] == Hold(n)
      requires Suits(lo, Low(s.leaf[n], lcnt), p) && Suits(hi, High(s.leaf[n], lcnt), q)
      modifies this`s, this`plots, this`Repr, n, jumppar.children
      ensures Matches() && fresh(h) && fresh(Repr - old(Repr))
      ensures h !in old(s.leaf) && s == Split(old(s), n, n, h, lcnt, s.owner) && s.owner == old(s.owner)
      ensures plots == old(plots)[n := p][h := q]
    {
      hide Matches, Aligned;
      PlaceOf(n);
      ghost var s0, r := s, s.leaf[n];
      Halves(r.path, r.typ);
      h := SplitOff(n, jumppar, n.path + Mask(n.typ), n.typ + 1, lo, hi, Low(r, lcnt), High(r, lcnt), p, q);
      SplitNodeState(s0, n, h, lcnt, s.owner);
    }

    method MoveHigh(n: Leaf, jumppar: Fwd, lcnt: nat, lo: Flat, hi: Flat, ghost p: Plot, ghost q: Plot)
      returns (h: Leaf)
      requires Matches() && Placed(s, n) && s.leaf[n].typ < 8 && lcnt <= |s.leaf[n].items|
      requires s.leaf[n].at in at && jumppar == at[s.leaf[n].at]
      requires forall i: byte | Covers(s.leaf[n], i) :: s.slots[s.leaf[n].at][i] == Hold(n)
      requires forall i | 0 <= i < |s.leaf[n].items| :: s.leaf[n].items[i].id < |s.owner|
      requires Suits(lo, Low(s.leaf[n], lcnt), p) && Suits(hi, High(s.leaf[n], lcnt), q)
      modifies this`s, this`plots, this`Repr, this`owner, n, jumppar.children
      ensures Matches() && fresh(h) && fresh(Repr - old(Repr))
      ensures h !in old(s.leaf) && Repointed(old(s.owner), s.owner, Ids(old(s.leaf[n].items[lcnt..])), h)
      ensures s == Split(old(s), n, n, h, lcnt, s.owner)
      ensures plots == old(plots)[n := p][h := q]
    {
      hide Matches, Aligned;
      ghost var items := s.leaf[n].items[lcnt..];
      h := TakeHigh(n, jumppar, lcnt, lo, hi, p, q);
      Repoint(hi.ids, h, items);
    }

    /** Both halves of n's block have keys: a new leaf takes the high ones and splitting stops. */
    method Halve(n: Leaf, jumppar: Fwd, lcnt: nat, lo: Flat, hi: Flat, ghost p: Plot, ghost q: Plot)
      requires Ready() && Full(n) && Halved(s, plots, heap.blocks, n, lcnt, lo, hi, p, q)
      requires 0 < lcnt < |s.leaf[n].items|
      requires s.leaf[n].at in at && jumppar == at[s.leaf[n].at]
      requires Suits(lo, Low(s.leaf[n], lcnt), p) && Suits(hi, High(s.leaf[n], lcnt), q)
      modifies Repr
      ensures Ready() && fresh(Repr - old(Repr)) && at == old(at) && Fair(old(Accounts()), Accounts())
      ensures Sound(s) && Bounded(s, {}) && Items(s) == old(Items(s)) && |s.owner| == |old(s.owner)|
      ensures Tidy(s) && s.slots.Keys == old(s.slots.Keys)
      ensures overrun == old(overrun) && dangling == old(dangling)
    {
      hide Conserved, Matches, All, Items, BlockHeap.Valid, Wf, Partition, Aligned, Holds, Exchanged, Low, High,
           Bounded, Suits, Tidy, Split;
      Opening();
      ghost var s0, g0, a := s, plots, Accounts();
      WfLeaf(s, n);
      PlaceOf(n);
      var h := MoveHigh(n, jumppar, lcnt, lo, hi, p, q);
      SplitKeeps(s0, n, n, h, lcnt, s.owner);
      SplitBounds(s0, n, n, h, lcnt, s.owner);
      HalvedRests(s0, n, n, h, lcnt, s.owner);
      HalvedForest(s0, g0, heap.blocks, n, h, lcnt, lo, hi, p, q, s.owner);
      Closing(a);
    }

    /** A leaf on one slot, with a byte of every key still below it. */
    ghost predicate Pushable(n: Leaf, jumppar: Fwd)
      reads this
    {
      && Placed(s, n) && s.leaf[n].typ == 8
      && s.leaf[n].at in at && jumppar == at[s.leaf[n].at]
      && Sub(s.leaf[n].at, s.leaf[n].path) !in s.slots
      && (forall x | x in s.leaf[n].items :: |s.leaf[n].at| <= |x.key|)
    }

    /** All keys continue in the upper half of the new node. */
    method PushHigh(n: Leaf, jumppar: Fwd, flat: Flat, ghost p: Plot) returns (g: Fwd)
      requires Matches() && Pushable(n, jumppar) && Suits(flat, s.leaf[n], p)
      modifies this`s, this`plots, this`at, this`Repr, n, jumppar.children
      ensures Matches() && fresh(Repr - old(Repr))
      ensures at == old(at)[Sub(old(s).leaf[n].at, old(s).leaf[n].path) := g]
      ensures s == Shrink(Lower(old(s), n), n, true)
      ensures plots == old(plots)[n := p]
    {
      hide Matches, Aligned, Shrink, Lower, AddNode;
      PlaceOf(n);
      ghost var r := s.leaf[n];
      PushHighState(s, n);
      g := NewNode(jumppar, n.path, null, n);
      Rewrite(n, g, 128, 1, flat, LeafRec(Sub(r.at, r.path), 128, 1, r.items), p);
    }

    /** All keys continue in the lower half of the new node. */
    method PushLow(n: Leaf, jumppar: Fwd, flat: Flat, ghost p: Plot) returns (g: Fwd)
      requires Matches() && Pushable(n, jumppar) && Suits(flat, s.leaf[n], p)
      modifies this`s, this`plots, this`at, this`Repr, n, jumppar.children
      ensures Matches() && fresh(Repr - old(Repr))
      ensures at == old(at)[Sub(old(s).leaf[n].at, old(s).leaf[n].path) := g]
      ensures s == Shrink(Lower(old(s), n), n, false)
      ensures plots == old(plots)[n := p]
    {
      hide Matches, Aligned, Shrink, Lower, AddNode;
      PlaceOf(n);
      ghost var r := s.leaf[n];
      PushLowState(s, n);
      g := NewNode(jumppar, n.path, n, null);
      Rewrite(n, g, 0, 1, flat, LeafRec(Sub(r.at, r.path), 0, 1, r.items), p);
    }

    /** Both halves of the new node get keys: the lower ones go to a new leaf. */
    method PushBoth(n: Leaf, jumppar: Fwd, lcnt: nat, lo: Flat, hi: Flat, ghost p: Plot, ghost q: Plot)
      returns (low: Leaf)
      requires Matches() && Pushable(n, jumppar) && lcnt <= |s.leaf[n].items|
      requires forall i | 0 <= i < |s.leaf[n].items| :: s.leaf[n].items[i].id < |s.owner|
      requires Suits(lo, HalfBelow(s.leaf[n], 0, 0, lcnt), p)
      requires Suits(hi, HalfBelow(s.leaf[n], 128, lcnt, |s.leaf[n].items|), q)
      modifies this`s, this`plots, this`at, this`Repr, this`owner, n, jumppar.children
      ensures Matches() && fresh(low) && fresh(Repr - old(Repr))
      ensures low !in old(s.leaf) && Repointed(old(s.owner), s.owner, Ids(old(s.leaf[n].items[..lcnt])), low)
      ensures s == Split(Lower(old(s), n), n, low, n, lcnt, s.owner)
      ensures plots == old(plots)[low := p][n := q]
    {
      hide Matches, Aligned, Split, Lower;
      ghost var s0, r := s, s.leaf[n];
      AboutLeaf(n);
      low := PushApart(n, jumppar, lo, hi, HalfBelow(r, 0, 0, lcnt), HalfBelow(r, 128, lcnt, |r.items|), p, q);
      assert r.items[0..lcnt] == r.items[..lcnt] && r.items[lcnt..|r.items|] == r.items[lcnt..];
      Repoint(lo.ids, low, r.items[..lcnt]);
      PushBothState(s0, n, low, lcnt, s.owner);
    }

    method PushApart(n: Leaf, jumppar: Fwd, lo: Flat, hi: Flat, ghost lr: LeafRec, ghost hr: LeafRec, ghost p: Plot,
                     ghost q: Plot)
      returns (low: Leaf)
      requires Matches() && Pushable(n, jumppar) && Suits(lo, lr, p) && Suits(hi, hr, q)
      requires lr.at == hr.at == Sub(s.leaf[n].at, s.leaf[n].path)
      requires lr.path == 0 && hr.path == 128 && lr.typ == hr.typ == 1
      modifies this`s, this`plots, this`at, this`Repr, n, jumppar.children
      ensures Matches() && fresh(low) && fresh(Repr - old(Repr)) && low !in old(s.leaf)
      ensures s == SetLeaf(SetLeaf(AddNode(old(s), old(s.leaf[n].at), old(s.leaf[n].path), Hold(low), Hold(n)), low,
        lr), n, hr)
      ensures plots == old(plots)[low := p][n := q]
    {
      hide Matches, Aligned, AddNode;
      PlaceOf(n);
      low := new Leaf(0, 1, null, EMPTY_BUCKET);
      var g := NewNode(jumppar, n.path, low, n);
      ghost var grown := Repr;
      AdoptLeaf(low, g, 0, 1, lo, lr, p);
      assert Repr - old(Repr) <= grown - old(Repr) + {low};
      Rewrite(n, g, 128, 1, hi, hr, q);
    }

    /** A full leaf on one slot, ready to be replaced by a forward node. */
    ghost predicate FullPushable(n: Leaf, jumppar: Fwd)
      reads this
    {
      && Pushable(n, jumppar) && |s.leaf[n].items| == SPLITBOUND && Bounded(s, {n}) && Sound(s) && Tidy(s)
      && Sound(Lower(s, n)) && Items(Lower(s, n)) == Items(s)
    }

    /** The bytes of a full bucket, one level down, in two parts. */
    method PushOut(n: Leaf, jumppar: Fwd, lengths: seq<u16>, lcnt: nat, lsize: int, hsize: int, ghost none: bool)
      returns (lo: Flat, hi: Flat, ghost p: Plot, ghost q: Plot)
      requires Ready() && FullPushable(n, jumppar) && lcnt <= |s.leaf[n].items|
      requires Measured(s.leaf[n], lengths, lcnt, lsize, hsize, none)
      modifies heap
      ensures heap.Valid() && Conserved(s.leaf, plots, old(heap.blocks)) && n in plots
      ensures Holds(HalfBelow(s.leaf[n], 0, 0, lcnt), p, heap.blocks) && Suits(lo, HalfBelow(s.leaf[n], 0, 0, lcnt), p)
      ensures var r := HalfBelow(s.leaf[n], 128, lcnt, |s.leaf[n].items|); Holds(r, q, heap.blocks) && Suits(hi, r, q)
      ensures Pointers(p.cells) !! Pointers(q.cells)
      ensures Exchanged(old(heap.blocks), heap.blocks, Pointers(plots[n].cells), Pointers(p.cells) + Pointers(q.cells))
      ensures (lcnt == 0 ==> p.cells == []) && (lcnt == |s.leaf[n].items| ==> q.cells == [])
    {
      hide Conserved, Matches, All, Items, BlockHeap.Valid, Wf, Measured, Holds, Exchanged, Lower, Bounded, Aligned;
      ghost var r := s.leaf[n];
      AboutBucket(n);
      RoomToWork();
      lo, hi, p, q := PushInForest(s.leaf, plots, n, n.flat, lengths, lcnt, lsize, hsize, heap,
                                   HalfBelow(r, 0, 0, lcnt), HalfBelow(r, 128, lcnt, |r.items|), none);
      PushedSuit(r, heap.blocks, lcnt, lo, hi, p, q, entries);
    }

    /** The bytes of a full bucket whose keys all go to one half. */
    method PushAside(n: Leaf, jumppar: Fwd, lengths: seq<u16>, lcnt: nat, lsize: int, hsize: int, ghost none: bool)
      returns (flat: Flat, ghost p: Plot)
      requires Ready() && FullPushable(n, jumppar) && (lcnt == 0 || lcnt == |s.leaf[n].items|)
      requires Measured(s.leaf[n], lengths, lcnt, lsize, hsize, none)
      modifies heap
      ensures heap.Valid() && Suits(flat, s.leaf[n], p)
      ensures Conserved(Shrink(Lower(s, n), n, lcnt == 0).leaf, plots[n := p], heap.blocks)
      ensures Exchanged(old(heap.blocks), heap.blocks, All(plots), All(plots[n := p]))
    {
      hide Conserved, Matches, All, Items, BlockHeap.Valid, Wf, Measured, Holds, Exchanged, Shrink, Lower, Bounded,
           Aligned;
      var lo, hi, q, t := PushOut(n, jumppar, lengths, lcnt, lsize, hsize, none);
      assert s.leaf[n].items[0..|s.leaf[n].items|] == s.leaf[n].items;
      if lcnt == 0 {
        SumSwaps(q, t);
        PushedForest(s, plots, old(heap.blocks), heap.blocks, n, true, t, q);
        flat, p := hi, t;
      } else {
        PushedForest(s, plots, old(heap.blocks), heap.blocks, n, false, q, t);
        flat, p := lo, q;
      }
    }

    /** All keys of the full leaf go to the upper half of a new node below it. */
    method DescendHigh(n: Leaf, jumppar: Fwd, lengths: seq<u16>, lcnt: nat, lsize: int, hsize: int, ghost none: bool)
      returns (g: Fwd)
      requires Ready() && FullPushable(n, jumppar) && Partition(Lower(s, n).leaf[n], lcnt) && lcnt == 0
      requires Measured(s.leaf[n], lengths, lcnt, lsize, hsize, none)
      modifies Repr, heap
      ensures Ready() && fresh(Repr - old(Repr)) && Full(n) && Fair(old(Accounts()), Accounts())
      ensures s.leaf[n].at == old(Sub(s.leaf[n].at, s.leaf[n].path)) && s.leaf[n].at in at && at[s.leaf[n].at] == g
      ensures s.leaf[n].items == old(s.leaf[n].items) && Items(s) == old(Items(s)) && |s.owner| == |old(s.owner)|
      ensures Sprouted(old(s), s)
      ensures overrun == old(overrun) && dangling == old(dangling)
    {
      hide Conserved, Matches, All, Items, BlockHeap.Valid, Wf, Partition, Measured, Exchanged, Shrink, Lower, Bounded,
           Aligned, Suits, Tidy;
      Opening();
      ghost var a := Accounts();
      PlaceOf(n);
      PushedKeeps(s, n, true);
      PushedRests(s, n, true);
      var flat, p := PushAside(n, jumppar, lengths, lcnt, lsize, hsize, none);
      g := PushHigh(n, jumppar, flat, p);
      Closing(a);
    }

    /** All keys of the full leaf go to the lower half of a new node below it. */
    method DescendLow(n: Leaf, jumppar: Fwd, lengths: seq<u16>, lcnt: nat, lsize: int, hsize: int, ghost none: bool)
      returns (g: Fwd)
      requires Ready() && FullPushable(n, jumppar) && Partition(Lower(s, n).leaf[n], lcnt) && lcnt == |s.leaf[n].items|
      requires Measured(s.leaf[n], lengths, lcnt, lsize, hsize, none)
      modifies Repr, heap
      ensures Ready() && fresh(Repr - old(Repr)) && Full(n) && Fair(old(Accounts()), Accounts())
      ensures s.leaf[n].at == old(Sub(s.leaf[n].at, s.leaf[n].path)) && s.leaf[n].at in at && at[s.leaf[n].at] == g
      ensures s.leaf[n].items == old(s.leaf[n].items) && Items(s) == old(Items(s)) && |s.owner| == |old(s.owner)|
      ensures Sprouted(old(s), s)
      ensures overrun == old(overrun) && dangling == old(dangling)
    {
      hide Conserved, Matches, All, Items, BlockHeap.Valid, Wf, Partition, Measured, Exchanged, Shrink, Lower, Bounded,
           Aligned, Suits, Tidy;
      Opening();
      ghost var a := Accounts();
      PlaceOf(n);
      PushedKeeps(s, n, false);
      PushedRests(s, n, false);
      var flat, p := PushAside(n, jumppar, lengths, lcnt, lsize, hsize, none);
      g := PushLow(n, jumppar, flat, p);
      Closing(a);
    }

    method DescendBoth(n: Leaf, jumppar: Fwd, lengths: seq<u16>, lcnt: nat, lsize: int, hsize: int, ghost none: bool)
      requires Ready() && FullPushable(n, jumppar) && Partition(Lower(s, n).leaf[n], lcnt)
      requires 0 < lcnt < |s.leaf[n].items|
      requires forall i | 0 <= i < |s.leaf[n].items| :: s.leaf[n].items[i].id < |s.owner|
      requires Measured(s.leaf[n], lengths, lcnt, lsize, hsize, none)
      modifies Repr, heap
      ensures Ready() && fresh(Repr - old(Repr)) && Fair(old(Accounts()), Accounts())
      ensures Sound(s) && Bounded(s, {}) && Items(s) == old(Items(s)) && |s.owner| == |old(s.owner)|
      ensures Tidy(s) && Sprouted(old(s), s)
      ensures overrun == old(overrun) && dangling == old(dangling)
    {
      hide Conserved, Matches, All, Items, BlockHeap.Valid, Wf, Partition, Measured, Holds, Exchanged, Lower, Split,
           Bounded, Suits, Tidy;
      Opening();
      ghost var s0, g0, a := s, plots, Accounts();
      PlaceOf(n);
      var lo, hi, p, q := PushOut(n, jumppar, lengths, lcnt, lsize, hsize, none);
      var low := PushBoth(n, jumppar, lcnt, lo, hi, p, q);
      PushedApartKeeps(s0, n, low, lcnt, s.owner);
      PushedApartRests(s0, n, low, lcnt, s.owner);
      TwoSided(s0, g0, a.blocks, heap.blocks, n, low, lcnt, p, q, s.owner);
      Closing(a);
    }

    lemma FullCanDescend(n: Leaf, jumppar: Fwd, x: Item)
      requires Matches() && Full(n) && s.leaf[n].typ == 8 && x in s.leaf[n].items
      requires s.leaf[n].at in at && jumppar == at[s.leaf[n].at]
      ensures FullPushable(n, jumppar) && |s.leaf[n].at| <= |x.key|
      ensures forall i | 0 <= i < |s.leaf[n].items| :: s.leaf[n].items[i].id < |s.owner|
    {
      FullIsPushable(s, n, x);
      WfLeaf(s, n);
      AboutLeaf(n);
    }

    /** The full leaf covers one slot: split below it, on the first bit of the next byte. The source's exit for a
        residue length of -1 is never taken. */
    method SplitFwd(n: Leaf, jumppar: Fwd, bsize: int, pbyte: nat, ghost x: Item)
      requires Ready() && Full(n) && s.leaf[n].typ == 8
      requires s.leaf[n].at in at && jumppar == at[s.leaf[n].at]
      requires x in s.leaf[n].items && |s.leaf[n].at| == pbyte && bsize == |x.key| - pbyte
      modifies Repr, heap
      ensures bsize >= 0
      ensures Ready() && fresh(Repr - old(Repr)) && Fair(old(Accounts()), Accounts())
      ensures Sound(s) && Bounded(s, {}) && Items(s) == old(Items(s)) && |s.owner| == |old(s.owner)|
      ensures Tidy(s) && Sprouted(old(s), s)
      ensures overrun == old(overrun) && dangling == old(dangling)
      decreases |x.key| + 2 - pbyte, 0, 0
    {
      hide Conserved, Matches, All, Items, BlockHeap.Valid, Wf, Partition, Measured, Halved, Lower, Tidy, Sprouted;
      FullCanDescend(n, jumppar, x);
      AboutBucket(n);
      var lengths, lcnt, lsize, hsize, none := MeasureInForest(s, plots, n, n.flat, bsize, pbyte, x, heap.blocks);
      ghost var s0, a := s, Accounts();
      if lcnt == 0 {
        var g := DescendHigh(n, jumppar, lengths, lcnt, lsize, hsize, none);
        ghost var b := Accounts();
        ghost var s1 := s;
        SplitNode(n, g, bsize - 1, pbyte + 1, x);
        FairChain(a, b, Accounts());
        SproutedTwice(s0, s1, s);
      } else if lcnt == |n.flat.firsts| {
        var g := DescendLow(n, jumppar, lengths, lcnt, lsize, hsize, none);
        ghost var b := Accounts();
        ghost var s1 := s;
        SplitNode(n, g, bsize - 1, pbyte + 1, x);
        FairChain(a, b, Accounts());
        SproutedTwice(s0, s1, s);
      } else {
        DescendBoth(n, jumppar, lengths, lcnt, lsize, hsize, none);
      }
    }

    /** Splits a full leaf until both parts of it have keys. */
    method SplitNode(n: Leaf, jumppar: Fwd, bsize: int, pbyte: nat, ghost x: Item)
      requires Ready() && Full(n)
      requires s.leaf[n].at in at && jumppar == at[s.leaf[n].at]
      requires x in s.leaf[n].items && |s.leaf[n].at| == pbyte && bsize == |x.key| - pbyte
      modifies Repr, heap
      ensures Ready() && fresh(Repr - old(Repr)) && Fair(old(Accounts()), Accounts())
      ensures Sound(s) && Bounded(s, {}) && Items(s) == old(Items(s)) && |s.owner| == |old(s.owner)|
      ensures Tidy(s) && Sprouted(old(s), s)
      ensures overrun == old(overrun) && dangling == old(dangling)
      decreases |x.key| + 2 - pbyte, 8 - s.leaf[n].typ, 1
    {
      hide Conserved, Matches, All, Items, BlockHeap.Valid, Wf, Partition, Holds, Aligned, Exchanged, Tidy, Sprouted;
      ghost var s0 := s;
      AboutBucket(n);
      TypeInRange(s, n);
      if n.typ == 8 {
        SplitFwd(n, jumppar, bsize, pbyte, x);
        return;
      }
      var lcnt, lo, hi, p, q := HalveInForest(s, plots, n, n.flat, n.typ, bsize, pbyte, x, heap.blocks);
      if lcnt == 0 {
        KeepHigh(n, jumppar);
        ghost var s1 := s;
        SplitNode(n, jumppar, bsize, pbyte, x);
        SameThenSprouted(s0, s1, s);
      } else if lcnt == |n.flat.firsts| {
        KeepLow(n, jumppar);
        ghost var s1 := s;
        SplitNode(n, jumppar, bsize, pbyte, x);
        SameThenSprouted(s0, s1, s);
      } else {
        HalvesSuit(s, plots, heap.blocks, n, lcnt, lo, hi, p, q, entries);
        Halve(n, jumppar, lcnt, lo, hi, p, q);
        SameNodes(s0, s);
      }
    }

    // ---------------------------------------------------------- lookup

    /** Memory is as it should be and every leaf has keys, but not too many. */
    ghost predicate Intact()
      reads this, heap, Repr
      ensures Intact() ==> this in Repr && heap !in Repr
    {
      Matches() && Backed() && Sound(s) && Bounded(s, {})
    }

    /** The invariant between operations: besides, no leaf is waiting to be merged and no node is empty. */
    ghost predicate Valid()
      reads this, heap, Repr
      ensures Valid() ==> this in Repr && heap !in Repr
    {
      Intact() && Tidy(s)
    }

    /** Free addresses for `more` further keys and for rewriting one bucket. */
    ghost predicate Roomy(more: nat)
      reads this, heap
    {
      HasRoom(Accounts(), Items(s), more)
    }

    /** Follows the encoding of `target` from the root until a slot is empty or holds a leaf. */
    method FastForward(target: Key) returns (f: Fwd, base: Child, depth: nat)
      requires Matches() && Sound(s)
      ensures EndsAt(s, target, depth) && Enc(target)[..depth] in at && f == at[Enc(target)[..depth]]
      ensures f.prefix == Enc(target)[..depth]
      ensures SlotOk(base, s.slots[f.prefix][Enc(target)[depth]], f.prefix, Enc(target)[depth], at)
    {
      f := root;
      depth := 0;
      assert Enc(target)[..0] == [];
      RootInSlots(s);
      while true
        invariant depth <= |target| + 1 && Enc(target)[..depth] in s.slots && f == at[Enc(target)[..depth]]
        decreases |target| + 2 - depth
      {
        ghost var p := Enc(target)[..depth];
        AboutNode(p);
        StepDown(s, target, depth);
        KeyByteIsEnc(target, depth);
        base := f.children[KeyByte(target, depth)];
        assert SlotOk(base, s.slots[p][Enc(target)[depth]], p, Enc(target)[depth], at);
        if base == FwdChild(f) || base.LeafChild? {
          AboutNode(p);
          DownIsElsewhere(p, Enc(target)[depth]);
          return;
        }
        f := base.fwd;
        depth := depth + 1;
      }
    }

    lemma DownIsElsewhere(p: Path, i: byte)
      requires Matches() && p in at
      ensures Sub(p, i) in at ==> at[Sub(p, i)] != at[p]
    {
      if Sub(p, i) in at {
        AboutNode(p);
        AboutNode(Sub(p, i));
        assert |Sub(p, i)| == |p| + 1;
      }
    }

    /** Follows the key and, at a leaf, searches the bytes of its bucket. */
    method BestMatch(target: Key) returns (found: bool, f: Fwd, base: Child, depth: nat, b: nat)
      requires Matches() && Backed() && Sound(s)
      ensures EndsAt(s, target, depth) && Enc(target)[..depth] in at && f == at[Enc(target)[..depth]]
      ensures f.prefix == Enc(target)[..depth]
      ensures found <==> HasKey(s, target)
      ensures base.LeafChild? ==> AtLeaf(target, depth, base.leaf, b, found)
      ensures !base.LeafChild? ==> !found && b == 0 && s.slots[Enc(target)[..depth]][Enc(target)[depth]] == Self
    {
      f, base, depth := FastForward(target);
      if base.LeafChild? {
        found, b := SearchLeaf(base.leaf, target, depth);
      } else {
        EmptySlotMeansAbsent(s, target, depth);
        found, b := false, 0;
      }
    }

    method SearchLeaf(n: Leaf, target: Key, depth: nat) returns (found: bool, b: nat)
      requires Matches() && Backed() && Sound(s) && EndsAt(s, target, depth)
      requires s.slots[Enc(target)[..depth]][Enc(target)[depth]] == Hold(n)
      ensures AtLeaf(target, depth, n, b, found) && (found <==> HasKey(s, target))
    {
      hide Conserved, Matches, BlockHeap.Valid, Wf, Fits, Enc, HasKey, GoesAt, Lays;
      LeafDecides(s, target, depth, n);
      AboutBucket(n);
      SpellsKey(target, depth);
      LeafBytes(s.leaf, plots, heap.blocks, n);
      LengthsOfLeaf(s.leaf[n], |target|);
      found, b := SearchBytes(n.flat, target, depth, heap.blocks, s.leaf[n], Bucket(s.leaf[n]), plots[n].cells);
      FoundIsPresent(s.leaf[n].items, target, b);
    }

    /** The search ended at leaf n with position b. */
    ghost predicate AtLeaf(target: Key, depth: nat, n: Leaf, b: nat, found: bool)
      reads this
    {
      && n in s.leaf && |s.leaf[n].at| == depth && Fits(target, s.leaf[n])
      && (found ==> b < |s.leaf[n].items| && s.leaf[n].items[b].key == target)
      && (!found ==> GoesAt(s.leaf[n].items, target, b))
    }

    /** Membership, with the stable id of a stored key. */
    method Exists(k: Key) returns (found: bool, id: nat)
      requires Valid()
      ensures found <==> HasKey(s, k)
      ensures if found && entries then Item(k, id) in Items(s) else id == 0xFFFF_FFFF_FFFF_FFFF
    {
      var f, base, depth, b;
      found, f, base, depth, b := BestMatch(k);
      id := NO_ID;
      if found && entries {
        AboutLeaf(base.leaf);
        id := base.leaf.flat.ids[b];
        StoredAt(s, base.leaf, b);
      }
    }

    // ---------------------------------------------------------- insertion

    /** The largest aligned block of free slots around slot b. */
    method ClaimBlock(f: Fwd, b: byte) returns (min: byte, bit: nat)
      requires f.children.Length == 256 && f.children[b] == FwdChild(f)
      ensures Aligned(min, bit) && InBlock(b, min, bit)
      ensures forall i: byte | min <= i < min + Width(bit) :: f.children[i] == FwdChild(f)
      ensures bit > 0 ==> exists i: byte :: InBlock(i, Parent(min, bit), bit - 1) && f.children[i] != FwdChild(f)
    {
      var max := b;
      min, bit := b, 8;
      var stop := false;
      while bit > 0 && !stop
        invariant Aligned(min, bit) && InBlock(b, min, bit) && max as int == min + Width(bit) - 1
        invariant forall i: byte | min <= i <= max :: f.children[i] == FwdChild(f)
        invariant stop ==> bit > 0 && exists i: byte ::
          InBlock(i, Parent(min, bit), bit - 1) && f.children[i] != FwdChild(f)
        decreases !stop, bit
      {
        WidenEnds(min, bit);
        NarrowEnds(min, bit, b);
        ParentAndSibling(min, bit);
        var m := Mask(bit - 1);
        var lo: byte, hi: byte := ClearBit(min, m), SetBit(max, m);
        stop := SomeTaken(f, lo, hi);
        if stop {
          // both ends go back to what they were
          max := if TestBit(b, m) then SetBit(ClearBit(hi, m), m) else ClearBit(hi, m);
          min := if TestBit(b, m) then SetBit(lo, m) else lo;
        } else {
          min, max, bit := lo, hi, bit - 1;
        }
      }
    }

    /** Is any slot from lo to hi taken? */
    method SomeTaken(f: Fwd, lo: byte, hi: byte) returns (taken: bool)
      requires f.children.Length == 256
      ensures taken <==> exists i: byte :: lo <= i <= hi && f.children[i] != FwdChild(f)
    {
      var i: int := lo;
      while i <= hi
        invariant lo <= i <= 256
        invariant forall j: byte | lo <= j < i :: f.children[j] == FwdChild(f)
      {
        if f.children[i] != FwdChild(f) { return true; }
        i := i + 1;
      }
      return false;
    }

    /** A slot that points at its own node is free. */
    lemma SelfMeansFree(p: Path, from: nat, to: nat)
      requires Matches() && p in at && from <= to <= 256
      requires at[p].children.Length == 256
      requires forall i: byte | from <= i < to :: at[p].children[i] == FwdChild(at[p])
      ensures Free(s, p, from, to)
    {
      AboutNode(p);
      forall i: byte | from <= i < to
        ensures RowAt(s, p, i) == Self
      {
        assert SlotOk(at[p].children[i], s.slots[p][i], p, i, at);
        DownIsElsewhere(p, i);
      }
    }

    /** A slot that does not point at its own node is taken. */
    lemma TakenShows(p: Path, i: byte)
      requires Matches() && p in at && at[p].children.Length == 256 && at[p].children[i] != FwdChild(at[p])
      ensures RowAt(s, p, i) != Self
    {
      AboutNode(p);
      assert SlotOk(at[p].children[i], s.slots[p][i], p, i, at);
    }

    /** The largest free block around slot b of node p. */
    method FindBlock(f: Fwd, b: byte, ghost p: Path) returns (min: byte, bit: nat)
      requires Matches() && p in at && f == at[p] && p in s.slots && |s.slots[p]| == 256 && s.slots[p][b] == Self
      ensures Aligned(min, bit) && InBlock(b, min, bit) && Free(s, p, min, min + Width(bit))
      ensures f.prefix == p && (bit > 0 ==> Shows(s, p, Parent(min, bit), Parent(min, bit) + Width(bit - 1)))
    {
      AboutNode(p);
      assert SlotOk(f.children[b], s.slots[p][b], p, b, at);
      min, bit := ClaimBlock(f, b);
      SelfMeansFree(p, min, min + Width(bit));
      if bit > 0 {
        var i: byte :| InBlock(i, Parent(min, bit), bit - 1) && f.children[i] != FwdChild(f);
        TakenShows(p, i);
      }
    }

    /** An empty leaf on the largest free block around slot b of node f. */
    method FreshLeaf(f: Fwd, b: byte, ghost p: Path) returns (n: Leaf)
      requires Matches() && Backed() && Sound(s) && Bounded(s, {}) && Tidy(s)
      requires p in at && f == at[p] && p in s.slots && |s.slots[p]| == 256 && s.slots[p][b] == Self
      modifies Repr
      ensures Matches() && Backed() && fresh(Repr - old(Repr)) && at == old(at) && s.owner == old(s.owner)
      ensures Accounts() == old(Accounts()) && overrun == old(overrun) && dangling == old(dangling)
      ensures Sound(s) && Bounded(s, {n}) && Items(s) == old(Items(s))
      ensures Awaits(s, n) && s.slots.Keys == old(s.slots.Keys)
      ensures n in s.leaf && s.leaf[n].at == p && Covers(s.leaf[n], b) && s.leaf[n].items == []
    {
      hide Conserved, Matches, All, Items, BlockHeap.Valid, Wf, Free, Aligned, Tidy, Awaits, Shows;
      ghost var s0, g0 := s, plots;
      var min, bit := FindBlock(f, b, p);
      InsideNode(min, bit);
      AboutNode(p);
      n := AddLeaf(f, min, bit, EMPTY_BUCKET, LeafRec(p, min, bit, []), Plot(EMPTY_BUCKET, []));
      assert s == Claim(s0, n, p, min, bit);
      ClaimDone(s0, n, p, min, bit);
      ClaimAwaits(s0, n, p, min, bit);
      ClaimForest(s0.leaf, g0, heap.blocks, n, LeafRec(p, min, bit, []));
    }

    /** The key's entry goes into the bucket of n at position b, under the next id. */
    method AddEntry(n: Leaf, b: nat, k: Key, depth: nat) returns (id: nat)
      requires Matches() && Backed() && Sound(s) && n in s.leaf && b <= |s.leaf[n].items|
      requires depth == |s.leaf[n].at| && Fits(k, s.leaf[n]) && heap.free != []
      modifies this`s, this`plots, this`owner, n, heap
      ensures Matches() && Backed() && Fair(old(Accounts()), Accounts())
      ensures id == (if entries then |old(s.owner)| else 0) && s == InsertItem(old(s), n, b, k)
    {
      hide Conserved, Matches, All, Items, BlockHeap.Valid, Wf, Fits, Exchanged;
      Opening();
      ghost var s0, g0, a := s, plots, Accounts();
      PlaceOf(n);
      AboutBucket(n);
      id := NextId(n);
      var flat, p := InsertInForest(s0, g0, n, n.flat, k, depth, b, id, entries, heap);
      ghost var r := s0.leaf[n].(items := InsertAt(s0.leaf[n].items, b, Item(k, |s0.owner|)));
      Rewrite(n, n.parent, n.path, n.typ, flat, r, p);
      Closing(a);
    }

    /** Adds a key unless it is stored; returns whether it was new, and its id. */
    method Insert(k: Key) returns (isNew: bool, id: nat)
      requires Valid() && Roomy(1)
      modifies Repr, heap
      ensures Valid() && fresh(Repr - old(Repr)) && Fair(old(Accounts()), Accounts()) && overrun == old(overrun)
      ensures dangling == old(dangling)
      ensures isNew <==> !HasKey(old(s), k)
      ensures !isNew ==> s == old(s) && plots == old(plots)
      ensures !isNew ==> if entries then Item(k, id) in Items(s) else id == 0
      ensures isNew ==> id == (if entries then |old(s.owner)| else 0)
      ensures isNew ==> |s.owner| == |old(s.owner)| + 1 && Items(s) == old(Items(s)) + {Item(k, |old(s.owner)|)}
      ensures isNew ==> forall h: byte ::
        HasChild(s, h) <==> HasChild(old(s), h) || Tally(Items(s), h) >= SPLITBOUND
    {
      hide Conserved, BlockHeap.Valid, All, Items, Wf, Tidy, Awaits, Sprouted;
      Unmoved();
      ghost var s0 := s;
      var found, f, base, depth, b := BestMatch(k);
      if found {
        id := 0;
        if entries {
          AboutLeaf(base.leaf);
          StoredAt(s, base.leaf, b);
          id := base.leaf.flat.ids[b];
        }
        return false, id;
      }
      var n;
      if base.LeafChild? {
        n := base.leaf;
        TidyAwaits(s, n);
        SameNodes(s0, s);
      } else {
        BoundsFit();
        KeyByteIsEnc(k, depth);
        n := FreshLeaf(f, KeyByte(k, depth), Enc(k)[..depth]);
        SameNodes(s0, s);
        assert Fits(k, s.leaf[n]) && GoesAt(s.leaf[n].items, k, b);
      }
      ghost var s1 := s;
      id := Place(n, f, b, k, depth);
      SameThenSprouted(s0, s1, s);
      InsertedChildren(s0, s);
      isNew := true;
    }

    /** Puts an absent key into its leaf and splits the leaf if that fills it. */
    method Place(n: Leaf, f: Fwd, b: nat, k: Key, depth: nat) returns (id: nat)
      requires Matches() && Backed() && Roomy(1)
      requires Sound(s) && n in s.leaf && |s.leaf[n].items| < SPLITBOUND && Bounded(s, {n})
      requires depth == |s.leaf[n].at| && s.leaf[n].at in at && f == at[s.leaf[n].at]
      requires Fits(k, s.leaf[n]) && GoesAt(s.leaf[n].items, k, b) && Awaits(s, n)
      modifies Repr, heap
      ensures Valid() && fresh(Repr - old(Repr)) && Fair(old(Accounts()), Accounts()) && overrun == old(overrun)
      ensures dangling == old(dangling) && Sprouted(old(s), s)
      ensures id == (if entries then |old(s.owner)| else 0) && |s.owner| == |old(s.owner)| + 1
      ensures Items(s) == old(Items(s)) + {Item(k, |old(s.owner)|)}
    {
      hide Conserved, Matches, All, Items, BlockHeap.Valid, Wf, Fits, GoesAt, Sustained, Tidy, Awaits, Sprouted;
      ghost var s0, a := s, Accounts();
      PlaceOf(n);
      id := PutEntry(n, b, k, depth);
      PlaceOf(n);
      ghost var s1, m := s, Accounts();
      SameNodes(s0, s);
      if |n.flat.firsts| >= SPLITBOUND {
        SplitNode(n, f, |k| - depth, depth, Item(k, |old(s.owner)|));
        FairChain(a, m, Accounts());
        SameThenSprouted(s0, s1, s);
      }
    }

    method PutEntry(n: Leaf, b: nat, k: Key, depth: nat) returns (id: nat)
      requires Matches() && Backed() && Roomy(1)
      requires Sound(s) && n in s.leaf && |s.leaf[n].items| < SPLITBOUND && Bounded(s, {n})
      requires depth == |s.leaf[n].at| && Fits(k, s.leaf[n]) && GoesAt(s.leaf[n].items, k, b) && Awaits(s, n)
      modifies this`s, this`plots, this`owner, n, heap
      ensures Tidy(s) && s.slots == old(s.slots)
      ensures Ready() && Fair(old(Accounts()), Accounts())
      ensures id == (if entries then |old(s.owner)| else 0) && |s.owner| == |old(s.owner)| + 1
      ensures Items(s) == old(Items(s)) + {Item(k, |old(s.owner)|)} && Sound(s) && Bounded(s, {n})
      ensures n in s.leaf && s.leaf[n].at == old(s.leaf[n].at) && |s.leaf[n].items| <= SPLITBOUND
      ensures Item(k, |old(s.owner)|) in s.leaf[n].items && (|s.leaf[n].items| < SPLITBOUND ==> Bounded(s, {}))
    {
      hide Conserved, Matches, All, Items, BlockHeap.Valid, Wf, Fits, Sustained, InsertItem, Tidy, Awaits;
      RoomForOne();
      InsertDone(s, n, b, k);
      InsertRests(s, n, b, k);
      InsertSlots(s, n, b, k);
      OneMore(Items(s), Item(k, |s.owner|));
      id := AddEntry(n, b, k, depth);
    }

    lemma RoomForOne()
      requires Backed() && Sound(s) && Roomy(1)
      ensures heap.free != []
    {
      BlocksPerKey(s, plots, heap.blocks);
    }

    // ---------------------------------------------------------- erasure

    /** A deleted forward node leaves the heap. */
    ghost method ForgetNode(q: Path)
      requires Matches() && q in at && q != [] && Unreferenced(s, q)
      modifies this`s, this`at
      ensures Matches() && at == old(at) - {q} && s == old(s).(slots := old(s.slots) - {q})
    {
      hide LeafOk;
      assert Mirrors(s);
      var was, had := at, s;
      at := at - {q};
      s := s.(slots := s.slots - {q});
      forall p {:trigger NodeOk(at[p], p, s.slots[p], at)} | p in at ensures NodeOk(at[p], p, s.slots[p], at) {
        assert NodeOk(was[p], p, had.slots[p], was);
        NodeOkShrinks(was[p], p, had.slots[p], was, q);
      }
      forall n | n in s.leaf ensures LeafOk(n, s.leaf[n], at, plots[n].flat, entries) {
        assert LeafOk(n, s.leaf[n], was, plots[n].flat, entries);
        LeafOkShrinks(n, s.leaf[n], was, plots[n].flat, entries, q);
      }
      assert Mirrors(s);
    }

    /** Frees the slots of an empty leaf, scanning the whole node. */
    method ReplaceAll(f: Fwd, n: Leaf, c: Child)
      requires f.children.Length == 256
      modifies f.children
      ensures forall i: byte :: f.children[i] == if old(f.children[i]) == LeafChild(n) then c else old(f.children[i])
    {
      for i := 0 to 256
        invariant forall j: byte ::
          f.children[j] == if j < i && old(f.children[j]) == LeafChild(n) then c else old(f.children[j])
      {
        if f.children[i] == LeafChild(n) { f.children[i] := c; }
      }
    }

    method ReplaceSlots(f: Fwd, n: Leaf, c: Child, ghost from: nat, ghost to: nat, ghost v: Slot)
      requires Matches() && f.prefix in at && at[f.prefix] == f && from <= to <= 256
      requires f.prefix in s.slots && |s.slots[f.prefix]| == 256
      requires v == Self || v.Hold?
      requires SlotOk(c, v, f.prefix, 0, at)
      requires forall i: byte :: s.slots[f.prefix][i] == Hold(n) <==> from <= i < to
      modifies this`s, f.children
      ensures Matches() && s == old(SetRow(s, f.prefix, from, to, v))
    {
      hide LeafOk, NodeOk, SlotOk, LinksOk, NodesIn, Fill;
      assert Mirrors(s);
      ghost var p, was, row := f.prefix, f.children[..], s.slots[f.prefix];
      NodeParts(f, p, row, at);
      SameSlot(c, v, p, at);
      LeafSlots(was, row, p, at, n);
      ReplaceAll(f, n, c);
      s := SetRow(s, p, from, to, v);
      Overwritten(was, f.children[..], row, p, at, from, to, c, v);
      NodeAgain(f, p, s.slots[p], at);
      assert Mirrors(s);
    }

    /** Deletes an empty leaf, freeing every slot that points at it. */
    method DropByScan(n: Leaf, f: Fwd)
      requires Matches() && Placed(s, n) && s.leaf[n].at in at && f == at[s.leaf[n].at] && f.prefix == s.leaf[n].at
      requires forall i: byte :: s.slots[f.prefix][i] == Hold(n) <==> Covers(s.leaf[n], i)
      modifies this`s, this`plots, this`gone, n, f.children
      ensures Matches() && s == Drop(old(s), n) && plots == old(plots) - {n} && gone == old(gone) + {n}
    {
      hide Matches;
      ghost var r := s.leaf[n];
      AboutNode(r.at);
      ReplaceSlots(f, n, FwdChild(f), r.path, r.path + Width(r.typ), Self);
      DeleteLeaf(n);
    }

    /** Deletes an empty leaf, freeing the slots of its block. */
    method DropByRange(n: Leaf, f: Fwd)
      requires Matches() && Placed(s, n) && s.leaf[n].at in at && f == at[s.leaf[n].at] && f.prefix == s.leaf[n].at
      modifies this`s, this`plots, this`gone, n, f.children
      ensures Matches() && s == Drop(old(s), n) && plots == old(plots) - {n} && gone == old(gone) + {n}
    {
      hide Matches;
      PlaceOf(n);
      var to := OrMasks(n.path, n.typ);
      SetSlots(f, n.path, to + 1, FwdChild(f), Self);
      DeleteLeaf(n);
    }

    /** n takes over its whole parent block, with this bucket. */
    method Widen(n: Leaf, f: Fwd, flat: Flat, ghost items: seq<Item>, ghost p: Plot)
      requires Matches() && Placed(s, n) && 1 <= s.leaf[n].typ
      requires s.leaf[n].at in at && f == at[s.leaf[n].at] && f.prefix == s.leaf[n].at
      requires Suits(flat, s.leaf[n].(items := items), p)
      modifies this`s, this`plots, n, f.children
      ensures Matches() && plots == old(plots)[n := p]
      ensures var r := old(s).leaf[n];
        var from := Parent(r.path, r.typ);
        && from + Width(r.typ - 1) <= 256
        && s == SetLeaf(SetRow(old(s), r.at, from, from + Width(r.typ - 1), Hold(n)), n, Widened(r, items))
    {
      hide Matches;
      PlaceOf(n);
      ghost var r := s.leaf[n];
      SiblingSlot(r);
      var from: byte := ClearBit(n.path, Mask(n.typ - 1));
      var to := OrMasks(from, n.typ - 1);
      SetSlots(f, from, to + 1, LeafChild(n), Hold(n));
      Rewrite(n, f, from, n.typ - 1, flat, Widened(r, items), p);
    }

    /** n takes over its sibling's block and ids, with this bucket. */
    method TakeBlock(n: Leaf, other: Leaf, f: Fwd, flat: Flat, ghost items: seq<Item>, ghost p: Plot)
      requires Matches() && Placed(s, n) && Siblings(s, n, other)
      requires s.leaf[n].at in at && f == at[s.leaf[n].at] && f.prefix == s.leaf[n].at
      requires items == MergedItems(s, n, other) && forall x | x in items :: x.id < |s.owner|
      requires Suits(flat, s.leaf[n].(items := items), p)
      modifies this`s, this`plots, this`gone, this`owner, n, other, f.children
      ensures Matches() && Repointed(old(s.owner), s.owner, Ids(items), n)
      ensures s == Merge(old(s), n, other, s.owner) && plots == old(plots)[n := p] - {other}
      ensures gone == old(gone) + {other}
    {
      hide Matches, Merge, Aligned;
      ghost var s0 := s;
      Widen(n, f, flat, items, p);
      ItemsInRange(items, |s.owner|);
      Repoint(flat.ids, n, items);
      MergeState(s0, n, other, s.owner);
      DeleteLeaf(other);
    }

    /** n takes over its sibling's block, keys and ids. */
    method TakeSibling(n: Leaf, other: Leaf, f: Fwd)
      requires Ready() && Placed(s, n) && Siblings(s, n, other)
      requires s.leaf[n].at in at && f == at[s.leaf[n].at] && f.prefix == s.leaf[n].at
      requires forall x | x in MergedItems(s, n, other) :: x.id < |s.owner|
      modifies this`s, this`plots, this`gone, this`owner, n, other, f.children
      ensures Matches() && Backed() && Fair(old(Accounts()), Accounts())
      ensures Repointed(old(s.owner), s.owner, Ids(old(MergedItems(s, n, other))), n)
      ensures s == Merge(old(s), n, other, s.owner) && gone == old(gone) + {other}
    {
      hide Conserved, Matches, All, Items, BlockHeap.Valid, Exchanged, Aligned, Merge;
      Opening();
      ghost var s0, g0, items, a := s, plots, MergedItems(s, n, other), Accounts();
      InsideNode(s.leaf[n].path, s.leaf[n].typ);
      AboutBucket(n);
      AboutBucket(other);
      var flat, p := MergeInForest(s0, g0, n, other, n.flat, other.flat, n.path, n.typ, entries, heap.blocks);
      TakeBlock(n, other, f, flat, items, p);
      MergedLeaves(s0, n, other, s.owner);
      DropAndSet(g0, n, other, p);
      Closing(a);
    }

    /** The empty leaf n is deleted and its sibling m takes its slots. */
    method Absorb(m: Leaf, n: Leaf, f: Fwd)
      requires Matches() && Sound(s) && Placed(s, m) && Placed(s, n) && Siblings(s, m, n) && s.leaf[n].items == []
      requires s.leaf[n].at in at && f == at[s.leaf[n].at] && f.prefix == s.leaf[n].at
      requires forall i: byte :: s.slots[f.prefix][i] == Hold(n) <==> Covers(s.leaf[n], i)
      modifies this`s, this`plots, this`gone, m, n, f.children
      ensures Matches() && s == Merge(old(s), m, n, old(s.owner)) && plots == old(plots) - {n}
      ensures gone == old(gone) + {n}
    {
      hide Fill, Merge, Matches, SetLeaf, DropLeaf;
      AbsorbState(s, m, n);
      PlaceOf(m);
      PlaceOf(n);
      ghost var r, q, g := s.leaf[m], s.leaf[n], plots;
      SiblingSlot(r);
      ReplaceSlots(f, n, LeafChild(m), q.path, q.path + Width(q.typ), Hold(m));
      SameUpdate(g, m);
      Rewrite(m, f, ClearBit(m.path, Mask(n.typ - 1)), m.typ - 1, m.flat, Widened(r, r.items), g[m]);
      DeleteLeaf(n);
    }

    /** The forward node under n is deleted: n takes its slot in the node above, with this bucket. */
    method LiftLeaf(n: Leaf, parent: Fwd, flat: Flat, ghost p: Plot)
      requires Matches() && Placed(s, n) && LiftReady(s, n) && s.leaf[n].at in at && parent == at[s.leaf[n].at]
      requires Suits(flat, s.leaf[n], p)
      modifies Repr
      ensures Matches() && Repr == old(Repr) && overrun == old(overrun)
      ensures gone == old(gone) && dangling == old(dangling)
      ensures s == Lift(old(s), n) && plots == old(plots)[n := p]
    {
      hide Matches;
      PlaceOf(n);
      ghost var q := s.leaf[n].at;
      AboutNode(q);
      AboutNode(Front(q));
      ghost var r := LeafRec(Front(q), Last(q), 8, s.leaf[n].items);
      var above := parent.parent;
      SetSlots(above, parent.path, parent.path as int + 1, LeafChild(n), Hold(n));
      Rewrite(n, above, parent.path, 8, flat, r, p);
      ForgetNode(q);
    }

    /** An empty forward node is deleted and its slot in the node above freed. */
    method PruneNode(parent: Fwd, ghost q: Path)
      requires Matches() && q in at && parent == at[q] && q != [] && PruneReady(s, q)
      modifies Repr
      ensures Matches() && Repr == old(Repr) && at == old(at) - {q} && s == Prune(old(s), q)
      ensures plots == old(plots) && overrun == old(overrun)
      ensures gone == old(gone) && dangling == old(dangling)
    {
      hide Matches;
      AboutNode(q);
      AboutNode(Front(q));
      var above := parent.parent;
      SetSlots(above, parent.path, parent.path as int + 1, FwdChild(above), Self);
      ForgetNode(q);
    }

    /** Deletes an empty leaf. */
    method DropStep(n: Leaf, f: Fwd, scan: bool)
      requires Ready() && Loose(s, n) && s.leaf[n].items == [] && f == n.parent
      modifies Repr
      ensures Intact() && Ready() && Repr == old(Repr) && at == old(at) && Fair(old(Accounts()), Accounts())
      ensures Items(s) == old(Items(s)) && s.owner == old(s.owner) && Potential(s.leaf) < old(Potential(s.leaf))
      ensures overrun == old(overrun) && Placed(old(s), n) && s == Drop(old(s), n)
      ensures s.leaf.Keys <= old(s.leaf.Keys) && old(Known()) <= Known() && dangling == old(dangling)
    {
      hide Conserved, Matches, All, Items, BlockHeap.Valid, Wf, Drop, Covers;
      Unmoved();
      PlaceOf(n);
      HeldExactly(s, n);
      DropDone(s, n);
      DropForest(s.leaf, plots, heap.blocks, n);
      DropLeaves(s, n);
      if scan { DropByScan(n, f); } else { DropByRange(n, f); }
    }

    method AbsorbStep(m: Leaf, n: Leaf, f: Fwd)
      requires Ready() && Loose(s, n) && Siblings(s, n, m) && s.leaf[n].items == [] && f == n.parent
      modifies Repr
      ensures Ready() && Repr == old(Repr) && at == old(at) && Loose(s, m) && s.leaf[m].at == old(s.leaf[n].at)
      ensures Placed(old(s), m) && Siblings(old(s), m, n) && s == Merge(old(s), m, n, old(s.owner))
      ensures Fair(old(Accounts()), Accounts()) && overrun == old(overrun)
      ensures Items(s) == old(Items(s)) && s.owner == old(s.owner) && Potential(s.leaf) < old(Potential(s.leaf))
      ensures s.leaf.Keys <= old(s.leaf.Keys) && old(Known()) <= Known() && dangling == old(dangling)
    {
      hide Conserved, Matches, All, Items, BlockHeap.Valid, Wf, Merge, Covers, Siblings;
      Unmoved();
      PlaceOf(n);
      HeldExactly(s, n);
      AbsorbDone(s, m, n);
      AbsorbForest(s, plots, heap.blocks, m, n, s.owner);
      LeafOfSibling(s, n, m);
      PlaceOf(m);
      MergeLeaves(s, m, n, s.owner);
      Absorb(m, n, f);
    }

    method MergeStep(n: Leaf, m: Leaf, f: Fwd)
      requires Ready() && Loose(s, n) && Siblings(s, n, m) && f == n.parent
      requires s.leaf[n].items != [] && |s.leaf[n].items| + |s.leaf[m].items| < SPLITBOUND
      modifies Repr
      ensures Ready() && Repr == old(Repr) && at == old(at) && Loose(s, n) && s.leaf[n].at == old(s.leaf[n].at)
      ensures Fair(old(Accounts()), Accounts()) && overrun == old(overrun)
      ensures Items(s) == old(Items(s)) && |s.owner| == |old(s.owner)| && Potential(s.leaf) < old(Potential(s.leaf))
      ensures s.leaf.Keys <= old(s.leaf.Keys) && old(Known()) <= Known() && dangling == old(dangling)
      ensures Placed(old(s), n) && s == Merge(old(s), n, m, s.owner)
    {
      hide Conserved, Matches, All, Items, BlockHeap.Valid, Wf, Merge, Sustained, Siblings;
      PlaceOf(n);
      HeldExactly(s, n);
      MergedInRange(s, n, m);
      ghost var s0 := s;
      LeafOfSibling(s, n, m);
      PlaceOf(m);
      TakeSibling(n, m, f);
      MergeLeaves(s0, n, m, s.owner);
      SiblingBounds(s0, n, m);
      MergeDone(s0, n, m, s.owner);
    }

    method GrowStep(n: Leaf, f: Fwd)
      requires Ready() && Loose(s, n) && 1 <= s.leaf[n].typ <= 8 && f == n.parent
      requires SiblingFree(s, n)
      modifies Repr
      ensures Ready() && Repr == old(Repr) && at == old(at) && Loose(s, n) && s.leaf[n].at == old(s.leaf[n].at)
      ensures s.leaf[n].items == old(s.leaf[n].items) && Fair(old(Accounts()), Accounts()) && overrun == old(overrun)
      ensures Items(s) == old(Items(s)) && s.owner == old(s.owner) && Potential(s.leaf) < old(Potential(s.leaf))
      ensures s.leaf.Keys <= old(s.leaf.Keys) && old(Known()) <= Known() && dangling == old(dangling)
      ensures Placed(old(s), n) && s == Grow(old(s), n)
    {
      hide Conserved, Matches, All, Items, BlockHeap.Valid, Wf, Covers, SiblingFree, Bounded;
      Unmoved();
      PlaceOf(n);
      HeldExactly(s, n);
      GrowDone(s, n);
      ghost var r := s.leaf[n];
      Relabel(s.leaf, plots, heap.blocks, n, Widened(r, r.items));
      SameUpdate(plots, n);
      Widen(n, f, n.flat, r.items, plots[n]);
    }

    method NoteOverrun(b: bool)
      requires Matches()
      modifies this`overrun
      ensures Matches() && overrun == (old(overrun) || b)
    {
      hide NodeOk, LeafOk, NodesIn, SlotsApart;
      assert Mirrors(s);
      overrun := overrun || b;
      assert Mirrors(s);
    }

    method NoteDangling(b: bool)
      requires Matches()
      modifies this`dangling
      ensures Matches() && dangling == (old(dangling) || b)
    {
      hide NodeOk, LeafOk, NodesIn, SlotsApart;
      assert Mirrors(s);
      dangling := dangling || b;
      assert Mirrors(s);
    }

    /** The bytes of a leaf that moves one level up. A length byte's return needs every key's own length, for which the
        source has an array of SCRATCH places. */
    method LiftBytes(n: Leaf, onHeap: int, byte: nat, ghost size: nat) returns (flat: Flat, ghost p: Plot)
      requires Ready() && Loose(s, n) && s.leaf[n].typ == 0 && s.leaf[n].at != [] && LiftReady(s, n)
      requires Stage(Front(s.leaf[n].at), size, onHeap, byte - 1) && SpellsLength(s.leaf[n].at, size)
      modifies heap, this`overrun
      ensures Matches() && overrun == (old(overrun) || (byte <= 1 && |s.leaf[n].items| > SCRATCH))
      ensures heap.Valid() && Suits(flat, s.leaf[n], p) && Conserved(Lift(s, n).leaf, plots[n := p], heap.blocks)
      ensures Exchanged(old(heap.blocks), heap.blocks, All(plots), All(plots[n := p]))
    {
      hide Conserved, Matches, All, Items, BlockHeap.Valid, Exchanged, Lift, Wf, Unreferenced;
      PlaceOf(n);
      AboutBucket(n);
      RoomToWork();
      AboutNode(s.leaf[n].at);
      NoteOverrun(byte <= 1 && |n.flat.firsts| > SCRATCH);
      flat, p := LiftInForest(s, plots, n, n.flat, n.parent.path, onHeap, byte, heap, size);
    }

    method LiftStep(n: Leaf, parent: Fwd, onHeap: int, byte: nat, ghost size: nat)
      requires Ready() && Loose(s, n) && s.leaf[n].typ == 0 && s.leaf[n].at != [] && parent == n.parent
      requires |s.leaf[n].items| <= SPLITBOUND / 3
      requires Stage(Front(s.leaf[n].at), size, onHeap, byte - 1) && SpellsLength(s.leaf[n].at, size)
      modifies Repr, heap
      ensures Ready() && Repr == old(Repr) && Loose(s, n) && s.leaf[n].at == old(Front(s.leaf[n].at))
      ensures s.leaf[n].items == old(s.leaf[n].items) && Fair(old(Accounts()), Accounts())
      ensures Items(s) == old(Items(s)) && s.owner == old(s.owner) && Potential(s.leaf) < old(Potential(s.leaf))
      ensures s.leaf.Keys <= old(s.leaf.Keys) && old(Known()) <= Known() && dangling == old(dangling)
      ensures Front(old(s).leaf[n].at) in old(s).slots && |old(s).slots[Front(old(s).leaf[n].at)]| == 256
      ensures s == Lift(old(s), n)
      ensures overrun == (old(overrun) || (byte <= 1 && |old(s.leaf[n].items)| > SCRATCH))
    {
      hide Conserved, Matches, All, Items, BlockHeap.Valid, Exchanged, Lift, Wf, Covers, Unreferenced;
      Opening();
      ghost var a := Accounts();
      PlaceOf(n);
      HeldExactly(s, n);
      LiftDone(s, n);
      LiftLeaves(s, n);
      ReadyToLift(s, n);
      var flat, p := LiftBytes(n, onHeap, byte, size);
      LiftLeaf(n, parent, flat, p);
      Closing(a);
    }

    lemma SiblingShows(n: Leaf, i: byte)
      requires Matches() && Loose(s, n) && 1 <= s.leaf[n].typ <= 8 && i as int == Sibling(s.leaf[n].path, s.leaf[n].typ)
      requires n.parent != null && n.parent.children.Length == 256
      ensures match n.parent.children[i]
        case LeafChild(m) => Faces(s, n, Hold(m))
        case FwdChild(f) => Faces(s, n, if f == n.parent then Self else Down)
        case Null => false
    {
      PlaceOf(n);
      var p := s.leaf[n].at;
      AboutNode(p);
      assert SlotOk(n.parent.children[i], s.slots[p][i], p, i, at);
      assert RowAt(s, p, i) == s.slots[p][i];
      DownIsElsewhere(p, i);
    }

    /** What the slot where n's sibling would be shows. */
    lemma LookAtSibling(n: Leaf, i: byte)
      requires Matches() && Loose(s, n) && 1 <= s.leaf[n].typ <= 8 && i as int == Sibling(s.leaf[n].path, s.leaf[n].typ)
      requires n.parent != null && n.parent.children.Length == 256
      ensures n.parent.children[i].LeafChild? ==>
        var m := n.parent.children[i].leaf;
        && m in s.leaf && m != n && s.leaf[n].typ <= s.leaf[m].typ <= 8 && s.leaf[m].at == s.leaf[n].at
        && m.typ == s.leaf[m].typ && |m.flat.firsts| == |s.leaf[m].items|
        && (s.leaf[n].typ == s.leaf[m].typ ==> Siblings(s, n, m))
      ensures match n.parent.children[i]
        case LeafChild(m) => Faces(s, n, Hold(m))
        case FwdChild(f) => Faces(s, n, if f == n.parent then Self else Down)
        case Null => false
    {
      SiblingShows(n, i);
      PlaceOf(n);
      AboutNode(s.leaf[n].at);
      HeldExactly(s, n);
      if n.parent.children[i].LeafChild? {
        var m := n.parent.children[i].leaf;
        assert SlotOk(n.parent.children[i], s.slots[s.leaf[n].at][i], s.leaf[n].at, i, at);
        assert RowAt(s, s.leaf[n].at, i) == Hold(m);
        assert Wf(s);
        SiblingLeaf(s, n, m);
        HeldExactly(s, m);
        PlaceOf(m);
      }
    }

    /** Are all slots of n's parent block n's or free? */
    method OthersFree(n: Leaf, f: Fwd) returns (ok: bool)
      requires Matches() && Loose(s, n) && 1 <= s.leaf[n].typ <= 8 && f == n.parent
      ensures ok <==> SiblingFree(s, n)
    {
      PlaceOf(n);
      HeldExactly(s, n);
      SiblingSlot(s.leaf[n]);
      ParentAndSibling(s.leaf[n].path, s.leaf[n].typ);
      var from := ClearBit(n.path, Mask(n.typ - 1));
      var to := OrMasks(from, n.typ - 1);
      for i := from to to + 1
        invariant forall j: byte | from <= j < i :: f.children[j] == FwdChild(f) || f.children[j] == LeafChild(n)
      {
        if f.children[i] != FwdChild(f) && f.children[i] != LeafChild(n) {
          TakenIsNotFree(n, from, i);
          return false;
        }
      }
      BlockIsFree(n, from);
      return true;
    }

    lemma TakenIsNotFree(n: Leaf, from: nat, i: byte)
      requires Matches() && Loose(s, n) && 1 <= s.leaf[n].typ <= 8 && from == Parent(s.leaf[n].path, s.leaf[n].typ)
      requires n.parent != null && n.parent.children.Length == 256 && InBlock(i, from, s.leaf[n].typ - 1)
      requires n.parent.children[i] != FwdChild(n.parent) && n.parent.children[i] != LeafChild(n)
      ensures !SiblingFree(s, n)
    {
      PlaceOf(n);
      var r := s.leaf[n];
      AboutNode(r.at);
      HeldExactly(s, n);
      ParentAndSibling(r.path, r.typ);
      assert SlotOk(n.parent.children[i], s.slots[r.at][i], r.at, i, at);
      assert RowAt(s, r.at, i) == s.slots[r.at][i];
      assert !Covers(r, i);
    }

    lemma BlockIsFree(n: Leaf, from: nat)
      requires Matches() && Loose(s, n) && 1 <= s.leaf[n].typ <= 8 && from == Parent(s.leaf[n].path, s.leaf[n].typ)
      requires n.parent != null && n.parent.children.Length == 256
      requires forall j: byte | InBlock(j, from, s.leaf[n].typ - 1) ::
        n.parent.children[j] == FwdChild(n.parent) || n.parent.children[j] == LeafChild(n)
      ensures SiblingFree(s, n)
    {
      PlaceOf(n);
      var p := s.leaf[n].at;
      AboutNode(p);
      forall j: byte | InBlock(j, from, s.leaf[n].typ - 1)
        ensures RowAt(s, p, j) == Self || RowAt(s, p, j) == Hold(n)
      {
        assert SlotOk(n.parent.children[j], s.slots[p][j], p, j, at);
        DownIsElsewhere(p, j);
      }
      assert Wf(s);
      RestIsFree(s, n);
    }

    /** The only child of a node: Null if there are several, the node itself if there is none. */
    method OnlyChild(f: Fwd) returns (other: Child)
      requires f.children.Length == 256
      ensures other == FwdChild(f) ==> forall i: byte :: f.children[i] == FwdChild(f)
      ensures other != Null && other != FwdChild(f) ==> exists i: byte :: f.children[i] == other
    {
      other := FwdChild(f);
      for i := 0 to 256
        invariant other == FwdChild(f) ==> forall j: byte | j < i :: f.children[j] == FwdChild(f)
        invariant other != Null && other != FwdChild(f) ==> exists j: byte :: f.children[j] == other
      {
        if f.children[i] != FwdChild(f) && other != f.children[i] {
          if other != FwdChild(f) { return Null; }
          other := f.children[i];
        }
      }
    }

    /** Merges a leaf of n's node with its neighbours as far as it is small enough. The array of lengths is overrun
        exactly if a child of the root goes that had more keys below it than the array has places. The counters matter
        only to a leaf that is not settled: the call that follows readd_byte passes outdated ones, to a leaf that is
        settled, or has been deleted; the latter does not happen if the other leaves are where this would leave them. */
    method MergeDown(n: Leaf, onHeap: int, byte: nat, ghost size: nat)
      requires Ready() && Loose(s, n) && (Stage(s.leaf[n].at, size, onHeap, byte) || Settled(s, n))
      modifies Repr, heap
      ensures Intact() && Ready() && Repr == old(Repr) && Fair(old(Accounts()), Accounts())
      ensures Items(s) == old(Items(s)) && |s.owner| == |old(s.owner)|
      ensures overrun == (old(overrun) || Spilt(old(s), s))
      ensures old(Known()) <= Known() && (old(dangling) ==> dangling) && Outcome(old(s), s, n)
      ensures Tame(old(s), n) ==> dangling == old(dangling)
      decreases Potential(s.leaf), 8 - s.leaf[n].typ, 3
    {
      hide Conserved, Matches, All, Items, BlockHeap.Valid, Wf, Potential, Spilt, Shed, Outcome, Tame;
      ghost var s0 := s;
      PlaceOf(n);
      TypeInRange(s, n);
      Unmoved();
      SameNodes(s, s);
      if |n.flat.firsts| > SPLITBOUND / 3 {
        EnoughKeys(s, n);
        ManySettle(s, n);
        OutcomeOfNothing(s, n);
        return;
      }
      if n.typ == 0 {
        if |n.flat.firsts| == 0 {
          MergeEmpty(n, onHeap, byte, size);
          return;
        }
        EnoughKeys(s, n);
        if n.parent == root {
          RootSettles(s, n);
          OutcomeOfNothing(s, n);
        } else {
          ReaddByte(n, onHeap, byte, size);
          ghost var s1 := s;
          MergeAgain(n, onHeap, byte, size, s0, old(Accounts()));
          OutcomeSheds(s0, s1, n);
          ShedTwice(s0, s1, s);
          if Tame(s0, n) { TameStays(s0, s1, n); }
        }
      } else {
        MergeRegular(n, onHeap, byte, size);
      }
    }

    /** After readd_byte the program looks at n once more. If n is still there, it is settled. */
    method MergeAgain(n: Leaf, onHeap: int, byte: nat, ghost size: nat, ghost s0: State, ghost a: Books)
      requires Intact() && Ready() && n in Known() && Fair(a, Accounts())
      requires n in s0.leaf && 0 < |s0.leaf[n].items| <= SPLITBOUND / 3 && s0.leaf[n].typ == 0 && Items(s0) == Items(s)
      requires Outcome(s0, s, n) && Potential(s.leaf) < Potential(s0.leaf)
      modifies Repr, heap
      ensures Intact() && Ready() && Repr == old(Repr) && Fair(a, Accounts())
      ensures Items(s) == old(Items(s)) && |s.owner| == |old(s.owner)|
      ensures overrun == (old(overrun) || Spilt(old(s), s)) && Shed(old(s), s)
      ensures old(Known()) <= Known() && Outcome(s0, s, n) && dangling == old(dangling || n !in s.leaf)
      decreases Potential(s.leaf), 9, 0
    {
      hide Conserved, Matches, All, Items, BlockHeap.Valid, Wf, Potential, Spilt, Shed, Settled, Calmed, Outcome;
      DeletedOrThere(n);
      NoteDangling(n.deleted);
      SameNodes(s, s);
      if n.deleted {
        return;
      }
      PlaceOf(n);
      if n.parent != root {
        ghost var s1, b := s, Accounts();
        LooseAll(s, n);
        OutcomeSettles(s0, s1, n);
        MergeDown(n, onHeap, byte, size);
        OutcomeTwice(s0, s1, s, n);
        OutcomeSheds(s1, s, n);
        FairChain(a, b, Accounts());
      }
    }

    method MergeRegular(n: Leaf, onHeap: int, byte: nat, ghost size: nat)
      requires Ready() && Loose(s, n) && 1 <= s.leaf[n].typ <= 8
      requires Stage(s.leaf[n].at, size, onHeap, byte) || Settled(s, n)
      modifies Repr, heap
      ensures Intact() && Ready() && Repr == old(Repr) && Fair(old(Accounts()), Accounts())
      ensures Items(s) == old(Items(s)) && |s.owner| == |old(s.owner)|
      ensures overrun == (old(overrun) || Spilt(old(s), s))
      ensures old(Known()) <= Known() && (old(dangling) ==> dangling) && Outcome(old(s), s, n)
      ensures Tame(old(s), n) ==> dangling == old(dangling)
      decreases Potential(s.leaf), 8 - s.leaf[n].typ, 2
    {
      hide Conserved, Matches, All, Items, BlockHeap.Valid, Wf, Potential, Spilt, Shed, Outcome, Settled, Tame, Faces,
           SiblingFree, FacesSibling, Drop;
      ghost var s0 := s;
      Unmoved();
      PlaceOf(n);
      SameNodes(s, s);
      if |n.flat.firsts| > SPLITBOUND / 3 {
        EnoughKeys(s, n);
        ManySettle(s, n);
        OutcomeOfNothing(s, n);
        return;
      }
      HeldExactly(s, n);
      SiblingSlot(s.leaf[n]);
      var f, m := n.parent, Mask(n.typ - 1);
      var i := if TestBit(n.path, m) then ClearBit(n.path, m) else SetBit(n.path, m);
      LookAtSibling(n, i);
      var child := f.children[i];
      if child.LeafChild? {
        MergeWithLeaf(n, child.leaf, onHeap, byte, size);
        return;
      }
      if |n.flat.firsts| == 0 {
        FacesNoSibling(s, n, if child == FwdChild(f) then Self else Down);
        DropStep(n, f, true);
        OutcomeOfDrop(s0, s, n);
        DropLeaves(s0, n);
        SameNodes(s0, s);
        return;
      }
      EnoughKeys(s, n);
      if child != FwdChild(f) {
        NodeSettles(s, n);
        OutcomeOfNothing(s, n);
        return;
      }
      var ok := OthersFree(n, f);
      if !ok {
        TakenSettles(s, n);
        OutcomeOfNothing(s, n);
        return;
      }
      GrowOn(n, f, onHeap, byte, size);
    }

    /** The sibling block is free: n takes it and goes on. */
    method GrowOn(n: Leaf, f: Fwd, onHeap: int, byte: nat, ghost size: nat)
      requires Ready() && Loose(s, n) && 1 <= s.leaf[n].typ <= 8 && f == n.parent && SiblingFree(s, n)
      requires 0 < |s.leaf[n].items| <= SPLITBOUND / 3 && (Stage(s.leaf[n].at, size, onHeap, byte) || Settled(s, n))
      modifies Repr, heap
      ensures Intact() && Ready() && Repr == old(Repr) && Fair(old(Accounts()), Accounts())
      ensures Items(s) == old(Items(s)) && |s.owner| == |old(s.owner)|
      ensures overrun == (old(overrun) || Spilt(old(s), s))
      ensures old(Known()) <= Known() && (old(dangling) ==> dangling) && Outcome(old(s), s, n)
      ensures Tame(old(s), n) ==> dangling == old(dangling)
      decreases Potential(s.leaf), 8 - s.leaf[n].typ, 0
    {
      hide Conserved, Matches, All, Items, BlockHeap.Valid, Wf, Potential, Spilt, Shed, Outcome, Settled, Tame,
           SiblingFree, Grow;
      ghost var s0, a := s, Accounts();
      SettledIsNotFree(s, n);
      GrowStep(n, f);
      ghost var s1, b := s, Accounts();
      GrowMovesOnly(s0, n);
      if Tame(s0, n) { TameMoved(s0, s1, n); }
      MergeDown(n, onHeap, byte, size);
      SameNodes(s0, s1);
      OutcomeAfterMove(s0, s1, s, n);
      SpiltAfter(s0, s1, s, n);
      FairChain(a, b, Accounts());
    }

    /** The sibling block of n holds leaf other. */
    method MergeWithLeaf(n: Leaf, other: Leaf, onHeap: int, byte: nat, ghost size: nat)
      requires Ready() && Loose(s, n) && 1 <= s.leaf[n].typ <= 8 && |s.leaf[n].items| <= SPLITBOUND / 3
      requires Stage(s.leaf[n].at, size, onHeap, byte) || Settled(s, n)
      requires other in s.leaf && other != n && s.leaf[n].typ <= s.leaf[other].typ <= 8 && Faces(s, n, Hold(other))
      requires s.leaf[other].at == s.leaf[n].at && other.typ == s.leaf[other].typ
      requires |other.flat.firsts| == |s.leaf[other].items|
      requires s.leaf[n].typ == s.leaf[other].typ ==> Siblings(s, n, other)
      modifies Repr, heap
      ensures Intact() && Ready() && Repr == old(Repr) && Fair(old(Accounts()), Accounts())
      ensures Items(s) == old(Items(s)) && |s.owner| == |old(s.owner)|
      ensures overrun == (old(overrun) || Spilt(old(s), s))
      ensures old(Known()) <= Known() && (old(dangling) ==> dangling) && Outcome(old(s), s, n)
      ensures Tame(old(s), n) ==> dangling == old(dangling)
      decreases Potential(s.leaf), 8 - s.leaf[n].typ, 1
    {
      hide Conserved, Matches, All, Items, BlockHeap.Valid, Wf, Potential, Spilt, Shed, Siblings, Outcome, Settled,
           Tame, Faces, FacesSibling, Drop;
      ghost var s0 := s;
      Unmoved();
      PlaceOf(n);
      SameNodes(s, s);
      var f := n.parent;
      if other.typ != n.typ {
        // the sibling block is still divided
        if |n.flat.firsts| == 0 {
          FacesNoSibling(s, n, Hold(other));
          DropStep(n, f, false);
          OutcomeOfDrop(s0, s, n);
          DropLeaves(s0, n);
          SameNodes(s0, s);
        } else {
          EnoughKeys(s, n);
          if |other.flat.firsts| <= SPLITBOUND / 3 {
            Detour(n, other, onHeap, byte, size);
          } else {
            FullNeighbourSettles(s, n, other);
            OutcomeOfNothing(s, n);
          }
        }
        return;
      }
      if |n.flat.firsts| == 0 {
        AbsorbOn(n, other, f, onHeap, byte, size);
        return;
      }
      if |n.flat.firsts| + |other.flat.firsts| >= SPLITBOUND {
        EnoughKeys(s, n);
        FullNeighbourSettles(s, n, other);
        OutcomeOfNothing(s, n);
        return;
      }
      MergeOn(n, other, f, onHeap, byte, size);
    }

    /** The narrower neighbour is merged instead. */
    method Detour(n: Leaf, other: Leaf, onHeap: int, byte: nat, ghost size: nat)
      requires Ready() && Loose(s, n) && Bounded(s, {}) && 1 <= s.leaf[n].typ <= 8
      requires 0 < |s.leaf[n].items| <= SPLITBOUND / 3
      requires Stage(s.leaf[n].at, size, onHeap, byte) || Settled(s, n)
      requires other in s.leaf && s.leaf[n].typ < s.leaf[other].typ <= 8 && Faces(s, n, Hold(other))
      requires s.leaf[other].at == s.leaf[n].at
      modifies Repr, heap
      ensures Intact() && Ready() && Repr == old(Repr) && Fair(old(Accounts()), Accounts())
      ensures Items(s) == old(Items(s)) && |s.owner| == |old(s.owner)|
      ensures overrun == (old(overrun) || Spilt(old(s), s))
      ensures old(Known()) <= Known() && (old(dangling) ==> dangling) && Outcome(old(s), s, n)
      ensures Tame(old(s), n) ==> dangling == old(dangling)
      decreases Potential(s.leaf), 8 - s.leaf[other].typ, 4
    {
      hide Conserved, Matches, All, Items, BlockHeap.Valid, Wf, Potential, Spilt, Shed, Outcome, Settled, Faces;
      ghost var s0 := s;
      LooseToo(s, n, other);
      if Tame(s, n) { DetourIsSettled(s, n, other); }
      MergeDown(other, onHeap, byte, size);
      OutcomeOfDetour(s0, s, n, other);
    }

    /** The empty leaf n leaves its slots to its sibling, which goes on. */
    method AbsorbOn(n: Leaf, other: Leaf, f: Fwd, onHeap: int, byte: nat, ghost size: nat)
      requires Ready() && Loose(s, n) && Siblings(s, n, other) && 1 <= s.leaf[n].typ <= 8 && s.leaf[n].items == []
      requires f == n.parent
      requires Stage(s.leaf[n].at, size, onHeap, byte) || Settled(s, n)
      modifies Repr, heap
      ensures Intact() && Ready() && Repr == old(Repr) && Fair(old(Accounts()), Accounts())
      ensures Items(s) == old(Items(s)) && |s.owner| == |old(s.owner)|
      ensures overrun == (old(overrun) || Spilt(old(s), s))
      ensures old(Known()) <= Known() && (old(dangling) ==> dangling) && Outcome(old(s), s, n)
      ensures Tame(old(s), n) ==> dangling == old(dangling)
      decreases Potential(s.leaf), 8 - s.leaf[n].typ, 0
    {
      hide Conserved, Matches, All, Items, BlockHeap.Valid, Wf, Potential, Spilt, Shed, Siblings, Outcome, Settled,
           Aside, Merge;
      ghost var s0, a := s, Accounts();
      EmptyIsNotSettled(s, n);
      HeldExactly(s, n);
      AbsorbStep(other, n, f);
      ghost var s1, b := s, Accounts();
      AbsorbRows(s0, other, n);
      SameNodes(s0, s1);
      if Tame(s0, n) { AbsorbTame(s0, other, n); }
      MergeDown(other, onHeap, byte, size);
      OutcomeOfAbsorb(s0, s, n, other);
      SpiltAfter(s0, s1, s, other);
      FairChain(a, b, Accounts());
    }

    /** n takes over its sibling and goes on. */
    method MergeOn(n: Leaf, other: Leaf, f: Fwd, onHeap: int, byte: nat, ghost size: nat)
      requires Ready() && Loose(s, n) && Siblings(s, n, other) && 1 <= s.leaf[n].typ <= 8 && f == n.parent
      requires Faces(s, n, Hold(other))
      requires 0 < |s.leaf[n].items| <= SPLITBOUND / 3 && |s.leaf[n].items| + |s.leaf[other].items| < SPLITBOUND
      requires Stage(s.leaf[n].at, size, onHeap, byte) || Settled(s, n)
      modifies Repr, heap
      ensures Intact() && Ready() && Repr == old(Repr) && Fair(old(Accounts()), Accounts())
      ensures Items(s) == old(Items(s)) && |s.owner| == |old(s.owner)|
      ensures overrun == (old(overrun) || Spilt(old(s), s))
      ensures old(Known()) <= Known() && (old(dangling) ==> dangling) && Outcome(old(s), s, n)
      ensures Tame(old(s), n) ==> dangling == old(dangling)
      decreases Potential(s.leaf), 8 - s.leaf[n].typ, 0
    {
      hide Conserved, Matches, All, Items, BlockHeap.Valid, Wf, Potential, Spilt, Shed, Outcome, Settled, Tame, Merge,
           Faces;
      ghost var s0, a := s, Accounts();
      TypeInRange(s, n);
      if Settled(s, n) { SettledNeighbour(s, n, other); }
      MergeStep(n, other, f);
      ghost var s1, b := s, Accounts();
      MergeMovesOnly(s0, n, other, s.owner);
      MergedSize(s0, n, other, s.owner);
      MergeLeaves(s0, n, other, s.owner);
      MergeNodes(s0, n, other, s.owner);
      if |s.leaf[n].items| > SPLITBOUND / 3 { ManySettle(s, n); }
      if Tame(s0, n) { TameMoved(s0, s1, n); }
      MergeDown(n, onHeap, byte, size);
      SameNodes(s0, s1);
      OutcomeAfterMerge(s0, s1, s, n, other);
      SpiltAfter(s0, s1, s, n);
      FairChain(a, b, Accounts());
    }

    /** The node that n fills is removed: n moves up and its entries take the path byte back. */
    method ReaddByte(n: Leaf, onHeap: int, byte: nat, ghost size: nat)
      requires Ready() && Loose(s, n) && s.leaf[n].typ == 0 && s.leaf[n].at != []
      requires Stage(s.leaf[n].at, size, onHeap, byte)
      requires 0 < |s.leaf[n].items| <= SPLITBOUND / 3
      modifies Repr, heap
      ensures Intact() && Ready() && Repr == old(Repr) && Fair(old(Accounts()), Accounts())
      ensures Items(s) == old(Items(s)) && |s.owner| == |old(s.owner)|
      ensures overrun == (old(overrun) || Spilt(old(s), s))
      ensures old(Known()) <= Known() && (old(dangling) ==> dangling) && Outcome(old(s), s, n)
      ensures Tame(old(s), n) ==> dangling == old(dangling)
      ensures Potential(s.leaf) < old(Potential(s.leaf))
      decreases Potential(s.leaf), 8 - s.leaf[n].typ, 1
    {
      hide Conserved, Matches, All, Items, BlockHeap.Valid, Wf, Potential, Spilt, Shed, Outcome, Settled, Tame, Lift;
      ghost var s0, a := s, Accounts();
      PlaceOf(n);
      SpellsFront(s.leaf[n].at, size);
      LowIsNotSettled(s, n);
      LiftStep(n, n.parent, onHeap + 1, byte, size);
      ghost var s1, b := s, Accounts();
      LiftMovesOnly(s0, n);
      LiftSheds(s0, n);
      if Tame(s0, n) { TameMoved(s0, s1, n); }
      MergeDown(n, onHeap + 1, byte - 1, size);
      OutcomeAfterMove(s0, s1, s, n);
      SpiltAfter(s0, s1, s, n);
      FairChain(a, b, Accounts());
    }

    /** A leaf found in a slot of node p. */
    lemma LeafInSlot(p: Path, n: Leaf)
      requires Intact() && p in at && at[p].children.Length == 256
      requires exists i: byte :: at[p].children[i] == LeafChild(n)
      ensures Loose(s, n) && s.leaf[n].at == p
    {
      AboutNode(p);
      var i: byte :| at[p].children[i] == LeafChild(n);
      assert SlotOk(at[p].children[i], s.slots[p][i], p, i, at);
      assert Wf(s);
      assert RowAt(s, p, i) == Hold(n);
      assert HeldBy(s, n, p, i);
    }

    /** Deletes an empty leaf that covers its node, then every node above that has become empty. */
    method MergeEmpty(n: Leaf, onHeap: int, byte: nat, ghost size: nat)
      requires Ready() && Loose(s, n) && s.leaf[n].typ == 0 && s.leaf[n].items == []
      requires Stage(s.leaf[n].at, size, onHeap, byte)
      modifies Repr, heap
      ensures Intact() && Ready() && Repr == old(Repr) && Fair(old(Accounts()), Accounts())
      ensures Items(s) == old(Items(s)) && |s.owner| == |old(s.owner)|
      ensures overrun == (old(overrun) || Spilt(old(s), s))
      ensures old(Known()) <= Known() && (old(dangling) ==> dangling) && Outcome(old(s), s, n)
      ensures Tame(old(s), n) ==> dangling == old(dangling)
      decreases Potential(s.leaf), 8 - s.leaf[n].typ, 1
    {
      hide Conserved, Matches, All, Items, BlockHeap.Valid, Wf, Potential, Spilt, Shed, NodeOk, Settled, Aside, Outcome,
           Drop;
      EmptyIsNotSettled(s, n);
      PlaceOf(n);
      ghost var s0, a, p := s, Accounts(), s.leaf[n].at;
      var parent := n.parent;
      DropStep(n, parent, true);
      ghost var s1, b := s, Accounts();
      DropLeaves(s0, n);
      SameNodes(s0, s1);
      MergeAbove(parent, onHeap, byte, p, size);
      FairChain(a, b, Accounts());
      ShedTwice(s0, s1, s);
      if p == [] { OutcomeOfDrop(s0, s, n); } else { OutcomeOfCover(s0, s, n); }
    }

    /** Deletes empty nodes from this one up, and merges the leaf found alone in the first that is not empty. */
    method MergeAbove(start: Fwd, onHeap: int, byte: nat, ghost place: Path, ghost size: nat)
      requires Intact() && Ready() && place in at && start == at[place] && Stage(place, size, onHeap, byte)
      modifies Repr, heap
      ensures Intact() && Ready() && Repr == old(Repr) && Fair(old(Accounts()), Accounts())
      ensures Items(s) == old(Items(s)) && |s.owner| == |old(s.owner)|
      ensures overrun == (old(overrun) || Spilt(old(s), s)) && Shed(old(s), s)
      ensures old(Known()) <= Known() && (old(dangling) ==> dangling)
      ensures s.leaf.Keys <= old(s.leaf.Keys) && Potential(s.leaf) <= old(Potential(s.leaf))
      ensures place == [] ==> s == old(s) && dangling == old(dangling)
      decreases Potential(s.leaf), 9, 0
    {
      hide Conserved, Matches, All, Items, BlockHeap.Valid, Wf, Potential, Spilt, Shed, NodeOk, Settled, Calmed,
           Outcome, Tame;
      Unmoved();
      ghost var s0, p := s, place;
      var parent, b, onHeapNow := start, byte, onHeap;
      SameNodes(s, s);
      NodeIs(p);
      while parent != root
        invariant Intact() && Ready() && Repr == old(Repr) && Accounts() == old(Accounts())
        invariant Items(s) == old(Items(s)) && s.owner == old(s.owner) && s.leaf == old(s.leaf)
        invariant gone == old(gone) && dangling == old(dangling) && overrun == old(overrun)
        invariant Shed(s0, s) && !Spilt(s0, s) && (place == [] ==> s == s0 && p == [])
        invariant p in at && parent == at[p] && Stage(p, size, onHeapNow, b)
        decreases |p|
      {
        NodeIs(p);
        ghost var s1 := s;
        var other := OnlyChild(parent);
        if other == Null {
          return;
        }
        if other.LeafChild? {
          LeafInSlot(p, other.leaf);
          MergeDown(other.leaf, onHeapNow, b, size);
          OutcomeSheds(s1, s, other.leaf);
          ShedTwice(s0, s1, s);
          return;
        }
        if other != FwdChild(parent) {
          return;
        }
        SpellsFront(p, size);
        var above := PruneStep(parent, p);
        ShedTwice(s0, s1, s);
        parent, p := above, Front(p);
        b, onHeapNow := b - 1, onHeapNow + 1;
      }
    }

    lemma NodeIs(p: Path)
      requires Matches() && p in at
      ensures at[p].children.Length == 256 && (at[p] == root <==> p == [])
    {
      AboutNode(p);
      AboutNode([]);
    }

    /** Removes an empty node and returns the one above it. */
    method PruneStep(parent: Fwd, ghost p: Path) returns (above: Fwd)
      requires Intact() && Ready() && p in at && parent == at[p] && p != [] && parent.children.Length == 256
      requires forall i: byte :: parent.children[i] == FwdChild(parent)
      modifies Repr
      ensures Intact() && Ready() && Repr == old(Repr) && Accounts() == old(Accounts()) && overrun == old(overrun)
      ensures Shed(old(s), s) && !Spilt(old(s), s)
      ensures gone == old(gone) && dangling == old(dangling)
      ensures Items(s) == old(Items(s)) && s.owner == old(s.owner) && s.leaf == old(s.leaf)
      ensures Front(p) in at && above == at[Front(p)]
    {
      hide Conserved, Matches, All, Items, BlockHeap.Valid, Wf, Unreferenced, Shed, Spilt;
      AboutNode(p);
      SelfMeansFree(p, 0, 256);
      PruneDone(s, p);
      PruneSheds(s, p);
      PruneCan(s, p);
      above := parent.parent;
      PruneNode(parent, p);
    }

    /** Removes entry `bucketid` of leaf n, then merges. */
    method EraseAt(n: Leaf, bucketid: nat, onHeap: int, byte: nat, ghost size: nat)
      requires Valid() && Ready() && n in s.leaf && bucketid < |s.leaf[n].items|
      requires Stage(s.leaf[n].at, size, onHeap, byte)
      modifies Repr, heap
      ensures Valid() && Ready() && Repr == old(Repr) && Fair(old(Accounts()), Accounts())
      ensures Items(s) == old(Items(s)) - {old(s.leaf[n].items[bucketid])} && |s.owner| == |old(s.owner)|
      ensures overrun == old(overrun || Overfills(s, s.leaf[n].items[bucketid].key)) && dangling == old(dangling)
      ensures forall h: byte :: HasChild(s, h) <==> HasChild(old(s), h) && Tally(Items(s), h) > SPLITBOUND / 3
    {
      hide Conserved, Matches, All, Items, BlockHeap.Valid, Wf, Potential, Spilt, Shed, RemoveItem, Outcome, Settled,
           Tame, Tidy;
      ghost var s0, a, x := s, Accounts(), s.leaf[n].items[bucketid];
      PlaceOf(n);
      RemoveDone(s, n, bucketid);
      RemoveTame(s, n, bucketid);
      OneLess(Items(s), x);
      RemoveEntry(n, bucketid, onHeap, byte, size);
      ghost var s1, b := s, Accounts();
      MergeDown(n, onHeap, byte, size);
      EraseRests(s0, n, bucketid, s);
      OutcomeSheds(s1, s, n);
      StoredItem(s0, n, bucketid);
      ErasedChildren(s0, s, x, s1);
      FairChain(a, b, Accounts());
    }

    method RemoveEntry(n: Leaf, bucketid: nat, onHeap: int, byte: nat, ghost size: nat)
      requires Valid() && n in s.leaf && bucketid < |s.leaf[n].items| && Stage(s.leaf[n].at, size, onHeap, byte)
      modifies this`s, this`plots, n, heap
      ensures Matches() && Backed() && Fair(old(Accounts()), Accounts()) && s == RemoveItem(old(s), n, bucketid)
    {
      hide Conserved, Matches, All, Items, BlockHeap.Valid, Wf, Exchanged;
      Opening();
      ghost var a := Accounts();
      PlaceOf(n);
      AboutBucket(n);
      ghost var r := s.leaf[n].(items := RemoveAt(s.leaf[n].items, bucketid));
      var flat, p := EraseInForest(s, plots, n, n.flat, bucketid, onHeap, byte, heap, entries, size);
      Rewrite(n, n.parent, n.path, n.typ, flat, r, p);
      Closing(a);
    }

    /** Removes a key; returns whether it was stored. */
    method Erase(k: Key) returns (erased: bool)
      requires Valid() && Roomy(0)
      modifies Repr, heap
      ensures Valid() && Roomy(0) && Repr == old(Repr) && Fair(old(Accounts()), Accounts())
      ensures erased <==> HasKey(old(s), k)
      ensures |s.owner| == |old(s.owner)| && Items(s) == set x | x in old(Items(s)) && x.key != k
      ensures overrun == (old(overrun) || (HasKey(old(s), k) && Overfills(old(s), k))) && dangling == old(dangling)
      ensures forall h: byte :: HasChild(s, h) <==> HasChild(old(s), h) && Tally(Items(s), h) > SPLITBOUND / 3
    {
      hide Conserved, Matches, All, BlockHeap.Valid, Wf, Tidy, Overfills;
      Unmoved();
      var found, f, base, depth, b := BestMatch(k);
      if !found {
        assert Items(s) == set x | x in Items(s) && x.key != k;
        ChildrenAreCrowded(s);
        return false;
      }
      SpellsKey(k, depth);
      OnlyOneItem(s, base.leaf, b);
      EraseAt(base.leaf, b, |k| - depth, depth, |k|);
      erased := true;
    }
  }
}
