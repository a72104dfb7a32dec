/** From stable ids back to leaves and keys. */
module StableSet {
  import opened Bytes
  import opened Nodes
  import opened Shape
  import opened ShapeMoves
  import opened Heap
  import opened Splitting
  import opened Search
  import opened Merging
  import opened Layout
  import opened FlatBucket
  import opened Forest
  import opened Trie

  /** The id belongs to a stored key. */
  ghost predicate Live(s: State, id: nat) {
    exists x :: x in Items(s) && x.id == id
  }

  /** A live id points back to the one leaf that lists it. */
  lemma LiveIdHome(s: State, id: nat)
    requires Sound(s) && Live(s, id)
    ensures id < |s.owner| && s.owner[id] in s.leaf
    ensures id in IdSeq(s.leaf[s.owner[id]].items)
  {
    var x :| x in Items(s) && x.id == id;
    var n :| n in s.leaf && x in s.leaf[n].items;
    ItemHome(s, n, x);
    var j :| 0 <= j < |s.leaf[n].items| && s.leaf[n].items[j] == x;
    assert IdSeq(s.leaf[n].items)[j] == id;
  }

  lemma ItemHome(s: State, n: Leaf, x: Item)
    requires Sound(s) && n in s.leaf && x in s.leaf[n].items
    ensures x.id < |s.owner| && s.owner[x.id] == n
  {
    assert Wf(s);
    assert IdsOk(n, s.leaf[n].items, s.owner);
  }

  /** The leaf and bucket position of a live id. */
  method FindMetadata(t: Trie, index: nat) returns (n: Leaf, b: nat)
    requires t.Valid() && t.entries && Live(t.s, index)
    ensures n in t.s.leaf && b < |t.s.leaf[n].items|
    ensures t.s.leaf[n].items[b].id == index && t.s.leaf[n].items[b] in Items(t.s)
  {
    LiveIdHome(t.s, index);
    n := t.owner[index];
    t.AboutLeaf(n);
    var ids := n.flat.ids;
    b := 0;
    while b < |ids| && ids[b] != index
      invariant b <= |ids| && index !in ids[..b]
    {
      b := b + 1;
    }
    assert ids[..|ids|] == ids;
    assert ids[b] == t.s.leaf[n].items[b].id;
    StoredAt(t.s, n, b);
  }

  /** The path of a leaf's node, read off the parent pointers. */
  method BuildPath(t: Trie, n: Leaf) returns (path: Path)
    requires t.Valid() && n in t.s.leaf
    ensures path == t.s.leaf[n].at
  {
    t.PlaceOf(n);
    var par := n.parent;
    ghost var q := t.s.leaf[n].at;
    path := [];
    while par.parent != null
      invariant q in t.at && par == t.at[q] && q + path == t.s.leaf[n].at
      decreases |q|
    {
      t.AboutNode(q);
      path := [par.path] + path;
      assert q == Front(q) + [Last(q)];
      par := par.parent;
      q := Front(q);
    }
    t.AboutNode(q);
  }

  /** Reconstructs the key stored at position b of leaf n from path, `first` and residue. */
  method Unpack(t: Trie, n: Leaf, b: nat) returns (key: seq<byte>)
    requires t.Valid() && n in t.s.leaf && b < |t.s.leaf[n].items|
    ensures key == t.s.leaf[n].items[b].key
  {
    hide Lays, Conserved;
    var path := BuildPath(t, n);
    ghost var r, k := t.s.leaf[n], t.s.leaf[n].items[b].key;
    t.AboutBucket(n);
    HasFit(t.s, n, b);
    WfLeaf(t.s, n);
    SpellsKey(k, |path|);
    LengthsOfLeaf(r, |k|);
    LeafBytes(t.s.leaf, t.plots, t.heap.blocks, n);
    var dest := WriteKey(n.flat, path, b, t.heap.blocks, Bucket(r), t.plots[n].cells, k);
    key := dest[..];
  }

  lemma HasFit(s: State, n: Leaf, b: nat)
    requires Sound(s) && n in s.leaf && b < |s.leaf[n].items|
    ensures Fits(s.leaf[n].items[b].key, s.leaf[n])
  {
    assert Wf(s);
    assert s.leaf[n].items[b] in s.leaf[n].items;
  }

  /** The key an id stands for. */
  method UnpackId(t: Trie, index: nat) returns (key: seq<byte>)
    requires t.Valid() && t.entries && Live(t.s, index)
    ensures exists x :: x in Items(t.s) && x.id == index && x.key == key
  {
    var n, b := FindMetadata(t, index);
    key := Unpack(t, n, b);
  }

  /** As long as no more than 2^64 - 1 ids have been issued, no key has the id that a failed lookup returns. */
  lemma NoKeyHasNoId(s: State)
    requires Sound(s) && |s.owner| <= 0xFFFF_FFFF_FFFF_FFFF
    ensures forall x | x in Items(s) :: x.id != 0xFFFF_FFFF_FFFF_FFFF
  {
    forall x | x in Items(s) ensures x.id < |s.owner| {
      var n :| n in s.leaf && x in s.leaf[n].items;
      ItemHome(s, n, x);
    }
  }
}
