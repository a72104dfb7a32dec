/** The trie as a value: which slots hold what, which leaf holds which keys. */
module Shape {
  import opened Bytes
  import opened Blocks
  import opened Config
  import opened Nodes

  /** A stored key with the stable id it was given. */
  datatype Item = Item(key: Key, id: nat)

  /** A leaf's place (path of its forward node, first slot, type) and its content. */
  datatype LeafRec = LeafRec(at: Path, path: byte, typ: nat, items: seq<Item>)

  datatype Slot = Self | Down | Hold(leaf: Leaf)

  /** Rows of slots by path, leaves, and for every id ever issued the leaf it points back to. */
  datatype State = State(slots: map<Path, seq<Slot>>, leaf: map<Leaf, LeafRec>, owner: seq<Leaf>)

  /** A new trie: the root, with all slots free. */
  const EMPTY_STATE: State := State(map[[] := seq(256, _ => Self)], map[], [])

  function Sub(p: Path, i: byte): Path { p + [i] }

  // ------------------------------------------------------------ invariant

  /** Forward nodes form a tree: a slot is Down exactly when the longer path exists. */
  ghost predicate TreeOk(s: State) {
    && [] in s.slots
    && (forall p | p in s.slots :: |s.slots[p]| == 256)
    && (forall p, i: byte | p in s.slots && s.slots[p][i] == Down :: Sub(p, i) in s.slots)
    && (forall p, i: byte | Sub(p, i) in s.slots :: p in s.slots && s.slots[p][i] == Down)
    && (forall p | p in s.slots :: DepthOk(p))
  }

  /** Past the two length bytes, no path is longer than the length they spell plus one. */
  predicate DepthOk(p: Path) {
    |p| >= 2 ==> |p| <= (p[0] as int) * 256 + p[1] + 1
  }

  predicate Covers(r: LeafRec, i: int) {
    r.typ <= 8 && InBlock(i, r.path, r.typ)
  }

  /** A leaf occupies exactly the slots of its aligned block. */
  ghost predicate BlocksOk(s: State) {
    && (forall n | n in s.leaf :: s.leaf[n].at in s.slots && Aligned(s.leaf[n].path, s.leaf[n].typ))
    && (forall n, i: byte | n in s.leaf && Covers(s.leaf[n], i) :: RowAt(s, s.leaf[n].at, i) == Hold(n))
    && (forall p, i: byte | p in s.slots && RowAt(s, p, i).Hold? :: HeldBy(s, RowAt(s, p, i).leaf, p, i))
  }

  ghost function RowAt(s: State, p: Path, i: byte): Slot {
    if p in s.slots && i < |s.slots[p]| then s.slots[p][i] else Self
  }

  ghost predicate HeldBy(s: State, n: Leaf, p: Path, i: byte) {
    n in s.leaf && s.leaf[n].at == p && Covers(s.leaf[n], i)
  }

  /** The key's encoding continues the leaf's path and its next byte lies in the leaf's block. */
  predicate Fits(k: Key, r: LeafRec) {
    && |r.at| <= |k| + 1
    && Enc(k)[..|r.at|] == r.at
    && Covers(r, Enc(k)[|r.at|])
  }

  ghost predicate Sorted(items: seq<Item>) {
    forall i, j | 0 <= i < j < |items| :: Less(Enc(items[i].key), Enc(items[j].key))
  }

  ghost predicate ItemsFit(r: LeafRec) {
    && (forall x | x in r.items :: Fits(x.key, r))
    && Sorted(r.items)
  }

  /** Ids are distinct within a leaf and point back to it. */
  ghost predicate IdsOk(n: Leaf, items: seq<Item>, owner: seq<Leaf>) {
    && (forall x | x in items :: x.id < |owner| && owner[x.id] == n)
    && (forall i, j | 0 <= i < j < |items| :: items[i].id != items[j].id)
  }

  ghost predicate LeavesOk(s: State) {
    forall n | n in s.leaf :: ItemsFit(s.leaf[n]) && IdsOk(n, s.leaf[n].items, s.owner)
  }

  ghost predicate Wf(s: State) {
    TreeOk(s) && BlocksOk(s) && LeavesOk(s)
  }

  /** The same as Wf(s), put so that the verifier looks inside only where Wf(s) is mentioned. */
  ghost predicate Sound(s: State) {
    forall t {:trigger Wf(t)} | t == s :: Wf(t)
  }

  lemma SoundIsWf(s: State)
    ensures Sound(s) <==> Wf(s)
  {
    assert Sound(s) ==> (Wf(s) || !Wf(s));
  }

  lemma RootInSlots(s: State)
    requires Wf(s)
    ensures [] in s.slots
  {
  }

  /** Every leaf but `except` holds between 1 and SPLITBOUND - 1 keys. */
  ghost predicate Bounded(s: State, except: set<Leaf>) {
    forall n | n in s.leaf && n !in except :: 0 < |s.leaf[n].items| < SPLITBOUND
  }

  /** Everything stored: keys with their ids. */
  ghost function Items(s: State): set<Item> {
    set n, x | n in s.leaf && x in s.leaf[n].items :: x
  }

  // ------------------------------------------------------------ where a key lives

  lemma {:induction false} PrefixDown(s: State, p: Path, j: nat)
    requires TreeOk(s) && p in s.slots && j < |p|
    ensures p[..j] in s.slots && s.slots[p[..j]][p[j]] == Down
    decreases |p|
  {
    var q := p[..|p|-1];
    assert p == Sub(q, p[|p|-1]);
    if j < |q| {
      PrefixDown(s, q, j);
      assert q[..j] == p[..j];
    }
  }

  /** Following a key's encoding until a slot is not Down ends at the key's own leaf if it has one. */
  lemma Located(s: State, k: Key, d: nat, n: Leaf, x: Item)
    requires Wf(s) && d <= |k| + 1 && Enc(k)[..d] in s.slots
    requires s.slots[Enc(k)[..d]][Enc(k)[d]] != Down
    requires n in s.leaf && x in s.leaf[n].items && x.key == k
    ensures s.leaf[n].at == Enc(k)[..d]
    ensures s.slots[Enc(k)[..d]][Enc(k)[d]] == Hold(n)
  {
    var r := s.leaf[n];
    var e := Enc(k);
    assert Fits(k, r);
    assert RowAt(s, r.at, e[|r.at|]) == Hold(n);
    if d < |r.at| {
      assert r.at[..d] == e[..d] && r.at[d] == e[d];
      PrefixDown(s, r.at, d);
    } else if d > |r.at| {
      assert e[..d][..|r.at|] == r.at && e[..d][|r.at|] == e[|r.at|];
      PrefixDown(s, e[..d], |r.at|);
    }
  }

  /** A key, and an id, determine their leaf. */
  lemma OneHome(s: State, n: Leaf, x: Item, m: Leaf, y: Item)
    requires Wf(s) && n in s.leaf && m in s.leaf
    requires x in s.leaf[n].items && y in s.leaf[m].items
    requires x.key == y.key || x.id == y.id
    ensures n == m && x == y
  {
    if x.key == y.key {
      var r := s.leaf[m];
      assert Fits(y.key, r);
      assert RowAt(s, r.at, Enc(y.key)[|r.at|]) == Hold(m);
      Located(s, x.key, |r.at|, n, x);
    }
    assert n == m;
    SameItem(s.leaf[n].items, x, y, s.owner, n);
  }

  lemma SameItem(items: seq<Item>, x: Item, y: Item, owner: seq<Leaf>, n: Leaf)
    requires Sorted(items) && IdsOk(n, items, owner) && x in items && y in items
    requires x.key == y.key || x.id == y.id
    ensures x == y
  {
    var i :| 0 <= i < |items| && items[i] == x;
    var j :| 0 <= j < |items| && items[j] == y;
    LessIrreflexive(Enc(x.key));
  }
}
