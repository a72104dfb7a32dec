/** The steps the trie takes, on values, and what each of them keeps. */
module ShapeOps {
  import opened Bytes
  import opened Blocks
  import opened Nodes
  import opened Shape

  // ------------------------------------------------------------ elementary updates

  function Fill(row: seq<Slot>, from: nat, to: nat, v: Slot): (r: seq<Slot>)
    requires from <= to <= |row|
    ensures |r| == |row|
    ensures forall i | 0 <= i < |row| :: r[i] == if from <= i < to then v else row[i]
  {
    row[..from] + seq(to - from, _ => v) + row[to..]
  }

  ghost function SetRow(s: State, p: Path, from: nat, to: nat, v: Slot): State
    requires p in s.slots && from <= to <= |s.slots[p]|
  {
    s.(slots := s.slots[p := Fill(s.slots[p], from, to, v)])
  }

  ghost function SetLeaf(s: State, n: Leaf, r: LeafRec): State {
    s.(leaf := s.leaf[n := r])
  }

  ghost function DropLeaf(s: State, n: Leaf): State {
    s.(leaf := s.leaf - {n})
  }

  // ------------------------------------------------------------ items

  lemma ItemsUpdate(s: State, n: Leaf, r: LeafRec)
    ensures forall x :: x in Items(SetLeaf(s, n, r)) <==> x in r.items || x in Items(DropLeaf(s, n))
  {
    var t := SetLeaf(s, n, r);
    forall x ensures x in Items(t) <==> x in r.items || x in Items(DropLeaf(s, n)) {
      if x in r.items { assert n in t.leaf && x in t.leaf[n].items; }
      if x in Items(DropLeaf(s, n)) {
        var m :| m in DropLeaf(s, n).leaf && x in DropLeaf(s, n).leaf[m].items;
        assert m in t.leaf && x in t.leaf[m].items;
      }
      if x in Items(t) && x !in r.items {
        var m :| m in t.leaf && x in t.leaf[m].items;
        assert m in DropLeaf(s, n).leaf && x in DropLeaf(s, n).leaf[m].items;
      }
    }
  }

  // ------------------------------------------------------------ rewriting one region of one row

  predicate SamePlace(a: LeafRec, b: LeafRec) {
    a.at == b.at && a.path == b.path && a.typ == b.typ
  }

  predicate Within(r: LeafRec, p: Path, from: int, to: int) {
    r.at == p && r.typ <= 8 && from <= r.path && r.path + Width(r.typ) <= to
  }

  predicate Outside(r: LeafRec, p: Path, from: int, to: int) {
    r.at != p || (r.typ <= 8 && (r.path + Width(r.typ) <= from || to <= r.path))
  }

  /** s and u differ only in slots [from, to) of row p and in leaves that live there. */
  ghost predicate DiffersIn(s: State, u: State, p: Path, from: nat, to: nat) {
    && p in s.slots && from <= to <= 256
    && u.slots.Keys == s.slots.Keys
    && (forall q | q in u.slots :: |u.slots[q]| == 256)
    && (forall q, i: byte | !(q == p && from <= i < to) :: RowAt(u, q, i) == RowAt(s, q, i))
    && (forall i: byte | from <= i < to :: RowAt(s, p, i) != Down)
    && (forall m | m in s.leaf ::
      Within(s.leaf[m], p, from, to)
        || (Outside(s.leaf[m], p, from, to) && m in u.leaf && SamePlace(s.leaf[m], u.leaf[m])))
  }

  /** Every slot of the region is free or held by a leaf whose block is in the region. */
  ghost predicate RegionOk(u: State, p: Path, from: nat, to: nat) {
    forall i: byte | from <= i < to ::
      RowAt(u, p, i) == Self || (RowAt(u, p, i).Hold? && HeldBy(u, RowAt(u, p, i).leaf, p, i))
  }

  ghost predicate LocalOk(s: State, u: State, m: Leaf, p: Path, from: nat, to: nat)
    requires m in u.leaf
  {
    || (m in s.leaf && Outside(s.leaf[m], p, from, to) && SamePlace(s.leaf[m], u.leaf[m]))
    || (Within(u.leaf[m], p, from, to) && Aligned(u.leaf[m].path, u.leaf[m].typ)
        && forall i: byte | Covers(u.leaf[m], i) :: RowAt(u, p, i) == Hold(m))
  }

  lemma Regional(s: State, u: State, p: Path, from: nat, to: nat)
    requires TreeOk(s) && BlocksOk(s) && DiffersIn(s, u, p, from, to) && RegionOk(u, p, from, to)
    requires forall m | m in u.leaf :: LocalOk(s, u, m, p, from, to)
    ensures TreeOk(u) && BlocksOk(u)
  {
    RegionalTree(s, u, p, from, to);
    forall m, i: byte | m in u.leaf && Covers(u.leaf[m], i)
      ensures RowAt(u, u.leaf[m].at, i) == Hold(m)
    {
      assert LocalOk(s, u, m, p, from, to);
      if m in s.leaf { assert Covers(s.leaf[m], i) ==> RowAt(s, s.leaf[m].at, i) == Hold(m); }
    }
    forall q, i: byte | q in u.slots && RowAt(u, q, i).Hold?
      ensures HeldBy(u, RowAt(u, q, i).leaf, q, i)
    {
      if !(q == p && from <= i < to) { assert HeldBy(s, RowAt(s, q, i).leaf, q, i); }
    }
  }

  lemma RegionalTree(s: State, u: State, p: Path, from: nat, to: nat)
    requires TreeOk(s) && DiffersIn(s, u, p, from, to) && RegionOk(u, p, from, to)
    ensures TreeOk(u)
  {
    forall q, i: byte | q in u.slots
      ensures u.slots[q][i] == Down <==> s.slots[q][i] == Down
    {
      assert RowAt(u, q, i) == u.slots[q][i] && RowAt(s, q, i) == s.slots[q][i];
    }
  }

  // ------------------------------------------------------------ claiming free slots

  /** An empty leaf takes the block [from, from + Width(t)) of node p. */
  ghost function Claim(s: State, n: Leaf, p: Path, from: byte, t: nat): State
    requires p in s.slots && |s.slots[p]| == 256 && Aligned(from, t)
  {
    SetLeaf(SetRow(s, p, from, from + Width(t), Hold(n)), n, LeafRec(p, from, t, []))
  }

  ghost predicate Free(s: State, p: Path, from: nat, to: nat) {
    forall i: byte | from <= i < to :: RowAt(s, p, i) == Self
  }

  /** No leaf block reaches into free slots. */
  lemma FreeIsOutside(s: State, m: Leaf, p: Path, from: nat, t: nat)
    requires BlocksOk(s) && m in s.leaf && Aligned(from, t) && Free(s, p, from, from + Width(t))
    ensures Outside(s.leaf[m], p, from, from + Width(t))
  {
    var r := s.leaf[m];
    if r.at == p && r.path < from + Width(t) && from < r.path + Width(r.typ) {
      var i: byte := if r.path < from then from else r.path;
      assert Covers(r, i) && RowAt(s, p, i) == Self;
      assert false;
    }
  }

  lemma ClaimKeeps(s: State, n: Leaf, p: Path, from: byte, t: nat)
    requires Wf(s) && n !in s.leaf && p in s.slots && Aligned(from, t)
    requires Free(s, p, from, from + Width(t))
    ensures Wf(Claim(s, n, p, from, t))
    ensures Items(Claim(s, n, p, from, t)) == Items(s)
  {
    var u := Claim(s, n, p, from, t);
    var to := from + Width(t);
    forall m | m in s.leaf
      ensures Outside(s.leaf[m], p, from, to) && SamePlace(s.leaf[m], u.leaf[m]) && u.leaf[m] == s.leaf[m]
    {
      FreeIsOutside(s, m, p, from, t);
    }
    Regional(s, u, p, from, to);
  }

  // ------------------------------------------------------------ bucket content

  /** Slot structure does not depend on bucket contents. */
  lemma SameRows(s: State, u: State)
    requires TreeOk(s) && BlocksOk(s) && u.slots == s.slots && u.leaf.Keys == s.leaf.Keys
    requires forall n | n in s.leaf ::
      u.leaf[n].at == s.leaf[n].at && u.leaf[n].path == s.leaf[n].path && u.leaf[n].typ == s.leaf[n].typ
    ensures TreeOk(u) && BlocksOk(u)
  {
    forall n, i: byte | n in u.leaf && Covers(u.leaf[n], i)
      ensures RowAt(u, u.leaf[n].at, i) == Hold(n)
    {
      assert Covers(s.leaf[n], i);
      assert RowAt(s, s.leaf[n].at, i) == Hold(n);
    }
    forall p, i: byte | p in u.slots && RowAt(u, p, i).Hold?
      ensures HeldBy(u, RowAt(u, p, i).leaf, p, i)
    {
      assert RowAt(s, p, i) == RowAt(u, p, i);
      assert HeldBy(s, RowAt(s, p, i).leaf, p, i);
    }
  }

  ghost predicate OwnerGrows(a: seq<Leaf>, b: seq<Leaf>) {
    |a| <= |b| && forall i | 0 <= i < |a| :: b[i] == a[i]
  }

  ghost function SetItems(s: State, n: Leaf, items: seq<Item>, owner: seq<Leaf>): State
    requires n in s.leaf
  {
    SetLeaf(s, n, s.leaf[n].(items := items)).(owner := owner)
  }

  lemma SetItemsKeeps(s: State, n: Leaf, items: seq<Item>, owner: seq<Leaf>)
    requires Wf(s) && n in s.leaf
    requires OwnerGrows(s.owner, owner)
    requires ItemsFit(s.leaf[n].(items := items)) && IdsOk(n, items, owner)
    ensures Wf(SetItems(s, n, items, owner))
  {
    var u := SetItems(s, n, items, owner);
    SameRows(s, u);
    forall m | m in u.leaf
      ensures ItemsFit(u.leaf[m]) && IdsOk(m, u.leaf[m].items, u.owner)
    {
      if m != n {
        assert u.leaf[m] == s.leaf[m] && IdsOk(m, s.leaf[m].items, s.owner);
      }
    }
  }

  ghost predicate GoesAt(items: seq<Item>, k: Key, i: nat) {
    && i <= |items|
    && (forall j | 0 <= j < i :: Less(Enc(items[j].key), Enc(k)))
    && (forall j | i <= j < |items| :: Less(Enc(k), Enc(items[j].key)))
  }

  function InsertAt<T(!new)>(xs: seq<T>, i: nat, x: T): (r: seq<T>)
    requires i <= |xs|
    ensures |r| == |xs| + 1 && r[i] == x
    ensures forall j | 0 <= j < i :: r[j] == xs[j]
    ensures forall j | i < j < |r| :: r[j] == xs[j-1]
    ensures forall y :: y in r <==> y == x || y in xs
  {
    assert xs == xs[..i] + xs[i..];
    xs[..i] + [x] + xs[i..]
  }

  function RemoveAt<T(!new)>(xs: seq<T>, i: nat): (r: seq<T>)
    requires i < |xs|
    ensures |r| == |xs| - 1
    ensures forall j | 0 <= j < i :: r[j] == xs[j]
    ensures forall j | i <= j < |r| :: r[j] == xs[j+1]
    ensures forall y :: y in xs <==> y == xs[i] || y in r
  {
    assert xs == xs[..i] + [xs[i]] + xs[i+1..];
    xs[..i] + xs[i+1..]
  }

  lemma InsertFits(n: Leaf, r: LeafRec, owner: seq<Leaf>, i: nat, k: Key)
    requires ItemsFit(r) && IdsOk(n, r.items, owner) && Fits(k, r) && GoesAt(r.items, k, i)
    ensures ItemsFit(r.(items := InsertAt(r.items, i, Item(k, |owner|))))
    ensures IdsOk(n, InsertAt(r.items, i, Item(k, |owner|)), owner + [n])
  {
    InsertSorted(r.items, i, Item(k, |owner|));
  }

  lemma InsertSorted(items: seq<Item>, i: nat, x: Item)
    requires Sorted(items) && GoesAt(items, x.key, i)
    ensures Sorted(InsertAt(items, i, x))
  {
  }

  /** A new key goes into leaf n at position i, under the next id. */
  ghost function InsertItem(s: State, n: Leaf, i: nat, k: Key): State
    requires n in s.leaf && i <= |s.leaf[n].items|
  {
    SetItems(s, n, InsertAt(s.leaf[n].items, i, Item(k, |s.owner|)), s.owner + [n])
  }

  lemma InsertKeeps(s: State, n: Leaf, i: nat, k: Key)
    requires Wf(s) && n in s.leaf && Fits(k, s.leaf[n]) && GoesAt(s.leaf[n].items, k, i)
    ensures Wf(InsertItem(s, n, i, k))
    ensures Items(InsertItem(s, n, i, k)) == Items(s) + {Item(k, |s.owner|)}
  {
    InsertFits(n, s.leaf[n], s.owner, i, k);
    SetItemsKeeps(s, n, InsertAt(s.leaf[n].items, i, Item(k, |s.owner|)), s.owner + [n]);
    ItemsOfSetItems(s, n, InsertAt(s.leaf[n].items, i, Item(k, |s.owner|)), s.owner + [n]);
    ItemsSplit(s, n);
  }

  lemma ItemsOfSetItems(s: State, n: Leaf, items: seq<Item>, owner: seq<Leaf>)
    requires n in s.leaf
    ensures forall x :: x in Items(SetItems(s, n, items, owner)) <==> x in items || x in Items(DropLeaf(s, n))
  {
    ItemsUpdate(s, n, s.leaf[n].(items := items));
    assert SetItems(s, n, items, owner).leaf == SetLeaf(s, n, s.leaf[n].(items := items)).leaf;
  }

  lemma ItemsSplit(s: State, n: Leaf)
    requires n in s.leaf
    ensures forall x :: x in Items(s) <==> x in s.leaf[n].items || x in Items(DropLeaf(s, n))
  {
    ItemsUpdate(s, n, s.leaf[n]);
    assert SetLeaf(s, n, s.leaf[n]).leaf == s.leaf;
  }

  lemma RemoveFits(n: Leaf, r: LeafRec, owner: seq<Leaf>, i: nat)
    requires ItemsFit(r) && IdsOk(n, r.items, owner) && i < |r.items|
    ensures ItemsFit(r.(items := RemoveAt(r.items, i)))
    ensures IdsOk(n, RemoveAt(r.items, i), owner)
    ensures r.items[i] !in RemoveAt(r.items, i)
  {
    var t := RemoveAt(r.items, i);
    forall j | 0 <= j < |t|
      ensures t[j] != r.items[i]
    {
      assert t[j] == r.items[if j < i then j else j + 1];
    }
  }

  /** The i-th key of leaf n goes away; its id is not given back. */
  ghost function RemoveItem(s: State, n: Leaf, i: nat): State
    requires n in s.leaf && i < |s.leaf[n].items|
  {
    SetItems(s, n, RemoveAt(s.leaf[n].items, i), s.owner)
  }

  lemma RemoveKeeps(s: State, n: Leaf, i: nat)
    requires Wf(s) && n in s.leaf && i < |s.leaf[n].items|
    ensures Wf(RemoveItem(s, n, i))
    ensures Items(RemoveItem(s, n, i)) == Items(s) - {s.leaf[n].items[i]}
  {
    var x := s.leaf[n].items[i];
    forall m, y | m in s.leaf && m != n && y in s.leaf[m].items
      ensures y != x
    {
      if y == x { OneHome(s, m, y, n, x); }
    }
    RemoveFits(n, s.leaf[n], s.owner, i);
    SetItemsKeeps(s, n, RemoveAt(s.leaf[n].items, i), s.owner);
    ItemsOfSetItems(s, n, RemoveAt(s.leaf[n].items, i), s.owner);
    ItemsSplit(s, n);
  }

  // ------------------------------------------------------------ back-pointers

  /** The ids in `ids` now point at n, all others where they did. */
  ghost predicate Repointed(a: seq<Leaf>, b: seq<Leaf>, ids: set<nat>, n: Leaf) {
    |a| == |b| && forall i | 0 <= i < |a| :: b[i] == if i in ids then n else a[i]
  }

  ghost function Ids(items: seq<Item>): set<nat> {
    set x | x in items :: x.id
  }

  lemma OthersKeepIds(s: State, n: Leaf, m: Leaf, items: seq<Item>, owner: seq<Leaf>, to: Leaf)
    requires LeavesOk(s) && n in s.leaf && m in s.leaf && m != n
    requires forall x | x in items :: x in s.leaf[n].items
    requires Repointed(s.owner, owner, Ids(items), to)
    ensures IdsOk(m, s.leaf[m].items, owner)
  {
    assert IdsOk(n, s.leaf[n].items, s.owner) && IdsOk(m, s.leaf[m].items, s.owner);
  }

  // ------------------------------------------------------------ splitting a block in two

  ghost function Low(r: LeafRec, cnt: nat): LeafRec
    requires r.typ < 8 && cnt <= |r.items|
  {
    LeafRec(r.at, r.path, r.typ + 1, r.items[..cnt])
  }

  ghost function High(r: LeafRec, cnt: nat): LeafRec
    requires r.typ < 8 && Aligned(r.path, r.typ) && cnt <= |r.items|
  {
    Halves(r.path, r.typ);
    LeafRec(r.at, r.path + Mask(r.typ), r.typ + 1, r.items[cnt..])
  }

  /** The first cnt keys of a leaf are those whose next byte lies in the low half of its block. */
  ghost predicate Partition(r: LeafRec, cnt: nat)
    requires r.typ < 8
  {
    && cnt <= |r.items|
    && (forall j | 0 <= j < cnt :: |r.at| <= |r.items[j].key| + 1 && !TestBit(Enc(r.items[j].key)[|r.at|], Mask(r.typ)))
    && (forall j | cnt <= j < |r.items| ::
      |r.at| <= |r.items[j].key| + 1 && TestBit(Enc(r.items[j].key)[|r.at|], Mask(r.typ)))
  }

  lemma HalvesFit(r: LeafRec, cnt: nat)
    requires r.typ < 8 && Aligned(r.path, r.typ) && ItemsFit(r) && Partition(r, cnt)
    ensures ItemsFit(Low(r, cnt)) && ItemsFit(High(r, cnt))
  {
    Halves(r.path, r.typ);
    forall j | 0 <= j < |r.items|
      ensures j < cnt ==> Fits(r.items[j].key, Low(r, cnt))
      ensures cnt <= j ==> Fits(r.items[j].key, High(r, cnt))
    {
      assert r.items[j] in r.items;
      BitPicksHalf(Enc(r.items[j].key)[|r.at|], r.path, r.typ);
    }
  }

  /** Leaf n becomes a (low half) and b (high half); one of the two is n itself, the other is new. */
  ghost function Split(s: State, n: Leaf, a: Leaf, b: Leaf, cnt: nat, owner: seq<Leaf>): State
    requires n in s.leaf && s.leaf[n].typ < 8 && cnt <= |s.leaf[n].items|
    requires Aligned(s.leaf[n].path, s.leaf[n].typ)
    requires s.leaf[n].at in s.slots && |s.slots[s.leaf[n].at]| == 256
  {
    var r := s.leaf[n];
    Halves(r.path, r.typ);
    var rows := SetRow(SetRow(s, r.at, r.path, r.path + Mask(r.typ), Hold(a)),
                       r.at, r.path + Mask(r.typ), r.path + Width(r.typ), Hold(b));
    SetLeaf(SetLeaf(rows, a, Low(r, cnt)), b, High(r, cnt)).(owner := owner)
  }

  /** u has leaves a and b where s has n; nothing else moved. */
  ghost predicate SplitsInto(s: State, u: State, n: Leaf, a: Leaf, b: Leaf)
    requires n in s.leaf && s.leaf[n].typ < 8
  {
    var r := s.leaf[n];
    && u.slots.Keys == s.slots.Keys && (forall q | q in u.slots :: |u.slots[q]| == 256)
    && (forall q, i: byte | q != r.at || !Covers(r, i) :: RowAt(u, q, i) == RowAt(s, q, i))
    && (forall i: byte | Covers(r, i) :: RowAt(u, r.at, i) == Hold(if i < r.path + Mask(r.typ) then a else b))
    && u.leaf.Keys == s.leaf.Keys + {a, b}
    && (forall m | m in s.leaf && m != a && m != b :: u.leaf[m] == s.leaf[m])
    && u.leaf[a].at == u.leaf[b].at == r.at && u.leaf[a].typ == u.leaf[b].typ == r.typ + 1
    && u.leaf[a].path == r.path && u.leaf[b].path as int == r.path + Mask(r.typ)
  }

  lemma SplitRows(s: State, n: Leaf, a: Leaf, b: Leaf, cnt: nat, owner: seq<Leaf>)
    requires TreeOk(s) && BlocksOk(s) && n in s.leaf && s.leaf[n].typ < 8 && cnt <= |s.leaf[n].items|
    requires a != b && (n == a || n == b)
    ensures SplitsInto(s, Split(s, n, a, b, cnt, owner), n, a, b)
  {
    Halves(s.leaf[n].path, s.leaf[n].typ);
  }

  lemma SplitSlots(s: State, u: State, n: Leaf, a: Leaf, b: Leaf)
    requires TreeOk(s) && BlocksOk(s) && n in s.leaf && s.leaf[n].typ < 8
    requires a != b && (n == a || n == b) && (a == n || a !in s.leaf) && (b == n || b !in s.leaf)
    requires SplitsInto(s, u, n, a, b)
    ensures TreeOk(u) && BlocksOk(u)
  {
    var r := s.leaf[n];
    var to := r.path + Width(r.typ);
    Halves(r.path, r.typ);
    SplitDiffers(s, u, n, a, b);
    SplitHeld(s, u, n, a, b);
    forall m | m in u.leaf ensures LocalOk(s, u, m, r.at, r.path, to) {
      SplitLocal(s, u, n, a, b, m);
    }
    Regional(s, u, r.at, r.path, to);
  }

  lemma SplitHeld(s: State, u: State, n: Leaf, a: Leaf, b: Leaf)
    requires n in s.leaf && s.leaf[n].typ < 8 && Aligned(s.leaf[n].path, s.leaf[n].typ) && SplitsInto(s, u, n, a, b)
    ensures var r := s.leaf[n];
      forall i: byte | r.path <= i < r.path + Width(r.typ) ::
        RowAt(u, r.at, i).Hold? && HeldBy(u, RowAt(u, r.at, i).leaf, r.at, i)
  {
    var r := s.leaf[n];
    Halves(r.path, r.typ);
    forall i: byte | r.path <= i < r.path + Width(r.typ)
      ensures RowAt(u, r.at, i).Hold? && HeldBy(u, RowAt(u, r.at, i).leaf, r.at, i)
    {
      assert Covers(r, i);
    }
  }

  lemma SplitLocal(s: State, u: State, n: Leaf, a: Leaf, b: Leaf, m: Leaf)
    requires TreeOk(s) && BlocksOk(s) && n in s.leaf && s.leaf[n].typ < 8
    requires a != b && (n == a || n == b) && SplitsInto(s, u, n, a, b) && m in u.leaf
    ensures LocalOk(s, u, m, s.leaf[n].at, s.leaf[n].path, s.leaf[n].path + Width(s.leaf[n].typ))
  {
    if m == a || m == b {
      SplitHalf(s, u, n, a, b, m);
    } else {
      OthersOutside(s, n);
    }
  }

  lemma SplitHalf(s: State, u: State, n: Leaf, a: Leaf, b: Leaf, m: Leaf)
    requires n in s.leaf && s.leaf[n].typ < 8 && Aligned(s.leaf[n].path, s.leaf[n].typ)
    requires a != b && (m == a || m == b) && SplitsInto(s, u, n, a, b)
    ensures Within(u.leaf[m], s.leaf[n].at, s.leaf[n].path, s.leaf[n].path + Width(s.leaf[n].typ))
    ensures Aligned(u.leaf[m].path, u.leaf[m].typ)
    ensures forall i: byte | Covers(u.leaf[m], i) :: RowAt(u, s.leaf[n].at, i) == Hold(m)
  {
    Halves(s.leaf[n].path, s.leaf[n].typ);
  }

  lemma SplitDiffers(s: State, u: State, n: Leaf, a: Leaf, b: Leaf)
    requires TreeOk(s) && BlocksOk(s) && n in s.leaf && s.leaf[n].typ < 8
    requires a != b && (n == a || n == b) && (a == n || a !in s.leaf) && (b == n || b !in s.leaf)
    requires SplitsInto(s, u, n, a, b)
    ensures DiffersIn(s, u, s.leaf[n].at, s.leaf[n].path, s.leaf[n].path + Width(s.leaf[n].typ))
    ensures forall m | m in s.leaf && m != n ::
      Outside(s.leaf[m], s.leaf[n].at, s.leaf[n].path, s.leaf[n].path + Width(s.leaf[n].typ))
  {
    OthersOutside(s, n);
  }

  /** No other leaf reaches into n's block. */
  lemma OthersOutside(s: State, n: Leaf)
    requires BlocksOk(s) && n in s.leaf
    ensures forall m | m in s.leaf && m != n ::
      Outside(s.leaf[m], s.leaf[n].at, s.leaf[n].path, s.leaf[n].path + Width(s.leaf[n].typ))
    ensures forall i: byte | Covers(s.leaf[n], i) :: RowAt(s, s.leaf[n].at, i) == Hold(n)
  {
    var r := s.leaf[n];
    forall m | m in s.leaf && m != n
      ensures Outside(s.leaf[m], r.at, r.path, r.path + Width(r.typ))
    {
      var q := s.leaf[m];
      var i: byte := if q.path < r.path then r.path else q.path;
      assert Covers(r, i) ==> RowAt(s, r.at, i) == Hold(n);
      assert Covers(q, i) ==> RowAt(s, q.at, i) == Hold(m);
    }
  }

  /** A slot holds n exactly when it is in n's block. */
  lemma OnlyHere(s: State, n: Leaf)
    requires BlocksOk(s) && n in s.leaf
    ensures forall q, i: byte :: RowAt(s, q, i) == Hold(n) <==> q == s.leaf[n].at && Covers(s.leaf[n], i)
  {
    forall q, i: byte | RowAt(s, q, i) == Hold(n)
      ensures q == s.leaf[n].at && Covers(s.leaf[n], i)
    {
      assert HeldBy(s, RowAt(s, q, i).leaf, q, i);
    }
  }

  lemma SplitKeeps(s: State, n: Leaf, a: Leaf, b: Leaf, cnt: nat, owner: seq<Leaf>)
    requires Wf(s) && n in s.leaf && s.leaf[n].typ < 8 && Partition(s.leaf[n], cnt)
    requires a != b && (n == a || n == b) && (a == n || a !in s.leaf) && (b == n || b !in s.leaf)
    requires Repointed(s.owner, owner, Ids(if n == a then s.leaf[n].items[cnt..] else s.leaf[n].items[..cnt]),
      if n == a then b else a)
    ensures Wf(Split(s, n, a, b, cnt, owner))
    ensures Items(Split(s, n, a, b, cnt, owner)) == Items(s)
  {
    var u, r := Split(s, n, a, b, cnt, owner), s.leaf[n];
    SplitRows(s, n, a, b, cnt, owner);
    SplitSlots(s, u, n, a, b);
    HalvesFit(r, cnt);
    var moved := if n == a then r.items[cnt..] else r.items[..cnt];
    forall m | m in u.leaf
      ensures ItemsFit(u.leaf[m]) && IdsOk(m, u.leaf[m].items, u.owner)
    {
      if m == a || m == b {
        SplitIds(n, r.items, cnt, s.owner, owner, a, b);
      } else {
        OthersKeepIds(s, n, m, moved, owner, if n == a then b else a);
      }
    }
    SplitItems(s, n, a, b, cnt, owner);
  }

  lemma SplitIds(n: Leaf, items: seq<Item>, cnt: nat, owner: seq<Leaf>, owner': seq<Leaf>, a: Leaf, b: Leaf)
    requires IdsOk(n, items, owner) && cnt <= |items| && a != b && (n == a || n == b)
    requires Repointed(owner, owner', Ids(if n == a then items[cnt..] else items[..cnt]), if n == a then b else a)
    ensures IdsOk(a, items[..cnt], owner') && IdsOk(b, items[cnt..], owner')
  {
    forall i, j | 0 <= i < cnt <= j < |items|
      ensures items[i].id !in Ids(items[cnt..]) && items[j].id !in Ids(items[..cnt])
    {
    }
    forall x | x in items[..cnt]
      ensures x.id < |owner'| && owner'[x.id] == a
    {
      assert x in items;
      if n == a { assert x.id !in Ids(items[cnt..]); } else { assert x.id in Ids(items[..cnt]); }
    }
    forall x | x in items[cnt..]
      ensures x.id < |owner'| && owner'[x.id] == b
    {
      assert x in items;
      if n == a { assert x.id in Ids(items[cnt..]); } else { assert x.id !in Ids(items[..cnt]); }
    }
  }

  lemma SplitItems(s: State, n: Leaf, a: Leaf, b: Leaf, cnt: nat, owner: seq<Leaf>)
    requires Wf(s) && n in s.leaf && s.leaf[n].typ < 8 && cnt <= |s.leaf[n].items|
    requires a != b && (n == a || n == b) && (a == n || a !in s.leaf) && (b == n || b !in s.leaf)
    ensures Items(Split(s, n, a, b, cnt, owner)) == Items(s)
  {
    var u, r := Split(s, n, a, b, cnt, owner), s.leaf[n];
    var rest := DropLeaf(DropLeaf(u, b), a);
    assert rest.leaf == DropLeaf(s, n).leaf;
    assert Items(rest) == Items(DropLeaf(s, n));
    ItemsSplit(s, n);
    ItemsSplit(u, b);
    ItemsSplit(DropLeaf(u, b), a);
    assert r.items == r.items[..cnt] + r.items[cnt..];
  }
}
