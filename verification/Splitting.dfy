/** Facts about a full leaf that justify how it is split. */
module Splitting {
  import opened Bytes
  import opened Blocks
  import opened Entries
  import opened Config
  import opened Nodes
  import opened Shape
  import opened ShapeOps
  import opened ShapeMoves
  import opened Heap

  // ------------------------------------------------------------ counting

  /** Once a tested bit is set it stays set: the shape of a sorted bucket. */
  ghost predicate Monotone(bits: seq<byte>, m: nat)
    requires m > 0
  {
    forall i, j | 0 <= i < j < |bits| && TestBit(bits[i], m) :: TestBit(bits[j], m)
  }

  lemma LowComeFirst(bits: seq<byte>, m: nat, lcnt: nat, i: nat)
    requires m > 0 && Monotone(bits, m) && lcnt <= i < |bits|
    requires lcnt < i ==> TestBit(bits[lcnt], m)
    ensures !TestBit(bits[i], m) ==> lcnt == i
  {
  }

  /** The next bytes of a leaf's keys. */
  function NextBytes(r: LeafRec): seq<byte> {
    seq(|r.items|, i requires 0 <= i < |r.items| => At(r.items[i].key, |r.at|))
  }

  /** Sorted keys of one block: their next bytes do not decrease. */
  lemma NextBytesSorted(r: LeafRec, i: nat, j: nat)
    requires ItemsFit(r) && i < j < |r.items|
    ensures At(r.items[i].key, |r.at|) <= At(r.items[j].key, |r.at|)
  {
    var a, b, d := r.items[i].key, r.items[j].key, |r.at|;
    assert r.items[i] in r.items && r.items[j] in r.items;
    if Enc(a)[d] != Enc(b)[d] { LessAt(Enc(a), Enc(b), d); }
  }

  lemma NextBytesMonotone(r: LeafRec)
    requires ItemsFit(r) && r.typ < 8 && Aligned(r.path, r.typ)
    ensures Monotone(NextBytes(r), Mask(r.typ))
  {
    forall i, j | 0 <= i < j < |r.items| && TestBit(NextBytes(r)[i], Mask(r.typ))
      ensures TestBit(NextBytes(r)[j], Mask(r.typ))
    {
      NextBytesSorted(r, i, j);
      assert r.items[i] in r.items && r.items[j] in r.items;
      BitPicksHalf(At(r.items[i].key, |r.at|), r.path, r.typ);
      BitPicksHalf(At(r.items[j].key, |r.at|), r.path, r.typ);
    }
  }

  lemma CountIsPartition(r: LeafRec, lcnt: nat)
    requires ItemsFit(r) && r.typ < 8 && lcnt <= |r.items|
    requires forall j | 0 <= j < |r.items| :: TestBit(NextBytes(r)[j], Mask(r.typ)) <==> lcnt <= j
    ensures Partition(r, lcnt)
  {
    forall j | 0 <= j < |r.items|
      ensures |r.at| <= |r.items[j].key| + 1 && NextBytes(r)[j] == Enc(r.items[j].key)[|r.at|]
    {
      assert r.items[j] in r.items;
    }
  }

  // ------------------------------------------------------------ going one level down

  /** Keys that end at this depth and share the next byte are equal. */
  lemma SameKey(a: Key, b: Key, r: LeafRec)
    requires Fits(a, r) && Fits(b, r) && r.typ == 8 && |r.at| == |a| + 1
    ensures a == b
  {
    var d := |r.at|;
    assert Enc(a)[0] == r.at[0] == Enc(b)[0] && Enc(a)[1] == r.at[1] == Enc(b)[1];
    SameLength(a, b);
    assert Enc(a)[d] == r.path == Enc(b)[d];
    assert Enc(a) == Enc(a)[..d] + [Enc(a)[d]] && Enc(b) == Enc(b)[..d] + [Enc(b)[d]];
    EncInjective(a, b);
  }

  /** A single slot with two keys or more still has a byte of every key to go by. */
  lemma RoomBelow(r: LeafRec, x: Item)
    requires ItemsFit(r) && r.typ == 8 && |r.items| >= 2 && x in r.items
    ensures |r.at| <= |x.key|
  {
    if |r.at| > |x.key| {
      SameKey(x.key, r.items[0].key, r);
      SameKey(x.key, r.items[1].key, r);
      LessIrreflexive(Enc(x.key));
      assert false;
    }
  }

  lemma DepthBelow(r: LeafRec)
    requires ItemsFit(r) && r.typ == 8 && |r.items| >= 2 && DepthOk(r.at)
    ensures DepthOk(Sub(r.at, r.path))
  {
    var x := r.items[0];
    var q := Sub(r.at, r.path);
    RoomBelow(r, x);
    assert Fits(x.key, r);
    assert Enc(x.key)[..|q|] == q;
    assert |q| >= 2 ==> q[0] == Enc(x.key)[0] && q[1] == Enc(x.key)[1];
  }

  function CutAll(bucket: seq<Entry>): seq<Entry> {
    seq(|bucket|, i requires 0 <= i < |bucket| => Cut(bucket[i]))
  }

  lemma CutBucket(r: LeafRec, q: LeafRec)
    requires forall x | x in r.items :: |r.at| <= |x.key|
    requires |q.at| == |r.at| + 1 && q.items == r.items
    ensures CutAll(Bucket(r)) == Bucket(q)
  {
    forall i | 0 <= i < |r.items|
      ensures Cut(EntryOf(r.items[i].key, |r.at|)) == EntryOf(r.items[i].key, |q.at|)
    {
      assert r.items[i] in r.items;
      CutIsDeeper(r.items[i].key, |r.at|);
    }
  }

  /** Taking part of a bucket is the bucket of part of the keys. */
  lemma BucketSlice(r: LeafRec, q: LeafRec, from: nat, to: nat)
    requires from <= to <= |r.items| && q.items == r.items[from..to] && |q.at| == |r.at|
    ensures Bucket(q) == Bucket(r)[from..to] && IdSeq(q.items) == IdSeq(r.items)[from..to]
  {
  }

  lemma HalfBuckets(r: LeafRec, cnt: nat)
    requires r.typ < 8 && Aligned(r.path, r.typ) && cnt <= |r.items|
    ensures Bucket(Low(r, cnt)) == Bucket(r)[..cnt] && IdSeq(Low(r, cnt).items) == IdSeq(r.items)[..cnt]
    ensures Bucket(High(r, cnt)) == Bucket(r)[cnt..] && IdSeq(High(r, cnt).items) == IdSeq(r.items)[cnt..]
  {
    BucketSlice(r, Low(r, cnt), 0, cnt);
    BucketSlice(r, High(r, cnt), cnt, |r.items|);
  }

  // ------------------------------------------------------------ what the pointer updates amount to

  lemma SplitNodeState(s: State, n: Leaf, h: Leaf, cnt: nat, owner: seq<Leaf>)
    requires Placed(s, n) && s.leaf[n].typ < 8 && cnt <= |s.leaf[n].items| && h != n
    requires forall i: byte | Covers(s.leaf[n], i) :: s.slots[s.leaf[n].at][i] == Hold(n)
    ensures var r := s.leaf[n];
      Split(s, n, n, h, cnt, owner)
      == SetLeaf(SetLeaf(SetRow(s, r.at, r.path + Mask(r.typ), r.path + Width(r.typ), Hold(h)), h, High(r, cnt)), n,
        Low(r, cnt)).(owner := owner)
  {
    var r := s.leaf[n];
    Halves(r.path, r.typ);
    assert Fill(s.slots[r.at], r.path, r.path + Mask(r.typ), Hold(n)) == s.slots[r.at];
    assert s.slots[r.at := s.slots[r.at]] == s.slots;
    assert s.leaf[n := Low(r, cnt)][h := High(r, cnt)] == s.leaf[h := High(r, cnt)][n := Low(r, cnt)];
  }

  lemma PushHighState(s: State, n: Leaf)
    requires Placed(s, n) && s.leaf[n].typ == 8 && Sub(s.leaf[n].at, s.leaf[n].path) !in s.slots
    ensures var r := s.leaf[n];
      Shrink(Lower(s, n), n, true)
      == SetLeaf(AddNode(s, r.at, r.path, Self, Hold(n)), n, LeafRec(Sub(r.at, r.path), 128, 1, r.items))
  {
    var r := s.leaf[n];
    var q := Sub(r.at, r.path);
    var l := Lower(s, n);
    assert q != r.at;
    assert Fill(l.slots[q], 0, 128, Self) == seq(128, _ => Self) + seq(128, _ => Hold(n));
    assert r.items[0..] == r.items;
    Halves(0, 0);
    assert Shrink(l, n, true).slots == AddNode(s, r.at, r.path, Self, Hold(n)).slots;
  }

  lemma PushLowState(s: State, n: Leaf)
    requires Placed(s, n) && s.leaf[n].typ == 8 && Sub(s.leaf[n].at, s.leaf[n].path) !in s.slots
    ensures var r := s.leaf[n];
      Shrink(Lower(s, n), n, false)
      == SetLeaf(AddNode(s, r.at, r.path, Hold(n), Self), n, LeafRec(Sub(r.at, r.path), 0, 1, r.items))
  {
    var r := s.leaf[n];
    var q := Sub(r.at, r.path);
    var l := Lower(s, n);
    assert q != r.at;
    assert Fill(l.slots[q], 128, 256, Self) == seq(128, _ => Hold(n)) + seq(128, _ => Self);
    assert r.items[..|r.items|] == r.items;
    Halves(0, 0);
    assert Shrink(l, n, false).slots == AddNode(s, r.at, r.path, Hold(n), Self).slots;
  }

  lemma PushBothState(s: State, n: Leaf, low: Leaf, cnt: nat, owner: seq<Leaf>)
    requires Placed(s, n) && s.leaf[n].typ == 8 && Sub(s.leaf[n].at, s.leaf[n].path) !in s.slots
    requires low != n && cnt <= |s.leaf[n].items|
    ensures var r := s.leaf[n];
      var q := Sub(r.at, r.path);
      Split(Lower(s, n), n, low, n, cnt, owner)
      == SetLeaf(SetLeaf(AddNode(s, r.at, r.path, Hold(low), Hold(n)),
                         low, LeafRec(q, 0, 1, r.items[..cnt])), n, LeafRec(q, 128, 1, r.items[cnt..])).(owner := owner)
  {
    var r := s.leaf[n];
    var q := Sub(r.at, r.path);
    var l := Lower(s, n);
    assert q != r.at;
    Halves(0, 0);
    assert Fill(Fill(l.slots[q], 0, 128, Hold(low)), 128, 256, Hold(n))
      == seq(128, _ => Hold(low)) + seq(128, _ => Hold(n));
    assert Split(l, n, low, n, cnt, owner).slots == AddNode(s, r.at, r.path, Hold(low), Hold(n)).slots;
    assert Split(l, n, low, n, cnt, owner).leaf
      == s.leaf[low := LeafRec(q, 0, 1, r.items[..cnt])][n := LeafRec(q, 128, 1, r.items[cnt..])];
  }

  /** Changing one leaf's place does not change how many keys the others hold. */
  lemma SameBounds(s: State, u: State, n: Leaf)
    requires Bounded(s, {n}) && u.leaf.Keys == s.leaf.Keys
    requires forall m | m in s.leaf && m != n :: u.leaf[m] == s.leaf[m]
    ensures Bounded(u, {n})
  {
  }

  lemma IdsOfSeq(items: seq<Item>)
    ensures IdSet(IdSeq(items)) == Ids(items)
  {
    var ids := IdSeq(items);
    forall x | x in items ensures x.id in IdSet(ids) {
      var i :| 0 <= i < |items| && items[i] == x;
      assert ids[i] == x.id;
    }
    forall i | 0 <= i < |ids| ensures ids[i] in Ids(items) {
      assert items[i] in items && items[i].id == ids[i];
    }
  }

  /** What a sound trie says of one leaf. */
  lemma WfLeaf(s: State, n: Leaf)
    requires Sound(s) && n in s.leaf
    ensures Placed(s, n) && ItemsFit(s.leaf[n]) && IdsOk(n, s.leaf[n].items, s.owner) && DepthOk(s.leaf[n].at)
    ensures forall i: byte | Covers(s.leaf[n], i) :: s.slots[s.leaf[n].at][i] == Hold(n)
    ensures forall i | 0 <= i < |s.leaf[n].items| :: s.leaf[n].items[i].id < |s.owner|
  {
    assert Wf(s);
    OthersOutside(s, n);
    forall i | 0 <= i < |s.leaf[n].items| ensures s.leaf[n].items[i].id < |s.owner| {
      assert s.leaf[n].items[i] in s.leaf[n].items;
    }
  }

  lemma TypeInRange(s: State, n: Leaf)
    requires Sound(s) && n in s.leaf
    ensures s.leaf[n].typ <= 8
  {
    WfLeaf(s, n);
  }

  lemma SplitBounds(s: State, n: Leaf, a: Leaf, b: Leaf, cnt: nat, owner: seq<Leaf>)
    requires Placed(s, n) && s.leaf[n].typ < 8 && Bounded(s, {n}) && |s.leaf[n].items| == SPLITBOUND
    requires 0 < cnt < SPLITBOUND
    requires a != b && (n == a || n == b)
    ensures Bounded(Split(s, n, a, b, cnt, owner), {})
  {
    var u := Split(s, n, a, b, cnt, owner);
    forall m | m in u.leaf ensures 0 < |u.leaf[m].items| < SPLITBOUND {
      if m != a && m != b { assert u.leaf[m] == s.leaf[m]; }
    }
  }

  lemma CutApart(r: LeafRec, lo: LeafRec, hi: LeafRec, cnt: nat)
    requires cnt <= |r.items| && (forall x | x in r.items :: |r.at| <= |x.key|)
    requires |lo.at| == |hi.at| == |r.at| + 1 && lo.items == r.items[..cnt] && hi.items == r.items[cnt..]
    ensures CutAll(Bucket(r))[..cnt] == Bucket(lo) && CutAll(Bucket(r))[cnt..] == Bucket(hi)
    ensures IdSeq(r.items)[..cnt] == IdSeq(lo.items) && IdSeq(r.items)[cnt..] == IdSeq(hi.items)
  {
    var q := lo.(items := r.items);
    CutBucket(r, q);
    BucketSlice(q, lo, 0, cnt);
    BucketSlice(q, hi, cnt, |r.items|);
  }

  // ------------------------------------------------------------ the full leaf

  function His(bucket: seq<Entry>): seq<byte> {
    seq(|bucket|, i requires 0 <= i < |bucket| => bucket[i].hi)
  }

  function Los(bucket: seq<Entry>): seq<byte> {
    seq(|bucket|, i requires 0 <= i < |bucket| => bucket[i].lo)
  }

  lemma HighBytes(s: State, n: Leaf)
    requires Sound(s) && n in s.leaf && s.leaf[n].typ < 8
    ensures His(Bucket(s.leaf[n])) == NextBytes(s.leaf[n])
    ensures Monotone(His(Bucket(s.leaf[n])), Mask(s.leaf[n].typ))
    ensures ItemsFit(s.leaf[n])
  {
    assert Wf(s);
    NextBytesMonotone(s.leaf[n]);
  }

  lemma FullIsPushable(s: State, n: Leaf, x: Item)
    requires Sound(s) && n in s.leaf && s.leaf[n].typ == 8 && |s.leaf[n].items| == SPLITBOUND && x in s.leaf[n].items
    ensures Placed(s, n) && Sub(s.leaf[n].at, s.leaf[n].path) !in s.slots
    ensures forall y | y in s.leaf[n].items :: |s.leaf[n].at| <= |y.key|
    ensures |s.leaf[n].at| <= |x.key|
    ensures Sound(Lower(s, n)) && Items(Lower(s, n)) == Items(s)
  {
    assert Wf(s);
    var r := s.leaf[n];
    WfLeaf(s, n);
    assert Covers(r, r.path);
    forall y | y in r.items ensures |r.at| <= |y.key| { RoomBelow(r, y); }
    DepthBelow(r);
    LowerKeeps(s, n);
  }

  lemma LowBytes(s: State, n: Leaf)
    requires n in s.leaf && s.leaf[n].at in s.slots && |s.slots[s.leaf[n].at]| == 256 && Sound(Lower(s, n))
    ensures Los(Bucket(s.leaf[n])) == NextBytes(Lower(s, n).leaf[n])
    ensures Monotone(Los(Bucket(s.leaf[n])), Mask(0))
  {
    assert Wf(Lower(s, n));
    NextBytesMonotone(Lower(s, n).leaf[n]);
  }

  lemma CountBelow(s: State, n: Leaf, lcnt: nat)
    requires n in s.leaf && s.leaf[n].at in s.slots && |s.slots[s.leaf[n].at]| == 256 && Sound(Lower(s, n))
    requires lcnt <= |s.leaf[n].items|
    requires forall j | 0 <= j < |s.leaf[n].items| :: TestBit(Los(Bucket(s.leaf[n]))[j], Mask(0)) <==> lcnt <= j
    ensures Partition(Lower(s, n).leaf[n], lcnt)
  {
    assert Wf(Lower(s, n));
    LowBytes(s, n);
    CountIsPartition(Lower(s, n).leaf[n], lcnt);
  }

  lemma ShrunkKeeps(s: State, n: Leaf, high: bool)
    requires Sound(s) && Placed(s, n) && s.leaf[n].typ < 8 && Bounded(s, {n})
    requires Partition(s.leaf[n], if high then 0 else |s.leaf[n].items|)
    ensures var u := Shrink(s, n, high);
      && Sound(u) && Items(u) == Items(s) && Bounded(u, {n}) && n in u.leaf
      && u.leaf[n].at == s.leaf[n].at && u.leaf[n].typ == s.leaf[n].typ + 1
      && u.leaf[n].items == s.leaf[n].items && u.owner == s.owner
  {
    assert Wf(s);
    ShrinkKeeps(s, n, high);
    assert s.leaf[n].items[0..] == s.leaf[n].items == s.leaf[n].items[..|s.leaf[n].items|];
    SameBounds(s, Shrink(s, n, high), n);
  }

  lemma PushedKeeps(s: State, n: Leaf, high: bool)
    requires Placed(s, n) && Sound(Lower(s, n)) && Bounded(s, {n})
    requires Partition(Lower(s, n).leaf[n], if high then 0 else |s.leaf[n].items|)
    ensures var u := Shrink(Lower(s, n), n, high);
      && Sound(u) && Items(u) == Items(Lower(s, n)) && Bounded(u, {n}) && n in u.leaf
      && u.leaf[n].at == Sub(s.leaf[n].at, s.leaf[n].path) && u.leaf[n].typ == 1
      && u.leaf[n].items == s.leaf[n].items && u.owner == s.owner
  {
    SameBounds(s, Lower(s, n), n);
    ShrunkKeeps(Lower(s, n), n, high);
  }

  lemma PushedApartKeeps(s: State, n: Leaf, low: Leaf, lcnt: nat, owner: seq<Leaf>)
    requires Placed(s, n) && Sound(Lower(s, n)) && Bounded(s, {n}) && |s.leaf[n].items| == SPLITBOUND && low !in s.leaf
    requires 0 < lcnt < SPLITBOUND && Partition(Lower(s, n).leaf[n], lcnt)
    requires Repointed(s.owner, owner, Ids(s.leaf[n].items[..lcnt]), low)
    ensures var u := Split(Lower(s, n), n, low, n, lcnt, owner);
      Sound(u) && Items(u) == Items(Lower(s, n)) && Bounded(u, {})
  {
    assert Wf(Lower(s, n));
    var l := Lower(s, n);
    SplitKeeps(l, n, low, n, lcnt, owner);
    SameBounds(s, l, n);
    SplitBounds(l, n, low, n, lcnt, owner);
  }
}
