/** Searching the sorted bucket of a leaf. */
module Search {
  import opened Bytes
  import opened Blocks
  import opened Config
  import opened Entries
  import opened Nodes
  import opened Shape
  import opened ShapeOps
  import opened Heap

  /** Byte d of the key as a traversal reads it: two length bytes, then the data. */
  function KeyByte(target: Key, d: nat): byte
    requires d <= |target| + 1
  {
    if d >= 2 then target[d - 2] else if d == 0 then |target| / 256 else |target| % 256
  }

  lemma KeyByteIsEnc(target: Key, d: nat)
    requires d <= |target| + 1
    ensures KeyByte(target, d) == Enc(target)[d]
  {
  }

  /** Compares two residues of one length byte by byte: negative, zero or positive. */
  method CompareResidue(target: Path, stored: Path) returns (c: int)
    requires |target| == |stored|
    ensures c == 0 <==> target == stored
    ensures c < 0 <==> Less(target, stored)
  {
    var b := 0;
    while b < |target| && target[b] == stored[b]
      invariant b <= |target| && target[..b] == stored[..b]
    {
      b := b + 1;
    }
    if b == |target| {
      assert target[..b] == target && stored[..b] == stored;
      LessIrreflexive(target);
      return 0;
    }
    LessAt(target, stored, b);
    return (target[b] as int) - stored[b];
  }

  /** Below one path, equal `first` means equal length. */
  lemma SameResidueLength(a: Key, b: Key, d: nat)
    requires d <= |a| + 1 && d <= |b| + 1 && Enc(a)[..d] == Enc(b)[..d]
    requires EntryOf(a, d).First() == EntryOf(b, d).First()
    ensures |a| == |b| && |EntryOf(a, d).residue| == |EntryOf(b, d).residue|
  {
    FirstSplits(EntryOf(a, d), EntryOf(b, d));
    if d >= 1 { assert Enc(a)[0] == Enc(a)[..d][0] == Enc(b)[..d][0] == Enc(b)[0]; }
    if d >= 2 { assert Enc(a)[1] == Enc(a)[..d][1] == Enc(b)[..d][1] == Enc(b)[1]; }
    SameLength(a, b);
  }

  ghost predicate Absent(items: seq<Item>, k: Key) {
    forall x | x in items :: x.key != k
  }

  lemma FoundIsPresent(items: seq<Item>, k: Key, b: nat)
    ensures b < |items| && items[b].key == k ==> !Absent(items, k)
  {
    if b < |items| { assert items[b] in items; }
  }

  /** Keys before position b precede k, the key at b follows it: k belongs there and is not stored. */
  lemma Position(items: seq<Item>, k: Key, b: nat)
    requires Sorted(items) && AllBefore(items, k, b)
    requires b < |items| ==> Less(Enc(k), Enc(items[b].key))
    ensures GoesAt(items, k, b)
    ensures Absent(items, k)
  {
    forall j | b <= j < |items| ensures Less(Enc(k), Enc(items[j].key)) {
      if j > b { LessTransitive(Enc(k), Enc(items[b].key), Enc(items[j].key)); }
    }
    LessIrreflexive(Enc(k));
  }

  lemma BucketOrder(r: LeafRec, target: Key, j: nat)
    requires ItemsFit(r) && |r.at| <= |target| + 1 && Enc(target)[..|r.at|] == r.at && j < |r.items|
    ensures var e := EntryOf(target, |r.at|);
      && (EntryLess(Bucket(r)[j], e) <==> Less(Enc(r.items[j].key), Enc(target)))
      && (EntryLess(e, Bucket(r)[j]) <==> Less(Enc(target), Enc(r.items[j].key)))
      && (Bucket(r)[j] == e <==> r.items[j].key == target)
      && (Bucket(r)[j].First() == e.First() ==> |Bucket(r)[j].residue| == |e.residue|)
  {
    var k := r.items[j].key;
    assert r.items[j] in r.items;
    EntryOrder(k, target, |r.at|);
    EntryOrder(target, k, |r.at|);
    if Bucket(r)[j].First() == EntryOf(target, |r.at|).First() { SameResidueLength(k, target, |r.at|); }
  }

  /** Leaf r may be searched for target. Put so that the verifier opens it only where ItemsFit(r) is mentioned. */
  ghost predicate Searchable(r: LeafRec, target: Key) {
    && |r.at| <= |target| + 1 && Enc(target)[..|r.at|] == r.at
    && forall q {:trigger ItemsFit(q)} | q == r :: ItemsFit(q)
  }

  /** Every key before position b precedes k. */
  ghost predicate AllBefore(items: seq<Item>, k: Key, b: nat) {
    b <= |items| && forall j | 0 <= j < b :: Less(Enc(items[j].key), Enc(k))
  }

  lemma SmallerFirst(r: LeafRec, target: Key, b: nat)
    requires Searchable(r, target) && AllBefore(r.items, target, b) && b < |r.items|
    requires Bucket(r)[b].First() < EntryOf(target, |r.at|).First()
    ensures AllBefore(r.items, target, b + 1)
  {
    assert ItemsFit(r);
    BucketOrder(r, target, b);
  }

  lemma PastEqual(r: LeafRec, target: Key, e: Entry, b: nat)
    requires Searchable(r, target) && AllBefore(r.items, target, b) && b < |r.items| && AtLeast(Bucket(r)[b], e)
    requires Less(Enc(r.items[b].key), Enc(target))
    ensures AllBefore(r.items, target, b + 1)
    ensures b + 1 < |r.items| ==> AtLeast(Bucket(r)[b+1], e)
  {
    assert ItemsFit(r);
    if b + 1 < |r.items| { FirstsSorted(r, b, e); }
  }

  lemma MissingAt(r: LeafRec, target: Key, b: nat)
    requires Searchable(r, target) && AllBefore(r.items, target, b) && b < |r.items|
    requires Less(Enc(target), Enc(r.items[b].key))
    ensures GoesAt(r.items, target, b) && Absent(r.items, target)
  {
    assert ItemsFit(r);
    Position(r.items, target, b);
  }

  lemma EndOfScan(r: LeafRec, target: Key, e: Entry, b: nat)
    requires Searchable(r, target) && AllBefore(r.items, target, b) && e == EntryOf(target, |r.at|)
    requires b < |r.items| ==> Bucket(r)[b].First() > e.First()
    ensures GoesAt(r.items, target, b) && Absent(r.items, target)
  {
    assert ItemsFit(r);
    if b < |r.items| { BucketOrder(r, target, b); }
    Position(r.items, target, b);
  }

  /** With equal `first`, comparing residues compares keys. */
  lemma ResidueDecides(r: LeafRec, target: Key, b: nat)
    requires ItemsFit(r) && |r.at| <= |target| + 1 && Enc(target)[..|r.at|] == r.at && b < |r.items|
    requires Bucket(r)[b].First() == EntryOf(target, |r.at|).First()
    ensures |EntryOf(target, |r.at|).residue| == |Bucket(r)[b].residue|
    ensures EntryOf(target, |r.at|).residue == Bucket(r)[b].residue <==> r.items[b].key == target
    ensures Less(EntryOf(target, |r.at|).residue, Bucket(r)[b].residue) <==> Less(Enc(target), Enc(r.items[b].key))
    ensures r.items[b].key == target || Less(Enc(target), Enc(r.items[b].key)) || Less(Enc(r.items[b].key), Enc(target))
  {
    BucketOrder(r, target, b);
    FirstSplits(Bucket(r)[b], EntryOf(target, |r.at|));
    LessTotal(Enc(target), Enc(r.items[b].key));
    EncInjective(target, r.items[b].key);
  }

  predicate AtLeast(a: Entry, e: Entry) {
    a.First() >= e.First()
  }

  /** `first` does not decrease along a bucket. */
  lemma FirstsSorted(r: LeafRec, b: nat, e: Entry)
    requires ItemsFit(r) && b + 1 < |r.items| && AtLeast(Bucket(r)[b], e)
    ensures AtLeast(Bucket(r)[b+1], e)
  {
    assert r.items[b] in r.items && r.items[b+1] in r.items;
    BucketOrder(r, r.items[b+1].key, b);
  }

  // ------------------------------------------------------------ where a traversal ends

  /** The slot at which following k's encoding stops. */
  ghost predicate EndsAt(s: State, k: Key, d: nat) {
    && d <= |k| + 1 && Enc(k)[..d] in s.slots && |s.slots[Enc(k)[..d]]| == 256
    && s.slots[Enc(k)[..d]][Enc(k)[d]] != Down
  }

  ghost predicate HasKey(s: State, k: Key) {
    exists x :: x in Items(s) && x.key == k
  }

  /** The stored keys. */
  ghost function Contents(s: State): set<Key> {
    set x | x in Items(s) :: x.key
  }

  /** A slot that is Down leads one byte further along the key, and the key is long enough. */
  lemma StepDown(s: State, k: Key, d: nat)
    requires Sound(s) && d <= |k| + 1 && Enc(k)[..d] in s.slots
    ensures |s.slots[Enc(k)[..d]]| == 256
    ensures s.slots[Enc(k)[..d]][Enc(k)[d]] == Down ==>
      d + 1 <= |k| + 1 && Sub(Enc(k)[..d], Enc(k)[d]) == Enc(k)[..d+1] && Enc(k)[..d+1] in s.slots
  {
    assert Wf(s);
    var p, q := Enc(k)[..d], Enc(k)[..d+1];
    assert Sub(p, Enc(k)[d]) == q;
    if s.slots[p][Enc(k)[d]] == Down {
      assert q in s.slots && DepthOk(q);
      if d >= 1 { assert (q[0] as int) * 256 + q[1] == |k|; }
    }
  }

  /** If the traversal stops at an empty slot, the key is not stored. */
  lemma EmptySlotMeansAbsent(s: State, k: Key, d: nat)
    requires Sound(s) && EndsAt(s, k, d) && s.slots[Enc(k)[..d]][Enc(k)[d]] == Self
    ensures !HasKey(s, k)
  {
    assert Wf(s);
    forall n, x | n in s.leaf && x in s.leaf[n].items
      ensures x.key != k
    {
      if x.key == k { Located(s, k, d, n, x); }
    }
  }

  /** If it stops at leaf n, the key fits n and is stored exactly when n has it. */
  lemma LeafDecides(s: State, k: Key, d: nat, n: Leaf)
    requires Sound(s) && EndsAt(s, k, d) && s.slots[Enc(k)[..d]][Enc(k)[d]] == Hold(n)
    ensures n in s.leaf && s.leaf[n].at == Enc(k)[..d] && Fits(k, s.leaf[n]) && ItemsFit(s.leaf[n])
    ensures HasKey(s, k) <==> !Absent(s.leaf[n].items, k)
  {
    assert Wf(s);
    assert RowAt(s, Enc(k)[..d], Enc(k)[d]) == Hold(n);
    assert HeldBy(s, n, Enc(k)[..d], Enc(k)[d]);
    forall m, x | m in s.leaf && x in s.leaf[m].items && x.key == k
      ensures m == n
    {
      Located(s, k, d, m, x);
    }
    if x :| x in s.leaf[n].items && x.key == k { assert x in Items(s); }
  }

  lemma StoredAt(s: State, n: Leaf, b: nat)
    requires n in s.leaf && b < |s.leaf[n].items|
    ensures Item(s.leaf[n].items[b].key, IdSeq(s.leaf[n].items)[b]) in Items(s)
  {
    assert s.leaf[n].items[b] in s.leaf[n].items;
  }

  lemma BucketInsert(r: LeafRec, b: nat, x: Item)
    requires b <= |r.items|
    ensures Bucket(r.(items := InsertAt(r.items, b, x))) == InsertAt(Bucket(r), b, EntryOf(x.key, |r.at|))
    ensures IdSeq(InsertAt(r.items, b, x)) == InsertAt(IdSeq(r.items), b, x.id)
  {
  }

  lemma ClaimDone(s: State, n: Leaf, p: Path, from: byte, t: nat)
    requires Sound(s) && Bounded(s, {}) && n !in s.leaf && p in s.slots && |s.slots[p]| == 256 && Aligned(from, t)
    requires Free(s, p, from, from + Width(t))
    ensures Sound(Claim(s, n, p, from, t)) && Bounded(Claim(s, n, p, from, t), {n})
    ensures Items(Claim(s, n, p, from, t)) == Items(s)
  {
    assert Wf(s);
    ClaimKeeps(s, n, p, from, t);
  }

  /** After an insertion the leaf is full, or every leaf is within its bounds. */
  lemma InsertDone(s: State, n: Leaf, b: nat, k: Key)
    requires Sound(s) && n in s.leaf && |s.leaf[n].items| < SPLITBOUND && Bounded(s, {n})
    requires Fits(k, s.leaf[n]) && GoesAt(s.leaf[n].items, k, b)
    ensures var u := InsertItem(s, n, b, k);
      && Sound(u) && Bounded(u, {n}) && n in u.leaf && |u.leaf[n].items| == |s.leaf[n].items| + 1
      && u.leaf[n].at == s.leaf[n].at && Item(k, |s.owner|) in u.leaf[n].items
      && Items(u) == Items(s) + {Item(k, |s.owner|)} && |u.owner| == |s.owner| + 1
      && (|u.leaf[n].items| < SPLITBOUND ==> Bounded(u, {}))
  {
    assert Wf(s);
    InsertKeeps(s, n, b, k);
  }
}
