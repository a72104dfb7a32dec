/** How a bucket lies in memory: `first` numbers, ids, then the residues or pointers to them, with no length stored. */
module Layout {
  import opened Bytes
  import opened Config
  import opened Entries
  import opened Shape
  import opened Heap
  import opened Merging
  import opened Memory

  /** What stands in `data` for one residue. */
  datatype Cell = Inline(bytes: seq<byte>) | Block(ptr: Pointer)

  function CellBytes(c: Cell): seq<byte> {
    match c
    case Inline(bytes) => bytes
    case Block(ptr) => ptr
  }

  function Image(cells: seq<Cell>): seq<byte> {
    if cells == [] then [] else Image(cells[..|cells|-1]) + CellBytes(cells[|cells|-1])
  }

  /** A short residue is stored in place, a long one as a pointer to a block that starts with it. */
  ghost predicate Keeps(blocks: Storage, c: Cell, residue: Path) {
    match c
    case Inline(bytes) => bytes == residue && |residue| < HEAPBOUND
    case Block(ptr) => ptr in blocks && residue <= blocks[ptr] && |residue| >= HEAPBOUND
  }

  function Pointers(cells: seq<Cell>): set<Pointer> {
    set c | c in cells && c.Block? :: c.ptr
  }

  ghost predicate NoSharing(cells: seq<Cell>) {
    forall i, j | 0 <= i < j < |cells| && cells[i].Block? && cells[j].Block? :: cells[i].ptr != cells[j].ptr
  }

  ghost predicate Stores(blocks: Storage, cells: seq<Cell>, es: seq<Entry>) {
    && |cells| == |es| && NoSharing(cells)
    && forall i | 0 <= i < |es| :: Keeps(blocks, cells[i], es[i].residue)
  }

  /** The flat bucket f holds the entries es, with no block shared. */
  ghost predicate Lays(f: Flat, es: seq<Entry>, cells: seq<Cell>, blocks: Storage) {
    && |f.firsts| == |es| && (forall i | 0 <= i < |es| :: f.firsts[i] == es[i].First())
    && Stores(blocks, cells, es)
    && f.data == Image(cells) && f.totsize == |f.data|
  }

  /** The same as Lays, put so that the verifier looks inside only where Lays is mentioned. */
  ghost predicate Laid(f: Flat, es: seq<Entry>, cells: seq<Cell>, blocks: Storage) {
    forall g {:trigger Lays(g, es, cells, blocks)} | g == f :: Lays(g, es, cells, blocks)
  }

  lemma LaidSizes(f: Flat, es: seq<Entry>, cells: seq<Cell>, blocks: Storage)
    requires Laid(f, es, cells, blocks)
    ensures |f.firsts| == |es| == |cells| && f.totsize == |f.data|
  {
    assert Lays(f, es, cells, blocks);
  }

  lemma LaidEmpty(blocks: Storage)
    ensures Laid(EMPTY_BUCKET, [], [], blocks)
  {
  }

  lemma LaidFirst(f: Flat, es: seq<Entry>, cells: seq<Cell>, blocks: Storage, i: nat)
    requires Laid(f, es, cells, blocks) && i < |es|
    ensures |f.firsts| == |es| && f.firsts[i] == es[i].First()
  {
    assert Lays(f, es, cells, blocks);
  }

  // ------------------------------------------------------------ lengths and offsets

  /** The residue length of an entry below d path bytes, for a bucket on the path of a key of `size` bytes. */
  function LengthAt(e: Entry, d: nat, size: nat): int {
    if d == 0 then e.First()
    else if d == 1 then (size / 256) * 256 + e.hi - 1
    else if size > d then size - d else 0
  }

  ghost predicate Lengths(es: seq<Entry>, d: nat, size: nat) {
    size <= 0xFFFF && forall i | 0 <= i < |es| :: |es[i].residue| == LengthAt(es[i], d, size)
  }

  /** In a bucket of the trie the path and `first` determine every length. */
  lemma LengthsOfLeaf(r: LeafRec, size: nat)
    requires ItemsFit(r) && SpellsLength(r.at, size) && size <= 0xFFFF
    ensures Lengths(Bucket(r), |r.at|, size)
  {
    forall i | 0 <= i < |r.items| ensures |Bucket(r)[i].residue| == LengthAt(Bucket(r)[i], |r.at|, size) {
      assert Fits(r.items[i].key, r);
      if |r.at| == 1 { SizesAtOne(r, size, i); }
      if |r.at| >= 2 { SizesBelow(r, size, i); }
    }
  }

  /** Sum of the stored sizes of the first n entries. */
  function Offset(es: seq<Entry>, n: nat): nat
    requires n <= |es| && Short(es)
  {
    if n == 0 then 0 else Offset(es, n - 1) + MemSize(|es[n-1].residue|)
  }

  ghost predicate Short(es: seq<Entry>) {
    forall i | 0 <= i < |es| :: |es[i].residue| <= 0xFFFF
  }

  lemma CellSize(blocks: Storage, c: Cell, residue: Path)
    requires Keeps(blocks, c, residue) && |residue| <= 0xFFFF
    ensures |CellBytes(c)| == MemSize(|residue|)
  {
  }

  /** The image of a prefix of the cells is the data up to their offset. */
  lemma {:induction false} PrefixSize(blocks: Storage, cells: seq<Cell>, es: seq<Entry>, n: nat)
    requires Stores(blocks, cells, es) && Short(es) && n <= |es|
    ensures |Image(cells[..n])| == Offset(es, n)
  {
    if n > 0 {
      assert cells[..n][..n-1] == cells[..n-1];
      PrefixSize(blocks, cells, es, n - 1);
      CellSize(blocks, cells[n-1], es[n-1].residue);
    }
  }

  lemma {:induction false} ImageConcat(a: seq<Cell>, b: seq<Cell>)
    ensures Image(a + b) == Image(a) + Image(b)
    decreases |b|
  {
    if b == [] {
      assert a + b == a;
    } else {
      assert (a + b)[..|a + b|-1] == a + b[..|b|-1];
      ImageConcat(a, b[..|b|-1]);
    }
  }

  /** Cutting the data at an offset cuts the cells there. */
  lemma CutData(blocks: Storage, cells: seq<Cell>, es: seq<Entry>, n: nat)
    requires Stores(blocks, cells, es) && Short(es) && n <= |es|
    ensures Offset(es, n) <= |Image(cells)|
    ensures Image(cells)[..Offset(es, n)] == Image(cells[..n]) && Image(cells)[Offset(es, n)..] == Image(cells[n..])
  {
    PrefixSize(blocks, cells, es, n);
    assert cells == cells[..n] + cells[n..];
    ImageConcat(cells[..n], cells[n..]);
  }

  /** Entry i's bytes lie at its offset. */
  lemma CellAt(blocks: Storage, cells: seq<Cell>, es: seq<Entry>, i: nat)
    requires Stores(blocks, cells, es) && Short(es) && i < |es|
    ensures Offset(es, i) + (if |es[i].residue| < HEAPBOUND then |es[i].residue| else 8) == Offset(es, i + 1)
    ensures Offset(es, i + 1) <= |Image(cells)|
    ensures Image(cells)[Offset(es, i)..Offset(es, i + 1)] == CellBytes(cells[i])
    ensures |es[i].residue| < HEAPBOUND ==> CellBytes(cells[i]) == es[i].residue
    ensures |es[i].residue| >= HEAPBOUND ==>
      CellBytes(cells[i]) in blocks && es[i].residue <= blocks[CellBytes(cells[i])]
  {
    CutData(blocks, cells, es, i);
    CutData(blocks, cells, es, i + 1);
    assert cells[..i+1][..i] == cells[..i];
    assert Image(cells[..i+1]) == Image(cells[..i]) + CellBytes(cells[i]);
  }

  lemma {:induction false} OffsetMonotone(es: seq<Entry>, m: nat, n: nat)
    requires Short(es) && m <= n <= |es|
    ensures Offset(es, m) <= Offset(es, n)
  {
    if m < n { OffsetMonotone(es, m, n - 1); }
  }

  /** Every entry takes fewer than HEAPBOUND bytes, so the offsets of a bucket fit 16 bits. */
  lemma {:induction false} OffsetBound(es: seq<Entry>, n: nat)
    requires Short(es) && n <= |es|
    ensures Offset(es, n) <= n * (HEAPBOUND - 1)
  {
    if n > 0 {
      OffsetBound(es, n - 1);
      assert n * (HEAPBOUND - 1) == (n - 1) * (HEAPBOUND - 1) + (HEAPBOUND - 1);
    }
  }

  lemma OffsetFits(es: seq<Entry>, n: nat)
    requires Short(es) && n <= |es| <= SPLITBOUND
    ensures Offset(es, n) < 0xFFFF
  {
    OffsetBound(es, n);
    BoundsFit();
    ProductMonotone(n, SPLITBOUND, HEAPBOUND - 1);
    ProductMonotone(HEAPBOUND - 1, HEAPBOUND, SPLITBOUND);
  }

  lemma {:induction false} SameLengthOffset(es: seq<Entry>, n: nat, size: u16)
    requires Short(es) && n <= |es| && forall i | 0 <= i < |es| :: |es[i].residue| == size
    ensures Offset(es, n) == MemSize(size) * n
  {
    if n > 0 { SameLengthOffset(es, n - 1, size); }
  }
}
