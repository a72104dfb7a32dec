/** Splitting, pushing down, merging and lifting on the bytes of a bucket. */
module FlatMoves {
  import opened Bytes
  import opened Blocks
  import opened Config
  import opened Entries
  import opened Shape
  import opened Heap
  import opened Splitting
  import opened Merging
  import opened Memory
  import opened Layout
  import opened Recovery
  import opened FlatBucket

  // ------------------------------------------------------------ part of a bucket

  lemma SliceStores(blocks: Storage, cells: seq<Cell>, es: seq<Entry>, from: nat, to: nat)
    requires Stores(blocks, cells, es) && from <= to <= |es|
    ensures Stores(blocks, cells[from..to], es[from..to])
  {
    forall i | 0 <= i < to - from ensures Keeps(blocks, cells[from..to][i], es[from..to][i].residue) {
      assert Keeps(blocks, cells[from + i], es[from + i].residue);
    }
  }

  lemma LaidParts(f: Flat, es: seq<Entry>, cells: seq<Cell>, blocks: Storage)
    requires Laid(f, es, cells, blocks)
    ensures |f.firsts| == |es| == |cells| && f.data == Image(cells) && f.totsize == |f.data|
    ensures Stores(blocks, cells, es)
    ensures forall i {:trigger f.firsts[i]} | 0 <= i < |es| :: f.firsts[i] == es[i].First()
  {
    assert Lays(f, es, cells, blocks);
  }

  lemma CutLaid(f: Flat, lo: Flat, hi: Flat, es: seq<Entry>, cells: seq<Cell>, blocks: Storage, n: nat)
    requires Laid(f, es, cells, blocks) && Short(es) && n <= |es| == |f.firsts| && Offset(es, n) <= |f.data|
    requires lo.firsts == f.firsts[..n] && lo.data == f.data[..Offset(es, n)] && lo.totsize == |lo.data|
    requires hi.firsts == f.firsts[n..] && hi.data == f.data[Offset(es, n)..] && hi.totsize == |hi.data|
    ensures |cells| == |es| && Laid(lo, es[..n], cells[..n], blocks) && Laid(hi, es[n..], cells[n..], blocks)
  {
    hide Stores, Image, Offset;
    LaidParts(f, es, cells, blocks);
    CutData(blocks, cells, es, n);
    SliceStores(blocks, cells, es, 0, n);
    SliceStores(blocks, cells, es, n, |es|);
    assert cells[0..n] == cells[..n] && es[0..n] == es[..n];
    assert cells[n..|es|] == cells[n..] && es[n..|es|] == es[n..];
  }

  /** A cut shares the blocks out. */
  lemma CutPointers(cells: seq<Cell>, n: nat)
    requires NoSharing(cells) && n <= |cells|
    ensures Pointers(cells[..n]) !! Pointers(cells[n..])
    ensures Pointers(cells) == Pointers(cells[..n]) + Pointers(cells[n..])
  {
    forall p | p in Pointers(cells[..n]) ensures p !in Pointers(cells[n..]) {
      var i :| 0 <= i < n && cells[i] == Block(p);
      forall j | n <= j < |cells| ensures cells[j] != Block(p) { assert i < j; }
    }
    assert cells == cells[..n] + cells[n..];
  }

  /** The ids of the entries before and from position n; none where no entries are kept. */
  function IdsTo(ids: seq<nat>, n: nat): seq<nat> {
    if n <= |ids| then ids[..n] else []
  }

  function IdsFrom(ids: seq<nat>, n: nat): seq<nat> {
    if n <= |ids| then ids[n..] else []
  }

  // ------------------------------------------------------------ split_node

  lemma HalveStep(f: Flat, es: seq<Entry>, cells: seq<Cell>, blocks: Storage, i: nat, bsize: int, d: nat, size: nat)
    requires Laid(f, es, cells, blocks) && i < |es|
    requires Lengths(es, d, size) && Short(es) && 1 <= size && d <= size + 1 && bsize == size - d
    ensures |f.firsts| == |es| && HighByte(f.firsts[i]) == es[i].hi
    ensures Offset(es, i) + MemSize(HalveLength(f.firsts[i], bsize, d)) == Offset(es, i + 1)
  {
    LaidFirst(f, es, cells, blocks, i);
    LengthsAgree(es[i], d, size);
    FirstBytes(es[i]);
  }

  /** Cuts the bucket where the tested bit of the first byte becomes one. */
  method HalveBytes(f: Flat, typ: nat, bsize: int, d: nat, ghost es: seq<Entry>, ghost cells: seq<Cell>,
                    ghost blocks: Storage, ghost size: nat)
    returns (lcnt: nat, lo: Flat, hi: Flat)
    requires typ < 8 && Laid(f, es, cells, blocks) && (f.ids == [] || |f.ids| == |es|)
    requires Lengths(es, d, size) && 1 <= size && d <= size + 1 && bsize == size - d
    requires Monotone(His(es), Mask(typ))
    ensures lcnt <= |es| == |cells| && forall j | 0 <= j < |es| :: TestBit(es[j].hi, Mask(typ)) <==> lcnt <= j
    ensures Laid(lo, es[..lcnt], cells[..lcnt], blocks) && Laid(hi, es[lcnt..], cells[lcnt..], blocks)
    ensures lo.ids == IdsTo(f.ids, lcnt) && hi.ids == IdsFrom(f.ids, lcnt)
  {
    hide TestBit;
    LengthsAreShort(es, d, size);
    LaidSizes(f, es, cells, blocks);
    lcnt := 0;
    var lsize := 0;
    while lcnt < |f.firsts| && !TestBit(HighByte(f.firsts[lcnt]), Mask(typ))
      invariant lcnt <= |es| && lsize == Offset(es, lcnt)
      invariant forall j | 0 <= j < lcnt :: !TestBit(es[j].hi, Mask(typ))
    {
      HalveStep(f, es, cells, blocks, lcnt, bsize, d, size);
      lsize := lsize + MemSize(HalveLength(f.firsts[lcnt], bsize, d));
      lcnt := lcnt + 1;
    }
    if lcnt < |es| { HalveStep(f, es, cells, blocks, lcnt, bsize, d, size); }
    assert forall j | 0 <= j < |es| :: His(es)[j] == es[j].hi;
    OffsetWithin(f, es, cells, blocks, lcnt);
    lo := Flat(f.firsts[..lcnt], IdsTo(f.ids, lcnt), f.data[..lsize], lsize);
    hi := Flat(f.firsts[lcnt..], IdsFrom(f.ids, lcnt), f.data[lsize..], f.totsize - lsize);
    CutLaid(f, lo, hi, es, cells, blocks, lcnt);
  }

  // ------------------------------------------------------------ merge_nodes

  lemma JoinStores(blocks: Storage, a: seq<Cell>, b: seq<Cell>, es: seq<Entry>, fs: seq<Entry>)
    requires Stores(blocks, a, es) && Stores(blocks, b, fs) && Pointers(a) !! Pointers(b)
    ensures Stores(blocks, a + b, es + fs)
  {
    var c := a + b;
    forall i | 0 <= i < |c| ensures Keeps(blocks, c[i], (es + fs)[i].residue) {
      if i < |a| {
        assert Keeps(blocks, a[i], es[i].residue);
      } else {
        assert Keeps(blocks, b[i-|a|], fs[i-|a|].residue);
      }
    }
    forall i, j | 0 <= i < j < |c| && c[i].Block? && c[j].Block? ensures c[i].ptr != c[j].ptr {
      if j < |a| {
        assert a[i].ptr != a[j].ptr;
      } else if i >= |a| {
        assert b[i-|a|].ptr != b[j-|a|].ptr;
      } else {
        assert a[i].ptr in Pointers(a) && b[j-|a|].ptr in Pointers(b);
      }
    }
  }

  /** Two buckets of one depth are put one behind the other. */
  method MergeBytes(first: Flat, second: Flat, ghost es: seq<Entry>, ghost fs: seq<Entry>, ghost a: seq<Cell>,
                    ghost b: seq<Cell>, ghost blocks: Storage)
    returns (g: Flat)
    requires Laid(first, es, a, blocks) && Laid(second, fs, b, blocks) && Pointers(a) !! Pointers(b)
    ensures Laid(g, es + fs, a + b, blocks) && g.ids == first.ids + second.ids
  {
    g := Flat(first.firsts + second.firsts, first.ids + second.ids, first.data + second.data,
      first.totsize + second.totsize);
    MergeLaid(first, second, g, es, fs, a, b, blocks);
  }

  lemma MergeLaid(first: Flat, second: Flat, g: Flat, es: seq<Entry>, fs: seq<Entry>, a: seq<Cell>, b: seq<Cell>,
                  blocks: Storage)
    requires Laid(first, es, a, blocks) && Laid(second, fs, b, blocks) && Pointers(a) !! Pointers(b)
    requires g.firsts == first.firsts + second.firsts && g.data == first.data + second.data
    requires g.totsize == first.totsize + second.totsize
    ensures Laid(g, es + fs, a + b, blocks)
  {
    hide Stores, Image;
    LaidParts(first, es, a, blocks);
    LaidParts(second, fs, b, blocks);
    JoinStores(blocks, a, b, es, fs);
    ImageConcat(a, b);
  }

  // ------------------------------------------------------------ rewriting a bucket cell by cell

  /** Cells xs of a bucket under conversion: `cells` at the start, some already replaced; the heap has changed
      accordingly. */
  ghost predicate Converting(start: Storage, now: Storage, cells: seq<Cell>, x: seq<Cell>, xs: seq<Entry>) {
    Stores(now, x, xs) && Exchanged(start, now, Pointers(cells), Pointers(x))
  }

  lemma ConvertStart(blocks: Storage, cells: seq<Cell>, es: seq<Entry>)
    requires Stores(blocks, cells, es)
    ensures Converting(blocks, blocks, cells, cells, es)
  {
    forall p | p in Pointers(cells) ensures p in blocks {
      var i :| 0 <= i < |cells| && cells[i] == Block(p);
      assert Keeps(blocks, cells[i], es[i].residue);
    }
  }

  /** Cell i is replaced: a new block may have been allocated, and then its old block, if any, freed. */
  ghost predicate Replaced(now: Storage, next: Storage, old_: Cell, c: Cell) {
    && (c.Block? ==> c.ptr !in now)
    && next.Keys == now.Keys + Pointers([c]) - Pointers([old_])
    && forall p | p in now && p in next :: next[p] == now[p]
  }

  lemma ReplaceCell(start: Storage, now: Storage, next: Storage, cells: seq<Cell>, x: seq<Cell>, xs: seq<Entry>,
                    i: nat, c: Cell, e: Entry)
    requires Converting(start, now, cells, x, xs) && i < |xs|
    requires i < |x| && Replaced(now, next, x[i], c) && Keeps(next, c, e.residue)
    ensures Converting(start, next, cells, x[i := c], xs[i := e])
  {
    ReplaceStores(now, next, x, xs, i, c, e);
    ReplacePointers(now, x, xs, i, c);
    forall p | p in start && p !in Pointers(cells) ensures p in next && next[p] == start[p] {
      assert p in now && now[p] == start[p] && p !in Pointers(x);
      assert x[i].Block? ==> x[i].ptr in Pointers(x);
    }
  }

  lemma ReplaceStores(now: Storage, next: Storage, x: seq<Cell>, xs: seq<Entry>, i: nat, c: Cell, e: Entry)
    requires Stores(now, x, xs) && i < |xs| && Replaced(now, next, x[i], c) && Keeps(next, c, e.residue)
    ensures Stores(next, x[i := c], xs[i := e])
  {
    var y, ys := x[i := c], xs[i := e];
    forall j | 0 <= j < |ys| ensures Keeps(next, y[j], ys[j].residue) {
      if j != i {
        assert Keeps(now, x[j], xs[j].residue);
        if x[j].Block? { assert j < i ==> x[j] != x[i]; assert i < j ==> x[i] != x[j]; }
      }
    }
    forall j, k | 0 <= j < k < |y| && y[j].Block? && y[k].Block? ensures y[j].ptr != y[k].ptr {
      if j != i { assert Keeps(now, x[j], xs[j].residue); }
      if k != i { assert Keeps(now, x[k], xs[k].residue); }
    }
  }

  lemma ReplacePointers(now: Storage, x: seq<Cell>, xs: seq<Entry>, i: nat, c: Cell)
    requires Stores(now, x, xs) && i < |xs| && (c.Block? ==> c.ptr !in now)
    ensures Pointers(x[i := c]) == Pointers(x) - Pointers([x[i]]) + Pointers([c])
    ensures Pointers([x[i]]) <= Pointers(x) && (c.Block? ==> c.ptr !in Pointers(x))
  {
    var y := x[i := c];
    forall p | p in Pointers(x) ensures p in now {
      var j :| 0 <= j < |x| && x[j] == Block(p);
      assert Keeps(now, x[j], xs[j].residue);
    }
    forall p | p in Pointers(y) ensures p in Pointers(x) - Pointers([x[i]]) + Pointers([c]) {
      var j :| 0 <= j < |y| && y[j] == Block(p);
      if j != i {
        assert x[j] in x;
        if x[i].Block? { assert j < i ==> x[j].ptr != x[i].ptr; assert i < j ==> x[i].ptr != x[j].ptr; }
      }
    }
    forall p | p in Pointers(x) - Pointers([x[i]]) + Pointers([c]) ensures p in Pointers(y) {
      if p in Pointers([c]) {
        assert y[i] == Block(p);
      } else {
        var j :| 0 <= j < |x| && x[j] == Block(p);
        assert j != i ==> y[j] == Block(p);
        assert x[i] in [x[i]];
      }
    }
  }

  /** Copies src into the buffer. */
  method Write(dest: array<byte>, at: nat, src: seq<byte>)
    requires at + |src| <= dest.Length
    modifies dest
    ensures dest[..at + |src|] == old(dest[..at]) + src
  {
    for i := 0 to |src|
      invariant dest[..at] == old(dest[..at]) && dest[at..at + i] == src[..i]
    {
      dest[at + i] := src[i];
    }
    assert dest[..at + |src|] == dest[..at] + dest[at..at + |src|];
  }

  // ------------------------------------------------------------ split_fwd

  /** Either no residue is empty or all are. */
  ghost predicate Even(es: seq<Entry>, none: bool) {
    forall i | 0 <= i < |es| :: (|es[i].residue| == 0) == none
  }

  /** A leaf on a single slot is even: its keys have one length, or lie at the root and are not empty. */
  lemma SingleSlotIsEven(r: LeafRec, size: nat) returns (none: bool)
    requires ItemsFit(r) && r.typ == 8 && SpellsLength(r.at, size) && |r.items| > 0
    requires forall x | x in r.items :: |r.at| <= |x.key|
    ensures Even(Bucket(r), none)
  {
    var es, d := Bucket(r), |r.at|;
    none := |r.items[0].key| == d;
    forall i | 0 <= i < |es| ensures (|es[i].residue| == 0) == none {
      var k, first := r.items[i].key, r.items[0].key;
      assert Fits(k, r) && Fits(first, r);
      if d == 1 {
        SizesAtOne(r, size, i);
        SizesAtOne(r, size, 0);
      }
      if d >= 2 {
        SizesBelow(r, size, i);
        SizesBelow(r, size, 0);
      }
    }
  }

  /** What split_fwd adds up for one entry: on the high side an empty residue counts as minus one. */
  function LowShare(len: u16): nat {
    if len < HEAPBOUND + 1 then if len > 1 then len - 1 else 0 else MemSize(len)
  }

  function HighShare(len: u16): int {
    if len < HEAPBOUND + 1 then len - 1 else MemSize(len)
  }

  lemma CutIsShort(es: seq<Entry>)
    requires Short(es)
    ensures Short(CutAll(es)) && |CutAll(es)| == |es|
  {
    forall i | 0 <= i < |es| ensures |CutAll(es)[i].residue| <= 0xFFFF {
      CutShare(es[i]);
    }
  }

  lemma CutShare(e: Entry)
    requires |e.residue| <= 0xFFFF
    ensures |Cut(e).residue| == if |e.residue| == 0 then 0 else |e.residue| - 1
    ensures LowShare(|e.residue|) == MemSize(|Cut(e).residue|)
    ensures HighShare(|e.residue|) == if |e.residue| == 0 then -1 else MemSize(|Cut(e).residue|)
  {
    BoundsFit();
  }

  /** hsize after i entries of which lcnt went low. */
  function HighSum(es: seq<Entry>, lcnt: nat, i: nat, none: bool): int
    requires lcnt <= i <= |es| && Short(es)
  {
    if none then lcnt - i else CutIsShort(es); Offset(CutAll(es), i) - Offset(CutAll(es), lcnt)
  }

  lemma PushRead(f: Flat, es: seq<Entry>, cells: seq<Cell>, blocks: Storage, i: nat, bsize: int, d: nat, size: nat)
    requires Laid(f, es, cells, blocks) && i < |es|
    requires Lengths(es, d, size) && 1 <= size && d <= size && bsize == size - d
    ensures |f.firsts| == |es| && LowByte(f.firsts[i]) == es[i].lo
    ensures PushLength(f.firsts[i], bsize, d) == |es[i].residue|
  {
    LaidFirst(f, es, cells, blocks, i);
    LengthsAgree(es[i], d, size);
    FirstBytes(es[i]);
  }

  lemma PushStep(es: seq<Entry>, i: nat, lcnt: nat, none: bool)
    requires lcnt <= i < |es| && Even(es, none) && Short(es)
    ensures Short(CutAll(es)) && |CutAll(es)| == |es|
    ensures Offset(CutAll(es), i) + LowShare(|es[i].residue|) == Offset(CutAll(es), i + 1)
    ensures HighSum(es, lcnt, i, none) + HighShare(|es[i].residue|) == HighSum(es, lcnt, i + 1, none)
  {
    CutIsShort(es);
    CutShare(es[i]);
    assert CutAll(es)[i] == Cut(es[i]);
  }

  /** The lengths of all entries, how many go low, and the sizes of the two new buckets. */
  method PushSizes(f: Flat, bsize: int, d: nat, ghost es: seq<Entry>, ghost cells: seq<Cell>, ghost blocks: Storage,
                   ghost size: nat, ghost none: bool)
    returns (lengths: seq<u16>, lcnt: nat, lsize: int, hsize: int)
    requires Laid(f, es, cells, blocks) && Even(es, none) && Monotone(Los(es), Mask(0))
    requires Lengths(es, d, size) && Short(es) && 1 <= size && d <= size && bsize == size - d
    ensures KnownLengths(lengths, es)
    ensures lcnt <= |es| && forall j | 0 <= j < |es| :: TestBit(es[j].lo, Mask(0)) <==> lcnt <= j
    ensures Short(CutAll(es)) && |CutAll(es)| == |es|
    ensures lsize == Offset(CutAll(es), lcnt) && hsize == HighSum(es, lcnt, |es|, none)
  {
    hide TestBit, LowShare, HighShare, Even, CutAll, HighSum;
    LaidSizes(f, es, cells, blocks);
    CutIsShort(es);
    assert forall j | 0 <= j < |es| :: Los(es)[j] == es[j].lo;
    lengths, lcnt, lsize, hsize := [], 0, 0, 0;
    HighSumStart(es, none);
    for i := 0 to |f.firsts|
      invariant |lengths| == i && forall j | 0 <= j < i :: lengths[j] == |es[j].residue|
      invariant lcnt <= i && forall j | 0 <= j < i :: TestBit(es[j].lo, Mask(0)) <==> lcnt <= j
      invariant lsize == Offset(CutAll(es), lcnt) && hsize == HighSum(es, lcnt, i, none)
    {
      PushRead(f, es, cells, blocks, i, bsize, d, size);
      PushStep(es, i, lcnt, none);
      LowComeFirst(Los(es), Mask(0), lcnt, i);
      var len := PushLength(f.firsts[i], bsize, d);
      lengths := lengths + [len];
      if !TestBit(LowByte(f.firsts[i]), Mask(0)) {
        HighSumRestart(es, i, none);
        lcnt := lcnt + 1;
        lsize := lsize + LowShare(len);
      } else {
        hsize := hsize + HighShare(len);
      }
    }
  }

  lemma HighSumStart(es: seq<Entry>, none: bool)
    requires Short(es)
    ensures HighSum(es, 0, 0, none) == 0
  {
  }

  lemma HighSumRestart(es: seq<Entry>, i: nat, none: bool)
    requires Short(es) && i < |es|
    ensures HighSum(es, i, i, none) == 0 == HighSum(es, i + 1, i + 1, none)
  {
  }

  /** Where entry i lies and what it is, while earlier entries have already moved. */
  lemma EntryInPlace(f: Flat, es: seq<Entry>, cells: seq<Cell>, start: Storage, now: Storage, x: seq<Cell>,
                     xs: seq<Entry>, i: nat)
    requires Laid(f, es, cells, start) && Short(es) && Converting(start, now, cells, x, xs)
    requires i < |es| == |xs| == |cells| && |x| == |cells| && x[i] == cells[i] && xs[i] == es[i]
    ensures |f.firsts| == |es|
    ensures var at, len := Offset(es, i), |es[i].residue|;
      && at + MemSize(len) == Offset(es, i + 1) <= |f.data| && f.firsts[i] == es[i].First()
        && Keeps(now, x[i], es[i].residue)
      && f.data[at..at + MemSize(len)] == CellBytes(x[i])
      && (len >= HEAPBOUND ==> x[i] == Block(f.data[at..at + PTR_BYTES]) && x[i].ptr in now && len <= |now[x[i].ptr]|)
      && ResidueIn(f.data, at, len, now) == es[i].residue
  {
    LaidParts(f, es, cells, start);
    CellAt(start, cells, es, i);
    assert Keeps(now, x[i], xs[i].residue);
    ReadCell(f.data, Offset(es, i), now, x[i], es[i].residue);
  }

  /** Moves one entry one byte down: `first` shifts and takes the residue's first byte, the rest is copied. */
  method MoveEntry(data: seq<byte>, bcnt: nat, len: u16, guard: u16, first: u16, dest: array<byte>, nbcnt: nat,
                   heap: BlockHeap, ghost old_: Cell, ghost e: Entry)
    returns (first': u16, ghost c: Cell)
    requires first == e.First() && len == |e.residue| && (len > 0 ==> guard > 0)
    requires bcnt + MemSize(len) <= |data| && Keeps(heap.blocks, old_, e.residue)
    requires len >= HEAPBOUND ==>
      old_ == Block(data[bcnt..bcnt + PTR_BYTES]) && old_.ptr in heap.blocks && len <= |heap.blocks[old_.ptr]|
    requires ResidueIn(data, bcnt, len, heap.blocks) == e.residue
    requires nbcnt + MemSize(|Cut(e).residue|) <= dest.Length && |Cut(e).residue| <= 0xFFFF
    requires heap.Valid() && heap.free != []
    modifies dest, heap
    ensures heap.Valid() && |heap.free| >= old(|heap.free|) - 1
    ensures first' == Cut(e).First() && Keeps(heap.blocks, c, Cut(e).residue)
    ensures Replaced(old(heap.blocks), heap.blocks, old_, c)
    ensures dest[..nbcnt + MemSize(|Cut(e).residue|)] == old(dest[..nbcnt]) + CellBytes(c)
  {
    first' := Wrap(first * 256);
    ShiftedEntry(e);
    if len > 0 {
      var residue := ResidueIn(data, bcnt, len, heap.blocks);
      var next := residue[1..];
      if |next| >= HEAPBOUND {
        var p := heap.New(next);
        c := Block(p);
        Write(dest, nbcnt, p);
      } else {
        c := Inline(next);
        Write(dest, nbcnt, next);
      }
      if guard > 0 {
        first' := SetLow(first', residue[0]);
      }
      if len >= HEAPBOUND {
        heap.Delete(data[bcnt..bcnt + PTR_BYTES]);
      }
    } else {
      c := Inline([]);
    }
  }

  lemma ShiftedEntry(e: Entry)
    ensures 0 <= e.First() <= 0xFFFF && Wrap(e.First() * 256) == (e.lo as int) * 256
    ensures e.residue == [] ==> Cut(e).First() == (e.lo as int) * 256
    ensures e.residue != [] ==>
      Cut(e).First() == SetLow(Wrap(e.First() * 256), e.residue[0]) && Cut(e).residue == e.residue[1..]
  {
    FirstBytes(e);
    ShiftedLength(e.First());
  }

  /** Entries up to i are cut, the others as they were. */
  ghost function PartlyCut(es: seq<Entry>, i: nat): seq<Entry>
    requires i <= |es|
  {
    CutAll(es)[..i] + es[i..]
  }

  lemma CutOneMore(es: seq<Entry>, i: nat)
    requires i < |es|
    ensures |PartlyCut(es, i)| == |es| && PartlyCut(es, i)[i] == es[i]
    ensures PartlyCut(es, i)[i := Cut(es[i])] == PartlyCut(es, i + 1)
  {
  }

  /** From x, cells between `from` and i have been replaced; those behind are still the original ones. */
  ghost predicate ReplacedUpTo(x: seq<Cell>, y: seq<Cell>, cells: seq<Cell>, from: nat, i: nat) {
    from <= i <= |y| == |cells| == |x| && y[i..] == cells[i..] && y[..from] == x[..from]
  }

  lemma ReplaceNext(x: seq<Cell>, y: seq<Cell>, cells: seq<Cell>, from: nat, i: nat, c: Cell)
    requires ReplacedUpTo(x, y, cells, from, i) && i < |y|
    ensures y[i] == cells[i] && ReplacedUpTo(x, y[i := c], cells, from, i + 1)
    ensures Image(y[i := c][from..i+1]) == Image(y[from..i]) + CellBytes(c)
  {
    assert y[i] == y[i..][0] == cells[i..][0];
    var z := y[i := c];
    assert z[from..i+1][..i-from] == y[from..i];
    forall j | i + 1 <= j < |z| ensures z[j] == cells[j] { assert y[i..][j-i] == cells[i..][j-i]; }
  }

  /** The numbers of the entries from..to. */
  ghost predicate FirstsOf(firsts: seq<u16>, es: seq<Entry>, from: nat, to: nat) {
    from <= to <= |es| && |firsts| == to - from && forall i | from <= i < to :: firsts[i-from] == es[i].First()
  }

  lemma FirstsNext(firsts: seq<u16>, es: seq<Entry>, from: nat, i: nat, first: u16)
    requires FirstsOf(firsts, es, from, i) && i < |es| && first == es[i].First()
    ensures FirstsOf(firsts + [first], es, from, i + 1)
  {
  }

  ghost predicate KnownLengths(lengths: seq<u16>, es: seq<Entry>) {
    |lengths| == |es| && forall i | 0 <= i < |es| :: lengths[i] == |es[i].residue|
  }

  /** Moves entry i; `guard` is the length that is looked at before its `first` is completed. */
  method MoveNext(f: Flat, i: nat, bcnt: nat, len: u16, guard: u16, dest: array<byte>, nbcnt: nat, heap: BlockHeap,
                  ghost es: seq<Entry>, ghost cells: seq<Cell>, ghost start: Storage, ghost y: seq<Cell>)
    returns (first: u16, ghost c: Cell)
    requires Laid(f, es, cells, start) && Short(es) && i < |es| == |cells| == |y| == |f.firsts| && y[i] == cells[i]
    requires Converting(start, heap.blocks, cells, y, PartlyCut(es, i))
    requires len == |es[i].residue| && (len > 0 ==> guard > 0) && bcnt == Offset(es, i)
    requires |Cut(es[i]).residue| <= 0xFFFF && nbcnt + MemSize(|Cut(es[i]).residue|) <= dest.Length
    requires heap.Valid() && heap.free != []
    modifies dest, heap
    ensures heap.Valid() && |heap.free| >= old(|heap.free|) - 1
    ensures first == Cut(es[i]).First() && Converting(start, heap.blocks, cells, y[i := c], PartlyCut(es, i + 1))
    ensures dest[..nbcnt + MemSize(|Cut(es[i]).residue|)] == old(dest[..nbcnt]) + CellBytes(c)
  {
    hide Converting, PartlyCut, Cut, Replaced;
    ghost var now := heap.blocks;
    CutOneMore(es, i);
    EntryInPlace(f, es, cells, start, now, y, PartlyCut(es, i), i);
    first, c := MoveEntry(f.data, bcnt, len, guard, f.firsts[i], dest, nbcnt, heap, y[i], es[i]);
    ConvertedSize(start, now, cells, y, PartlyCut(es, i));
    ReplaceCell(start, now, heap.blocks, cells, y, PartlyCut(es, i), i, c, Cut(es[i]));
  }

  lemma ConvertedSize(start: Storage, now: Storage, cells: seq<Cell>, x: seq<Cell>, xs: seq<Entry>)
    requires Converting(start, now, cells, x, xs)
    ensures |x| == |xs|
  {
  }

  /** Moves the entries from..to into one new bucket. Their position there is i - from, whose length guards the write to
      `first`. */
  method MoveGroup(f: Flat, lengths: seq<u16>, from: nat, to: nat, at: nat, dest: array<byte>, heap: BlockHeap,
                   ghost es: seq<Entry>, ghost cells: seq<Cell>, ghost start: Storage, ghost x: seq<Cell>,
                   ghost none: bool)
    returns (firsts: seq<u16>, bcnt: nat, ghost y: seq<Cell>)
    requires Laid(f, es, cells, start) && Short(es) && Short(CutAll(es)) && Even(es, none) && KnownLengths(lengths, es)
    requires from <= to <= |es| == |cells| == |x| && ReplacedUpTo(x, x, cells, from, from)
    requires Converting(start, heap.blocks, cells, x, PartlyCut(es, from))
    requires dest.Length >= Offset(CutAll(es), to) - Offset(CutAll(es), from)
    requires heap.Valid() && |heap.free| >= to - from && at == Offset(es, from)
    modifies dest, heap
    ensures heap.Valid() && |heap.free| >= old(|heap.free|) - (to - from)
    ensures |y| == |cells| && ReplacedUpTo(x, y, cells, from, to)
    ensures Converting(start, heap.blocks, cells, y, PartlyCut(es, to))
    ensures bcnt == Offset(es, to)
    ensures FirstsOf(firsts, CutAll(es), from, to)
    ensures 0 <= Offset(CutAll(es), to) - Offset(CutAll(es), from) <= dest.Length
    ensures dest[..Offset(CutAll(es), to) - Offset(CutAll(es), from)] == Image(y[from..to])
  {
    hide Converting, PartlyCut, CutAll, Cut, Even, ReplacedUpTo, FirstsOf, Image;
    ghost var cs := CutAll(es);
    LaidSizes(f, es, cells, start);
    CutIsShort(es);
    OffsetMonotone(cs, from, to);
    firsts, bcnt, y := [], at, x;
    var nbcnt := 0;
    NothingYet(es, x, from, dest);
    for i := from to to
      invariant FirstsOf(firsts, cs, from, i)
      invariant heap.Valid() && |heap.free| >= old(|heap.free|) - (i - from)
      invariant |y| == |cells| && ReplacedUpTo(x, y, cells, from, i)
      invariant Converting(start, heap.blocks, cells, y, PartlyCut(es, i))
      invariant bcnt == Offset(es, i) && nbcnt == Offset(cs, i) - Offset(cs, from) && 0 <= nbcnt <= dest.Length
      invariant dest[..nbcnt] == Image(y[from..i])
    {
      OffsetMonotone(cs, i + 1, to);
      CutLength(es, i);
      EvenGuard(es, none, i, i - from);
      ReplaceNext(x, y, cells, from, i, y[i]);
      ghost var before := y;
      var first, c := MoveNext(f, i, bcnt, lengths[i], lengths[i - from], dest, nbcnt, heap, es, cells, start, y);
      y := y[i := c];
      ReplaceNext(x, before, cells, from, i, c);
      FirstsNext(firsts, cs, from, i, first);
      firsts := firsts + [first];
      bcnt := bcnt + MemSize(lengths[i]);
      nbcnt := nbcnt + MemSize(if lengths[i] > 0 then lengths[i] - 1 else 0);
    }
  }

  lemma NothingYet(es: seq<Entry>, x: seq<Cell>, from: nat, dest: array<byte>)
    requires from <= |es| == |x|
    ensures FirstsOf([], CutAll(es), from, from) && Image(x[from..from]) == [] == dest[..0]
  {
  }

  lemma CutLength(es: seq<Entry>, i: nat)
    requires Short(es) && Short(CutAll(es)) && i < |es|
    ensures CutAll(es)[i] == Cut(es[i])
      && |Cut(es[i]).residue| == if |es[i].residue| > 0 then |es[i].residue| - 1 else 0
    ensures Offset(CutAll(es), i + 1) == Offset(CutAll(es), i) + MemSize(|Cut(es[i]).residue|)
  {
  }

  lemma EvenGuard(es: seq<Entry>, none: bool, i: nat, j: nat)
    requires Even(es, none) && i < |es| && j < |es|
    ensures |es[i].residue| > 0 ==> |es[j].residue| > 0
  {
  }

  /** Pushes a bucket one level down and cuts it in two: every `first` shifts, every residue gives up its first byte. */
  method PushBytes(f: Flat, lengths: seq<u16>, lcnt: nat, lsize: int, hsize: int, heap: BlockHeap,
                   ghost es: seq<Entry>, ghost cells: seq<Cell>, ghost none: bool)
    returns (lo: Flat, hi: Flat, ghost y: seq<Cell>)
    requires Laid(f, es, cells, heap.blocks) && Short(es) && Even(es, none) && KnownLengths(lengths, es)
    requires lcnt <= |es| && Short(CutAll(es)) && |CutAll(es)| == |es|
    requires lsize == Offset(CutAll(es), lcnt) && hsize == HighSum(es, lcnt, |es|, none)
    requires heap.Valid() && |heap.free| >= |es|
    modifies heap
    ensures heap.Valid() && |y| == |es|
    ensures Laid(lo, CutAll(es)[..lcnt], y[..lcnt], heap.blocks) && Laid(hi, CutAll(es)[lcnt..], y[lcnt..], heap.blocks)
    ensures lo.ids == IdsTo(f.ids, lcnt) && hi.ids == IdsFrom(f.ids, lcnt)
    ensures NoSharing(y) && Exchanged(old(heap.blocks), heap.blocks, Pointers(cells), Pointers(y))
  {
    hide Converting, CutAll, Cut, Even, ReplacedUpTo, FirstsOf, Image, HighSum, Exchanged;
    ghost var start := heap.blocks;
    LaidSizes(f, es, cells, start);
    HighSize(es, lcnt, none);
    var ldata := new byte[if lsize > 0 then lsize else 0];
    var hdata := new byte[if hsize > 0 then hsize else 0];
    PushStart(f, es, cells, start, lcnt);
    var lfirsts, bcnt, x := MoveGroup(f, lengths, 0, lcnt, 0, ldata, heap, es, cells, start, cells, none);
    ReplacedRefl(cells, x, lcnt);
    var hfirsts, end;
    hfirsts, end, y := MoveGroup(f, lengths, lcnt, |f.firsts|, bcnt, hdata, heap, es, cells, start, x, none);
    lo := Flat(lfirsts, IdsTo(f.ids, lcnt), ldata[..], ldata.Length);
    hi := Flat(hfirsts, IdsFrom(f.ids, lcnt), hdata[..], hdata.Length);
    ReplacedPrefix(x, y, cells, lcnt);
    assert lo.data == ldata[..Offset(CutAll(es), lcnt)];
    assert hi.data == hdata[..Offset(CutAll(es), |es|) - Offset(CutAll(es), lcnt)];
    PushLaid(es, cells, start, heap.blocks, y, lcnt, lo, hi);
  }

  /** Where all residues are empty the high side's sum is negative, and the size is set to zero. */
  lemma HighSize(es: seq<Entry>, lcnt: nat, none: bool)
    requires Short(es) && Even(es, none) && lcnt <= |es|
    ensures Short(CutAll(es)) && |CutAll(es)| == |es|
    ensures var hsize := HighSum(es, lcnt, |es|, none);
      (if hsize > 0 then hsize else 0) == Offset(CutAll(es), |es|) - Offset(CutAll(es), lcnt)
  {
    CutIsShort(es);
    OffsetMonotone(CutAll(es), lcnt, |es|);
    if none {
      forall i | 0 <= i < |es| ensures |CutAll(es)[i].residue| == 0 { CutShare(es[i]); }
      SameLengthOffset(CutAll(es), lcnt, 0);
      SameLengthOffset(CutAll(es), |es|, 0);
    }
  }

  lemma PushStart(f: Flat, es: seq<Entry>, cells: seq<Cell>, start: Storage, lcnt: nat)
    requires Laid(f, es, cells, start) && Short(es) && lcnt <= |es|
    ensures |cells| == |es| && Converting(start, start, cells, cells, PartlyCut(es, 0))
    ensures ReplacedUpTo(cells, cells, cells, 0, 0)
    ensures Short(CutAll(es)) && |CutAll(es)| == |es|
    ensures Offset(CutAll(es), 0) == 0 == Offset(es, 0)
  {
    CutIsShort(es);
    LaidParts(f, es, cells, start);
    ConvertStart(start, cells, es);
    assert PartlyCut(es, 0) == es;
  }

  lemma ReplacedRefl(cells: seq<Cell>, x: seq<Cell>, n: nat)
    requires ReplacedUpTo(cells, x, cells, 0, n)
    ensures ReplacedUpTo(x, x, cells, n, n)
  {
  }

  lemma ReplacedPrefix(x: seq<Cell>, y: seq<Cell>, cells: seq<Cell>, n: nat)
    requires ReplacedUpTo(x, y, cells, n, |cells|)
    ensures n <= |x| == |y| == |cells| && y[..n] == x[..n] == x[0..n] && y[n..] == y[n..|cells|]
  {
  }

  lemma PushLaid(es: seq<Entry>, cells: seq<Cell>, start: Storage, blocks: Storage, y: seq<Cell>, n: nat, lo: Flat,
                 hi: Flat)
    requires n <= |es| == |CutAll(es)| == |y| && Converting(start, blocks, cells, y, PartlyCut(es, |es|))
    requires FirstsOf(lo.firsts, CutAll(es), 0, n) && FirstsOf(hi.firsts, CutAll(es), n, |es|)
    requires lo.data == Image(y[..n]) && lo.totsize == |lo.data| && hi.data == Image(y[n..]) && hi.totsize == |hi.data|
    ensures Laid(lo, CutAll(es)[..n], y[..n], blocks) && Laid(hi, CutAll(es)[n..], y[n..], blocks)
    ensures NoSharing(y) && Exchanged(start, blocks, Pointers(cells), Pointers(y))
  {
    var cs := CutAll(es);
    assert PartlyCut(es, |es|) == cs;
    SliceStores(blocks, y, cs, 0, n);
    SliceStores(blocks, y, cs, n, |es|);
    assert y[0..n] == y[..n] && cs[0..n] == cs[..n];
    assert y[n..|es|] == y[n..] && cs[n..|es|] == cs[n..];
    FirstsApart(lo.firsts, hi.firsts, cs, n);
  }

  lemma FirstsApart(lo: seq<u16>, hi: seq<u16>, cs: seq<Entry>, n: nat)
    requires n <= |cs| && FirstsOf(lo, cs, 0, n) && FirstsOf(hi, cs, n, |cs|)
    ensures |lo| == n && |hi| == |cs| - n
    ensures forall i | 0 <= i < n :: lo[i] == cs[..n][i].First()
    ensures forall i | 0 <= i < |cs| - n :: hi[i] == cs[n..][i].First()
  {
    forall i | 0 <= i < |cs| - n ensures hi[i] == cs[n..][i].First() { assert hi[(n + i) - n] == cs[n + i].First(); }
  }
}
