/** Lifting a bucket one level up on its bytes: a path byte returns to `first`, the byte it displaces to the residue. */
module FlatInject {
  import opened Bytes
  import opened Config
  import opened Entries
  import opened Merging
  import opened Memory
  import opened Layout
  import opened Recovery
  import opened FlatBucket
  import opened FlatMoves

  /** The new length of an entry's residue is one more than the old, or zero where the key is used up. */
  predicate Grows(e: Entry, size: u16) {
    if size == 0 then e.residue == [] else size == |e.residue| + 1
  }

  ghost predicate AllGrow(es: seq<Entry>, sizes: seq<u16>) {
    |sizes| == |es| && forall i | 0 <= i < |es| :: Grows(es[i], sizes[i])
  }

  lemma InjectedEntry(e: Entry, b: byte, size: u16)
    requires Grows(e, size)
    ensures 0 <= e.First() <= 0xFFFF
    ensures SetHigh(SetLow(e.First(), HighByte(e.First())), b) == Inject(e, b, size).First()
    ensures Inject(e, b, size).residue == (if size > 0 then [LowByte(e.First())] + e.residue else [])
    ensures |Inject(e, b, size).residue| == size
  {
    FirstBytes(e);
  }

  /** A residue that is out of line once it has one byte more: it was inline before if it is then of length
      HEAPBOUND. */
  method InjectOut(data: seq<byte>, ocnt: nat, size: u16, push: byte, dest: array<byte>, dcnt: nat, heap: BlockHeap,
                   ghost old_: Cell, ghost residue: Path)
    returns (ocnt': nat, ghost c: Cell)
    requires size >= HEAPBOUND && |residue| == size - 1
    requires ocnt + MemSize(|residue|) <= |data| && Keeps(heap.blocks, old_, residue)
    requires |residue| >= HEAPBOUND ==>
      old_ == Block(data[ocnt..ocnt + PTR_BYTES]) && old_.ptr in heap.blocks && |residue| <= |heap.blocks[old_.ptr]|
    requires ResidueIn(data, ocnt, |residue|, heap.blocks) == residue
    requires dcnt + PTR_BYTES <= dest.Length && heap.Valid() && heap.free != []
    modifies dest, heap
    ensures heap.Valid() && |heap.free| >= old(|heap.free|) - 1 && ocnt' == ocnt + MemSize(|residue|)
    ensures Keeps(heap.blocks, c, [push] + residue) && Replaced(old(heap.blocks), heap.blocks, old_, c)
    ensures dest[..dcnt + PTR_BYTES] == old(dest[..dcnt]) + CellBytes(c)
  {
    hide BlockHeap.Valid;
    if size == HEAPBOUND {
      var p := heap.New([push] + data[ocnt..ocnt + size - 1]);
      Write(dest, dcnt, p);
      c := Block(p);
      ocnt' := ocnt + size - 1;
    } else {
      var src := data[ocnt..ocnt + PTR_BYTES];
      var p := heap.New([push] + heap.blocks[src][..size - 1]);
      Write(dest, dcnt, p);
      c := Block(p);
      ocnt' := ocnt + PTR_BYTES;
      heap.Delete(src);
    }
  }

  /** A residue that stays in place with one byte more. */
  method InjectInline(data: seq<byte>, ocnt: nat, size: u16, push: byte, dest: array<byte>, dcnt: nat)
    returns (ocnt': nat)
    requires 0 < size && ocnt + (size - 1) <= |data| && dcnt + size <= dest.Length
    modifies dest
    ensures ocnt' == ocnt + (size - 1)
    ensures dest[..dcnt + size] == old(dest[..dcnt]) + ([push] + data[ocnt..ocnt + (size - 1)])
  {
    Write(dest, dcnt, [push]);
    ocnt' := ocnt;
    if size > 1 {
      Write(dest, dcnt + 1, data[ocnt..ocnt + (size - 1)]);
      ocnt' := ocnt + (size - 1);
    }
  }

  /** One entry: the low byte of `first` goes in front of the residue, which may have to move out of line. */
  method InjectEntry(data: seq<byte>, ocnt: nat, size: u16, topush: byte, first: u16, dest: array<byte>, dcnt: nat,
                     heap: BlockHeap, ghost old_: Cell, ghost e: Entry)
    returns (first': u16, ocnt': nat, ghost c: Cell)
    requires first == e.First() && Grows(e, size)
    requires |e.residue| <= 0xFFFF && ocnt + MemSize(|e.residue|) <= |data| && Keeps(heap.blocks, old_, e.residue)
    requires |e.residue| >= HEAPBOUND ==>
      old_ == Block(data[ocnt..ocnt + PTR_BYTES]) && old_.ptr in heap.blocks && |e.residue| <= |heap.blocks[old_.ptr]|
    requires ResidueIn(data, ocnt, |e.residue|, heap.blocks) == e.residue
    requires dcnt + MemSize(size) <= dest.Length && heap.Valid() && heap.free != []
    modifies dest, heap
    ensures heap.Valid() && |heap.free| >= old(|heap.free|) - 1
    ensures first' == Inject(e, topush, size).First() && ocnt' == ocnt + MemSize(|e.residue|)
    ensures Keeps(heap.blocks, c, Inject(e, topush, size).residue) && Replaced(old(heap.blocks), heap.blocks, old_, c)
    ensures dest[..dcnt + MemSize(size)] == old(dest[..dcnt]) + CellBytes(c)
  {
    hide SetHigh, SetLow, HighByte, LowByte, Inject, BlockHeap.Valid;
    BoundsFit();
    InjectedEntry(e, topush, size);
    var push := LowByte(first);
    first' := SetHigh(SetLow(first, HighByte(first)), topush);
    ocnt' := ocnt;
    c := Inline([]);
    if size >= HEAPBOUND {
      ocnt', c := InjectOut(data, ocnt, size, push, dest, dcnt, heap, old_, e.residue);
    } else if size > 0 {
      c := Inline([push] + e.residue);
      ocnt' := InjectInline(data, ocnt, size, push, dest, dcnt);
    }
  }

  /** Entries up to i are injected, the others as they were. */
  ghost function PartlyInjected(es: seq<Entry>, fs: seq<Entry>, i: nat): seq<Entry>
    requires i <= |es| == |fs|
  {
    fs[..i] + es[i..]
  }

  lemma InjectOneMore(es: seq<Entry>, fs: seq<Entry>, i: nat)
    requires i < |es| == |fs|
    ensures |PartlyInjected(es, fs, i)| == |es| && PartlyInjected(es, fs, i)[i] == es[i]
    ensures PartlyInjected(es, fs, i)[i := fs[i]] == PartlyInjected(es, fs, i + 1)
  {
  }

  method InjectNext(f: Flat, i: nat, ocnt: nat, size: u16, topush: byte, dest: array<byte>, dcnt: nat,
                    heap: BlockHeap, ghost es: seq<Entry>, ghost fs: seq<Entry>, ghost cells: seq<Cell>,
                    ghost start: Storage, ghost y: seq<Cell>)
    returns (first: u16, ocnt': nat, ghost c: Cell)
    requires Laid(f, es, cells, start) && Short(es) && i < |es| == |fs| == |cells| == |y| == |f.firsts|
    requires y[i] == cells[i]
    requires Converting(start, heap.blocks, cells, y, PartlyInjected(es, fs, i))
    requires Grows(es[i], size) && fs[i] == Inject(es[i], topush, size) && ocnt == Offset(es, i)
    requires dcnt + MemSize(size) <= dest.Length && heap.Valid() && heap.free != []
    modifies dest, heap
    ensures heap.Valid() && |heap.free| >= old(|heap.free|) - 1
    ensures first == fs[i].First() && ocnt' == Offset(es, i + 1)
    ensures Converting(start, heap.blocks, cells, y[i := c], PartlyInjected(es, fs, i + 1))
    ensures dest[..dcnt + MemSize(size)] == old(dest[..dcnt]) + CellBytes(c)
  {
    hide Converting, PartlyInjected, Inject, Replaced, Grows;
    ghost var now := heap.blocks;
    InjectOneMore(es, fs, i);
    EntryInPlace(f, es, cells, start, now, y, PartlyInjected(es, fs, i), i);
    first, ocnt', c := InjectEntry(f.data, ocnt, size, topush, f.firsts[i], dest, dcnt, heap, y[i], es[i]);
    ConvertedSize(start, now, cells, y, PartlyInjected(es, fs, i));
    ReplaceCell(start, now, heap.blocks, cells, y, PartlyInjected(es, fs, i), i, c, fs[i]);
  }

  lemma InjectSizes(es: seq<Entry>, b: byte, sizes: seq<u16>)
    requires AllGrow(es, sizes)
    ensures Short(InjectAll(es, b, sizes)) && |InjectAll(es, b, sizes)| == |es|
    ensures forall i | 0 <= i < |es| :: |InjectAll(es, b, sizes)[i].residue| == sizes[i]
  {
    forall i | 0 <= i < |es| ensures |InjectAll(es, b, sizes)[i].residue| == sizes[i] {
      InjectedEntry(es[i], b, sizes[i]);
    }
  }

  lemma InjectStep(es: seq<Entry>, b: byte, sizes: seq<u16>, i: nat)
    requires AllGrow(es, sizes) && i < |es|
    ensures Short(InjectAll(es, b, sizes)) && |InjectAll(es, b, sizes)| == |es|
    ensures Grows(es[i], sizes[i]) && InjectAll(es, b, sizes)[i] == Inject(es[i], b, sizes[i])
    ensures Offset(InjectAll(es, b, sizes), i + 1) == Offset(InjectAll(es, b, sizes), i) + MemSize(sizes[i])
  {
    InjectSizes(es, b, sizes);
  }

  /** Rewrites the whole bucket; totsize is what the caller has added up. */
  method InjectBytes(f: Flat, topush: byte, totsize: nat, sizes: seq<u16>, heap: BlockHeap, ghost es: seq<Entry>,
                     ghost cells: seq<Cell>)
    returns (g: Flat, ghost y: seq<Cell>)
    requires Laid(f, es, cells, heap.blocks) && Short(es) && AllGrow(es, sizes)
    requires Short(InjectAll(es, topush, sizes)) && |InjectAll(es, topush, sizes)| == |es|
    requires totsize == Offset(InjectAll(es, topush, sizes), |es|)
    requires heap.Valid() && |heap.free| >= |es|
    modifies heap
    ensures heap.Valid() && g.ids == f.ids && |y| == |es|
    ensures Laid(g, InjectAll(es, topush, sizes), y, heap.blocks)
    ensures Exchanged(old(heap.blocks), heap.blocks, Pointers(cells), Pointers(y))
  {
    hide Converting, PartlyInjected, InjectAll, Inject, AllGrow, Grows, ReplacedUpTo, FirstsOf, Image, Exchanged;
    AllGrowSize(es, sizes);
    ghost var start, fs := heap.blocks, InjectAll(es, topush, sizes);
    var dest := new byte[totsize];
    var firsts: seq<u16>, ocnt, dcnt := [], 0, 0;
    LaidSizes(f, es, cells, start);
    InjectStart(es, fs, cells, start, f, dest);
    y := cells;
    for i := 0 to |f.firsts|
      invariant FirstsOf(firsts, fs, 0, i)
      invariant heap.Valid() && |heap.free| >= old(|heap.free|) - i
      invariant |y| == |cells| && ReplacedUpTo(cells, y, cells, 0, i)
      invariant Converting(start, heap.blocks, cells, y, PartlyInjected(es, fs, i))
      invariant ocnt == Offset(es, i) && dcnt == Offset(fs, i) <= dest.Length
      invariant dest[..dcnt] == Image(y[0..i])
    {
      InjectStep(es, topush, sizes, i);
      OffsetMonotone(fs, i + 1, |fs|);
      ReplaceNext(cells, y, cells, 0, i, y[i]);
      ghost var before := y;
      ghost var c;
      var first;
      first, ocnt, c := InjectNext(f, i, ocnt, sizes[i], topush, dest, dcnt, heap, es, fs, cells, start, y);
      y := y[i := c];
      ReplaceNext(cells, before, cells, 0, i, c);
      FirstsNext(firsts, fs, 0, i, first);
      firsts := firsts + [first];
      dcnt := dcnt + MemSize(sizes[i]);
    }
    g := Flat(firsts, f.ids, dest[..], totsize);
    assert dest[..] == dest[..dcnt] && y[0..|y|] == y;
    InjectLaid(es, fs, cells, start, heap.blocks, y, g);
  }

  lemma AllGrowSize(es: seq<Entry>, sizes: seq<u16>)
    requires AllGrow(es, sizes)
    ensures |sizes| == |es|
  {
  }

  lemma InjectStart(es: seq<Entry>, fs: seq<Entry>, cells: seq<Cell>, start: Storage, f: Flat, dest: array<byte>)
    requires Laid(f, es, cells, start) && |fs| == |es|
    ensures |cells| == |es| && Converting(start, start, cells, cells, PartlyInjected(es, fs, 0))
    ensures ReplacedUpTo(cells, cells, cells, 0, 0)
    ensures FirstsOf([], fs, 0, 0) && Image(cells[0..0]) == [] == dest[..0]
  {
    LaidParts(f, es, cells, start);
    ConvertStart(start, cells, es);
    assert PartlyInjected(es, fs, 0) == es;
  }

  lemma InjectLaid(es: seq<Entry>, fs: seq<Entry>, cells: seq<Cell>, start: Storage, blocks: Storage, y: seq<Cell>,
                   g: Flat)
    requires |fs| == |es| && Converting(start, blocks, cells, y, PartlyInjected(es, fs, |es|))
    requires FirstsOf(g.firsts, fs, 0, |es|) && g.data == Image(y) && g.totsize == |g.data|
    ensures Laid(g, fs, y, blocks) && Exchanged(start, blocks, Pointers(cells), Pointers(y))
  {
    assert PartlyInjected(es, fs, |es|) == fs;
    assert forall i | 0 <= i < |fs| :: g.firsts[i] == g.firsts[i-0];
  }

  // ------------------------------------------------------------ readd_sizes and readd_byte

  /** Each entry's own length, and the size of the new bucket. The model's scratch array is longer than the program's
      where that would be overrun. */
  method ScratchSizes(f: Flat, inject: byte, onHeap: int, ghost es: seq<Entry>, ghost cells: seq<Cell>,
                      ghost blocks: Storage, ghost size: nat)
    returns (sizes: array<u16>, totsize: nat)
    requires Laid(f, es, cells, blocks) && Lengths(es, 1, size) && onHeap == size
    ensures fresh(sizes) && sizes.Length >= |es| && sizes[..|es|] == SizesFromLow(es, size)
    ensures var fs := InjectAll(es, inject, SizesFromLow(es, size));
      Short(fs) && |fs| == |es| && totsize == Offset(fs, |es|)
  {
    hide InjectAll, MemSize, ReaddLength, LengthAt, Lengths, SizesFromLow, Laid;
    LaidSizes(f, es, cells, blocks);
    GrowFromLow(es, size, inject);
    ghost var low := SizesFromLow(es, size);
    ghost var fs := InjectAll(es, inject, low);
    sizes := new u16[if |f.firsts| <= SCRATCH then SCRATCH else |f.firsts|];
    totsize := 0;
    for i := 0 to |f.firsts|
      invariant forall j | 0 <= j < i :: sizes[j] == low[j]
      invariant totsize == Offset(fs, i)
    {
      ScratchStep(f, inject, onHeap, es, cells, blocks, size, i);
      sizes[i] := ReaddLength(f.firsts[i], onHeap, 1);
      totsize := totsize + MemSize(sizes[i]);
    }
  }

  lemma ScratchStep(f: Flat, inject: byte, onHeap: int, es: seq<Entry>, cells: seq<Cell>, blocks: Storage, size: nat,
                    i: nat)
    requires Laid(f, es, cells, blocks) && Lengths(es, 1, size) && onHeap == size && i < |es|
    ensures |f.firsts| == |es| == |SizesFromLow(es, size)|
    ensures ReaddLength(f.firsts[i], onHeap, 1) == SizesFromLow(es, size)[i]
    ensures var fs := InjectAll(es, inject, SizesFromLow(es, size));
      Short(fs) && |fs| == |es| && Offset(fs, i) + MemSize(ReaddLength(f.firsts[i], onHeap, 1)) == Offset(fs, i + 1)
  {
    LaidFirst(f, es, cells, blocks, i);
    ReaddAgrees(es[i], size);
    GrowFromLow(es, size, inject);
  }

  /** From depth one to the root. */
  method ReaddSizesBytes(f: Flat, inject: byte, onHeap: int, heap: BlockHeap, ghost es: seq<Entry>,
                         ghost cells: seq<Cell>, ghost size: nat)
    returns (g: Flat, ghost y: seq<Cell>)
    requires Laid(f, es, cells, heap.blocks) && Lengths(es, 1, size) && onHeap == size
    requires heap.Valid() && |heap.free| >= |es|
    modifies heap
    ensures heap.Valid() && g.ids == f.ids && |y| == |es|
    ensures Laid(g, InjectAll(es, inject, SizesFromLow(es, size)), y, heap.blocks)
    ensures Exchanged(old(heap.blocks), heap.blocks, Pointers(cells), Pointers(y))
  {
    hide Lays, Exchanged, InjectAll;
    LengthsAreShort(es, 1, size);
    LaidSizes(f, es, cells, heap.blocks);
    GrowFromLow(es, size, inject);
    var scratch, totsize := ScratchSizes(f, inject, onHeap, es, cells, heap.blocks, size);
    g, y := InjectBytes(f, inject, totsize, scratch[..|f.firsts|], heap, es, cells);
  }

  lemma GrowFromLow(es: seq<Entry>, size: nat, b: byte)
    requires Lengths(es, 1, size)
    ensures |SizesFromLow(es, size)| == |es| && forall i | 0 <= i < |es| :: 0 <= SizesFromLow(es, size)[i] <= 0xFFFF
    ensures var fs := InjectAll(es, b, SizesFromLow(es, size));
      && Short(fs) && |fs| == |es| && forall i | 0 <= i < |es| :: |fs[i].residue| == SizesFromLow(es, size)[i]
    ensures forall sizes: seq<u16> | |sizes| == |es| && sizes == SizesFromLow(es, size) :: AllGrow(es, sizes)
  {
    var sizes: seq<u16> := seq(|es|, i requires 0 <= i < |es| => LowSize(es[i], size));
    forall i | 0 <= i < |es| ensures sizes[i] == SizesFromLow(es, size)[i] && Grows(es[i], sizes[i]) {
      assert |es[i].residue| == LengthAt(es[i], 1, size);
    }
    assert sizes == SizesFromLow(es, size);
    InjectSizes(es, b, sizes);
  }

  function LowSize(e: Entry, size: nat): u16
    requires size <= 0xFFFF
  {
    (size / 256) * 256 + e.hi
  }

  /** From depth d >= 2 to d - 1: all residues get the same length. */
  method ReaddByteBytes(f: Flat, inject: byte, onHeap: int, d: nat, heap: BlockHeap, ghost es: seq<Entry>,
                        ghost cells: seq<Cell>, ghost size: nat)
    returns (g: Flat, ghost y: seq<Cell>)
    requires Laid(f, es, cells, heap.blocks) && Lengths(es, d, size) && 2 <= d <= size + 1 && onHeap == size - (d - 1)
    requires heap.Valid() && |heap.free| >= |es|
    modifies heap
    ensures heap.Valid() && g.ids == f.ids && |y| == |es|
    ensures Laid(g, InjectAll(es, inject, SameSizes(es, onHeap)), y, heap.blocks)
    ensures Exchanged(old(heap.blocks), heap.blocks, Pointers(cells), Pointers(y))
  {
    LengthsAreShort(es, d, size);
    LaidSizes(f, es, cells, heap.blocks);
    GrowTogether(es, size, d, onHeap, inject);
    var totsize: nat := if onHeap >= HEAPBOUND then |f.firsts| * PTR_BYTES else onHeap * |f.firsts|;
    var sizes: seq<u16> := seq(|f.firsts|, _ => onHeap);
    assert sizes == SameSizes(es, onHeap);
    g, y := InjectBytes(f, inject, totsize, sizes, heap, es, cells);
  }

  lemma GrowTogether(es: seq<Entry>, size: nat, d: nat, onHeap: int, b: byte)
    requires Lengths(es, d, size) && 2 <= d <= size + 1 && onHeap == size - (d - 1)
    ensures 0 <= onHeap <= 0xFFFF && AllGrow(es, SameSizes(es, onHeap))
    ensures var fs := InjectAll(es, b, SameSizes(es, onHeap));
      && Short(fs) && |fs| == |es|
      && Offset(fs, |es|) == if onHeap >= HEAPBOUND then |es| * PTR_BYTES else onHeap * |es|
  {
    InjectSizes(es, b, SameSizes(es, onHeap));
    SameLengthOffset(InjectAll(es, b, SameSizes(es, onHeap)), |es|, onHeap);
  }
}
