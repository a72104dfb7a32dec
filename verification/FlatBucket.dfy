/** Search, insertion, removal and reading back on the bytes of a bucket. */
module FlatBucket {
  import opened Bytes
  import opened Config
  import opened Entries
  import opened Shape
  import opened ShapeOps
  import opened Heap
  import opened Search
  import opened Memory
  import opened Layout
  import opened Recovery

  // ------------------------------------------------------------ entries and cells

  lemma LengthsAreShort(es: seq<Entry>, d: nat, size: nat)
    requires Lengths(es, d, size)
    ensures Short(es)
  {
    forall i | 0 <= i < |es| ensures |es[i].residue| <= 0xFFFF { LengthIsShort(es[i], d, size); }
  }

  lemma LengthIsShort(e: Entry, d: nat, size: nat)
    requires size <= 0xFFFF
    ensures LengthAt(e, d, size) <= 0xFFFF
  {
  }

  /** What a traversal finds at an entry's place: the bytes themselves, or the block that the pointer there leads to. */
  function ResidueIn(data: seq<byte>, at: nat, len: u16, blocks: Storage): Path
    requires at + MemSize(len) <= |data|
    requires len >= HEAPBOUND ==> data[at..at + PTR_BYTES] in blocks && len <= |blocks[data[at..at + PTR_BYTES]]|
  {
    if len >= HEAPBOUND then blocks[data[at..at + PTR_BYTES]][..len] else data[at..at + len]
  }

  lemma ReadBack(f: Flat, es: seq<Entry>, cells: seq<Cell>, blocks: Storage, i: nat)
    requires Laid(f, es, cells, blocks) && Short(es) && i < |es|
    ensures var at, len := Offset(es, i), |es[i].residue|;
      && at + MemSize(len) == Offset(es, i + 1) <= |f.data| && |cells| == |es|
      && (len >= HEAPBOUND ==>
        cells[i] == Block(f.data[at..at + PTR_BYTES]) && cells[i].ptr in blocks && len <= |blocks[cells[i].ptr]|)
      && (len < HEAPBOUND ==> cells[i].Inline?)
      && ResidueIn(f.data, at, len, blocks) == es[i].residue
  {
    assert Lays(f, es, cells, blocks);
    CellAt(blocks, cells, es, i);
    ReadCell(f.data, Offset(es, i), blocks, cells[i], es[i].residue);
  }

  lemma ReadCell(data: seq<byte>, at: nat, blocks: Storage, c: Cell, residue: Path)
    requires Keeps(blocks, c, residue) && |residue| <= 0xFFFF
    requires at + MemSize(|residue|) <= |data| && data[at..at + MemSize(|residue|)] == CellBytes(c)
    ensures |residue| >= HEAPBOUND ==>
      c == Block(data[at..at + PTR_BYTES]) && c.ptr in blocks && |residue| <= |blocks[c.ptr]|
    ensures |residue| < HEAPBOUND ==> c.Inline?
    ensures ResidueIn(data, at, |residue|, blocks) == residue
  {
  }

  /** One cell more. */
  lemma InsertCell(before: Storage, blocks: Storage, cells: seq<Cell>, es: seq<Entry>, b: nat, c: Cell, e: Entry)
    requires Stores(before, cells, es) && b <= |es| && Keeps(blocks, c, e.residue)
    requires forall p | p in before :: p in blocks && blocks[p] == before[p]
    requires c.Block? ==> c.ptr !in before
    ensures Stores(blocks, InsertAt(cells, b, c), InsertAt(es, b, e))
    ensures Image(InsertAt(cells, b, c)) == Image(cells[..b]) + CellBytes(c) + Image(cells[b..])
    ensures Pointers(InsertAt(cells, b, c)) == Pointers(cells) + Pointers([c])
  {
    var dells, fs := InsertAt(cells, b, c), InsertAt(es, b, e);
    forall i | 0 <= i < |fs| ensures Keeps(blocks, dells[i], fs[i].residue) {
      if i < b { assert Keeps(before, cells[i], es[i].residue); }
      if i > b { assert Keeps(before, cells[i-1], es[i-1].residue); }
    }
    InsertNoSharing(before, cells, es, b, c);
    assert dells == cells[..b] + [c] + cells[b..];
    ImageConcat(cells[..b], [c]);
    ImageConcat(cells[..b] + [c], cells[b..]);
    assert Image([c]) == CellBytes(c) by { assert [c][..0] == []; }
  }

  lemma InsertNoSharing(before: Storage, cells: seq<Cell>, es: seq<Entry>, b: nat, c: Cell)
    requires Stores(before, cells, es) && b <= |es| && (c.Block? ==> c.ptr !in before)
    ensures NoSharing(InsertAt(cells, b, c))
  {
    var dells := InsertAt(cells, b, c);
    forall i | 0 <= i < |es| ensures cells[i].Block? ==> cells[i].ptr in before {
      assert Keeps(before, cells[i], es[i].residue);
    }
    forall i, j | 0 <= i < j < |dells| && dells[i].Block? && dells[j].Block? ensures dells[i].ptr != dells[j].ptr {
      if i < b && j > b { assert cells[i].ptr != cells[j-1].ptr; }
      if j < b { assert cells[i].ptr != cells[j].ptr; }
      if i > b { assert cells[i-1].ptr != cells[j-1].ptr; }
    }
  }

  /** One cell less; its block, if it has one, is no longer needed. */
  lemma RemoveCell(before: Storage, blocks: Storage, cells: seq<Cell>, es: seq<Entry>, b: nat)
    requires Stores(before, cells, es) && b < |es|
    requires blocks == if cells[b].Block? then before - {cells[b].ptr} else before
    ensures Stores(blocks, RemoveAt(cells, b), RemoveAt(es, b))
  {
    var dells, fs := RemoveAt(cells, b), RemoveAt(es, b);
    forall i | 0 <= i < |fs| ensures Keeps(blocks, dells[i], fs[i].residue) {
      var j := if i < b then i else i + 1;
      assert Keeps(before, cells[j], es[j].residue);
    }
  }

  lemma RemoveImage(before: Storage, cells: seq<Cell>, es: seq<Entry>, b: nat)
    requires Stores(before, cells, es) && b < |es| && Short(es)
    ensures var at, next := Offset(es, b), Offset(es, b + 1);
      at <= next <= |Image(cells)| && Image(RemoveAt(cells, b)) == Image(cells)[..at] + Image(cells)[next..]
  {
    CutData(before, cells, es, b);
    CutData(before, cells, es, b + 1);
    OffsetMonotone(es, b, b + 1);
    assert RemoveAt(cells, b) == cells[..b] + cells[b+1..];
    ImageConcat(cells[..b], cells[b+1..]);
  }

  lemma RemovePointers(cells: seq<Cell>, b: nat)
    requires NoSharing(cells) && b < |cells|
    ensures Pointers(RemoveAt(cells, b)) == Pointers(cells) - Pointers([cells[b]])
  {
    var dells := RemoveAt(cells, b);
    forall p | p in Pointers(dells) ensures p !in Pointers([cells[b]]) {
      var i :| 0 <= i < |dells| && dells[i] == Block(p);
      var j := if i < b then i else i + 1;
      assert cells[j] == Block(p);
    }
    assert Pointers(RemoveAt(cells, b)) >= Pointers(cells) - Pointers([cells[b]]);
  }

  // ------------------------------------------------------------ bucket_search

  /** The 16-bit number that the search compares with: two bytes of the encoding. */
  function SearchFirst(target: Key, d: nat): u16
    requires d <= |target| + 1
  {
    if d == 0 then Wrap(|target|)
    else if d == 1 then SetLow(Wrap(Wrap(|target|) * 256), target[0])
    else SetLow(SetHigh(0, target[d - 2]), if d - 1 < |target| then target[d - 1] else 0)
  }

  lemma SearchFirstIs(target: Key, d: nat)
    requires d <= |target| + 1
    ensures SearchFirst(target, d) == EntryOf(target, d).First()
  {
    NewEntryIsEntryOf(target, d);
    if d == 1 { ShiftedLength(|target|); }
  }

  lemma ShiftedLength(n: u16)
    ensures Wrap(n * 256) == (n % 256) * 256
  {
    assert n * 256 == (n / 256) * 0x1_0000 + (n % 256) * 256;
  }

  /** One step of the search past an entry with a smaller `first`. */
  lemma SearchStep(f: Flat, es: seq<Entry>, cells: seq<Cell>, blocks: Storage, b: nat, d: nat, length: nat)
    requires Laid(f, es, cells, blocks) && Lengths(es, d, length) && Short(es) && d <= length + 1 && 1 <= length
    requires b < |es|
    ensures |f.firsts| == |es| && f.firsts[b] == es[b].First()
    ensures Offset(es, b + 1) == Offset(es, b) + MemSize(SearchLength(f.firsts[b], length, d))
  {
    LaidFirst(f, es, cells, blocks, b);
    LengthsAgree(es[b], d, length);
  }

  /** Finds the target in the bytes of a bucket, or the place where it would go. */
  method SearchBytes(f: Flat, target: Key, d: nat, blocks: Storage, ghost r: LeafRec, ghost es: seq<Entry>,
                     ghost cells: seq<Cell>)
    returns (found: bool, b: nat)
    requires Searchable(r, target) && d == |r.at| && es == Bucket(r)
    requires Laid(f, es, cells, blocks) && Lengths(es, d, |target|)
    ensures found ==> b < |r.items| && r.items[b].key == target
    ensures !found ==> GoesAt(r.items, target, b) && Absent(r.items, target)
  {
    LengthsAreShort(es, d, |target|);
    SearchFirstIs(target, d);
    LaidSizes(f, es, cells, blocks);
    var first := SearchFirst(target, d);
    var offset := 0;
    b := 0;
    while b < |f.firsts| && f.firsts[b] < first
      invariant b <= |es| && AllBefore(r.items, target, b)
      invariant offset == Offset(es, b)
    {
      SearchStep(f, es, cells, blocks, b, d, |target|);
      SmallerFirst(r, target, b);
      offset := offset + MemSize(SearchLength(f.firsts[b], |target|, d));
      b := b + 1;
    }
    if b < |f.firsts| { LaidFirst(f, es, cells, blocks, b); }
    found, b := ScanBytes(f, target, d, blocks, b, offset, r, es, cells);
  }

  lemma LaidFirsts(f: Flat, es: seq<Entry>, cells: seq<Cell>, blocks: Storage)
    requires Laid(f, es, cells, blocks)
    ensures |f.firsts| == |es| && forall i {:trigger f.firsts[i]} | 0 <= i < |es| :: f.firsts[i] == es[i].First()
  {
    assert Lays(f, es, cells, blocks);
  }

  /** The part of the search that compares residues. */
  method ScanBytes(f: Flat, target: Key, d: nat, blocks: Storage, start: nat, from: nat, ghost r: LeafRec,
                   ghost es: seq<Entry>, ghost cells: seq<Cell>)
    returns (found: bool, b: nat)
    requires Searchable(r, target) && d == |r.at| && es == Bucket(r)
    requires Laid(f, es, cells, blocks) && Short(es)
    requires start <= |es| && from == Offset(es, start)
    requires start < |es| ==> AtLeast(es[start], EntryOf(target, d))
    requires AllBefore(r.items, target, start)
    ensures found ==> b < |r.items| && r.items[b].key == target
    ensures !found ==> GoesAt(r.items, target, b) && Absent(r.items, target)
  {
    hide AllBefore, GoesAt, Absent, EntryOf, Enc, Less;
    ghost var e := EntryOf(target, d);
    SearchFirstIs(target, d);
    LaidFirsts(f, es, cells, blocks);
    var first := SearchFirst(target, d);
    var encsize: u16 := if |target| <= d then 0 else |target| - d;
    var offset := from;
    b := start;
    while b < |f.firsts| && f.firsts[b] <= first
      invariant b <= |es| && offset == Offset(es, b)
      invariant b < |es| ==> AtLeast(es[b], e)
      invariant AllBefore(r.items, target, b)
    {
      var c := CompareBytes(f, target, d, encsize, blocks, b, offset, r, es, cells);
      AfterCompare(r, target, b, c);
      OffsetStep(es, b);
      if c <= 0 {
        return c == 0, b;
      }
      offset := offset + MemSize(encsize);
      b := b + 1;
    }
    EndOfScan(r, target, e, b);
    found := false;
  }

  lemma OffsetStep(es: seq<Entry>, b: nat)
    requires Short(es) && b < |es|
    ensures Offset(es, b + 1) == Offset(es, b) + MemSize(|es[b].residue|)
  {
  }

  /** What one comparison settles: found, missing, or further on. */
  lemma AfterCompare(r: LeafRec, target: Key, b: nat, c: int)
    requires Searchable(r, target) && AllBefore(r.items, target, b) && b < |r.items|
    requires AtLeast(Bucket(r)[b], EntryOf(target, |r.at|))
    requires c < 0 ==> Less(Enc(target), Enc(r.items[b].key))
    requires c > 0 ==> Less(Enc(r.items[b].key), Enc(target))
    ensures c < 0 ==> GoesAt(r.items, target, b) && Absent(r.items, target)
    ensures c > 0 ==> AllBefore(r.items, target, b + 1)
    ensures c > 0 && b + 1 < |r.items| ==> AtLeast(Bucket(r)[b+1], EntryOf(target, |r.at|))
  {
    if c < 0 { MissingAt(r, target, b); }
    if c > 0 { PastEqual(r, target, EntryOf(target, |r.at|), b); }
  }

  /** Compares the target's residue with the one stored at `offset`. */
  method CompareBytes(f: Flat, target: Key, d: nat, encsize: u16, blocks: Storage, b: nat, offset: nat,
                      ghost r: LeafRec, ghost es: seq<Entry>, ghost cells: seq<Cell>)
    returns (c: int)
    requires Searchable(r, target) && d == |r.at| && encsize == (if |target| <= d then 0 else |target| - d)
    requires es == Bucket(r)
    requires Laid(f, es, cells, blocks) && Short(es)
    requires b < |r.items| && offset == Offset(es, b) && es[b].First() == EntryOf(target, d).First()
    ensures c == 0 <==> r.items[b].key == target
    ensures c < 0 <==> Less(Enc(target), Enc(r.items[b].key))
    ensures c > 0 ==> Less(Enc(r.items[b].key), Enc(target))
    ensures |es[b].residue| == encsize
  {
    SearchedResidue(r, es, target, b);
    ReadBack(f, es, cells, blocks, b);
    c := CompareResidue(if |target| <= d then [] else target[d..], ResidueIn(f.data, offset, encsize, blocks));
  }

  lemma SearchedResidue(r: LeafRec, es: seq<Entry>, target: Key, b: nat)
    requires Searchable(r, target) && es == Bucket(r) && b < |r.items|
    requires es[b].First() == EntryOf(target, |r.at|).First()
    ensures var d, stored := |r.at|, es[b].residue;
      var mine := if |target| <= d then [] else target[d..];
      && |stored| == |mine| && (mine == stored <==> r.items[b].key == target)
      && (Less(mine, stored) <==> Less(Enc(target), Enc(r.items[b].key)))
      && (r.items[b].key == target || Less(Enc(target), Enc(r.items[b].key)) || Less(Enc(r.items[b].key), Enc(target)))
  {
    assert ItemsFit(r);
    ResidueDecides(r, target, b);
    var d := |r.at|;
    assert EntryOf(target, d).residue == if |target| <= d then [] else target[d..];
  }

  // ------------------------------------------------------------ insert

  lemma DeepOffset(es: seq<Entry>, b: nat, d: nat, size: nat)
    requires Lengths(es, d, size) && Short(es) && d >= 2 && b <= |es|
    ensures Wrap(if size > d then size - d else 0) == if size > d then size - d else 0
    ensures var each := MemSize(if size > d then size - d else 0); Offset(es, b) == b * each == each * b
  {
    SameLengthOffset(es, b, if size > d then size - d else 0);
  }

  /** The bytes in front of position b, as insert adds them up. */
  method BytesBefore(f: Flat, b: nat, size: nat, d: nat, ghost es: seq<Entry>, ghost cells: seq<Cell>,
                     ghost blocks: Storage)
    returns (tmpsize: nat)
    requires Laid(f, es, cells, blocks)
    requires Lengths(es, d, size) && Short(es) && 1 <= size && d <= size + 1 && b <= |es|
    ensures tmpsize == Offset(es, b)
  {
    if d >= 2 {
      DeepOffset(es, b, d, size);
      return b * MemSize(Wrap(if size > d then size - d else 0));
    }
    tmpsize := 0;
    LaidSizes(f, es, cells, blocks);
    for i := 0 to b
      invariant tmpsize == Offset(es, i)
    {
      InsertStep(f, es, cells, blocks, i, d, size);
      tmpsize := tmpsize + MemSize(InsertLength(f.firsts[i], size, d));
    }
  }

  lemma InsertStep(f: Flat, es: seq<Entry>, cells: seq<Cell>, blocks: Storage, i: nat, d: nat, size: nat)
    requires Laid(f, es, cells, blocks) && i < |es|
    requires Lengths(es, d, size) && Short(es) && 1 <= size && d <= size + 1
    ensures |f.firsts| == |es| && Offset(es, i) + MemSize(InsertLength(f.firsts[i], size, d)) == Offset(es, i + 1)
  {
    LaidFirst(f, es, cells, blocks, i);
    LengthsAgree(es[i], d, size);
  }

  /** What insert puts into the bucket for a residue: its bytes, or a pointer to a new block. */
  method StoreResidue(residue: Path, heap: BlockHeap) returns (item: seq<byte>, ghost c: Cell)
    requires heap.Valid() && heap.free != []
    modifies heap
    ensures heap.Valid() && item == CellBytes(c) && Keeps(heap.blocks, c, residue)
    ensures forall p | p in old(heap.blocks) :: p in heap.blocks && heap.blocks[p] == old(heap.blocks)[p]
    ensures c.Block? ==> c.ptr !in old(heap.blocks)
    ensures Exchanged(old(heap.blocks), heap.blocks, {}, Pointers([c]))
    ensures |item| == if |residue| >= HEAPBOUND then PTR_BYTES else |residue|
  {
    if |residue| >= HEAPBOUND {
      var p := heap.New(residue);
      item, c := p, Block(p);
    } else {
      item, c := residue, Inline(residue);
    }
  }

  lemma InsertLaid(f: Flat, g: Flat, es: seq<Entry>, cells: seq<Cell>, before: Storage, blocks: Storage, b: nat,
                   c: Cell, e: Entry)
    requires Laid(f, es, cells, before) && Short(es) && b <= |es| && Keeps(blocks, c, e.residue)
    requires forall p | p in before :: p in blocks && blocks[p] == before[p]
    requires c.Block? ==> c.ptr !in before
    requires |f.firsts| == |es| && 0 <= e.First() <= 0xFFFF && g.firsts == InsertAt(f.firsts, b, e.First())
    requires Offset(es, b) <= |f.data| && g.data == f.data[..Offset(es, b)] + CellBytes(c) + f.data[Offset(es, b)..]
    requires g.totsize == f.totsize + |CellBytes(c)|
    ensures |cells| == |es| && Laid(g, InsertAt(es, b, e), InsertAt(cells, b, c), blocks)
  {
    assert Lays(f, es, cells, before);
    CutData(before, cells, es, b);
    InsertCell(before, blocks, cells, es, b, c, e);
    InsertFirsts(f.firsts, es, b, e);
  }

  lemma InsertFirsts(firsts: seq<u16>, es: seq<Entry>, b: nat, e: Entry)
    requires |firsts| == |es| && b <= |es| && (forall i | 0 <= i < |es| :: firsts[i] == es[i].First())
    requires 0 <= e.First() <= 0xFFFF
    ensures forall i | 0 <= i <= |es| :: InsertAt(firsts, b, e.First())[i] == InsertAt(es, b, e)[i].First()
  {
  }

  method InsertBytes(f: Flat, key: Key, d: nat, b: nat, id: nat, entries: bool, heap: BlockHeap, ghost es: seq<Entry>,
                     ghost cells: seq<Cell>)
    returns (g: Flat, ghost c: Cell)
    requires Laid(f, es, cells, heap.blocks) && Lengths(es, d, |key|) && d <= |key| + 1
    requires b <= |es| == |cells| && |f.ids| == if entries then |es| else 0
    requires heap.Valid() && heap.free != []
    modifies heap
    ensures heap.Valid() && Laid(g, InsertAt(es, b, EntryOf(key, d)), InsertAt(cells, b, c), heap.blocks)
    ensures g.ids == if entries then InsertAt(f.ids, b, id) else []
    ensures Exchanged(old(heap.blocks), heap.blocks, {}, Pointers([c]))
    ensures c.Block? <==> |key| - d >= HEAPBOUND
  {
    LengthsAreShort(es, d, |key|);
    LaidSizes(f, es, cells, heap.blocks);
    SearchFirstIs(key, d);
    var tmpsize := BytesBefore(f, b, |key|, d, es, cells, heap.blocks);
    OffsetWithin(f, es, cells, heap.blocks, b);
    var item;
    item, c := StoreResidue(if |key| > d then key[d..] else [], heap);
    var data := f.data[..tmpsize] + item + f.data[tmpsize..];
    var ids := if entries then InsertAt(f.ids, b, id) else [];
    g := Flat(InsertAt(f.firsts, b, SearchFirst(key, d)), ids, data, f.totsize + |item|);
    assert EntryOf(key, d).residue == if |key| > d then key[d..] else [];
    InsertLaid(f, g, es, cells, old(heap.blocks), heap.blocks, b, c, EntryOf(key, d));
  }

  lemma OffsetWithin(f: Flat, es: seq<Entry>, cells: seq<Cell>, blocks: Storage, b: nat)
    requires Laid(f, es, cells, blocks) && Short(es) && b <= |es|
    ensures Offset(es, b) <= |f.data|
  {
    assert Lays(f, es, cells, blocks);
    CutData(blocks, cells, es, b);
  }

  // ------------------------------------------------------------ erase

  /** The bytes in front of the erased entry, added up in 16 bits. */
  method BytesBeforeErased(f: Flat, bucketid: nat, onHeap: int, d: nat, ghost es: seq<Entry>, ghost cells: seq<Cell>,
                           ghost blocks: Storage, ghost size: nat)
    returns (before: u16)
    requires Laid(f, es, cells, blocks) && |es| <= SPLITBOUND
    requires Lengths(es, d, size) && Short(es) && 1 <= size && d <= size + 1 && bucketid < |es| && onHeap == size - d
    ensures before == Offset(es, bucketid)
  {
    if d >= 2 {
      EraseDeep(es, bucketid, onHeap, d, size);
      return Wrap(MemSize(if onHeap > 0 then Wrap(onHeap) else 0) * bucketid);
    }
    LaidSizes(f, es, cells, blocks);
    before := 0;
    for i := 0 to bucketid
      invariant before == Offset(es, i)
    {
      EraseStep(f, es, cells, blocks, i, onHeap, d, size);
      before := Wrap(before + MemSize(EraseLength(f.firsts[i], onHeap, d)));
    }
  }

  lemma ErasedLength(f: Flat, es: seq<Entry>, cells: seq<Cell>, blocks: Storage, i: nat, onHeap: int, d: nat, size: nat)
    requires Laid(f, es, cells, blocks) && i < |es|
    requires Lengths(es, d, size) && 1 <= size && d <= size + 1 && onHeap == size - d
    ensures |f.firsts| == |es| && EraseLength(f.firsts[i], onHeap, d) == |es[i].residue|
  {
    LaidFirst(f, es, cells, blocks, i);
    LengthsAgree(es[i], d, size);
  }

  lemma EraseStep(f: Flat, es: seq<Entry>, cells: seq<Cell>, blocks: Storage, i: nat, onHeap: int, d: nat, size: nat)
    requires Laid(f, es, cells, blocks) && |es| <= SPLITBOUND && i < |es|
    requires Lengths(es, d, size) && Short(es) && 1 <= size && d <= size + 1 && onHeap == size - d
    ensures |f.firsts| == |es|
    ensures Wrap(Offset(es, i) + MemSize(EraseLength(f.firsts[i], onHeap, d))) == Offset(es, i + 1)
  {
    ErasedLength(f, es, cells, blocks, i, onHeap, d, size);
    OffsetFits(es, i + 1);
    WrapSmall(Offset(es, i + 1));
  }

  lemma EraseDeep(es: seq<Entry>, b: nat, onHeap: int, d: nat, size: nat)
    requires |es| <= SPLITBOUND && b < |es| && Lengths(es, d, size) && Short(es) && d >= 2 && onHeap == size - d
    ensures Wrap(MemSize(if onHeap > 0 then Wrap(onHeap) else 0) * b) == Offset(es, b)
  {
    OffsetFits(es, b);
    WrapSmall(Offset(es, b));
    SameLengthOffset(es, b, if size > d then size - d else 0);
    WrapSmall(if size > d then size - d else 0);
  }

  method EraseBytes(f: Flat, bucketid: nat, onHeap: int, d: nat, heap: BlockHeap, ghost es: seq<Entry>,
                    ghost cells: seq<Cell>, ghost size: nat)
    returns (g: Flat)
    requires Laid(f, es, cells, heap.blocks) && |es| <= SPLITBOUND && |es| == |cells| && heap.Valid()
    requires f.ids == [] || |f.ids| == |es|
    requires Lengths(es, d, size) && 1 <= size && d <= size + 1 && bucketid < |es| && onHeap == size - d
    modifies heap
    ensures heap.Valid() && Laid(g, RemoveAt(es, bucketid), RemoveAt(cells, bucketid), heap.blocks)
    ensures g.ids == if f.ids == [] then [] else RemoveAt(f.ids, bucketid)
    ensures Exchanged(old(heap.blocks), heap.blocks, Pointers([cells[bucketid]]), {})
  {
    LengthsAreShort(es, d, size);
    var before := BytesBeforeErased(f, bucketid, onHeap, d, es, cells, heap.blocks, size);
    ErasedLength(f, es, cells, heap.blocks, bucketid, onHeap, d, size);
    var len := EraseLength(f.firsts[bucketid], onHeap, d);
    ReadBack(f, es, cells, heap.blocks, bucketid);
    LaidSizes(f, es, cells, heap.blocks);
    var taken: nat := DropResidue(f.data, before, len, heap, cells[bucketid]);
    if |f.firsts| > 1 {
      var ids := if f.ids == [] then [] else RemoveAt(f.ids, bucketid);
      g := Flat(RemoveAt(f.firsts, bucketid), ids, f.data[..before] + f.data[before + taken..], f.totsize - taken);
    } else {
      g := EMPTY_BUCKET;
    }
    EraseLaid(f, g, es, cells, old(heap.blocks), heap.blocks, bucketid);
  }

  /** Frees the block of an erased entry, if it has one; returns what the entry took up in the bucket. */
  method DropResidue(data: seq<byte>, before: nat, len: u16, heap: BlockHeap, ghost c: Cell) returns (taken: nat)
    requires heap.Valid() && before + MemSize(len) <= |data|
    requires len >= HEAPBOUND ==> c == Block(data[before..before + PTR_BYTES]) && c.ptr in heap.blocks
    requires len < HEAPBOUND ==> c.Inline?
    modifies heap
    ensures heap.Valid() && taken == MemSize(len)
    ensures heap.blocks == if c.Block? then old(heap.blocks) - {c.ptr} else old(heap.blocks)
    ensures Exchanged(old(heap.blocks), heap.blocks, Pointers([c]), {})
  {
    taken := len;
    assert c in [c];
    if len >= HEAPBOUND {
      heap.Delete(data[before..before + PTR_BYTES]);
      taken := PTR_BYTES;
    }
  }

  lemma EraseLaid(f: Flat, g: Flat, es: seq<Entry>, cells: seq<Cell>, before: Storage, blocks: Storage, b: nat)
    requires Laid(f, es, cells, before) && Short(es) && b < |es| == |cells| == |f.firsts|
    requires Offset(es, b) <= Offset(es, b + 1) <= |f.data|
    requires blocks == if cells[b].Block? then before - {cells[b].ptr} else before
    requires if |es| == 1 then g == EMPTY_BUCKET else
      && g.firsts == RemoveAt(f.firsts, b) && g.data == f.data[..Offset(es, b)] + f.data[Offset(es, b + 1)..]
      && g.totsize == f.totsize - (Offset(es, b + 1) - Offset(es, b))
    ensures Laid(g, RemoveAt(es, b), RemoveAt(cells, b), blocks)
  {
    assert Lays(f, es, cells, before);
    RemoveCell(before, blocks, cells, es, b);
    RemoveImage(before, cells, es, b);
    RemoveNoSharing(cells, b);
    if |es| == 1 { assert RemoveAt(cells, b) == []; }
  }

  lemma RemoveNoSharing(cells: seq<Cell>, b: nat)
    requires NoSharing(cells) && b < |cells|
    ensures NoSharing(RemoveAt(cells, b))
  {
  }

  // ------------------------------------------------------------ reading a key back

  /** build_path: the key's length, and the offset of entry b. */
  method SizeAndOffset(f: Flat, path: Path, b: nat, ghost es: seq<Entry>, ghost cells: seq<Cell>,
                       ghost blocks: Storage, ghost size: nat)
    returns (len: u16, offset: nat)
    requires Laid(f, es, cells, blocks)
    requires Lengths(es, |path|, size) && Short(es) && b < |es| && |path| <= size + 1 && 1 <= size
    requires |path| >= 1 ==> (path[0] as int) == size / 256
    requires |path| >= 2 ==> (path[1] as int) == size % 256
    ensures |path| == 0 ==> len == es[b].First()
    ensures |path| == 1 ==> len == (size / 256) * 256 + es[b].hi
    ensures |path| >= 2 ==> len == size
    ensures |path| <= size ==> offset == Offset(es, b)
    ensures |path| == size + 1 && |path| >= 2 ==> (offset == Offset(es, b) <==> b == 0)
  {
    var ps := |path|;
    LaidFirst(f, es, cells, blocks, b);
    FirstBytes(es[b]);
    len := PathSize(f.firsts[b], path);
    if ps <= 1 {
      offset := AddPathLengths(f, ps, len, b, es, cells, blocks, size);
    } else {
      PathOffset(es, b, ps, size);
      offset := MemSize(PathLength(f.firsts[b], len, ps)) * b;
    }
  }

  method AddPathLengths(f: Flat, ps: nat, len: u16, b: nat, ghost es: seq<Entry>, ghost cells: seq<Cell>,
                        ghost blocks: Storage, ghost size: nat)
    returns (offset: nat)
    requires Laid(f, es, cells, blocks) && Lengths(es, ps, size) && Short(es) && b < |es| && ps <= 1
    requires len == if ps == 0 then es[b].First() else (size / 256) * 256 + es[b].hi
    ensures offset == Offset(es, b)
  {
    offset := 0;
    LaidSizes(f, es, cells, blocks);
    for i := 0 to b
      invariant offset == Offset(es, i)
    {
      PathStep(f, es, cells, blocks, b, i, ps, size);
      offset := offset + MemSize(PathLength(f.firsts[i], len, ps));
    }
  }

  lemma PathStep(f: Flat, es: seq<Entry>, cells: seq<Cell>, blocks: Storage, b: nat, i: nat, ps: nat, size: nat)
    requires Laid(f, es, cells, blocks) && Short(es) && Lengths(es, ps, size) && b < |es| && i < |es| && ps <= 1
    ensures 0 <= es[b].First() <= 0xFFFF && 0 <= (size / 256) * 256 + es[b].hi <= 0xFFFF && |f.firsts| == |es|
    ensures var len := if ps == 0 then es[b].First() else (size / 256) * 256 + es[b].hi;
      Offset(es, i + 1) == Offset(es, i) + MemSize(PathLength(f.firsts[i], len, ps))
  {
    LaidFirst(f, es, cells, blocks, i);
    SameHighByte(es[b], es[i], ps, size);
  }

  lemma SameHighByte(a: Entry, e: Entry, ps: nat, size: nat)
    requires size <= 0xFFFF && ps <= 1 && 0 <= LengthAt(e, ps, size)
    ensures 0 <= e.First() <= 0xFFFF && 0 <= a.First() <= 0xFFFF && 0 <= (size / 256) * 256 + a.hi <= 0xFFFF
    ensures PathLength(e.First(), if ps == 0 then a.First() else (size / 256) * 256 + a.hi, ps) == LengthAt(e, ps, size)
  {
    FirstBytes(e);
    FirstBytes(a);
    if ps == 1 {
      var len := (size / 256) * 256 + a.hi;
      assert HighByte(len) == size / 256;
      LowPoke(len, e.First());
      WrapSmall(LengthAt(e, 1, size));
    }
  }

  lemma PathOffset(es: seq<Entry>, b: nat, ps: nat, size: nat)
    requires Lengths(es, ps, size) && Short(es) && b < |es| && 2 <= ps <= size + 1
    ensures forall f: u16 :: PathLength(f, size, ps) == if ps <= size then size - ps else 0xFFFF
    ensures ps <= size ==> MemSize(size - ps) * b == Offset(es, b)
    ensures ps == size + 1 ==> (MemSize(0xFFFF) * b == Offset(es, b) <==> b == 0)
  {
    DeepOffset(es, b, ps, size);
    BoundsFit();
  }

  /** write_data: residue from the bucket or the heap, then the path, then `first`. */
  method WriteKey(f: Flat, path: Path, b: nat, blocks: Storage, ghost es: seq<Entry>, ghost cells: seq<Cell>,
                  ghost k: Key)
    returns (dest: array<byte>)
    requires Laid(f, es, cells, blocks) && Lengths(es, |path|, |k|)
    requires b < |es| && es[b] == EntryOf(k, |path|) && |path| <= |k| + 1 && path == Enc(k)[..|path|]
    ensures fresh(dest) && dest[..] == k
  {
    LengthsAreShort(es, |path|, |k|);
    var size, offset := SizeAndOffset(f, path, b, es, cells, blocks, |k|);
    assert size == |k|;
    dest := new byte[size];
    LaidFirst(f, es, cells, blocks, b);
    WriteResidue(dest, f, |path|, b, offset, blocks, es, cells, k);
    FirstBytes(es[b]);
    WritePath(dest, path, HighByte(f.firsts[b]), LowByte(f.firsts[b]), k);
  }

  method WriteResidue(dest: array<byte>, f: Flat, ps: nat, b: nat, offset: nat, blocks: Storage, ghost es: seq<Entry>,
                      ghost cells: seq<Cell>, ghost k: Key)
    requires Laid(f, es, cells, blocks) && Short(es) && b < |es| && es[b] == EntryOf(k, ps) && dest.Length == |k|
    requires ps <= |k| ==> offset == Offset(es, b)
    modifies dest
    ensures forall j | ps <= j < |k| :: dest[j] == k[j]
  {
    var size := dest.Length;
    if size > ps {
      ReadBack(f, es, cells, blocks, b);
      var src := ResidueIn(f.data, offset, size - ps, blocks);
      for i := 0 to size - ps
        invariant forall j | ps <= j < ps + i :: dest[j] == k[j]
      {
        dest[ps + i] := src[i];
      }
    }
  }

  /** The bytes in front of the residue. */
  method WritePath(dest: array<byte>, path: Path, hi: byte, lo: byte, ghost k: Key)
    requires |path| <= |k| + 1 && path == Enc(k)[..|path|] && dest.Length == |k|
    requires hi == EntryOf(k, |path|).hi && lo == EntryOf(k, |path|).lo
    requires forall j | |path| <= j < |k| :: dest[j] == k[j]
    modifies dest
    ensures dest[..] == k
  {
    var ps, size := |path|, dest.Length;
    var pos := 0;
    while pos + 2 < ps
      invariant pos <= size && (ps <= 2 ==> pos == 0) && (ps > 2 ==> pos + 2 <= ps)
      invariant forall j | 0 <= j < pos :: dest[j] == k[j]
      invariant forall j | ps <= j < size :: dest[j] == k[j]
    {
      assert path[pos + 2] == Enc(k)[pos + 2] == k[pos];
      dest[pos] := path[pos + 2];
      pos := pos + 1;
    }
    if ps > 0 {
      if ps > 1 && pos < size {
        dest[pos] := hi;
        pos := pos + 1;
      }
      if pos < size {
        dest[pos] := lo;
        pos := pos + 1;
      }
    }
  }
}
