/** Freeing and copying the bytes of a bucket, with lengths worked out from the bytes collected on the way down. */
module Teardown {
  import opened Bytes
  import opened Config
  import opened Entries
  import opened Memory
  import opened Layout
  import opened Recovery
  import opened FlatBucket
  import opened FlatMoves

  // ------------------------------------------------------------ cleanup

  /** The blocks of the first i cells have been freed, nothing else. */
  ghost predicate Freed(start: Storage, now: Storage, cells: seq<Cell>, i: nat) {
    && i <= |cells| && now.Keys == start.Keys - Pointers(cells[..i])
    && forall p | p in now :: now[p] == start[p]
  }

  lemma CleanedLength(f: Flat, es: seq<Entry>, cells: seq<Cell>, blocks: Storage, i: nat, d: nat, size: nat)
    requires Laid(f, es, cells, blocks) && Lengths(es, d, size) && 1 <= size && d <= size + 1 && i < |es|
    ensures |f.firsts| == |es| && CleanLength(f.firsts[i], CollectedSize(size, d), d) == |es[i].residue|
  {
    LaidFirst(f, es, cells, blocks, i);
    LengthsAgree(es[i], d, size);
  }

  lemma FreeNext(start: Storage, now: Storage, next: Storage, cells: seq<Cell>, es: seq<Entry>, i: nat)
    requires Stores(start, cells, es) && Freed(start, now, cells, i) && i < |es|
    requires next == if cells[i].Block? then now - {cells[i].ptr} else now
    ensures Freed(start, next, cells, i + 1)
  {
    assert cells[..i+1] == cells[..i] + [cells[i]];
    assert Pointers(cells[..i+1]) == Pointers(cells[..i]) + Pointers([cells[i]]);
  }

  /** A block not freed yet is there to be freed. */
  lemma StillThere(start: Storage, now: Storage, cells: seq<Cell>, es: seq<Entry>, i: nat)
    requires Stores(start, cells, es) && Freed(start, now, cells, i) && i < |es| && cells[i].Block?
    ensures cells[i].ptr in now
  {
    assert Keeps(start, cells[i], es[i].residue);
    forall j | 0 <= j < i ensures cells[j] != cells[i] { assert cells[j].Block? ==> cells[j].ptr != cells[i].ptr; }
  }

  lemma NoBlocks(cells: seq<Cell>, es: seq<Entry>, blocks: Storage)
    requires Stores(blocks, cells, es) && forall i | 0 <= i < |es| :: |es[i].residue| < HEAPBOUND
    ensures Pointers(cells) == {}
  {
    forall i | 0 <= i < |cells| ensures cells[i].Inline? { assert Keeps(blocks, cells[i], es[i].residue); }
  }

  /** Frees every block of the bucket once, and no other. */
  method CleanBytes(f: Flat, encsize: u16, d: nat, heap: BlockHeap, ghost es: seq<Entry>, ghost cells: seq<Cell>,
                    ghost size: nat)
    requires Laid(f, es, cells, heap.blocks) && heap.Valid()
    requires Lengths(es, d, size) && 1 <= size && d <= size + 1 && encsize == CollectedSize(size, d)
    modifies heap
    ensures heap.Valid() && Exchanged(old(heap.blocks), heap.blocks, Pointers(cells), {})
    ensures |heap.free| >= old(|heap.free|)
  {
    hide Stores, Freed;
    LengthsAreShort(es, d, size);
    LaidParts(f, es, cells, heap.blocks);
    ghost var start := heap.blocks;
    if d >= 2 && (encsize < d || encsize - d < HEAPBOUND) {
      DeepLengths(es, d, size);
      NoBlocks(cells, es, start);
      return;
    }
    FreedNone(start, cells, es);
    if d >= 2 {
      for i := 0 to |f.firsts|
        invariant heap.Valid() && Freed(start, heap.blocks, cells, i) && |heap.free| >= old(|heap.free|)
      {
        BlockAt(f, es, cells, start, i, d, size);
        StillThere(start, heap.blocks, cells, es, i);
        FreeNext(start, heap.blocks, heap.blocks - {cells[i].ptr}, cells, es, i);
        heap.Delete(f.data[i * PTR_BYTES..i * PTR_BYTES + PTR_BYTES]);
      }
    } else {
      var offset := 0;
      for i := 0 to |f.firsts|
        invariant heap.Valid() && Freed(start, heap.blocks, cells, i) && |heap.free| >= old(|heap.free|)
        invariant offset == Offset(es, i)
      {
        CleanedLength(f, es, cells, start, i, d, size);
        ReadBack(f, es, cells, start, i);
        var len := CleanLength(f.firsts[i], encsize, d);
        FreeNext(start, heap.blocks, if cells[i].Block? then heap.blocks - {cells[i].ptr}
          else heap.blocks, cells, es, i);
        if len >= HEAPBOUND {
          StillThere(start, heap.blocks, cells, es, i);
          heap.Delete(f.data[offset..offset + PTR_BYTES]);
        }
        offset := offset + MemSize(len);
      }
    }
    FreedAll(start, heap.blocks, cells);
  }

  lemma DeepLengths(es: seq<Entry>, d: nat, size: nat)
    requires Lengths(es, d, size) && d >= 2
    ensures forall i | 0 <= i < |es| :: |es[i].residue| == if size > d then size - d else 0
  {
  }

  lemma FreedNone(start: Storage, cells: seq<Cell>, es: seq<Entry>)
    requires Stores(start, cells, es)
    ensures Freed(start, start, cells, 0) && Pointers(cells) <= start.Keys
  {
    ConvertStart(start, cells, es);
  }

  lemma FreedAll(start: Storage, now: Storage, cells: seq<Cell>)
    requires Freed(start, now, cells, |cells|) && Pointers(cells) <= start.Keys
    ensures Exchanged(start, now, Pointers(cells), {})
  {
    assert cells[..|cells|] == cells;
  }

  /** Where every residue is out of line, pointer i lies at 8 * i. */
  lemma BlockAt(f: Flat, es: seq<Entry>, cells: seq<Cell>, blocks: Storage, i: nat, d: nat, size: nat)
    requires Laid(f, es, cells, blocks) && Lengths(es, d, size) && d >= 2 && size > d && size - d >= HEAPBOUND
    requires i < |es|
    ensures i * PTR_BYTES + PTR_BYTES <= |f.data| && |cells| == |es|
    ensures cells[i] == Block(f.data[i * PTR_BYTES..i * PTR_BYTES + PTR_BYTES])
    ensures Short(es) && Offset(es, i) == i * PTR_BYTES && |es[i].residue| == size - d
    ensures cells[i].ptr in blocks && es[i].residue <= blocks[cells[i].ptr]
  {
    hide Stores, Image, ResidueIn;
    LengthsAreShort(es, d, size);
    BlockOffset(es, i, d, size);
    ReadBack(f, es, cells, blocks, i);
    LaidParts(f, es, cells, blocks);
    KeptCell(blocks, cells, es, i);
  }

  lemma BlockOffset(es: seq<Entry>, i: nat, d: nat, size: nat)
    requires Lengths(es, d, size) && Short(es) && d >= 2 && size > d && size - d >= HEAPBOUND && i < |es|
    ensures Offset(es, i) == i * PTR_BYTES && |es[i].residue| == size - d
  {
    DeepLengths(es, d, size);
    SameLengthOffset(es, i, size - d);
  }

  lemma KeptCell(blocks: Storage, cells: seq<Cell>, es: seq<Entry>, i: nat)
    requires Stores(blocks, cells, es) && i < |es|
    ensures i < |cells| && Keeps(blocks, cells[i], es[i].residue)
  {
  }

  // ------------------------------------------------------------ clone

  /** The first i cells have copies, in blocks of their own; everything that was there is still there. */
  ghost predicate Copied(start: Storage, now: Storage, y: seq<Cell>, es: seq<Entry>, i: nat) {
    i <= |es| && Stores(now, y, es[..i]) && Exchanged(start, now, {}, Pointers(y))
  }

  lemma CopyNext(start: Storage, now: Storage, next: Storage, y: seq<Cell>, es: seq<Entry>, i: nat, c: Cell)
    requires Copied(start, now, y, es, i) && i < |es| && Keeps(next, c, es[i].residue) && (c.Block? ==> c.ptr !in now)
    requires next.Keys == now.Keys + Pointers([c]) && forall p | p in now :: next[p] == now[p]
    ensures Copied(start, next, y + [c], es, i + 1) && Image(y + [c]) == Image(y) + CellBytes(c)
  {
    hide Stores, Image, Keeps;
    StoresAppend(now, next, y, es, i, c);
    AppendImage(y, c);
    assert Pointers(y + [c]) == Pointers(y) + Pointers([c]);
  }

  lemma AppendImage(y: seq<Cell>, c: Cell)
    ensures Image(y + [c]) == Image(y) + CellBytes(c)
  {
    assert (y + [c])[..|y|] == y;
  }

  lemma StoresAppend(now: Storage, next: Storage, y: seq<Cell>, es: seq<Entry>, i: nat, c: Cell)
    requires i < |es| && Stores(now, y, es[..i]) && Keeps(next, c, es[i].residue) && (c.Block? ==> c.ptr !in now)
    requires next.Keys == now.Keys + Pointers([c]) && forall p | p in now :: next[p] == now[p]
    ensures Stores(next, y + [c], es[..i+1])
  {
    var z := y + [c];
    forall j | 0 <= j < i ensures Keeps(next, z[j], es[..i+1][j].residue) && (z[j].Block? ==> z[j].ptr in now) {
      assert Keeps(now, y[j], es[..i][j].residue);
    }
  }

  lemma CopiedNone(start: Storage, es: seq<Entry>)
    ensures Copied(start, start, [], es, 0)
  {
  }

  /** The original keeps standing beside its copy. */
  lemma OriginalStays(f: Flat, es: seq<Entry>, cells: seq<Cell>, start: Storage, now: Storage)
    requires Laid(f, es, cells, start) && start.Keys <= now.Keys && forall p | p in start :: now[p] == start[p]
    ensures Laid(f, es, cells, now)
  {
    LaidParts(f, es, cells, start);
    forall i | 0 <= i < |es|
      ensures Keeps(now, cells[i], es[i].residue)
    {
      assert Keeps(start, cells[i], es[i].residue);
    }
  }

  lemma CopiedLaid(f: Flat, g: Flat, es: seq<Entry>, cells: seq<Cell>, start: Storage, now: Storage, y: seq<Cell>)
    requires Laid(f, es, cells, start) && Copied(start, now, y, es, |es|)
    requires g.firsts == f.firsts && g.data == Image(y) && g.totsize == |g.data|
    ensures Laid(g, es, y, now) && Laid(f, es, cells, now) && Exchanged(start, now, {}, Pointers(y))
  {
    LaidParts(f, es, cells, start);
    assert es[..|es|] == es;
    OriginalStays(f, es, cells, start, now);
  }

  /** Copies a bucket without ids: short residues as they are, long ones into new blocks. */
  method CloneBytes(f: Flat, encsize: u16, d: nat, heap: BlockHeap, ghost es: seq<Entry>, ghost cells: seq<Cell>,
                    ghost size: nat)
    returns (g: Flat, ghost y: seq<Cell>)
    requires Laid(f, es, cells, heap.blocks) && heap.Valid() && |heap.free| >= |es|
    requires Lengths(es, d, size) && 1 <= size && d <= size + 1 && encsize == CollectedSize(size, d)
    modifies heap
    ensures heap.Valid() && |heap.free| >= old(|heap.free|) - |es|
    ensures Laid(g, es, y, heap.blocks) && Laid(f, es, cells, heap.blocks) && g.ids == []
    ensures Exchanged(old(heap.blocks), heap.blocks, {}, Pointers(y))
  {
    hide Stores, Copied, Exchanged, Image;
    LengthsAreShort(es, d, size);
    LaidParts(f, es, cells, heap.blocks);
    ghost var start := heap.blocks;
    if d >= 2 && (encsize < d || encsize - d < HEAPBOUND) {
      DeepLengths(es, d, size);
      y := cells;
      g := Flat(f.firsts, [], f.data, f.totsize);
      InlineCopy(f, g, es, cells, start);
      return;
    }
    var dest := new byte[f.totsize];
    var offset := 0;
    y := [];
    CopiedNone(start, es);
    EmptyImage();
    for i := 0 to |f.firsts|
      invariant heap.Valid() && |heap.free| >= old(|heap.free|) - i
      invariant Copied(start, heap.blocks, y, es, i)
      invariant offset == Offset(es, i) <= dest.Length && dest[..offset] == Image(y)
    {
      ghost var now := heap.blocks;
      var c := CloneEntry(f, i, offset, encsize, d, dest, heap, es, cells, start, y, size);
      CopyNext(start, now, heap.blocks, y, es, i, c);
      y := y + [c];
      offset := offset + MemSize(CleanLength(f.firsts[i], encsize, d));
    }
    WholeData(f, es, cells, start);
    g := Flat(f.firsts, [], dest[..], f.totsize);
    assert dest[..] == dest[..offset];
    CopiedLaid(f, g, es, cells, start, heap.blocks, y);
  }

  lemma EmptyImage()
    ensures Image([]) == []
  {
  }

  lemma WholeData(f: Flat, es: seq<Entry>, cells: seq<Cell>, blocks: Storage)
    requires Laid(f, es, cells, blocks) && Short(es)
    ensures Offset(es, |es|) == |f.data| == f.totsize
  {
    LaidParts(f, es, cells, blocks);
    CutData(blocks, cells, es, |es|);
    assert cells[..|es|] == cells;
    PrefixSize(blocks, cells, es, |es|);
  }

  lemma InlineCopy(f: Flat, g: Flat, es: seq<Entry>, cells: seq<Cell>, blocks: Storage)
    requires Laid(f, es, cells, blocks) && forall i | 0 <= i < |es| :: |es[i].residue| < HEAPBOUND
    requires g.firsts == f.firsts && g.data == f.data && g.totsize == f.totsize
    ensures Laid(g, es, cells, blocks) && Exchanged(blocks, blocks, {}, Pointers(cells))
  {
    LaidParts(f, es, cells, blocks);
    NoBlocks(cells, es, blocks);
  }

  /** One entry: below two path bytes the new block is as long as the whole key, of which the residue fills the
      front. */
  method CloneEntry(f: Flat, i: nat, offset: nat, encsize: u16, d: nat, dest: array<byte>, heap: BlockHeap,
                    ghost es: seq<Entry>, ghost cells: seq<Cell>, ghost start: Storage, ghost y: seq<Cell>,
                    ghost size: nat)
    returns (ghost c: Cell)
    requires Laid(f, es, cells, start) && Short(es) && i < |es| && Copied(start, heap.blocks, y, es, i)
    requires Lengths(es, d, size) && 1 <= size && d <= size + 1 && encsize == CollectedSize(size, d)
    requires offset == Offset(es, i) && dest.Length == f.totsize && heap.Valid() && heap.free != []
    modifies dest, heap
    ensures heap.Valid() && |heap.free| >= old(|heap.free|) - 1
    ensures |f.firsts| == |es|
    ensures offset + MemSize(CleanLength(f.firsts[i], encsize, d)) == Offset(es, i + 1) <= dest.Length
    ensures dest[..Offset(es, i + 1)] == old(dest[..offset]) + CellBytes(c)
    ensures Keeps(heap.blocks, c, es[i].residue) && (c.Block? ==> c.ptr !in old(heap.blocks))
    ensures heap.blocks.Keys == old(heap.blocks.Keys) + Pointers([c])
    ensures forall p | p in old(heap.blocks) :: heap.blocks[p] == old(heap.blocks)[p]
  {
    hide Stores, Image, Lengths, CleanLength, CollectedSize;
    CleanedLength(f, es, cells, start, i, d, size);
    ReadBack(f, es, cells, start, i);
    CopiedBlocks(start, heap.blocks, y, es, i);
    var len := CleanLength(f.firsts[i], encsize, d);
    LaidSizes(f, es, cells, start);
    if len >= HEAPBOUND {
      var src := heap.blocks[f.data[offset..offset + PTR_BYTES]][..len];
      var room := if d == 1 then src + [0] else src;
      var p := heap.New(room);
      c := Block(p);
      Write(dest, offset, p);
    } else {
      c := Inline(f.data[offset..offset + len]);
      Write(dest, offset, f.data[offset..offset + len]);
    }
  }

  lemma CopiedBlocks(start: Storage, now: Storage, y: seq<Cell>, es: seq<Entry>, i: nat)
    requires Copied(start, now, y, es, i)
    ensures forall p | p in start :: p in now && now[p] == start[p]
  {
  }
}
