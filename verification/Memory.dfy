/** Out-of-line storage: 16-bit numbers taken apart byte by byte, pointers as eight bytes, and the block heap. */
module Memory {
  import opened Bytes
  import opened Config

  type u16 = n: int | 0 <= n < 0x1_0000

  /** Conversion to 16 bits drops what does not fit. */
  function Wrap(n: int): u16 { n % 0x1_0000 }

  function HighByte(t: u16): byte { t / 256 }

  function LowByte(t: u16): byte { t % 256 }

  /** Assigning one byte of a 16-bit number in place. */
  function SetHigh(t: u16, b: byte): u16 { (b as int) * 256 + t % 256 }

  function SetLow(t: u16, b: byte): u16 { (t / 256) * 256 + b }

  const PTR_BYTES: nat := 8

  /** A pointer as it lies in a bucket. */
  type Pointer = p: seq<byte> | |p| == PTR_BYTES witness [0, 0, 0, 0, 0, 0, 0, 0]

  /** A bucket of |firsts| entries; `totsize` is the size that the leaf records for `data`. `ids` is empty where the
      trie keeps no entries. */
  datatype Flat = Flat(firsts: seq<u16>, ids: seq<nat>, data: seq<byte>, totsize: nat)

  const EMPTY_BUCKET: Flat := Flat([], [], [], 0)

  /** What a residue of d bytes takes up in a bucket. */
  function MemSize(d: u16): nat {
    if d >= HEAPBOUND then PTR_BYTES else d
  }

  type Storage = map<Pointer, seq<byte>>

  function InUse(blocks: Storage): nat { |blocks| }

  /** The blocks in use, and the addresses the allocator hands out next; `total` counts both. */
  class BlockHeap {
    var blocks: Storage
    var free: seq<Pointer>
    ghost const total: nat

    ghost predicate Valid()
      reads this
    {
      && (forall i | 0 <= i < |free| :: free[i] !in blocks)
      && (forall i, j | 0 <= i < j < |free| :: free[i] != free[j])
      && forall b {:trigger InUse(b)} | b == blocks :: |free| + InUse(b) == total
    }

    constructor (free: seq<Pointer>)
      requires forall i, j | 0 <= i < j < |free| :: free[i] != free[j]
      ensures Valid() && blocks == map[] && this.free == free
    {
      blocks := map[];
      this.free := free;
      total := |free|;
      new;
      assert InUse(blocks) == 0;
    }

    method New(content: seq<byte>) returns (p: Pointer)
      requires Valid() && free != []
      modifies this
      ensures Valid() && p !in old(blocks) && blocks == old(blocks)[p := content] && |free| == old(|free|) - 1
    {
      assert InUse(blocks) == |blocks|;
      p := free[0];
      blocks, free := blocks[p := content], free[1..];
    }

    lemma Count()
      requires Valid()
      ensures |free| + InUse(blocks) == total
    {
    }

    /** Only a block in use may be freed; its address may be handed out again. */
    method Delete(p: Pointer)
      requires Valid() && p in blocks
      modifies this
      ensures Valid() && blocks == old(blocks) - {p} && |free| == old(|free|) + 1
    {
      assert InUse(blocks) == |blocks|;
      WithoutOne(blocks, p);
      blocks, free := blocks - {p}, free + [p];
    }
  }

  lemma WithoutOne(blocks: Storage, p: Pointer)
    requires p in blocks
    ensures |blocks - {p}| == |blocks| - 1
  {
    assert (blocks - {p}).Keys == blocks.Keys - {p};
    assert |blocks| == |blocks.Keys| && |blocks - {p}| == |(blocks - {p}).Keys|;
  }

  /** From `before` to `after`, the blocks `out` were freed and the blocks `into` allocated; nothing else changed. */
  ghost predicate Exchanged(before: Storage, after: Storage, out: set<Pointer>, into: set<Pointer>) {
    && out <= before.Keys && into !! (before.Keys - out)
    && after.Keys == before.Keys - out + into
    && forall p | p in before && p !in out :: after[p] == before[p]
  }

  lemma ExchangedChain(a: Storage, b: Storage, c: Storage, p: set<Pointer>, q: set<Pointer>, r: set<Pointer>)
    requires Exchanged(a, b, p, q) && Exchanged(b, c, q, r)
    ensures Exchanged(a, c, p, r)
  {
  }

  /** What an exchange costs or yields in blocks. */
  lemma ExchangedCount(a: Storage, b: Storage, p: set<Pointer>, q: set<Pointer>)
    requires Exchanged(a, b, p, q)
    ensures |b| + |p| == |a| + |q|
  {
    var rest := a.Keys - p;
    assert a.Keys == rest + p && b.Keys == rest + q;
    assert |rest + p| == |rest| + |p| && |rest + q| == |rest| + |q|;
    assert |a| == |a.Keys| && |b| == |b.Keys|;
  }
}
