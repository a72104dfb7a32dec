/** No length is stored: every routine works it out from the path, `first` and the depth, each in its own way. */
module Recovery {
  import opened Bytes
  import opened Entries
  import opened Memory
  import opened Layout

  // d is the number of path bytes above the bucket, f the `first` of the entry; byte 1 of f is its high byte.

  /** bucket_search, with the searched key's length. */
  function SearchLength(f: u16, length: nat, d: nat): u16 {
    var encsize := if length <= d then 0 else if d > 0 then Wrap(length - d) else Wrap(length);
    if d > 1 then encsize
    else if d == 1 then Wrap(SetLow(Wrap(length), HighByte(f)) - 1)
    else SetHigh(SetLow(0, LowByte(f)), HighByte(f))
  }

  /** insert, with the inserted key's length. */
  function InsertLength(f: u16, size: nat, d: nat): u16 {
    if d >= 2 then Wrap(if size > d then size - d else 0)
    else if d == 1 then Wrap(SetHigh(f / 256, (size / 256) % 256) - 1)
    else f
  }

  /** erase, with what is left of the erased key below the path. */
  function EraseLength(f: u16, onHeap: int, d: nat): u16 {
    if d == 0 then f
    else if d == 1 then Wrap(SetLow(Wrap(onHeap + 1), HighByte(f)) - 1)
    else if onHeap > 0 then Wrap(onHeap) else 0
  }

  /** split_fwd, with what is left of the inserted key. */
  function PushLength(f: u16, bsize: int, d: nat): u16 {
    var t := Wrap(if bsize > 0 then bsize else 0);
    if d >= 2 then t
    else if d == 1 then Wrap(SetLow(Wrap(t + 1), HighByte(f)) - 1)
    else SetHigh(SetLow(t, LowByte(f)), HighByte(f))
  }

  /** split_node, with what is left of the inserted key. */
  function HalveLength(f: u16, bsize: int, d: nat): u16 {
    var t := if bsize > 0 then bsize else 0;
    if d == 0 then f
    else if d == 1 then Wrap(SetLow(Wrap(t + d), HighByte(f)) - d)
    else Wrap(t)
  }

  /** build_path: the key's length from path and `first`, then the residue lengths of the entries before it. */
  function PathSize(f: u16, path: Path): u16 {
    if |path| == 0 then f
    else if |path| == 1 then SetHigh(f / 256, path[0])
    else (path[0] as int) * 256 + path[1]
  }

  function PathLength(f: u16, size: u16, ps: nat): u16 {
    if ps == 0 then f
    else if ps == 1 then Wrap(SetHigh(f / 256, HighByte(size)) - 1)
    else Wrap(size - ps)
  }

  /** The destructor and clone, with the length bytes collected on the way down. */
  function CleanLength(f: u16, encsize: u16, d: nat): u16 {
    var size: u16 := if d >= 2 then encsize else if d == 1 then (encsize / 256) * 256 + f / 256 else f;
    if size >= d then size - d else 0
  }

  function CollectedSize(size: u16, d: nat): u16 {
    if d == 0 then 0 else if d == 1 then (size / 256) * 256 else size
  }

  /** readd_sizes, just before the bucket moves up to the root: the whole key's length. */
  function ReaddLength(f: u16, onHeap: int, byte: nat): u16 {
    SetLow(Wrap(byte + (onHeap - 1)), HighByte(f))
  }

  lemma LowPoke(t: u16, f: u16)
    ensures SetLow(t, HighByte(f)) == (t / 256) * 256 + f / 256
    ensures SetHigh(f / 256, HighByte(t)) == (t / 256) * 256 + f / 256
    ensures SetHigh(SetLow(0, LowByte(f)), HighByte(f)) == f && SetHigh(SetLow(t, LowByte(f)), HighByte(f)) == f
  {
  }

  lemma FirstBytes(e: Entry)
    ensures e.First() / 256 == e.hi && e.First() % 256 == e.lo && 0 <= e.First() <= 0xFFFF
  {
  }

  lemma WrapSmall(n: int)
    requires 0 <= n <= 0xFFFF
    ensures Wrap(n) == n
  {
  }

  lemma AtRoot(e: Entry, size: nat)
    requires size <= 0xFFFF
    ensures var n := LengthAt(e, 0, size);
      && 0 <= n <= 0xFFFF
      && SearchLength(n, size, 0) == InsertLength(n, size, 0) == EraseLength(n, size, 0) == n
      && PushLength(n, size, 0) == HalveLength(n, size, 0) == CleanLength(n, 0, 0) == n
  {
    FirstBytes(e);
    WrapSmall(size);
    LowPoke(Wrap(size), e.First());
  }

  /** The length that the two bytes of a key's length spell: the high one of the size, the low one of `first`. */
  function KeyLength(f: u16, size: nat): nat {
    (size / 256) * 256 + f / 256
  }

  lemma Poked(f: u16, size: nat)
    requires size <= 0xFFFF
    ensures Wrap(size) == size && SetLow(size, HighByte(f)) == KeyLength(f, size)
    ensures SetHigh(f / 256, (size / 256) % 256) == KeyLength(f, size) <= 0xFFFF
  {
    LowPoke(size, f);
    WrapSmall(size);
    assert (size / 256) % 256 == size / 256;
  }

  lemma AtOne(f: u16, size: nat)
    requires size <= 0xFFFF && KeyLength(f, size) >= 1
    ensures var n := KeyLength(f, size) - 1;
      n <= 0xFFFF && SearchLength(f, size, 1) == EraseLength(f, size - 1, 1) == n
  {
    hide Wrap, SetLow, SetHigh, HighByte, KeyLength;
    Poked(f, size);
    WrapSmall(KeyLength(f, size) - 1);
  }

  lemma InsertAtOne(f: u16, size: nat)
    requires size <= 0xFFFF && KeyLength(f, size) >= 1
    ensures InsertLength(f, size, 1) == KeyLength(f, size) - 1
  {
    hide Wrap, SetLow, SetHigh, HighByte, KeyLength;
    Poked(f, size);
    WrapSmall(KeyLength(f, size) - 1);
  }

  lemma SplitAtOne(f: u16, size: nat)
    requires 1 <= size <= 0xFFFF && KeyLength(f, size) >= 1
    ensures PushLength(f, size - 1, 1) == HalveLength(f, size - 1, 1) == KeyLength(f, size) - 1
  {
    hide Wrap, SetLow, SetHigh, HighByte, KeyLength;
    Poked(f, size);
    WrapSmall(KeyLength(f, size) - 1);
    WrapSmall(size - 1);
  }

  lemma CleanAtOne(f: u16, size: nat)
    requires size <= 0xFFFF && KeyLength(f, size) >= 1
    ensures CleanLength(f, CollectedSize(size, 1), 1) == KeyLength(f, size) - 1
  {
    assert ((size / 256) * 256) / 256 == size / 256;
  }

  lemma Deeper(f: u16, size: nat, d: nat)
    requires size <= 0xFFFF && 2 <= d <= size + 1
    ensures var n := if size > d then size - d else 0;
      && SearchLength(f, size, d) == InsertLength(f, size, d) == EraseLength(f, size - d, d) == n
      && PushLength(f, size - d, d) == HalveLength(f, size - d, d) == CleanLength(f, size, d) == n
  {
    WrapSmall(if size > d then size - d else 0);
  }

  /** All of them recover the length that the entry's residue has. */
  lemma LengthsAgree(e: Entry, d: nat, size: nat)
    requires size <= 0xFFFF && d <= size + 1 && 0 <= LengthAt(e, d, size) && (d == 1 ==> size >= 1)
    ensures 0 <= e.First() <= 0xFFFF
    ensures var n := LengthAt(e, d, size);
      && SearchLength(e.First(), size, d) == InsertLength(e.First(), size, d) == EraseLength(e.First(), size - d, d)
        == n
      && PushLength(e.First(), size - d, d) == HalveLength(e.First(), size - d, d) == n
      && CleanLength(e.First(), CollectedSize(size, d), d) == n
  {
    FirstBytes(e);
    if d == 0 { AtRoot(e, size); }
    else if d == 1 {
      AtOne(e.First(), size);
      InsertAtOne(e.First(), size);
      SplitAtOne(e.First(), size);
      CleanAtOne(e.First(), size);
    }
    else { Deeper(e.First(), size, d); }
  }

  /** Where the path is no longer than the key, so does build_path. */
  lemma PathAgrees(e: Entry, d: nat, size: nat)
    requires size <= 0xFFFF && d <= size && 0 <= LengthAt(e, d, size) <= 0xFFFF
    ensures 0 <= e.First() <= 0xFFFF && PathLength(e.First(), size, d) == LengthAt(e, d, size)
  {
    hide Wrap, SetLow, SetHigh, HighByte;
    FirstBytes(e);
    LowPoke(size, e.First());
    WrapSmall(LengthAt(e, d, size));
  }

  /** Below a path that has used up the key, build_path sees a length of 65535 where nothing is stored. */
  lemma PathWrapsAtTheEnd(f: u16, size: u16, d: nat)
    requires 2 <= d <= size + 1
    ensures PathLength(f, size, d) == (if size > d then size - d else 0) <==> d <= size
  {
  }

  lemma ReaddAgrees(e: Entry, size: nat)
    requires size <= 0xFFFF
    ensures 0 <= e.First() <= 0xFFFF && ReaddLength(e.First(), size, 1) == (size / 256) * 256 + e.hi
  {
    hide Wrap, SetLow, SetHigh, HighByte;
    FirstBytes(e);
    Poked(e.First(), size);
  }

  /** At depth one the length is recovered exactly for keys that are not empty: an empty one looks 65535 bytes long. */
  lemma EmptyKeyWraps(f: u16, size: u16)
    ensures var key := KeyLength(f, size);
      && (SearchLength(f, size, 1) == (if key > 1 then key - 1 else 0) <==> key >= 1)
      && (key == 0 ==> SearchLength(f, size, 1) == 65535)
  {
    var key := KeyLength(f, size);
    if key >= 1 {
      AtOne(f, size);
    } else {
      EmptyKey(f, size);
    }
  }

  lemma EmptyKey(f: u16, size: u16)
    requires size < 256 && f < 256
    ensures SearchLength(f, size, 1) == 65535
  {
    WrapSmall(size);
    assert SetLow(size, HighByte(f)) == 0;
    assert Wrap(-1) == 65535;
  }

  /** The largest length the program's assertion lets through, 65536, does not survive in 16 bits; all below do. */
  lemma LongestKeyWraps(n: nat)
    requires n <= 65536
    ensures Wrap(n) == n <==> n != 65536
  {
  }
}
