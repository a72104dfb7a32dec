/** Bucket entries: the two bytes of `first` and the residue that follows them. */
module Entries {
  import opened Bytes

  /** `first` is the 16-bit number hi * 256 + lo. */
  datatype Entry = Entry(hi: byte, lo: byte, residue: Path) {
    function First(): nat { hi * 256 + lo }
  }

  /** What a leaf below d forward nodes stores for a key. */
  function EntryOf(k: Key, d: nat): Entry {
    Entry(At(k, d), At(k, d + 1), if d <= |k| then k[d..] else [])
  }

  /** The entry that an insertion at depth d builds from the key's bytes and its 16-bit length. */
  function NewEntry(data: Key, d: nat): Entry
    requires d <= |data| + 1
  {
    var residue: Path := if d < |data| then data[d..] else [];
    if d >= 2 then Entry(data[d - 2], if d - 1 < |data| then data[d - 1] else 0, residue)
    else if d == 0 then Entry(|data| / 256, |data| % 256, residue)
    else Entry(|data| % 256, data[0], residue)
  }

  lemma NewEntryIsEntryOf(k: Key, d: nat)
    requires d <= |k| + 1
    ensures NewEntry(k, d) == EntryOf(k, d)
  {
  }

  /** One level down: the path takes `hi`, the residue gives up its first byte. */
  function Cut(e: Entry): Entry {
    if e.residue == [] then Entry(e.lo, 0, []) else Entry(e.lo, e.residue[0], e.residue[1..])
  }

  /** One level up: a path byte returns; `size` is the length of the new residue. */
  function Inject(e: Entry, b: byte, size: int): Entry {
    Entry(b, e.hi, if size > 0 then [e.lo] + e.residue else [])
  }

  lemma CutIsDeeper(k: Key, d: nat)
    requires d <= |k|
    ensures Cut(EntryOf(k, d)) == EntryOf(k, d + 1)
  {
    if d < |k| { assert k[d..][1..] == k[d+1..]; }
  }

  lemma InjectIsShallower(k: Key, d: nat)
    requires d <= |k|
    ensures Inject(EntryOf(k, d + 1), At(k, d), |k| - d) == EntryOf(k, d)
  {
    if d < |k| { assert k[d..] == [k[d]] + k[d+1..]; }
  }

  /** Injecting the byte that a cut removed restores the entry, and conversely. */
  lemma CutInjectInverse(k: Key, d: nat)
    requires d <= |k|
    ensures Inject(Cut(EntryOf(k, d)), At(k, d), |k| - d) == EntryOf(k, d)
    ensures Cut(Inject(EntryOf(k, d + 1), At(k, d), |k| - d)) == EntryOf(k, d + 1)
  {
    CutIsDeeper(k, d);
    InjectIsShallower(k, d);
  }

  /** The key whose encoding follows path p into entry e. */
  function Decode(p: Path, e: Entry): Path {
    var s := p + [e.hi, e.lo] + e.residue;
    var n := (s[0] as int) * 256 + s[1];
    if n + 2 <= |s| then s[2..n+2] else []
  }

  lemma DecodeEntry(k: Key, d: nat)
    requires d <= |k| + 1
    ensures Decode(Enc(k)[..d], EntryOf(k, d)) == k
  {
    var e := EntryOf(k, d);
    var s := Enc(k)[..d] + [e.hi, e.lo] + e.residue;
    assert forall i | 0 <= i < |k| + 2 :: s[i] == Enc(k)[i];
    assert s[2..|k|+2] == Enc(k)[2..] == k;
  }

  /** The order a bucket search compares by: `first` as a number, then the residue. */
  predicate EntryLess(a: Entry, b: Entry) {
    a.First() < b.First() || (a.First() == b.First() && Less(a.residue, b.residue))
  }

  lemma FirstSplits(a: Entry, b: Entry)
    ensures a.First() == b.First() <==> a.hi == b.hi && a.lo == b.lo
    ensures a.First() < b.First() <==> a.hi < b.hi || (a.hi == b.hi && a.lo < b.lo)
  {
  }

  /** Keys that share the path to depth d are ordered as their entries there. */
  lemma EntryOrder(a: Key, b: Key, d: nat)
    requires d <= |a| + 1 && d <= |b| + 1 && Enc(a)[..d] == Enc(b)[..d]
    ensures Less(Enc(a), Enc(b)) <==> EntryLess(EntryOf(a, d), EntryOf(b, d))
    ensures EntryOf(a, d) == EntryOf(b, d) <==> a == b
  {
    var x, y := EntryOf(a, d), EntryOf(b, d);
    LessSkip(Enc(a), Enc(b), d);
    FirstSplits(x, y);
    if d >= 2 {
      assert Enc(a)[0] == Enc(a)[..d][0] && Enc(a)[1] == Enc(a)[..d][1];
      SameLength(a, b);
    }
    if d <= |a| && d <= |b| {
      assert Enc(a)[d..] == [x.hi, x.lo] + x.residue;
      assert Enc(b)[d..] == [y.hi, y.lo] + y.residue;
      LessPair(x.hi, x.lo, x.residue, y.hi, y.lo, y.residue);
    } else {
      assert Enc(a)[d..] == [x.hi] && Enc(b)[d..] == [y.hi];
    }
    if x == y {
      DecodeEntry(a, d);
      DecodeEntry(b, d);
    }
  }

  lemma LessPair(a: int, b: int, s: seq<int>, c: int, d: int, t: seq<int>)
    ensures Less([a, b] + s, [c, d] + t) <==> a < c || (a == c && b < d) || (a == c && b == d && Less(s, t))
  {
    var x, y := [a, b] + s, [c, d] + t;
    assert x[1..] == [b] + s && y[1..] == [d] + t;
    assert x[1..][1..] == s && y[1..][1..] == t;
  }
}
