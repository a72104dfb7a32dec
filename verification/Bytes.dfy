/** Byte strings, their shortlex encoding and the order the trie sorts by. */
module Bytes {

  type byte = x: int | 0 <= x < 256
  type Path = seq<byte>

  /** The lengths a bucket can store: 1 .. 2^16 - 1. */
  type Key = k: seq<byte> | 1 <= |k| <= 0xFFFF witness [0]

  /** The string a trie consumes for a key: two length bytes, most significant first, then the data. */
  function Enc(k: Key): (e: Path)
    ensures |e| == |k| + 2
  {
    [|k| / 256, |k| % 256] + k
  }

  /** Byte i of the encoding; past its end, the zero a bucket stores there. */
  function At(k: Key, i: nat): byte {
    if i < |k| + 2 then Enc(k)[i] else 0
  }

  lemma EncInjective(a: Key, b: Key)
    ensures Enc(a) == Enc(b) ==> a == b
  {
    assert Enc(a)[2..] == a && Enc(b)[2..] == b;
  }

  /** Keys that agree on both length bytes have the same length. */
  lemma SameLength(a: Key, b: Key)
    requires Enc(a)[0] == Enc(b)[0] && Enc(a)[1] == Enc(b)[1]
    ensures |a| == |b|
  {
    assert |a| == (|a| / 256) * 256 + |a| % 256;
    assert |b| == (|b| / 256) * 256 + |b| % 256;
  }

  /** Lexicographic order on byte strings. */
  predicate Less(a: seq<int>, b: seq<int>) {
    if b == [] then false
    else if a == [] then true
    else a[0] < b[0] || (a[0] == b[0] && Less(a[1..], b[1..]))
  }

  lemma {:induction false} LessIrreflexive(a: seq<int>)
    ensures !Less(a, a)
  {
    if a != [] { LessIrreflexive(a[1..]); }
  }

  lemma {:induction false} LessTransitive(a: seq<int>, b: seq<int>, c: seq<int>)
    requires Less(a, b) && Less(b, c)
    ensures Less(a, c)
  {
    if a != [] && a[0] == b[0] && b[0] == c[0] { LessTransitive(a[1..], b[1..], c[1..]); }
  }

  lemma {:induction false} LessTotal(a: seq<int>, b: seq<int>)
    ensures a == b || Less(a, b) || Less(b, a)
  {
    if a != [] && b != [] && a[0] == b[0] {
      LessTotal(a[1..], b[1..]);
      assert a == [a[0]] + a[1..] && b == [b[0]] + b[1..];
    }
  }

  /** A common prefix does not affect the order. */
  lemma {:induction false} LessSkip(a: seq<int>, b: seq<int>, d: nat)
    requires d <= |a| && d <= |b| && a[..d] == b[..d]
    ensures Less(a, b) <==> Less(a[d..], b[d..])
  {
    if d == 0 {
      assert a[0..] == a && b[0..] == b;
    } else {
      assert a[0] == a[..d][0] == b[..d][0] == b[0];
      assert a[1..][..d-1] == a[..d][1..] && b[1..][..d-1] == b[..d][1..];
      LessSkip(a[1..], b[1..], d - 1);
      assert a[1..][d-1..] == a[d..] && b[1..][d-1..] == b[d..];
    }
  }

  /** The first difference decides. */
  lemma LessAt(a: seq<int>, b: seq<int>, d: nat)
    requires d < |a| && d < |b| && a[..d] == b[..d] && a[d] != b[d]
    ensures Less(a, b) <==> a[d] < b[d]
  {
    LessSkip(a, b, d);
  }

  /** a and b differ first at d, and b is larger there. */
  predicate Beaten(a: seq<int>, b: seq<int>, d: nat) {
    d < |a| && d < |b| && a[d] < b[d] && forall i | 0 <= i < d :: a[i] == b[i]
  }

  /** In other words: b continues a, or is larger at the first byte where they differ. */
  lemma {:induction false} LessInWords(a: seq<int>, b: seq<int>)
    ensures Less(a, b) <==> a < b || exists d: nat :: Beaten(a, b, d)
  {
    if a == [] || b == [] {
    } else if a[0] != b[0] {
      assert a[0] < b[0] ==> Beaten(a, b, 0);
    } else {
      LessInWords(a[1..], b[1..]);
      assert a == [a[0]] + a[1..] && b == [b[0]] + b[1..];
      if d: nat :| Beaten(a, b, d) { assert Beaten(a[1..], b[1..], d - 1); }
      if d: nat :| Beaten(a[1..], b[1..], d) { assert Beaten(a, b, d + 1); }
    }
  }

  /** Shortlex: shorter keys first, keys of one length by their bytes. */
  predicate KeyLess(a: Key, b: Key) {
    |a| < |b| || (|a| == |b| && Less(a, b))
  }

  /** The order of the encodings is shortlex. */
  lemma EncOrderIsShortlex(a: Key, b: Key)
    ensures Less(Enc(a), Enc(b)) <==> KeyLess(a, b)
  {
    var x, y := Enc(a), Enc(b);
    assert |a| == (|a| / 256) * 256 + |a| % 256;
    assert |b| == (|b| / 256) * 256 + |b| % 256;
    if x[0] != y[0] {
      LessAt(x, y, 0);
    } else if x[1] != y[1] {
      assert x[..1] == [x[0]] && y[..1] == [y[0]];
      LessAt(x, y, 1);
    } else {
      assert x[..2] == [x[0], x[1]] && y[..2] == [y[0], y[1]];
      LessSkip(x, y, 2);
      assert x[2..] == a && y[2..] == b;
    }
  }
}
