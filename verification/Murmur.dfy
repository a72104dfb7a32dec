/** The one-shot and the streaming form of MurmurHash2A. */
module Murmur {
  import opened Bits
  import opened Bytes

  // ------------------------------------------------------------ what mixing means

  /** The product with the multiplier, modulo 2^32. */
  ghost predicate Product(a: u32, r: u32) {
    exists q: nat :: a * 1_540_483_477 == q * 4_294_967_296 + r
  }

  /** The bits of a with those n places further up xor-ed in; the upper n bits are those of a. */
  ghost predicate Folds(a: u32, n: nat, r: u32) {
    forall i: nat {:trigger Bit(r, i)} | i < 32 ::
      Bit(r, i) == if i + n < 32 then (Bit(a, i) + Bit(a, i + n)) % 2 else Bit(a, i)
  }

  /** Bit by bit, whether a and b differ. */
  ghost predicate Joins(a: u32, b: u32, r: u32) {
    forall i: nat | i < 32 :: Bit(r, i) == if Bit(a, i) == Bit(b, i) then 0 else 1
  }

  /** r is h with word k mixed in. */
  ghost predicate Mixed(h: u32, k: u32, r: u32) {
    exists a: u32, b: u32, c: u32, d: u32 ::
      Product(k, a) && Folds(a, 24, b) && Product(b, c) && Product(h, d) && Joins(d, c, r)
  }

  /** r is the final scrambling of h. */
  ghost predicate Scrambled(h: u32, r: u32) {
    exists a: u32, b: u32 :: Folds(h, 13, a) && Product(a, b) && Folds(b, 15, r)
  }

  lemma OneProduct(a: u32, r: u32, s: u32)
    requires Product(a, r) && Product(a, s)
    ensures r == s
  {
    var q: nat :| a * 1_540_483_477 == q * 4_294_967_296 + r;
    var p: nat :| a * 1_540_483_477 == p * 4_294_967_296 + s;
  }

  lemma FoldedBit(a: u32, n: nat, r: u32, i: nat)
    requires Folds(a, n, r) && i < 32
    ensures Bit(r, i) == if i + n < 32 then (Bit(a, i) + Bit(a, i + n)) % 2 else Bit(a, i)
  {
  }

  lemma OneFold(a: u32, n: nat, r: u32, s: u32)
    requires Folds(a, n, r) && Folds(a, n, s)
    ensures r == s
  {
    WordSize();
    forall i: nat | i < 32 ensures Bit(r, i) == Bit(s, i) {
      FoldedBit(a, n, r, i);
      FoldedBit(a, n, s, i);
    }
    SameBits(r, s, 32);
  }

  lemma OneJoin(a: u32, b: u32, r: u32, s: u32)
    requires Joins(a, b, r) && Joins(a, b, s)
    ensures r == s
  {
    WordSize();
    forall i | 0 <= i < 32 ensures Bit(r, i) == Bit(s, i) {
    }
    forall i: nat | i < 32 ensures Bit(r, i) == Bit(s, i) {
    }
    SameBits(r, s, 32);
  }

  /** Only one word is the result of mixing. */
  lemma OneMix(h: u32, k: u32, r: u32, s: u32)
    requires Mixed(h, k, r) && Mixed(h, k, s)
    ensures r == s
  {
    hide Product, Folds, Joins;
    var a: u32, b: u32, c: u32, d: u32 :|
      Product(k, a) && Folds(a, 24, b) && Product(b, c) && Product(h, d) && Joins(d, c, r);
    var a': u32, b': u32, c': u32, d': u32 :|
      Product(k, a') && Folds(a', 24, b') && Product(b', c') && Product(h, d') && Joins(d', c', s);
    OneProduct(k, a, a');
    OneFold(a, 24, b, b');
    OneProduct(b, c, c');
    OneProduct(h, d, d');
    OneJoin(d, c, r, s);
  }

  lemma OneScramble(h: u32, r: u32, s: u32)
    requires Scrambled(h, r) && Scrambled(h, s)
    ensures r == s
  {
    hide Product, Folds;
    var a: u32, b: u32 :| Folds(h, 13, a) && Product(a, b) && Folds(b, 15, r);
    var a': u32, b': u32 :| Folds(h, 13, a') && Product(a', b') && Folds(b', 15, s);
    OneFold(h, 13, a, a');
    OneProduct(a, b, b');
    OneFold(b, 15, r, s);
  }

  lemma TimesIs(a: u32)
    ensures Product(a, Times(a, M))
  {
    var q: nat := a * M / WORD;
    assert a * M == q * 4_294_967_296 + Times(a, M);
  }

  lemma FoldIs(a: u32, n: nat)
    ensures Folds(a, n, XorWord(a, ShrWord(a, n)))
  {
    WordSize();
    forall i: nat | i < 32
      ensures Bit(Xor(a, Shr(a, n)), i) == if i + n < 32 then (Bit(a, i) + Bit(a, i + n)) % 2 else Bit(a, i)
    {
      XorBit(a, Shr(a, n), i);
      ShrBit(a, n, i);
      BitIsBit(a, i);
      if i + n >= 32 { HighBit(a, 32, i + n); }
    }
  }

  lemma JoinIs(a: u32, b: u32)
    ensures Joins(a, b, XorWord(a, b))
  {
    forall i: nat | i < 32 ensures Bit(Xor(a, b), i) == if Bit(a, i) == Bit(b, i) then 0 else 1 {
      XorBit(a, b, i);
      BitIsBit(a, i);
      BitIsBit(b, i);
    }
  }

  const M: u32 := 0x5bd1e995

  const R := 24

  /** The word that mixing k into h gives. */
  ghost function Mix(h: u32, k: u32): (r: u32)
    ensures Mixed(h, k, r)
  {
    MixExists(h, k);
    var r: u32 :| Mixed(h, k, r);
    r
  }

  /** It exists: this is one way to compute it. */
  function Mixing(h: u32, k: u32): u32 {
    var a := Times(k, M);
    XorWord(Times(h, M), Times(XorWord(a, ShrWord(a, 24)), M))
  }

  lemma MixExists(h: u32, k: u32)
    ensures Mixed(h, k, Mixing(h, k))
  {
    hide Product, Folds, Joins, XorWord, ShrWord, Times;
    var a := Times(k, M);
    TimesIs(k);
    FoldIs(a, 24);
    TimesIs(XorWord(a, ShrWord(a, 24)));
    TimesIs(h);
    JoinIs(Times(h, M), Times(XorWord(a, ShrWord(a, 24)), M));
  }

  ghost function Scramble(h: u32): (r: u32)
    ensures Scrambled(h, r)
  {
    ScrambleExists(h);
    var r: u32 :| Scrambled(h, r);
    r
  }

  function Scrambling(h: u32): u32 {
    var a := XorWord(h, ShrWord(h, 13));
    var b := Times(a, M);
    XorWord(b, ShrWord(b, 15))
  }

  lemma ScrambleExists(h: u32)
    ensures Scrambled(h, Scrambling(h))
  {
    hide Product, Folds, XorWord, ShrWord, Times;
    var a := XorWord(h, ShrWord(h, 13));
    FoldIs(h, 13);
    TimesIs(a);
    FoldIs(Times(a, M), 15);
  }

  // ------------------------------------------------------------ what is hashed

  /** The little-endian word of four bytes. */
  function Word(a: byte, b: byte, c: byte, d: byte): u32 {
    a + 0x100 * b + 0x1_0000 * c + 0x100_0000 * d
  }

  function Load(d: seq<byte>): u32
    requires |d| >= 4
  {
    Word(d[0], d[1], d[2], d[3])
  }

  /** The zero to three bytes after the last whole word. */
  function Rest(d: seq<byte>): (t: seq<byte>)
    ensures |t| == |d| % 4
  {
    if |d| < 4 then d else Rest(d[4..])
  }

  /** All whole words of d, mixed into h from left to right. */
  ghost function Words(h: u32, d: seq<byte>): u32
    decreases |d|
  {
    if |d| < 4 then h else Words(Mix(h, Load(d)), d[4..])
  }

  /** Fewer than four bytes as a word, filled up with zeros. */
  function TailWord(t: seq<byte>): u32
    requires |t| < 4
  {
    Word(if |t| > 0 then t[0] else 0, if |t| > 1 then t[1] else 0, if |t| > 2 then t[2] else 0, 0)
  }

  /** Lengths are 32-bit and wrap around. */
  function ReducedLength(n: nat): u32 {
    n % 0x1_0000_0000
  }

  /** The hash of a byte string: its words, its tail, its length modulo 2^32, then the final scrambling. */
  ghost function Hash(seed: u32, d: seq<byte>): u32 {
    Scramble(Mix(Mix(Words(seed, d), TailWord(Rest(d))), ReducedLength(|d|)))
  }

  /** The macro mmix. */
  method Mmix(h: u32, k: u32) returns (r: u32)
    ensures r == Mix(h, k)
  {
    hide Product, Folds, Joins, XorWord, ShrWord, Times;
    var a := Times(k, M);
    TimesIs(k);
    var b := XorWord(a, ShrWord(a, R));
    FoldIs(a, R);
    var c := Times(b, M);
    TimesIs(b);
    var d := Times(h, M);
    TimesIs(h);
    r := XorWord(d, c);
    JoinIs(d, c);
    OneMix(h, k, r, Mix(h, k));
  }

  /** The last three statements of both forms. */
  method Finish(h: u32) returns (r: u32)
    ensures r == Scramble(h)
  {
    hide Product, Folds, XorWord, ShrWord, Times;
    var a := XorWord(h, ShrWord(h, 13));
    FoldIs(h, 13);
    var b := Times(a, M);
    TimesIs(a);
    r := XorWord(b, ShrWord(b, 15));
    FoldIs(b, 15);
    OneScramble(h, r, Scramble(h));
  }

  // ------------------------------------------------------------ the hash by positions

  /** Byte i, zero behind the end. */
  function ByteAt(d: seq<byte>, i: nat): (x: int)
    ensures 0 <= x < 256
  {
    if i < |d| then d[i] else 0
  }

  /** The number that the four bytes from i on spell, lowest first. */
  function Value(d: seq<byte>, i: nat): (v: u32) {
    ByteAt(d, i) + 256 * ByteAt(d, i + 1) + 65536 * ByteAt(d, i + 2) + 16777216 * ByteAt(d, i + 3)
  }

  /** What the hash is after each whole word of d. */
  ghost predicate Passes(seed: u32, d: seq<byte>, hs: seq<u32>) {
    && |hs| == |d| / 4 + 1 && hs[0] == seed
    && forall i | 0 <= i < |d| / 4 :: Mixed(hs[i], Value(d, 4 * i), hs[i + 1])
  }

  /** r is the hash of d: all words, the remaining bytes, the length, and the final scrambling, in this order. */
  ghost predicate IsHash(seed: u32, d: seq<byte>, r: u32) {
    exists hs: seq<u32>, x: u32, y: u32 ::
      && Passes(seed, d, hs) && Mixed(hs[|d| / 4], Value(d, |d| / 4 * 4), x)
      && Mixed(x, |d| % 4_294_967_296, y) && Scrambled(y, r)
  }

  /** The hash is what the description by positions says. */
  lemma HashIs(seed: u32, d: seq<byte>)
    ensures IsHash(seed, d, Hash(seed, d))
  {
    hide Mixed, Scrambled, Words, Rest, Load;
    var hs := WordPasses(seed, d);
    RestIs(d);
    var x := Mix(Words(seed, d), TailWord(Rest(d)));
    var y := Mix(x, ReducedLength(|d|));
    assert Mixed(hs[|d| / 4], Value(d, |d| / 4 * 4), x) && Mixed(x, |d| % 4_294_967_296, y);
    assert Scrambled(y, Hash(seed, d));
  }

  lemma {:induction false} WordPasses(h: u32, d: seq<byte>) returns (hs: seq<u32>)
    ensures Passes(h, d, hs) && hs[|d| / 4] == Words(h, d)
    decreases |d|
  {
    hide Mixed;
    if |d| < 4 {
      hs := [h];
    } else {
      var m, rest := Mix(h, Load(d)), d[4..];
      var t := WordPasses(m, rest);
      hs := [h] + t;
      forall i | 0 <= i < |d| / 4 ensures Mixed(hs[i], Value(d, 4 * i), hs[i + 1]) {
        if i > 0 { Shifted(d, 4 * (i - 1)); }
      }
    }
  }

  lemma Shifted(d: seq<byte>, i: nat)
    requires |d| >= 4
    ensures Value(d[4..], i) == Value(d, i + 4)
  {
  }

  lemma {:induction false} RestIs(d: seq<byte>)
    ensures TailWord(Rest(d)) == Value(d, |d| / 4 * 4)
    decreases |d|
  {
    if |d| >= 4 {
      RestIs(d[4..]);
      Shifted(d, |d[4..]| / 4 * 4);
    }
  }

  /** No other word is. */
  lemma OneHash(seed: u32, d: seq<byte>, r: u32)
    requires IsHash(seed, d, r)
    ensures r == Hash(seed, d)
  {
    hide Mixed, Scrambled, Hash, Value;
    HashIs(seed, d);
    var hs: seq<u32>, x: u32, y: u32 :|
      Passes(seed, d, hs) && Mixed(hs[|d| / 4], Value(d, |d| / 4 * 4), x)
      && Mixed(x, |d| % 4_294_967_296, y) && Scrambled(y, r);
    var gs: seq<u32>, u: u32, v: u32 :|
      Passes(seed, d, gs) && Mixed(gs[|d| / 4], Value(d, |d| / 4 * 4), u)
      && Mixed(u, |d| % 4_294_967_296, v) && Scrambled(v, Hash(seed, d));
    OnePassage(seed, d, hs, gs, |d| / 4);
    OneMix(hs[|d| / 4], Value(d, |d| / 4 * 4), x, u);
    OneMix(x, |d| % 4_294_967_296, y, v);
    OneScramble(y, r, Hash(seed, d));
  }

  lemma {:induction false} OnePassage(seed: u32, d: seq<byte>, hs: seq<u32>, gs: seq<u32>, i: nat)
    requires Passes(seed, d, hs) && Passes(seed, d, gs) && i <= |d| / 4
    ensures hs[i] == gs[i]
  {
    hide Mixed, Value;
    if i > 0 {
      OnePassage(seed, d, hs, gs, i - 1);
      OneMix(hs[i - 1], Value(d, 4 * (i - 1)), hs[i], gs[i]);
    }
  }

  // ------------------------------------------------------------ a known answer

  lemma XorFirst()
    ensures Xor(0x5bd1e995, 0x5b) == 0x5bd1e9ce
  {
    hide Xor;
    XorDigits(0x5bd1e99, 0, 1, 0, 1, 0x5, 1, 0, 1, 1);
    XorDigits(0x5bd1e9, 1, 0, 0, 1, 0x0, 0, 1, 0, 1);
    XorZero(0x5bd1e9);
  }

  lemma XorSecond()
    ensures Xor(0x6d81d5de, 0x9a2792e6) == 0xf7a64738
  {
    hide Xor;
    XorDigits(0x6d81d5d, 1, 1, 1, 0, 0x9a2792e, 0, 1, 1, 0);
    XorDigits(0x6d81d5, 1, 1, 0, 1, 0x9a2792, 1, 1, 1, 0);
    XorDigits(0x6d81d, 0, 1, 0, 1, 0x9a279, 0, 0, 1, 0);
    XorDigits(0x6d81, 1, 1, 0, 1, 0x9a27, 1, 0, 0, 1);
    XorDigits(0x6d8, 0, 0, 0, 1, 0x9a2, 0, 1, 1, 1);
    XorDigits(0x6d, 1, 0, 0, 0, 0x9a, 0, 0, 1, 0);
    XorDigits(0x6, 1, 1, 0, 1, 0x9, 1, 0, 1, 0);
    XorDigits(0x0, 0, 1, 1, 0, 0x0, 1, 0, 0, 1);
    XorZero(0x0);
  }

  lemma XorThird()
    ensures Xor(0xf7a64738, 0x7bd32) == 0xf7a1fa0a
  {
    hide Xor;
    XorDigits(0xf7a6473, 1, 0, 0, 0, 0x7bd3, 0, 0, 1, 0);
    XorDigits(0xf7a647, 0, 0, 1, 1, 0x7bd, 0, 0, 1, 1);
    XorDigits(0xf7a64, 0, 1, 1, 1, 0x7b, 1, 1, 0, 1);
    XorDigits(0xf7a6, 0, 1, 0, 0, 0x7, 1, 0, 1, 1);
    XorDigits(0xf7a, 0, 1, 1, 0, 0x0, 0, 1, 1, 1);
    XorZero(0xf7a);
  }

  lemma XorFourth()
    ensures Xor(0x3e03a1d2, 0x7c07) == 0x3e03ddd5
  {
    hide Xor;
    XorDigits(0x3e03a1d, 0, 0, 1, 0, 0x7c0, 0, 1, 1, 1);
    XorDigits(0x3e03a1, 1, 1, 0, 1, 0x7c, 0, 0, 0, 0);
    XorDigits(0x3e03a, 0, 0, 0, 1, 0x7, 1, 1, 0, 0);
    XorDigits(0x3e03, 1, 0, 1, 0, 0x0, 0, 1, 1, 1);
    XorZero(0x3e03);
  }

  lemma Shifts()
    ensures Shr(0x5bd1e995, 24) == 0x5b && Shr(0xf7a64738, 13) == 0x7bd32 && Shr(0x3e03a1d2, 15) == 0x7c07
  {
    ShrTwice(0x5bd1e995, 8, 16);
    ShrTwice(0x5bd1e9, 8, 8);
    ShrTwice(0xf7a64738, 8, 5);
    ShrTwice(0x3e03a1d2, 8, 7);
    ByteShift(0x5bd1e995);
    ByteShift(0x5bd1e9);
    ByteShift(0x5bd1);
    ByteShift(0xf7a64738);
    ByteShift(0x3e03a1d2);
  }

  lemma MixFirst()
    ensures Mixed(0, 1, 0x9a2792e6)
  {
    hide Mixed, Xor, Shr;
    Shifts();
    XorFirst();
    XorZero(0x9a2792e6);
    MixExists(0, 1);
    assert Times(1, M) == 0x5bd1e995 && Times(0x5bd1e9ce, M) == 0x9a2792e6 && Times(0, M) == 0;
  }

  lemma MixSecond()
    ensures Mixed(0x9a2792e6, 1, 0xf7a64738)
  {
    hide Mixed, Xor, Shr;
    Shifts();
    XorFirst();
    XorSecond();
    MixExists(0x9a2792e6, 1);
  }

  lemma ScrambleLast()
    ensures Scrambled(0xf7a64738, 0x3e03ddd5)
  {
    hide Scrambled, Xor, Shr;
    Shifts();
    XorThird();
    XorFourth();
    ScrambleExists(0xf7a64738);
  }

  /** The one byte 1 with seed 0 hashes to 0x3e03ddd5. */
  lemma KnownAnswer()
    ensures Hash(0, [1]) == 0x3e03ddd5
  {
    hide Hash, Mixed, Scrambled;
    MixFirst();
    MixSecond();
    ScrambleLast();
    var d: seq<byte>, hs: seq<u32> := [1], [0];
    assert Passes(0, d, hs) && hs[|d| / 4] == 0 && Value(d, |d| / 4 * 4) == 1 && |d| % 4_294_967_296 == 1;
    assert Mixed(hs[|d| / 4], Value(d, |d| / 4 * 4), 0x9a2792e6);
    OneHash(0, d, 0x3e03ddd5);
  }

  // ------------------------------------------------------------ one byte or one word more

  lemma {:induction false} FeedWord(h: u32, f: seq<byte>, w: seq<byte>)
    requires |f| % 4 == 0 && |w| >= 4
    ensures Words(h, f + w) == Words(Mix(Words(h, f), Load(w)), w[4..])
    ensures Rest(f + w) == Rest(w)
    decreases |f|
  {
    hide Mix, Mixed, Word;
    if f == [] {
      assert f + w == w;
    } else {
      assert (f + w)[4..] == f[4..] + w;
      LoadPrefix(f, w);
      FeedWord(Mix(h, Load(f)), f[4..], w);
    }
  }

  lemma FeedFour(h: u32, f: seq<byte>, w: seq<byte>)
    requires |f| % 4 == 0 && |w| == 4
    ensures Words(h, f + w) == Mix(Words(h, f), Load(w)) && Rest(f + w) == []
  {
    FeedWord(h, f, w);
  }

  lemma LoadPrefix(f: seq<byte>, w: seq<byte>)
    requires |f| >= 4
    ensures Load(f + w) == Load(f)
  {
    assert (f + w)[..4] == f[..4];
  }

  lemma {:induction false} FeedByte(h: u32, f: seq<byte>, x: byte)
    ensures |f| % 4 < 3 ==> Words(h, f + [x]) == Words(h, f) && Rest(f + [x]) == Rest(f) + [x]
    ensures |f| % 4 == 3 ==> Words(h, f + [x]) == Mix(Words(h, f), Load(Rest(f) + [x])) && Rest(f + [x]) == []
    decreases |f|
  {
    hide Mix, Mixed, Word;
    if |f| < 4 {
      if |f| == 3 {
        assert (f + [x])[4..] == [];
      }
    } else {
      assert (f + [x])[4..] == f[4..] + [x];
      LoadPrefix(f, [x]);
      FeedByte(Mix(h, Load(f)), f[4..], x);
    }
  }

  /** A byte shifted up by 8 * c bits. */
  function Placed(x: byte, c: nat): u32
    requires c < 4
  {
    if c == 0 then x else if c == 1 then x * 0x100 else if c == 2 then x * 0x1_0000 else x * 0x100_0000
  }

  /** Bytes at different places do not overlap, so or-ing the next one in is adding it. */
  lemma OrFirst(a: byte)
    ensures Or(Word(0, 0, 0, 0), a) == Word(a, 0, 0, 0)
  {
    OrAbove(0, a, 0);
  }

  lemma OrSecond(a: byte, b: byte)
    ensures Or(Word(a, 0, 0, 0), b * 0x100) == Word(a, b, 0, 0)
  {
    BytePowers();
    OrAbove(a, b, 8);
  }

  lemma OrThird(a: byte, b: byte, c: byte)
    ensures Or(Word(a, b, 0, 0), c * 0x1_0000) == Word(a, b, c, 0)
  {
    BytePowers();
    OrAbove(Word(a, b, 0, 0), c, 16);
  }

  lemma OrFourth(a: byte, b: byte, c: byte, d: byte)
    ensures Or(Word(a, b, c, 0), d * 0x100_0000) == Word(a, b, c, d)
  {
    BytePowers();
    OrAbove(Word(a, b, c, 0), d, 24);
  }

  /** So is xor-ing a lower one in. */
  lemma XorPlaced(t: u32, v: u32, n: nat)
    requires t % Pow2(n) == 0 && v < Pow2(n)
    ensures XorWord(t, v) == t + v
  {
    hide Xor, Pow2, XorWord;
    var q, p := t / Pow2(n), Pow2(n);
    assert t == q * p;
    XorAbove(q, v, n);
    XorIs(t, v);
  }

  /** Or-ing the next byte into its place continues the tail, and completes a word at the fourth byte. */
  lemma OrByte(t: seq<byte>, x: byte)
    requires |t| < 4
    ensures Or(TailWord(t), Placed(x, |t|)) == if |t| == 3 then Load(t + [x]) else TailWord(t + [x])
  {
    hide Word, Or;
    var u := t + [x];
    assert u[|t|] == x && forall i | 0 <= i < |t| :: u[i] == t[i];
    if |t| == 0 {
      OrFirst(x);
    } else if |t| == 1 {
      OrSecond(t[0], x);
    } else if |t| == 2 {
      OrThird(t[0], t[1], x);
    } else {
      OrFourth(t[0], t[1], t[2], x);
    }
  }

  lemma EmptyTail()
    ensures TailWord([]) == 0
  {
  }

  lemma NothingFed(seed: u32)
    ensures Words(seed, []) == seed && Rest([]) == [] && TailWord([]) == 0
  {
    hide Mix, Mixed;
  }

  /** 32-bit addition of a chunk's length to the size so far. */
  function AddLength(size: u32, len: nat, ghost before: nat): (r: u32)
    requires size == ReducedLength(before)
    ensures r == ReducedLength(before + len)
  {
    (size + len) % 0x1_0000_0000
  }

  // ------------------------------------------------------------ one-shot

  /** The switch that falls through from the highest remaining byte. */
  method XorRest(data: seq<byte>, at: nat) returns (t: u32)
    requires at <= |data| < at + 4
    ensures t == TailWord(data[at..])
  {
    hide XorWord, Pow2;
    var len := |data| - at;
    BytePowers();
    t := 0;
    if len >= 3 {
      XorPlaced(t, data[at + 2] as int * 0x1_0000, 24);
      t := XorWord(t, data[at + 2] as int * 0x1_0000);
    }
    if len >= 2 {
      XorPlaced(t, data[at + 1] as int * 0x100, 16);
      t := XorWord(t, data[at + 1] as int * 0x100);
    }
    if len >= 1 {
      XorPlaced(t, data[at], 8);
      t := XorWord(t, data[at]);
    }
  }

  method MurmurHash2A(data: seq<byte>, seed: u32) returns (h: u32)
    requires |data| < 0x1_0000_0000
    ensures h == Hash(seed, data) && IsHash(seed, data, h)
  {
    HashIs(seed, data);
    hide IsHash, Mix, Scramble, Mixed, Scrambled, Word, TailWord;
    var l: u32 := |data|;
    var at: nat, len: nat := 0, |data|;
    h := seed;
    while len >= 4
      invariant at + len == |data|
      invariant Words(h, data[at..]) == Words(seed, data) && Rest(data[at..]) == Rest(data)
    {
      assert data[at..][4..] == data[at + 4..];
      h := Mmix(h, Load(data[at..at + 4]));
      assert Load(data[at..]) == Load(data[at..at + 4]);
      at, len := at + 4, len - 4;
    }
    var t := XorRest(data, at);
    h := Mmix(h, t);
    h := Mmix(h, l);
    h := Finish(h);
  }

  // ------------------------------------------------------------ streaming

  /** The incremental hasher. `fed` is everything it has been given. */
  class Hasher {
    var hash: u32
    var tail: u32
    var count: nat
    var size: u32
    ghost const seed: u32
    ghost var fed: seq<byte>

    /** The hash covers the whole words given so far; the tail holds the zero to three bytes after them. */
    ghost predicate Covers()
      reads this
    {
      hash == Words(seed, fed) && tail == TailWord(Rest(fed)) && count == |fed| % 4
    }

    ghost predicate Valid()
      reads this
    {
      Covers() && size == ReducedLength(|fed|)
    }

    constructor (s: u32)
      ensures Valid() && seed == s && fed == []
    {
      hide Words, Rest, TailWord, Mix, Mixed;
      hash, tail, count, size := s, 0, 0, 0;
      seed, fed := s, [];
      new;
      NothingFed(s);
    }

    method Add(data: seq<byte>)
      requires Valid() && |data| < 0x1_0000_0000
      modifies this
      ensures Valid() && fed == old(fed) + data
    {
      hide Mix, Scramble, Mixed, Scrambled, Word, Words, Load, Rest, TailWord, Hash, ReducedLength, AddLength;
      EmptyTail();
      size := AddLength(size, |data|, |fed|);
      var at := MixTail(data, 0);
      while |data| - at >= 4
        invariant at <= |data| && (|data| - at >= 4 ==> count == 0)
        invariant Covers() && fed == old(fed) + data[..at]
        invariant size == ReducedLength(|old(fed)| + |data|)
      {
        var w := data[at..at + 4];
        FeedFour(seed, fed, w);
        hash := Mmix(hash, Load(w));
        fed := fed + w;
        assert data[..at] + w == data[..at + 4];
        at := at + 4;
      }
      at := MixTail(data, at);
      assert data[..|data|] == data;
    }

    /** Takes single bytes until a word boundary is reached and another whole word is waiting, or none is left. */
    method MixTail(data: seq<byte>, from: nat) returns (at: nat)
      requires Covers() && from <= |data|
      modifies this`hash, this`tail, this`count, this`fed
      ensures Covers() && from <= at <= |data| && fed == old(fed) + data[from..at]
      ensures at == |data| || (count == 0 && |data| - at >= 4)
    {
      hide Mix, Scramble, Mixed, Scrambled, Word, Words, Load, Rest, TailWord, Placed;
      EmptyTail();
      at := from;
      while at < |data| && (|data| - at < 4 || count > 0)
        invariant from <= at <= |data|
        invariant Covers() && fed == old(fed) + data[from..at]
      {
        FeedByte(seed, fed, data[at]);
        OrByte(Rest(fed), data[at]);
        tail := Or(tail, Placed(data[at], count));
        fed := fed + [data[at]];
        assert data[from..at] + [data[at]] == data[from..at + 1];
        at, count := at + 1, count + 1;
        if count == 4 {
          hash := Mmix(hash, tail);
          tail, count := 0, 0;
        }
      }
    }

    method End() returns (h: u32)
      requires Valid()
      modifies this`hash
      ensures h == Hash(seed, fed) && IsHash(seed, fed, h)
    {
      HashIs(seed, fed);
      hide IsHash, Mix, Scramble, Mixed, Scrambled, Word, Words, Rest, TailWord;
      hash := Mmix(hash, tail);
      hash := Mmix(hash, size);
      hash := Finish(hash);
      return hash;
    }
  }

  // ------------------------------------------------------------ the two agree

  function Concat(chunks: seq<seq<byte>>): seq<byte> {
    if chunks == [] then [] else chunks[0] + Concat(chunks[1..])
  }

  lemma {:induction false} ConcatSnoc(chunks: seq<seq<byte>>, n: nat)
    requires n < |chunks|
    ensures Concat(chunks[..n + 1]) == Concat(chunks[..n]) + chunks[n]
  {
    if n > 0 {
      assert chunks[..n + 1][1..] == chunks[1..][..n] && chunks[..n][1..] == chunks[1..][..n - 1];
      ConcatSnoc(chunks[1..], n - 1);
    }
  }

  /** However the data is cut into chunks, streaming gives the hash of the concatenation. */
  method Stream(chunks: seq<seq<byte>>, seed: u32) returns (h: u32)
    requires forall i | 0 <= i < |chunks| :: |chunks[i]| < 0x1_0000_0000
    ensures h == Hash(seed, Concat(chunks)) && IsHash(seed, Concat(chunks), h)
  {
    hide IsHash;
    var hasher := new Hasher(seed);
    for n := 0 to |chunks|
      invariant hasher.Valid() && fresh(hasher) && hasher.seed == seed && hasher.fed == Concat(chunks[..n])
    {
      ConcatSnoc(chunks, n);
      hasher.Add(chunks[n]);
    }
    assert chunks[..|chunks|] == chunks;
    h := hasher.End();
  }

  /** Streaming any cutting of the data and hashing it in one go return the same. */
  method StreamEqualsOneShot(chunks: seq<seq<byte>>, seed: u32) returns (streamed: u32, direct: u32)
    requires |Concat(chunks)| < 0x1_0000_0000
    ensures streamed == direct == Hash(seed, Concat(chunks)) && IsHash(seed, Concat(chunks), direct)
  {
    hide IsHash;
    forall i | 0 <= i < |chunks| ensures |chunks[i]| < 0x1_0000_0000 {
      ChunkFits(chunks, i);
    }
    streamed := Stream(chunks, seed);
    direct := MurmurHash2A(Concat(chunks), seed);
  }

  lemma {:induction false} ChunkFits(chunks: seq<seq<byte>>, i: nat)
    requires i < |chunks|
    ensures |chunks[i]| <= |Concat(chunks)|
  {
    if i > 0 { ChunkFits(chunks[1..], i - 1); }
  }
}
