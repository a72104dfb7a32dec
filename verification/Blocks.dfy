/** Aligned blocks of the 256 slots of a forward node, and the bit masks that halve them. */
module Blocks {

  /** A leaf of type t covers this many slots. */
  function Width(t: nat): nat
    requires t <= 8
  {
    if t == 0 then 256 else if t == 1 then 128 else if t == 2 then 64 else if t == 3 then 32
    else if t == 4 then 16 else if t == 5 then 8 else if t == 6 then 4 else if t == 7 then 2 else 1
  }

  /** The mask of bit i, most significant bit first. */
  function Mask(i: nat): nat
    requires i < 8
  {
    if i == 0 then 128 else if i == 1 then 64 else if i == 2 then 32 else if i == 3 then 16
    else if i == 4 then 8 else if i == 5 then 4 else if i == 6 then 2 else 1
  }

  predicate TestBit(x: nat, m: nat)
    requires m > 0
  {
    (x / m) % 2 == 1
  }

  function SetBit(x: nat, m: nat): nat
    requires m > 0
  {
    if TestBit(x, m) then x else x + m
  }

  function ClearBit(x: nat, m: nat): (r: nat)
    requires m > 0
    ensures r <= x
  {
    if TestBit(x, m) then
      assert x >= m;
      x - m
    else x
  }

  function Bit(i: nat): bv8
    requires i < 8
  {
    if i == 0 then 0x80 else if i == 1 then 0x40 else if i == 2 then 0x20 else if i == 3 then 0x10
    else if i == 4 then 0x08 else if i == 5 then 0x04 else if i == 6 then 0x02 else 0x01
  }

  /** Testing, setting and clearing with mask m are the bitwise operations with k. */
  predicate Bitwise(b: bv8, m: nat, k: bv8)
    requires m > 0
  {
    && (TestBit(b as nat, m) <==> (b & k) != 0)
    && SetBit(b as nat, m) == (b | k) as nat
    && ClearBit(b as nat, m) == (b & !k) as nat
  }

  lemma MasksAreBitwise(b: bv8, i: nat)
    requires i < 8
    ensures Bitwise(b, Mask(i), Bit(i))
  {
    hide Bitwise;
    Bits7And6(b);
    Bits5And4(b);
    Bit3(b);
    Bit2(b);
    Bit1(b);
    Bit0(b);
  }

  lemma Bits7And6(b: bv8)
    ensures Bitwise(b, 128, 0x80) && Bitwise(b, 64, 0x40)
  {
  }

  lemma Bits5And4(b: bv8)
    ensures Bitwise(b, 32, 0x20) && Bitwise(b, 16, 0x10)
  {
  }

  lemma Bit3(b: bv8)
    ensures Bitwise(b, 8, 0x08)
  {
  }

  lemma Bit2(b: bv8)
    ensures Bitwise(b, 4, 0x04)
  {
  }

  lemma Bit1(b: bv8)
    ensures Bitwise(b, 2, 0x02)
  {
  }

  lemma Bit0(b: bv8)
    ensures Bitwise(b, 1, 0x01)
  {
  }

  predicate Aligned(path: nat, t: nat) {
    t <= 8 && path % Width(t) == 0 && path + Width(t) <= 256
  }

  lemma InsideNode(path: nat, t: nat)
    requires Aligned(path, t)
    ensures t <= 8 && path + Width(t) <= 256
  {
  }

  predicate InBlock(i: int, path: nat, t: nat)
    requires t <= 8
  {
    path <= i < path + Width(t)
  }

  lemma StepUp(w: nat, a: int, q: int)
    requires a < q
    ensures w * a + w <= w * q
  {
    assert w * q == w * a + w * (q - a);
    assert w * (q - a) == w + w * (q - a - 1);
  }

  lemma Quotient(x: nat, w: nat, q: nat, r: nat)
    requires x == w * q + r && r < w
    ensures x / w == q && x % w == r
  {
    var a, b := x / w, x % w;
    assert x == w * a + b;
    if a < q { StepUp(w, a, q); } else if q < a { StepUp(w, q, a); }
  }

  lemma HalfBits(path: nat, w: nat, off: nat)
    requires 0 < w && path % (2 * w) == 0 && off < w
    ensures !TestBit(path + off, w) && TestBit(path + w + off, w)
    ensures path % w == 0 && (path + w) % w == 0
  {
    var q := path / (2 * w);
    assert path == w * (2 * q);
    assert path + w == w * (2 * q + 1);
    Quotient(path, w, 2 * q, 0);
    Quotient(path + w, w, 2 * q + 1, 0);
    Quotient(path + off, w, 2 * q, off);
    Quotient(path + w + off, w, 2 * q + 1, off);
  }

  /** An aligned block is the disjoint union of two aligned halves, told apart by one bit. */
  lemma Halves(path: nat, t: nat)
    requires Aligned(path, t) && t < 8
    ensures Width(t) == 2 * Width(t + 1) && Mask(t) == Width(t + 1)
    ensures !TestBit(path, Mask(t)) && SetBit(path, Mask(t)) == path + Mask(t)
    ensures Aligned(path, t + 1) && Aligned(path + Mask(t), t + 1)
    ensures TestBit(path + Mask(t), Mask(t)) && ClearBit(path + Mask(t), Mask(t)) == path
  {
    HalfBits(path, Mask(t), 0);
  }

  /** Bit t of a slot in a block of type t says which half it is in. */
  lemma BitPicksHalf(i: nat, path: nat, t: nat)
    requires Aligned(path, t) && t < 8 && InBlock(i, path, t)
    ensures TestBit(i, Mask(t)) <==> i >= path + Mask(t)
  {
    var w := Mask(t);
    if i < path + w { HalfBits(path, w, i - path); } else { HalfBits(path, w, i - path - w); }
  }

  /** Start of the block of type t - 1 around a block of type t. */
  function Parent(path: nat, t: nat): nat
    requires 1 <= t <= 8
  {
    ClearBit(path, Mask(t - 1))
  }

  /** Start of the other half of that block. */
  function Sibling(path: nat, t: nat): nat
    requires 1 <= t <= 8
  {
    if TestBit(path, Mask(t - 1)) then ClearBit(path, Mask(t - 1)) else SetBit(path, Mask(t - 1))
  }

  lemma ParentAndSibling(path: nat, t: nat)
    requires 1 <= t <= 8 && Aligned(path, t)
    ensures Aligned(Parent(path, t), t - 1) && Aligned(Sibling(path, t), t)
    ensures Width(t - 1) == 2 * Width(t) && Mask(t - 1) == Width(t)
    ensures TestBit(path, Mask(t - 1)) ==> path == Parent(path, t) + Width(t) && Sibling(path, t) == Parent(path, t)
    ensures !TestBit(path, Mask(t - 1)) ==> path == Parent(path, t) && Sibling(path, t) == path + Width(t)
  {
    WidthDoubles(t);
    Halving(path, Width(t));
    EvenFits(Parent(path, t), t - 1);
    HalfBits(Parent(path, t), Width(t), 0);
  }

  lemma WidthDoubles(t: nat)
    requires 1 <= t <= 8
    ensures Width(t - 1) == 2 * Width(t) && Mask(t - 1) == Width(t) && Width(t) >= 1
  {
  }

  /** A multiple of w is an even multiple, or an even multiple plus w. */
  lemma Halving(path: nat, w: nat)
    requires 0 < w && path % w == 0
    ensures !TestBit(path, w) ==> path % (2 * w) == 0
    ensures TestBit(path, w) ==> path >= w && (path - w) % (2 * w) == 0
  {
    var q := path / w;
    assert path == w * q;
    if q % 2 == 1 {
      assert q == 2 * (q / 2) + 1;
      assert path == w * (2 * (q / 2)) + w;
      assert path - w == (2 * w) * (q / 2);
      Quotient(path - w, 2 * w, q / 2, 0);
    } else {
      assert q == 2 * (q / 2);
      assert path == (2 * w) * (q / 2);
      Quotient(path, 2 * w, q / 2, 0);
    }
  }

  lemma EvenFits(path: nat, t: nat)
    requires t <= 8 && path < 256 && path % Width(t) == 0
    ensures path + Width(t) <= 256
  {
    var w, q, n := Width(t), path / Width(t), 256 / Width(t);
    assert path == w * q && 256 == w * n;
    if n < q { StepUp(w, n, q); }
    if q < n { StepUp(w, q, n); }
  }

  /** Aligned blocks of one width are equal or disjoint. */
  lemma SameWidth(p: nat, q: nat, t: nat, i: nat)
    requires Aligned(p, t) && Aligned(q, t) && InBlock(i, p, t) && InBlock(i, q, t)
    ensures p == q
  {
    if t == 0 {} else if t == 1 {} else if t == 2 {} else if t == 3 {} else if t == 4 {}
    else if t == 5 {} else if t == 6 {} else if t == 7 {} else {}
  }

  /** Overlapping aligned blocks are nested. */
  lemma {:induction false} Nested(p: nat, t: nat, q: nat, u: nat, i: nat)
    requires Aligned(p, t) && Aligned(q, u) && t <= u
    requires InBlock(i, p, t) && InBlock(i, q, u)
    ensures p <= q && q + Width(u) <= p + Width(t)
  {
    if t == u {
      SameWidth(p, q, t, i);
    } else {
      ParentAndSibling(q, u);
      Nested(p, t, Parent(q, u), u - 1, i);
    }
  }

  /** A narrower block that overlaps the sibling position of a block lies within it. */
  lemma SiblingBlock(path: nat, t: nat, q: nat, u: nat)
    requires 1 <= t <= 8 && Aligned(path, t) && Aligned(q, u)
    requires InBlock(Sibling(path, t), q, u)
    requires !InBlock(path, q, u)
    ensures t <= u && Sibling(path, t) <= q && q + Width(u) <= Sibling(path, t) + Width(t)
    ensures q == Sibling(path, t)
  {
    ParentAndSibling(path, t);
    if u < t {
      Nested(q, u, Sibling(path, t), t, Sibling(path, t));
      Nested(q, u, Parent(path, t), t - 1, Sibling(path, t));
      assert false;
    }
    Nested(Sibling(path, t), t, q, u, Sibling(path, t));
  }

  /** Setting every bit from i on. */
  function FillMask(x: nat, i: nat): nat
    requires i <= 8
    decreases 8 - i
  {
    if i == 8 then x else FillMask(SetBit(x, Mask(i)), i + 1)
  }

  /** Setting every bit below a block's alignment gives its last slot. */
  lemma {:induction false} LastSlot(path: nat, t: nat)
    requires Aligned(path, t)
    ensures FillMask(path, t) == path + Width(t) - 1
    decreases 8 - t
  {
    if t < 8 {
      Halves(path, t);
      LastSlot(path + Mask(t), t + 1);
    }
  }

  /** Clearing and setting one bit at the two ends of a block gives the ends of its parent block. */
  lemma WidenEnds(path: nat, t: nat)
    requires 1 <= t <= 8 && Aligned(path, t)
    ensures ClearBit(path, Mask(t - 1)) == Parent(path, t)
    ensures SetBit(path + Width(t) - 1, Mask(t - 1)) == Parent(path, t) + Width(t - 1) - 1
    ensures Aligned(Parent(path, t), t - 1)
  {
    ParentAndSibling(path, t);
    var p, w := Parent(path, t), Width(t);
    HalfBits(p, w, w - 1);
  }

  /** The bit of any slot of the block restores both ends. */
  lemma NarrowEnds(path: nat, t: nat, b: nat)
    requires 1 <= t <= 8 && Aligned(path, t) && InBlock(b, path, t)
    ensures var m := Mask(t - 1);
      var lo, hi := Parent(path, t), Parent(path, t) + Width(t - 1) - 1;
      if TestBit(b, m) then SetBit(lo, m) == path && SetBit(ClearBit(hi, m), m) == path + Width(t) - 1
      else lo == path && ClearBit(hi, m) == path + Width(t) - 1
  {
    ParentAndSibling(path, t);
    var p, w := Parent(path, t), Width(t);
    HalfBits(p, w, w - 1);
    HalfBits(p, w, 0);
    if b < p + w { HalfBits(p, w, b - p); } else { HalfBits(p, w, b - p - w); }
  }

  /** Being siblings is mutual. */
  lemma SiblingTwice(path: nat, t: nat)
    requires 1 <= t <= 8 && Aligned(path, t)
    ensures Aligned(Sibling(path, t), t)
    ensures Sibling(Sibling(path, t), t) == path && Parent(Sibling(path, t), t) == Parent(path, t)
    ensures TestBit(Sibling(path, t), Mask(t - 1)) <==> !TestBit(path, Mask(t - 1))
  {
    ParentAndSibling(path, t);
    HalfBits(Parent(path, t), Width(t), 0);
  }
}
