/** The template parameters of the trie, under its compile-time conditions. */
module Config {

  function Times(a: nat, b: nat): nat { a * b }

  datatype Bounds = Bounds(heap: nat, split: nat) {
    /** The product heap * split is below 2^16 - 1; put so that the verifier opens it only where Times is mentioned. */
    ghost predicate Admissible() {
      split >= 6 && heap > 8 && forall h {:trigger Times(h, split)} | h == heap :: Times(h, split) < 0xFFFF
    }
  }

  type AdmissibleBounds = b: Bounds | b.Admissible() witness Bounds(17, 129)

  /** Any admissible choice; nothing below fixes it further. */
  const BOUNDS: AdmissibleBounds

  /** A bucket that reaches this many keys is split. */
  const SPLITBOUND: nat := BOUNDS.split

  /** Residues of at least this many bytes are stored out of line. */
  const HEAPBOUND: nat := BOUNDS.heap

  lemma BoundsFit()
    ensures 9 <= HEAPBOUND && 6 <= SPLITBOUND && HEAPBOUND * SPLITBOUND < 0xFFFF
    ensures HEAPBOUND < 0xFFFF && SPLITBOUND < 0xFFFF
  {
    assert Times(HEAPBOUND, SPLITBOUND) < 0xFFFF;
    ProductMonotone(6, SPLITBOUND, HEAPBOUND);
    ProductMonotone(9, HEAPBOUND, SPLITBOUND);
  }

  /** Exactly these bounds are admitted, so SPLITBOUND may exceed 770. */
  lemma AdmittedBounds(heap: nat, split: nat)
    ensures Bounds(heap, split).Admissible() <==> heap >= 9 && split >= 6 && heap * split < 0xFFFF
    ensures Bounds(9, 771).Admissible()
  {
    assert Bounds(heap, split).Admissible() ==> Times(heap, split) < 0xFFFF || heap * split >= 0xFFFF;
    assert Times(heap, split) == heap * split && Times(9, 771) == 6939;
  }

  lemma ProductMonotone(a: nat, b: nat, c: nat)
    requires a <= b
    ensures a * c <= b * c
  {
  }
}
