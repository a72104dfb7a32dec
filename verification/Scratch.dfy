/** The array of lengths in readd_sizes: with which bounds some run overruns it, and such a run. */
module Scratch {
  import opened Bytes
  import opened Config
  import opened Memory
  import opened Trie
  import opened Runs

  /** Key i of the run: two bytes. */
  function KeyNo(i: nat): Key
    requires i < 0x1_0000
  {
    [i / 256, i % 256]
  }

  lemma KeysDiffer(i: nat, j: nat)
    requires i < j < 0x1_0000
    ensures KeyNo(i) != KeyNo(j)
  {
  }

  /** Inserts n keys. */
  function Fill(n: nat): seq<Call>
    requires n <= 0x1_0000
  {
    seq(n, i requires 0 <= i < n => Insert(KeyNo(i)))
  }

  /** Erases the first n of them. */
  function Clear(n: nat): seq<Call>
    requires n <= 0x1_0000
  {
    seq(n, i requires 0 <= i < n => Erase(KeyNo(i)))
  }

  /** As many keys as fill a leaf, erased until SPLITBOUND / 3 are left. */
  ghost function Crowding(): seq<Call> {
    BoundsFit();
    Fill(SPLITBOUND) + Clear(SPLITBOUND - SPLITBOUND / 3)
  }

  lemma {:induction false} AfterOneMore(m: Ideal, calls: seq<Call>, c: Call)
    ensures AfterAll(m, calls + [c]) == After(AfterAll(m, calls), c)
    decreases |calls|
  {
    if calls != [] {
      assert (calls + [c])[1..] == calls[1..] + [c];
      AfterOneMore(After(m, calls[0]), calls[1..], c);
    }
  }

  lemma {:induction false} AfterBoth(m: Ideal, a: seq<Call>, b: seq<Call>)
    ensures AfterAll(m, a + b) == AfterAll(AfterAll(m, a), b)
    decreases |a|
  {
    if a == [] {
      assert a + b == b;
    } else {
      assert (a + b)[1..] == a[1..] + b;
      AfterBoth(After(m, a[0]), a[1..], b);
    }
  }

  /** Calls that unpack nothing are always legal. */
  lemma {:induction false} LegalWithoutIds(m: Ideal, calls: seq<Call>)
    requires forall i | 0 <= i < |calls| :: !calls[i].Unpack?
    ensures Legal(m, calls)
    decreases |calls|
  {
    if calls != [] { LegalWithoutIds(After(m, calls[0]), calls[1..]); }
  }

  /** Of the keys, exactly those from number `from` on below `to` are stored. */
  ghost predicate Holding(m: Ideal, from: nat, to: nat) {
    && from <= to <= SPLITBOUND < 0x1_0000 && !m.overrun && Share(m.ids, 0) == to - from
    && (forall i: nat | i < SPLITBOUND :: KeyNo(i) in m.ids <==> from <= i < to)
  }

  lemma {:induction false} Filled(n: nat)
    requires n <= SPLITBOUND < 0x1_0000
    ensures var m := AfterAll(EMPTY, Fill(n)); Holding(m, 0, n) && (n == SPLITBOUND > 0 ==> 0 in m.deep)
  {
    if n > 0 {
      Filled(n - 1);
      var m := AfterAll(EMPTY, Fill(n - 1));
      assert Fill(n) == Fill(n - 1) + [Insert(KeyNo(n - 1))];
      AfterOneMore(EMPTY, Fill(n - 1), Insert(KeyNo(n - 1)));
      ShareWith(m.ids, KeyNo(n - 1), m.next, 0);
      forall i: nat | i < SPLITBOUND && i != n - 1 ensures KeyNo(i) != KeyNo(n - 1) {
        if i < n - 1 { KeysDiffer(i, n - 1); } else { KeysDiffer(n - 1, i); }
      }
    }
  }

  lemma {:induction false} Cleared(m: Ideal, n: nat)
    requires Holding(m, 0, SPLITBOUND) && 0 in m.deep && n < SPLITBOUND - SPLITBOUND / 3
    ensures var u := AfterAll(m, Clear(n)); Holding(u, n, SPLITBOUND) && 0 in u.deep
  {
    if n > 0 {
      Cleared(m, n - 1);
      var u := AfterAll(m, Clear(n - 1));
      assert Clear(n) == Clear(n - 1) + [Erase(KeyNo(n - 1))];
      AfterOneMore(m, Clear(n - 1), Erase(KeyNo(n - 1)));
      ShareWithout(u.ids, KeyNo(n - 1), 0);
      forall i: nat | i < SPLITBOUND && i != n - 1 ensures KeyNo(i) != KeyNo(n - 1) {
        if i < n - 1 { KeysDiffer(i, n - 1); } else { KeysDiffer(n - 1, i); }
      }
    }
  }

  /** The erasure that leaves SPLITBOUND / 3 keys lifts their leaf out of the child of the root. */
  lemma LastErasure(m: Ideal)
    requires SPLITBOUND > 770 && Holding(m, SPLITBOUND - SPLITBOUND / 3 - 1, SPLITBOUND) && 0 in m.deep
    ensures After(m, Erase(KeyNo(SPLITBOUND - SPLITBOUND / 3 - 1))).overrun
  {
    ShareWithout(m.ids, KeyNo(SPLITBOUND - SPLITBOUND / 3 - 1), 0);
  }

  lemma CrowdingOverruns()
    requires SPLITBOUND > 770
    ensures Legal(EMPTY, Crowding()) && AfterAll(EMPTY, Crowding()).overrun && |Crowding()| <= 2 * SPLITBOUND
  {
    hide After, Share, Holding, AfterAll, Legal;
    BoundsFit();
    var n := SPLITBOUND - SPLITBOUND / 3;
    LegalWithoutIds(EMPTY, Crowding());
    Filled(SPLITBOUND);
    var m := AfterAll(EMPTY, Fill(SPLITBOUND));
    Cleared(m, n - 1);
    assert Clear(n) == Clear(n - 1) + [Erase(KeyNo(n - 1))];
    AfterOneMore(m, Clear(n - 1), Erase(KeyNo(n - 1)));
    LastErasure(AfterAll(m, Clear(n - 1)));
    AfterBoth(EMPTY, Fill(SPLITBOUND), Clear(n));
  }

  lemma {:induction false} NeverOverruns(m: Ideal, calls: seq<Call>)
    requires SPLITBOUND <= 770
    ensures AfterAll(m, calls).overrun == m.overrun
    decreases |calls|
  {
    if calls != [] { NeverOverruns(After(m, calls[0]), calls[1..]); }
  }

  /** Some run overruns the array exactly if SPLITBOUND exceeds 770. */
  lemma OverrunsExactly()
    ensures (exists calls: seq<Call> :: Legal(EMPTY, calls) && AfterAll(EMPTY, calls).overrun) <==> SPLITBOUND > 770
  {
    if SPLITBOUND > 770 {
      CrowdingOverruns();
    } else {
      forall calls: seq<Call> ensures !AfterAll(EMPTY, calls).overrun { NeverOverruns(EMPTY, calls); }
    }
  }

  /** That run, on a trie. */
  method Overrun(heap: BlockHeap) returns (t: Trie)
    requires SPLITBOUND > 770 && heap.Valid() && |heap.free| >= 3 * SPLITBOUND
    modifies heap
    ensures t.Valid() && t.overrun
  {
    CrowdingOverruns();
    BoundsFit();
    var calls := Fill(SPLITBOUND) + Clear(SPLITBOUND - SPLITBOUND / 3);
    LegalIsProper(calls);
    var answers;
    t, answers := Run(calls, heap);
  }
}
