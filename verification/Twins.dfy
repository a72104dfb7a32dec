/** A set and its copy go separate ways: whatever is done to one of them leaves the other as it was. */
module Twins {
  import opened Bytes
  import opened Config
  import opened Memory
  import opened Shape
  import opened Search
  import opened Layout
  import opened Forest
  import opened Trie
  import opened Runs
  import opened Copying

  datatype Op = Add(key: Key) | Remove(key: Key) | Has(key: Key)

  /** An operation on the original or on its copy. */
  datatype Turn = Turn(original: bool, op: Op)

  /** Turn j is the last before turn i that adds or removes k on this side. */
  predicate Latest(turns: seq<Turn>, i: nat, original: bool, k: Key, j: nat)
    requires i <= |turns|
  {
    && j < i && turns[j].original == original && turns[j].op.key == k && !turns[j].op.Has?
    && forall l | j < l < i :: turns[l].original != original || turns[l].op.key != k || turns[l].op.Has?
  }

  /** Before turn i, k is on this side: it was added last, or was there at the start and not touched. */
  ghost predicate Here(start: set<Key>, turns: seq<Turn>, i: nat, original: bool, k: Key)
    requires i <= |turns|
  {
    if exists j: nat :: Latest(turns, i, original, k, j) then
      exists j: nat :: Latest(turns, i, original, k, j) && turns[j].op.Add?
    else
      k in start
  }

  /** What turn i answers when the sides started as a and b and know nothing of each other. */
  ghost predicate Apt(a: set<Key>, b: set<Key>, turns: seq<Turn>, i: nat, r: bool)
    requires i < |turns|
  {
    var here := Here(if turns[i].original then a else b, turns, i, turns[i].original, turns[i].op.key);
    match turns[i].op
    case Add(k) => r == !here
    case Remove(k) => r == here
    case Has(k) => r == here
  }

  /** One side after i turns. */
  ghost predicate Stands(m: set<Key>, start: set<Key>, turns: seq<Turn>, i: nat, original: bool)
    requires i <= |turns|
  {
    forall k :: k in m <==> Here(start, turns, i, original, k)
  }

  lemma HereAsLatest(start: set<Key>, turns: seq<Turn>, i: nat, original: bool, k: Key, j: nat)
    requires i <= |turns| && Latest(turns, i, original, k, j)
    ensures Here(start, turns, i, original, k) <==> turns[j].op.Add?
  {
    forall l: nat | Latest(turns, i, original, k, l) ensures l == j {
    }
  }

  lemma LatestLater(turns: seq<Turn>, i: nat, original: bool, k: Key, j: nat)
    requires i < |turns| && (turns[i].original != original || turns[i].op.key != k || turns[i].op.Has?)
    ensures Latest(turns, i + 1, original, k, j) <==> Latest(turns, i, original, k, j)
  {
  }

  /** A turn changes one key on one side, unless it only asks. */
  lemma HereLater(start: set<Key>, turns: seq<Turn>, i: nat, original: bool, k: Key)
    requires i < |turns|
    ensures Here(start, turns, i + 1, original, k) <==>
      if turns[i].original == original && turns[i].op.key == k && !turns[i].op.Has? then turns[i].op.Add?
      else Here(start, turns, i, original, k)
  {
    var later := i + 1;
    if turns[i].original == original && turns[i].op.key == k && !turns[i].op.Has? {
      HereAsLatest(start, turns, later, original, k, i);
    } else if j: nat :| Latest(turns, i, original, k, j) {
      LatestLater(turns, i, original, k, j);
      HereAsLatest(start, turns, i, original, k, j);
      HereAsLatest(start, turns, later, original, k, j);
    } else {
      forall j: nat ensures !Latest(turns, later, original, k, j) { LatestLater(turns, i, original, k, j); }
    }
  }

  /** What one operation does to a set, and what it answers. */
  ghost predicate Effect(before: set<Key>, after: set<Key>, o: Op, r: bool) {
    match o
    case Add(k) => after == before + {k} && (r <==> k !in before)
    case Remove(k) => after == before - {k} && (r <==> k in before)
    case Has(k) => after == before && (r <==> k in before)
  }

  /** The side whose turn it is moves on as the turns demand. */
  lemma TurnMoves(a: set<Key>, b: set<Key>, turns: seq<Turn>, i: nat, m: set<Key>, n: set<Key>, r: bool)
    requires i < |turns| && Effect(m, n, turns[i].op, r)
    requires Stands(m, if turns[i].original then a else b, turns, i, turns[i].original)
    ensures Apt(a, b, turns, i, r)
    ensures Stands(n, if turns[i].original then a else b, turns, i + 1, turns[i].original)
  {
    hide Here;
    var start := if turns[i].original then a else b;
    forall k ensures k in n <==> Here(start, turns, i + 1, turns[i].original, k) {
      HereLater(start, turns, i, turns[i].original, k);
    }
  }

  /** The other side stays. */
  lemma OtherStays(start: set<Key>, turns: seq<Turn>, i: nat, m: set<Key>)
    requires i < |turns| && Stands(m, start, turns, i, !turns[i].original)
    ensures Stands(m, start, turns, i + 1, !turns[i].original)
  {
    hide Here;
    forall k ensures k in m <==> Here(start, turns, i + 1, !turns[i].original, k) {
      HereLater(start, turns, i, !turns[i].original, k);
    }
  }

  /** Two plain sets on one heap that share nothing. */
  ghost predicate Beside(t: Trie, u: Trie)
    reads t, u, t.heap, u.heap, t.Repr, u.Repr
  {
    && t.Valid() && u.Valid() && t.heap == u.heap && !t.entries && !u.entries
    && t.Repr !! u.Repr && All(t.plots) !! All(u.plots)
  }

  /** A trie whose blocks are left alone stays as it is. */
  lemma Undamaged(m: Leaves, g: Plots, before: Storage, after: Storage, out: set<Pointer>, into: set<Pointer>)
    requires Conserved(m, g, before) && Exchanged(before, after, out, into) && All(g) !! out
    ensures Conserved(m, g, after) && All(g) !! into
  {
    forall n | n in m ensures Holds(m[n], g[n], after) {
      forall p | p in Pointers(g[n].cells) ensures p in All(g) {
      }
      StillHolds(m[n], g[n], before, after);
    }
  }

  /** Free addresses for what both sets may still come to hold, and for rewriting one bucket. */
  ghost predicate RoomForBoth(t: Trie, u: Trie, more: nat)
    reads t, u, t.heap
  {
    |t.heap.free| + |All(t.plots)| + |All(u.plots)| >= |Items(t.s)| + |Items(u.s)| + more + SPLITBOUND
  }

  lemma RoomForOne(t: Trie, u: Trie, more: nat)
    requires Beside(t, u) && RoomForBoth(t, u, more) && more > 0
    ensures t.Roomy(1) && u.Roomy(1)
  {
    BlocksPerKey(t.s, t.plots, t.heap.blocks);
    BlocksPerKey(u.s, u.plots, u.heap.blocks);
  }

  lemma KeyIsIn(s: State, k: Key)
    ensures HasKey(s, k) <==> k in Contents(s)
  {
  }

  lemma Added(s: State, u: State, k: Key, x: Item)
    requires x.key == k && Items(u) == Items(s) + {x}
    ensures Contents(u) == Contents(s) + {k} && |Items(u)| <= |Items(s)| + 1
  {
    OneMore(Items(s), x);
    forall l | l in Contents(s) ensures l in Contents(u) {
      var y :| y in Items(s) && y.key == l;
      assert y in Items(u);
    }
    assert x in Items(u);
  }

  lemma Removed(s: State, u: State, k: Key)
    requires Items(u) == set x | x in Items(s) && x.key != k
    ensures Contents(u) == Contents(s) - {k} && |Items(u)| <= |Items(s)| + 1
  {
    Fewer(Items(u), Items(s));
    forall l | l in Contents(s) && l != k ensures l in Contents(u) {
      var y :| y in Items(s) && y.key == l;
      assert y in Items(u);
    }
  }

  /** One operation on a plain set. */
  method Do(t: Trie, o: Op) returns (r: bool)
    requires t.Valid() && !t.entries && t.Roomy(1)
    modifies t.Repr, t.heap
    ensures t.Valid() && fresh(t.Repr - old(t.Repr)) && Fair(old(t.Accounts()), t.Accounts())
    ensures o.Add? ==> Contents(t.s) == old(Contents(t.s)) + {o.key} && r == (o.key !in old(Contents(t.s)))
    ensures o.Remove? ==> Contents(t.s) == old(Contents(t.s)) - {o.key} && r == (o.key in old(Contents(t.s)))
    ensures o.Has? ==> Contents(t.s) == old(Contents(t.s)) && r == (o.key in old(Contents(t.s)))
    ensures |Items(t.s)| <= |old(Items(t.s))| + 1
  {
    hide Items, Contents, Trie.Matches, Trie.Backed, All, Bounded, Sound, HasKey;
    t.Unmoved();
    ghost var s := t.s;
    KeyIsIn(s, o.key);
    match o
    case Add(k) =>
      var isNew, id := t.Insert(k);
      if isNew { Added(s, t.s, k, Item(k, |s.owner|)); }
      r := isNew;
    case Remove(k) =>
      r := t.Erase(k);
      Removed(s, t.s, k);
    case Has(k) =>
      var found, id := t.Exists(k);
      r := found;
  }

  /** One operation on t leaves u as it was. */
  method DoBeside(t: Trie, u: Trie, o: Op) returns (r: bool)
    requires Beside(t, u) && t.Roomy(1)
    modifies t.Repr, t.heap
    ensures Beside(t, u) && u.s == old(u.s) && u.plots == old(u.plots) && u.Repr == old(u.Repr)
    ensures fresh(t.Repr - old(t.Repr)) && Fair(old(t.Accounts()), t.Accounts())
    ensures o.Add? ==> Contents(t.s) == old(Contents(t.s)) + {o.key} && r == (o.key !in old(Contents(t.s)))
    ensures o.Remove? ==> Contents(t.s) == old(Contents(t.s)) - {o.key} && r == (o.key in old(Contents(t.s)))
    ensures o.Has? ==> Contents(t.s) == old(Contents(t.s)) && r == (o.key in old(Contents(t.s)))
    ensures |Items(t.s)| <= |old(Items(t.s))| + 1
  {
    hide Items, Contents, Trie.Matches, All, Bounded, Sound, Conserved, Exchanged, BlockHeap.Valid, HasRoom;
    ghost var a := t.Accounts();
    assert Conserved(u.s.leaf, u.plots, a.blocks);
    r := Do(t, o);
    assert Exchanged(a.blocks, t.heap.blocks, a.mine, All(t.plots));
    Undamaged(u.s.leaf, u.plots, a.blocks, t.heap.blocks, a.mine, All(t.plots));
  }

  /** Any interleaving of operations on two sets that share nothing is answered as by two separate sets. */
  method Interleave(t: Trie, u: Trie, turns: seq<Turn>) returns (answers: seq<bool>)
    requires Beside(t, u) && RoomForBoth(t, u, |turns|)
    modifies t.Repr, u.Repr, t.heap
    ensures Beside(t, u) && |answers| == |turns|
    ensures forall i | 0 <= i < |turns| :: Apt(old(Contents(t.s)), old(Contents(u.s)), turns, i, answers[i])
    ensures Stands(Contents(t.s), old(Contents(t.s)), turns, |turns|, true)
    ensures Stands(Contents(u.s), old(Contents(u.s)), turns, |turns|, false)
  {
    hide Items, Contents, All, Stands, Apt, Fair, Trie.Valid;
    ghost var a, b := Contents(t.s), Contents(u.s);
    StandsFirst(a, turns, true);
    StandsFirst(b, turns, false);
    answers := [];
    for i := 0 to |turns|
      invariant Beside(t, u) && RoomForBoth(t, u, |turns| - i)
      invariant fresh(t.Repr - old(t.Repr)) && fresh(u.Repr - old(u.Repr))
      invariant |answers| == i && forall j | 0 <= j < i :: Apt(a, b, turns, j, answers[j])
      invariant Stands(Contents(t.s), a, turns, i, true) && Stands(Contents(u.s), b, turns, i, false)
    {
      RoomForOne(t, u, |turns| - i);
      ghost var m, n := Contents(t.s), Contents(u.s);
      var r;
      if turns[i].original {
        ghost var books := t.Accounts();
        r := DoBeside(t, u, turns[i].op);
        FreeAfter(books, t.Accounts());
        TurnMoves(a, b, turns, i, m, Contents(t.s), r);
        OtherStays(b, turns, i, n);
      } else {
        ghost var books := u.Accounts();
        r := DoBeside(u, t, turns[i].op);
        FreeAfter(books, u.Accounts());
        TurnMoves(a, b, turns, i, n, Contents(u.s), r);
        OtherStays(a, turns, i, m);
      }
      answers := answers + [r];
    }
  }

  lemma StandsFirst(start: set<Key>, turns: seq<Turn>, original: bool)
    ensures Stands(start, start, turns, 0, original)
  {
  }

  lemma FreeAfter(a: Books, b: Books)
    requires Fair(a, b)
    ensures a.free + |a.mine| == b.free + |b.mine|
  {
  }

  /** A set is copied, and both are used in any order: each answers as if the other did not exist. */
  method CopyThenUse(t: Trie, turns: seq<Turn>) returns (u: Trie, answers: seq<bool>)
    requires t.Valid() && !t.entries && |t.heap.free| >= 2 * |Items(t.s)| + |turns| + SPLITBOUND
    modifies t.Repr, t.heap
    ensures Beside(t, u) && |answers| == |turns|
    ensures forall i | 0 <= i < |turns| :: Apt(old(Contents(t.s)), old(Contents(t.s)), turns, i, answers[i])
    ensures Stands(Contents(t.s), old(Contents(t.s)), turns, |turns|, true)
    ensures Stands(Contents(u.s), old(Contents(t.s)), turns, |turns|, false)
  {
    hide Apt, Stands, Items, All, Trie.Matches, Conserved, Exchanged;
    ghost var rho, before := map[], t.heap.blocks;
    t.Opening();
    u, rho := Copy(t);
    t.Opening();
    ExchangedCount(before, t.heap.blocks, {}, All(u.plots));
    SameContents(t.s, u.s);
    answers := Interleave(t, u, turns);
  }

  lemma SameContents(s: State, u: State)
    requires Items(s) == Items(u)
    ensures Contents(s) == Contents(u)
  {
  }
}
