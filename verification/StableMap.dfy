/** The map: values are addressed through stable ids. */
module StableMap {
  import opened Bytes
  import opened Shape
  import opened Search
  import opened Memory
  import opened Config
  import opened Forest
  import opened Trie
  import opened Runs

  /** Every stored key reads through its id as the map says, and the map has no other keys. */
  ghost predicate Agrees<V>(s: State, data: seq<V>, M: map<Key, V>) {
    && (forall x | x in Items(s) :: x.id < |data| && x.key in M && M[x.key] == data[x.id])
    && (forall k | k in M :: HasKey(s, k))
  }

  lemma WriteAgrees<V>(s: State, data: seq<V>, M: map<Key, V>, k: Key, id: nat, v: V)
    requires Sound(s) && Agrees(s, data, M) && Item(k, id) in Items(s)
    ensures id < |data| && k in M && Agrees(s, data[id := v], M[k := v])
  {
    IdsApart(s, Item(k, id));
  }

  lemma EraseAgrees<V>(s: State, t: State, data: seq<V>, M: map<Key, V>, k: Key)
    requires Agrees(s, data, M) && Items(t) == set x | x in Items(s) && x.key != k
    ensures (HasKey(s, k) <==> k in M) && Agrees(t, data, M - {k}) && |Items(t)| <= |Items(s)|
  {
    Fewer(Items(t), Items(s));
    if HasKey(s, k) { var x :| x in Items(s) && x.key == k; }
    forall l | l in M && l != k ensures HasKey(t, l) {
      assert HasKey(s, l);
      var x :| x in Items(s) && x.key == l;
      assert x in Items(t);
    }
  }

  class PtrieMap<V> {
    const trie: Trie
    const initial: V
    /** Entry i holds the value for id i; an entry that was never written holds `initial`. */
    var data: seq<V>
    /** The finite map that the object stands for. */
    ghost var M: map<Key, V>

    ghost predicate Valid()
      reads this, trie, trie.heap, trie.Repr
    {
      && this !in trie.Repr && trie.Valid() && trie.entries && |data| == |trie.s.owner|
      && Agrees(trie.s, data, M)
    }

    /** Free addresses for `more` further keys. */
    ghost predicate Roomy(more: nat)
      reads this, trie, trie.heap
    {
      trie.Roomy(more)
    }

    constructor (initial: V, heap: BlockHeap)
      requires heap.Valid()
      ensures Valid() && fresh(trie) && fresh(trie.Repr) && trie.heap == heap && M == map[] && this.initial == initial
      ensures trie.plots == map[] && trie.s == EMPTY_STATE
    {
      trie := new Trie(heap, true);
      this.initial := initial;
      data := [];
      M := map[];
    }

    /** The id of a key, which is inserted with the initial value if it is absent. */
    method Locate(k: Key) returns (id: nat)
      requires Valid() && Roomy(1)
      modifies this, trie.Repr, trie.heap
      ensures Valid() && fresh(trie.Repr - old(trie.Repr)) && Fair(old(trie.Accounts()), trie.Accounts())
      ensures |Items(trie.s)| <= |old(Items(trie.s))| + 1
      ensures Item(k, id) in Items(trie.s)
      ensures M == if k in old(M) then old(M) else old(M)[k := initial]
    {
      hide Trie.Matches, Trie.Backed, All, Bounded, Sound, Items, HasKey;
      ghost var had := trie.s;
      OneMore(Items(had), Item(k, |had.owner|));
      var isNew;
      isNew, id := trie.Insert(k);
      if isNew {
        data := data + [initial];
        M := M[k := initial];
        LocateAgrees(had, trie.s, old(data), old(M), k, id, initial);
      } else {
        FoundAgrees(had, old(data), old(M), k);
      }
    }

    /** Read access through the subscript operator: an absent key is created. */
    method Get(k: Key) returns (v: V)
      requires Valid() && Roomy(1)
      modifies this, trie.Repr, trie.heap
      ensures Valid() && fresh(trie.Repr - old(trie.Repr)) && Fair(old(trie.Accounts()), trie.Accounts())
      ensures |Items(trie.s)| <= |old(Items(trie.s))| + 1
      ensures M == (if k in old(M) then old(M) else old(M)[k := initial]) && v == M[k]
    {
      hide Trie.Matches, Trie.Backed, All, Bounded, Sound;
      var id := Locate(k);
      v := data[id];
    }

    method Store(id: nat, ghost k: Key, v: V)
      requires trie.Valid() && trie.entries && this !in trie.Repr && id < |data| && |data| == |trie.s.owner|
      requires Agrees(trie.s, data[id := v], M[k := v])
      modifies this
      ensures Valid() && M == old(M)[k := v]
    {
      hide Trie.Matches, Trie.Backed, All, Bounded, Sound;
      data := data[id := v];
      M := M[k := v];
    }

    /** Write access through the subscript operator. */
    method Put(k: Key, v: V)
      requires Valid() && Roomy(1)
      modifies this, trie.Repr, trie.heap
      ensures Valid() && fresh(trie.Repr - old(trie.Repr)) && Fair(old(trie.Accounts()), trie.Accounts())
      ensures |Items(trie.s)| <= |old(Items(trie.s))| + 1
      ensures M == old(M)[k := v]
    {
      hide Agrees, Trie.Matches, Trie.Backed, All, Bounded, Items;
      var id := Locate(k);
      WriteAgrees(trie.s, data, M, k, id, v);
      Store(id, k, v);
    }

    method Remove(k: Key) returns (erased: bool)
      requires Valid() && Roomy(0)
      modifies this, trie.Repr, trie.heap
      ensures Valid() && fresh(trie.Repr - old(trie.Repr)) && Fair(old(trie.Accounts()), trie.Accounts())
      ensures |Items(trie.s)| <= |old(Items(trie.s))| + 1
      ensures erased == (k in old(M)) && M == old(M) - {k}
    {
      hide Agrees, Trie.Matches, Trie.Backed, All, Bounded, Items;
      ghost var had := trie.s;
      erased := trie.Erase(k);
      EraseAgrees(had, trie.s, data, M, k);
      M := M - {k};
    }
  }

  lemma LocateAgrees<V>(s: State, u: State, data: seq<V>, M: map<Key, V>, k: Key, id: nat, initial: V)
    requires Agrees(s, data, M) && |data| == |s.owner| == id && !HasKey(s, k) && Items(u) == Items(s) + {Item(k, id)}
    ensures k !in M && Agrees(u, data + [initial], M[k := initial])
  {
    forall l | l in M[k := initial] ensures HasKey(u, l) {
      if l == k {
        assert Item(k, id) in Items(u);
      } else {
        assert HasKey(s, l);
        var x :| x in Items(s) && x.key == l;
        assert x in Items(u);
      }
    }
  }

  lemma FoundAgrees<V>(s: State, data: seq<V>, M: map<Key, V>, k: Key)
    requires Agrees(s, data, M) && HasKey(s, k)
    ensures k in M
  {
    var x :| x in Items(s) && x.key == k;
  }

  /** Different keys have different ids, and a key has one id. */
  lemma IdsApart(s: State, x: Item)
    requires Sound(s) && x in Items(s)
    ensures forall y | y in Items(s) && (y.id == x.id || y.key == x.key) :: y == x
  {
    assert Wf(s);
    var n :| n in s.leaf && x in s.leaf[n].items;
    forall y | y in Items(s) && (y.id == x.id || y.key == x.key) ensures y == x {
      var m :| m in s.leaf && y in s.leaf[m].items;
      OneHome(s, n, x, m, y);
    }
  }

  // ------------------------------------------------------------ whole runs

  datatype Use<V> = Read(key: Key) | Write(key: Key, value: V) | Delete(key: Key)

  datatype Seen<V> = Value(value: V) | Done | Deleted(was: bool)

  function Next<V>(m: map<Key, V>, initial: V, u: Use<V>): map<Key, V> {
    match u
    case Read(k) => if k in m then m else m[k := initial]
    case Write(k, v) => m[k := v]
    case Delete(k) => m - {k}
  }

  function See<V>(m: map<Key, V>, initial: V, u: Use<V>): Seen<V> {
    match u
    case Read(k) => Value(if k in m then m[k] else initial)
    case Write(k, v) => Done
    case Delete(k) => Deleted(k in m)
  }

  method Perform<V>(p: PtrieMap<V>, u: Use<V>) returns (a: Seen<V>)
    requires p.Valid() && p.Roomy(1)
    modifies p, p.trie.Repr, p.trie.heap
    ensures p.Valid() && fresh(p.trie.Repr - old(p.trie.Repr)) && Fair(old(p.trie.Accounts()), p.trie.Accounts())
    ensures |Items(p.trie.s)| <= |old(Items(p.trie.s))| + 1
    ensures a == See(old(p.M), p.initial, u) && p.M == Next(old(p.M), p.initial, u)
  {
    match u
    case Read(k) =>
      var v := p.Get(k);
      a := Value(v);
    case Write(k, v) =>
      p.Put(k, v);
      a := Done;
    case Delete(k) =>
      var was := p.Remove(k);
      a := Deleted(was);
  }

  // ------------------------------------------------------------ what a run has to show, from its uses alone

  /** The use writes or deletes k. */
  predicate Sets<V>(u: Use<V>, k: Key) {
    !u.Read? && u.key == k
  }

  /** Use j is the last before use i that writes or deletes k. */
  predicate SetLast<V>(uses: seq<Use<V>>, i: nat, k: Key, j: nat)
    requires i <= |uses|
  {
    j < i && Sets(uses[j], k) && forall l | j < l < i :: !Sets(uses[l], k)
  }

  /** Before use i, k reads as v: the value last written, or the initial one if k was deleted since. */
  ghost predicate ReadsAs<V>(m: map<Key, V>, initial: V, uses: seq<Use<V>>, i: nat, k: Key, v: V)
    requires i <= |uses|
  {
    if exists j: nat :: SetLast(uses, i, k, j) then
      exists j: nat :: SetLast(uses, i, k, j) && v == if uses[j].Write? then uses[j].value else initial
    else
      v == if k in m then m[k] else initial
  }

  /** Use j is the last before use i that is about k. */
  predicate UsedLast<V>(uses: seq<Use<V>>, i: nat, k: Key, j: nat)
    requires i <= |uses|
  {
    j < i && uses[j].key == k && forall l | j < l < i :: uses[l].key != k
  }

  /** Before use i, k is in the map: its last use was a read or a write. */
  ghost predicate There<V>(m: map<Key, V>, uses: seq<Use<V>>, i: nat, k: Key)
    requires i <= |uses|
  {
    if exists j: nat :: UsedLast(uses, i, k, j) then exists j: nat :: UsedLast(uses, i, k, j) && !uses[j].Delete?
    else k in m
  }

  /** What use i has to see in a run that starts from m. */
  ghost predicate Fitting<V>(m: map<Key, V>, initial: V, uses: seq<Use<V>>, i: nat, a: Seen<V>)
    requires i < |uses|
  {
    match uses[i]
    case Read(k) => a.Value? && ReadsAs(m, initial, uses, i, k, a.value)
    case Write(k, v) => a.Done?
    case Delete(k) => a.Deleted? && (a.was <==> There(m, uses, i, k))
  }

  /** The map after i uses of a run from m. */
  ghost predicate Reached<V(!new)>(m: map<Key, V>, initial: V, uses: seq<Use<V>>, i: nat, n: map<Key, V>)
    requires i <= |uses|
  {
    && (forall k :: k in n <==> There(m, uses, i, k))
    && (forall k :: ReadsAs(m, initial, uses, i, k, if k in n then n[k] else initial))
  }

  lemma SetLater<V>(uses: seq<Use<V>>, i: nat, k: Key, j: nat)
    requires i < |uses|
    ensures SetLast(uses, i + 1, k, j) <==> if Sets(uses[i], k) then j == i else SetLast(uses, i, k, j)
  {
  }

  lemma UsedLater<V>(uses: seq<Use<V>>, i: nat, k: Key, j: nat)
    requires i < |uses|
    ensures UsedLast(uses, i + 1, k, j) <==> if uses[i].key == k then j == i else UsedLast(uses, i, k, j)
  {
  }

  lemma ReadsAsSet<V>(m: map<Key, V>, initial: V, uses: seq<Use<V>>, i: nat, k: Key, v: V, j: nat)
    requires i <= |uses| && SetLast(uses, i, k, j)
    ensures ReadsAs(m, initial, uses, i, k, v) <==> v == if uses[j].Write? then uses[j].value else initial
  {
    forall l: nat | SetLast(uses, i, k, l) ensures l == j {
    }
  }

  lemma ThereAsUsed<V>(m: map<Key, V>, uses: seq<Use<V>>, i: nat, k: Key, j: nat)
    requires i <= |uses| && UsedLast(uses, i, k, j)
    ensures There(m, uses, i, k) <==> !uses[j].Delete?
  {
    forall l: nat | UsedLast(uses, i, k, l) ensures l == j {
    }
  }

  lemma ReadsLater<V>(m: map<Key, V>, initial: V, uses: seq<Use<V>>, i: nat, k: Key, v: V)
    requires i < |uses|
    ensures ReadsAs(m, initial, uses, i + 1, k, v) <==>
      if Sets(uses[i], k) then v == if uses[i].Write? then uses[i].value else initial
      else ReadsAs(m, initial, uses, i, k, v)
  {
    if Sets(uses[i], k) {
      ReadsAsSet(m, initial, uses, i + 1, k, v, i);
    } else if j: nat :| SetLast(uses, i, k, j) {
      ReadsAsSet(m, initial, uses, i, k, v, j);
      ReadsAsSet(m, initial, uses, i + 1, k, v, j);
    } else {
      var later := i + 1;
      forall j: nat ensures !SetLast(uses, later, k, j) { SetLater(uses, i, k, j); }
    }
  }

  lemma ThereLater<V>(m: map<Key, V>, uses: seq<Use<V>>, i: nat, k: Key)
    requires i < |uses|
    ensures There(m, uses, i + 1, k) <==> if uses[i].key == k then !uses[i].Delete? else There(m, uses, i, k)
  {
    if uses[i].key == k {
      ThereAsUsed(m, uses, i + 1, k, i);
    } else if j: nat :| UsedLast(uses, i, k, j) {
      ThereAsUsed(m, uses, i, k, j);
      ThereAsUsed(m, uses, i + 1, k, j);
    } else {
      var later := i + 1;
      forall j: nat ensures !UsedLast(uses, later, k, j) { UsedLater(uses, i, k, j); }
    }
  }

  lemma ReachedNext<V(!new)>(m: map<Key, V>, initial: V, uses: seq<Use<V>>, i: nat, n: map<Key, V>)
    requires i < |uses| && Reached(m, initial, uses, i, n)
    ensures Reached(m, initial, uses, i + 1, Next(n, initial, uses[i]))
    ensures Fitting(m, initial, uses, i, See(n, initial, uses[i]))
  {
    hide There, ReadsAs;
    var o := Next(n, initial, uses[i]);
    forall k ensures k in o <==> There(m, uses, i + 1, k) { ThereLater(m, uses, i, k); }
    forall k ensures ReadsAs(m, initial, uses, i + 1, k, if k in o then o[k] else initial) {
      ReadsLater(m, initial, uses, i, k, if k in o then o[k] else initial);
    }
  }

  lemma ThereUnused<V>(m: map<Key, V>, uses: seq<Use<V>>, i: nat, k: Key)
    requires i <= |uses|
    ensures (forall j | 0 <= j < i :: uses[j].key != k) ==> (There(m, uses, i, k) <==> k in m)
  {
  }

  lemma {:induction false} SetSomewhere<V>(uses: seq<Use<V>>, i: nat, k: Key, d: nat) returns (j: nat)
    requires d < i <= |uses| && Sets(uses[d], k)
    ensures d <= j && SetLast(uses, i, k, j)
    decreases i
  {
    if Sets(uses[i-1], k) {
      j := i - 1;
    } else {
      j := SetSomewhere(uses, i - 1, k, d);
    }
  }

  /** Any sequence of reads, writes and deletions sees what the uses themselves demand. */
  method Continue<V(!new)>(p: PtrieMap<V>, uses: seq<Use<V>>) returns (seen: seq<Seen<V>>)
    requires p.Valid() && p.Roomy(|uses|)
    modifies p, p.trie.Repr, p.trie.heap
    ensures p.Valid() && fresh(p.trie.Repr - old(p.trie.Repr)) && Fair(old(p.trie.Accounts()), p.trie.Accounts())
    ensures |seen| == |uses| && forall i | 0 <= i < |uses| :: Fitting(old(p.M), p.initial, uses, i, seen[i])
    ensures Reached(old(p.M), p.initial, uses, |uses|, p.M)
  {
    hide Agrees, See, Next, HasRoom, All, Trie.Matches, Trie.Backed, Reached, Fitting;
    p.trie.Unmoved();
    ghost var m := p.M;
    seen := [];
    ReachedFirst(m, p.initial, uses);
    for i := 0 to |uses|
      invariant p.Valid() && fresh(p.trie.Repr - old(p.trie.Repr)) && p.Roomy(|uses| - i)
      invariant Fair(old(p.trie.Accounts()), p.trie.Accounts())
      invariant |seen| == i && forall j | 0 <= j < i :: Fitting(m, p.initial, uses, j, seen[j])
      invariant Reached(m, p.initial, uses, i, p.M)
    {
      ghost var a, had, n := p.trie.Accounts(), Items(p.trie.s), p.M;
      RoomForFewer(a, had, |uses| - i, 1);
      var r := Perform(p, uses[i]);
      RoomAfter(a, p.trie.Accounts(), had, Items(p.trie.s), |uses| - i);
      FairChain(old(p.trie.Accounts()), a, p.trie.Accounts());
      ReachedNext(m, p.initial, uses, i, n);
      seen := seen + [r];
    }
  }

  lemma ReachedFirst<V(!new)>(m: map<Key, V>, initial: V, uses: seq<Use<V>>)
    ensures Reached(m, initial, uses, 0, m)
  {
  }

  /** The same on a new map: afterwards the blocks in use are those that were before and those of the leaves. */
  method RunMap<V(!new)>(initial: V, uses: seq<Use<V>>, heap: BlockHeap) returns (p: PtrieMap<V>, seen: seq<Seen<V>>)
    requires heap.Valid() && |heap.free| >= |uses| + SPLITBOUND
    modifies heap
    ensures p.Valid() && fresh(p) && fresh(p.trie.Repr) && p.trie.heap == heap && p.initial == initial
    ensures |seen| == |uses| && forall i | 0 <= i < |uses| :: Fitting(map[], initial, uses, i, seen[i])
    ensures Reached(map[], initial, uses, |uses|, p.M)
    ensures Exchanged(old(heap.blocks), heap.blocks, {}, All(p.trie.plots))
  {
    hide Fitting, Reached;
    p := new PtrieMap(initial, heap);
    ghost var a := p.trie.Accounts();
    NoBlocks();
    assert Items(p.trie.s) == {};
    seen := Continue(p, uses);
    assert Exchanged(a.blocks, heap.blocks, a.mine, All(p.trie.plots));
  }

  /** A value put under k is read back after any uses that do not write or delete k. */
  method LastWriteWins<V(!new)>(p: PtrieMap<V>, k: Key, v: V, uses: seq<Use<V>>) returns (r: V)
    requires p.Valid() && p.Roomy(|uses| + 2) && forall i | 0 <= i < |uses| :: uses[i].Read? || uses[i].key != k
    modifies p, p.trie.Repr, p.trie.heap
    ensures p.Valid() && fresh(p.trie.Repr - old(p.trie.Repr)) && r == v
  {
    hide ReadsAs, Agrees, HasRoom, All;
    var all := [Write(k, v)] + uses + [Read(k)];
    var seen := Continue(p, all);
    var e := |all| - 1;
    assert Fitting(old(p.M), p.initial, all, e, seen[e]);
    r := seen[e].value;
    assert forall l | 0 < l < e :: all[l] == uses[l-1];
    ReadsAsSet(old(p.M), p.initial, all, e, k, r, 0);
  }

  /** A deletion after any uses tells whether the last of them about k was a read or a write, and k reads as the initial
      value from then on until it is written again. */
  method DeletionForgets<V(!new)>(p: PtrieMap<V>, k: Key, before: seq<Use<V>>, between: seq<Use<V>>)
    returns (was: bool, r: V)
    requires p.Valid() && p.Roomy(|before| + |between| + 2)
    requires forall i | 0 <= i < |between| :: !between[i].Write? || between[i].key != k
    modifies p, p.trie.Repr, p.trie.heap
    ensures p.Valid() && fresh(p.trie.Repr - old(p.trie.Repr)) && r == p.initial
    ensures forall j | 0 <= j < |before| && before[j].key == k && (forall l | j < l < |before| :: before[l].key != k) ::
      was <==> before[j].Read? || before[j].Write?
    ensures (forall j | 0 <= j < |before| :: before[j].key != k) ==> (was <==> k in old(p.M))
  {
    hide ReadsAs, There, Agrees, HasRoom, All;
    var all := before + [Delete(k)] + between + [Read(k)];
    var seen := Continue(p, all);
    var d, e := |before|, |all| - 1;
    assert Fitting(old(p.M), p.initial, all, d, seen[d]) && Fitting(old(p.M), p.initial, all, e, seen[e]);
    was, r := seen[d].was, seen[e].value;
    assert forall l | 0 <= l < d :: all[l] == before[l];
    assert forall l | d < l < e :: all[l] == between[l-d-1];
    forall j | 0 <= j < d && before[j].key == k && (forall l | j < l < d :: before[l].key != k)
      ensures was <==> before[j].Read? || before[j].Write?
    {
      ThereAsUsed(old(p.M), all, d, k, j);
    }
    ThereUnused(old(p.M), all, d, k);
    ghost var s := SetSomewhere(all, e, k, d);
    ReadsAsSet(old(p.M), p.initial, all, e, k, r, s);
  }
}
