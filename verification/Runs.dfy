/** Whole runs: the trie answers every sequence of calls as a finite map from keys to ids would, its books stay in
    order, and the map alone tells when the root gets and loses child nodes and when the array of lengths is overrun. */
module Runs {
  import opened Bytes
  import opened Config
  import opened Memory
  import opened Shape
  import opened Search
  import opened Merging
  import opened Forest
  import opened Rest
  import opened Census
  import opened Trie
  import opened StableSet

  datatype Call = Insert(key: Key) | Erase(key: Key) | Exists(key: Key) | Unpack(id: nat)

  datatype Answer = Answer(flag: bool, id: nat) | Erased(flag: bool) | Unpacked(key: Key)

  /** The ideal stable set: a map from keys to ids, and the next id. Besides, the high bytes of key lengths for which
      the root has a child node, and whether the array of lengths in readd_sizes has been overrun. */
  datatype Ideal = Ideal(ids: map<Key, nat>, next: nat, deep: set<int>, overrun: bool)

  const EMPTY: Ideal := Ideal(map[], 0, {}, false)

  /** How many keys have a length with this high byte. */
  ghost function Share(ids: map<Key, nat>, h: int): nat {
    |set k | k in ids && |k| / 256 == h|
  }

  /** Only the id of a stored key may be unpacked. */
  ghost predicate Allowed(m: Ideal, c: Call) {
    c.Unpack? ==> exists k :: k in m.ids && m.ids[k] == c.id
  }

  /** The key that has the id: the ideal map read backwards. */
  ghost function KeyOf(m: Ideal, id: nat): (k: Key)
    requires Allowed(m, Unpack(id))
    ensures k in m.ids && m.ids[k] == id
  {
    var k :| k in m.ids && m.ids[k] == id;
    k
  }

  /** The node for h comes when a full leaf's keys share it. */
  ghost function Added(m: Ideal, k: Key, h: int): Ideal {
    var ids := m.ids[k := m.next];
    Ideal(ids, m.next + 1, if Share(ids, h) >= SPLITBOUND then m.deep + {h} else m.deep, m.overrun)
  }

  /** It goes, and its keys' lengths are computed anew, when SPLITBOUND / 3 keys are left. */
  ghost function Removed(m: Ideal, k: Key, h: int): Ideal {
    var ids := m.ids - {k};
    Ideal(ids, m.next, if Share(ids, h) <= SPLITBOUND / 3 then m.deep - {h} else m.deep,
      m.overrun || (h in m.deep && Share(ids, h) == SPLITBOUND / 3 > SCRATCH))
  }

  ghost function After(m: Ideal, c: Call): Ideal {
    match c
    case Insert(k) => if k in m.ids then m else Added(m, k, |k| / 256)
    case Erase(k) => if k in m.ids then Removed(m, k, |k| / 256) else m
    case Exists(k) => m
    case Unpack(id) => m
  }

  ghost function Reply(m: Ideal, c: Call): Answer
    requires Allowed(m, c)
  {
    match c
    case Insert(k) => if k in m.ids then Answer(false, m.ids[k]) else Answer(true, m.next)
    case Erase(k) => Erased(k in m.ids)
    case Exists(k) => if k in m.ids then Answer(true, m.ids[k]) else Answer(false, NO_ID)
    case Unpack(id) => Unpacked(KeyOf(m, id))
  }

  ghost function AfterAll(m: Ideal, calls: seq<Call>): Ideal
    decreases |calls|
  {
    if calls == [] then m else AfterAll(After(m, calls[0]), calls[1..])
  }

  /** Every id is that of a stored key at the time it is unpacked. */
  ghost predicate Legal(m: Ideal, calls: seq<Call>)
    decreases |calls|
  {
    calls != [] ==> Allowed(m, calls[0]) && Legal(After(m, calls[0]), calls[1..])
  }

  /** The answers of the ideal set to a sequence of calls. */
  ghost function Replies(m: Ideal, calls: seq<Call>): (r: seq<Answer>)
    requires Legal(m, calls)
    ensures |r| == |calls|
    decreases |calls|
  {
    if calls == [] then [] else [Reply(m, calls[0])] + Replies(After(m, calls[0]), calls[1..])
  }

  /** The root has the ideal set's child nodes. */
  ghost predicate Branches(s: State, m: Ideal) {
    forall h: byte :: h in m.deep <==> HasChild(s, h)
  }

  /** The trie holds exactly the ideal set's keys, under its ids, and branches as it says. */
  ghost predicate Represents(s: State, m: Ideal) {
    Stores(s, m) && Branches(s, m)
  }

  ghost predicate Stores(s: State, m: Ideal) {
    && |s.owner| == m.next
    && (forall x | x in Items(s) :: x.key in m.ids && m.ids[x.key] == x.id)
    && (forall k | k in m.ids :: Item(k, m.ids[k]) in Items(s))
  }

  lemma KeyIffInMap(s: State, m: Ideal, k: Key)
    requires Represents(s, m)
    ensures HasKey(s, k) <==> k in m.ids
  {
    if k in m.ids { assert Item(k, m.ids[k]) in Items(s); }
  }

  /** Distinct keys have distinct ids, all below the next one. */
  ghost predicate IdsDistinct(m: Ideal) {
    && (forall k | k in m.ids :: m.ids[k] < m.next)
    && (forall k, l | k in m.ids && l in m.ids && m.ids[k] == m.ids[l] :: k == l)
  }

  lemma IdsAreDistinct(s: State, m: Ideal)
    requires Sound(s) && Represents(s, m)
    ensures IdsDistinct(m)
  {
    assert Wf(s);
    forall k | k in m.ids ensures m.ids[k] < m.next {
      var n :| n in s.leaf && Item(k, m.ids[k]) in s.leaf[n].items;
      ItemHome(s, n, Item(k, m.ids[k]));
    }
    forall k, l | k in m.ids && l in m.ids && m.ids[k] == m.ids[l] ensures k == l {
      var n :| n in s.leaf && Item(k, m.ids[k]) in s.leaf[n].items;
      var o :| o in s.leaf && Item(l, m.ids[l]) in s.leaf[o].items;
      OneHome(s, n, Item(k, m.ids[k]), o, Item(l, m.ids[l]));
    }
  }

  // ------------------------------------------------------------ counting keys and items

  lemma {:induction false} KeysCount(items: set<Item>)
    requires forall x, y | x in items && y in items && x.key == y.key :: x == y
    ensures |set x | x in items :: x.key| == |items|
    decreases |items|
  {
    if x :| x in items {
      var rest := items - {x};
      KeysCount(rest);
      assert (set y | y in items :: y.key) == (set y | y in rest :: y.key) + {x.key};
    }
  }

  lemma TallyIsShare(s: State, m: Ideal, h: byte)
    requires Represents(s, m)
    ensures Tally(Items(s), h) == Share(m.ids, h)
  {
    KeysCount(Band(Items(s), h));
    forall k | k in m.ids && |k| / 256 == h as int ensures k in set x | x in Band(Items(s), h) :: x.key {
      assert Item(k, m.ids[k]) in Band(Items(s), h);
    }
    assert (set x | x in Band(Items(s), h) :: x.key) == set k | k in m.ids && |k| / 256 == h as int;
  }

  lemma ShareWith(ids: map<Key, nat>, k: Key, id: nat, h: int)
    requires k !in ids
    ensures Share(ids[k := id], h) == Share(ids, h) + if |k| / 256 == h then 1 else 0
  {
    var a, b := set l | l in ids && |l| / 256 == h, set l | l in ids[k := id] && |l| / 256 == h;
    assert b == if |k| / 256 == h then a + {k} else a;
  }

  lemma ShareWithout(ids: map<Key, nat>, k: Key, h: int)
    requires k in ids
    ensures Share(ids - {k}, h) == Share(ids, h) - if |k| / 256 == h then 1 else 0
  {
    ShareWith(ids - {k}, k, ids[k], h);
    assert (ids - {k})[k := ids[k]] == ids;
  }

  lemma Fewer(a: set<Item>, b: set<Item>)
    requires a <= b
    ensures |a| <= |b|
    decreases |a|
  {
    if x :| x in a { Fewer(a - {x}, b - {x}); }
  }

  /** One call on the trie answers as the ideal set does and leaves the two in step. */
  method Perform(t: Trie, c: Call, ghost m: Ideal) returns (a: Answer)
    requires t.Valid() && t.entries && t.Roomy(1) && Represents(t.s, m) && Allowed(m, c) && t.overrun == m.overrun
    modifies t.Repr, t.heap
    ensures t.Valid() && fresh(t.Repr - old(t.Repr)) && Fair(old(t.Accounts()), t.Accounts())
    ensures a == Reply(m, c) && Represents(t.s, After(m, c)) && |Items(t.s)| <= |old(Items(t.s))| + 1
    ensures t.overrun == After(m, c).overrun && Scratched(old(t.overrun), t.overrun) && t.dangling == old(t.dangling)
  {
    hide Represents, Reply, After, Items, HasKey, Trie.Matches, Trie.Backed, All, Bounded, Sound, Allowed, Tidy,
         Overfills, Tally, Scratched, HasChild;
    NeverAbove770(m, c);
    t.Unmoved();
    ghost var s0 := t.s;
    match c
    case Insert(k) =>
      var isNew, id := t.Insert(k);
      a := Answer(isNew, id);
      AfterInsert(s0, t.s, m, k, isNew, id);
    case Erase(k) =>
      var erased := t.Erase(k);
      a := Erased(erased);
      AfterErase(s0, t.s, m, k, erased);
    case Exists(k) =>
      var found, id := t.Exists(k);
      a := Answer(found, id);
      AfterExists(t.s, m, k, found, id);
    case Unpack(id) =>
      IdIsLive(t.s, m, id);
      var key := UnpackId(t, id);
      a := Unpacked(key);
      AfterUnpack(t.s, m, id, key);
  }

  lemma NeverAbove770(m: Ideal, c: Call)
    ensures Scratched(m.overrun, After(m, c).overrun)
  {
  }

  lemma AfterInsert(s: State, u: State, m: Ideal, k: Key, isNew: bool, id: nat)
    requires Represents(s, m) && (isNew <==> !HasKey(s, k)) && Sound(s) && Bounded(s, {})
    requires isNew ==> forall h: byte :: HasChild(u, h) <==> HasChild(s, h) || Tally(Items(u), h) >= SPLITBOUND
    requires !isNew ==> u == s && Item(k, id) in Items(s)
    requires isNew ==> id == |s.owner| && |u.owner| == |s.owner| + 1 && Items(u) == Items(s) + {Item(k, |s.owner|)}
    ensures Answer(isNew, id) == Reply(m, Insert(k)) && Represents(u, After(m, Insert(k)))
    ensures |Items(u)| <= |Items(s)| + 1 && After(m, Insert(k)).overrun == m.overrun
  {
    hide Branches, Items, Tally, HasChild, Share;
    KeyIffInMap(s, m, k);
    OneMore(Items(s), Item(k, |s.owner|));
    if isNew { BranchesAdded(s, u, m, k); }
  }

  lemma BranchesAdded(s: State, u: State, m: Ideal, k: Key)
    requires Represents(s, m) && Sound(s) && Bounded(s, {}) && k !in m.ids
    requires forall h: byte :: HasChild(u, h) <==> HasChild(s, h) || Tally(Items(u), h) >= SPLITBOUND
    requires Items(u) == Items(s) + {Item(k, |s.owner|)}
    ensures Branches(u, Added(m, k, |k| / 256))
  {
    forall h: byte ensures h in Added(m, k, |k| / 256).deep <==> HasChild(u, h) {
      NodesAdded(s, u, m, k, h);
    }
  }

  lemma NodesAdded(s: State, u: State, m: Ideal, k: Key, h: byte)
    requires Represents(s, m) && Sound(s) && Bounded(s, {}) && k !in m.ids
    requires HasChild(u, h) <==> HasChild(s, h) || Tally(Items(u), h) >= SPLITBOUND
    requires Items(u) == Items(s) + {Item(k, |s.owner|)}
    ensures h in Added(m, k, |k| / 256).deep <==> HasChild(u, h)
  {
    TallyIsShare(s, m, h);
    TallyWith(Items(s), Item(k, |s.owner|), h);
    ShareWith(m.ids, k, m.next, h);
    if !HasChild(s, h) { FewWithoutChild(s, h); }
  }

  lemma AfterErase(s: State, u: State, m: Ideal, k: Key, erased: bool)
    requires Represents(s, m) && (erased <==> HasKey(s, k)) && Sound(s) && Tidy(s)
    requires |u.owner| == |s.owner| && Items(u) == set x | x in Items(s) && x.key != k
    requires forall h: byte :: HasChild(u, h) <==> HasChild(s, h) && Tally(Items(u), h) > SPLITBOUND / 3
    ensures Erased(erased) == Reply(m, Erase(k)) && Represents(u, After(m, Erase(k)))
    ensures After(m, Erase(k)).overrun == (m.overrun || (HasKey(s, k) && Overfills(s, k)))
    ensures |Items(u)| <= |Items(s)| + 1
  {
    hide Branches, Items, Tally, HasChild, Share, Overfills, Tidy;
    KeyIffInMap(s, m, k);
    Fewer(Items(u), Items(s));
    BranchesRemoved(s, u, m, k, erased);
  }

  lemma BranchesRemoved(s: State, u: State, m: Ideal, k: Key, erased: bool)
    requires Represents(s, m) && (erased <==> k in m.ids) && Sound(s) && Tidy(s)
    requires Items(u) == set x | x in Items(s) && x.key != k
    requires forall h: byte :: HasChild(u, h) <==> HasChild(s, h) && Tally(Items(u), h) > SPLITBOUND / 3
    ensures Branches(u, After(m, Erase(k)))
    ensures After(m, Erase(k)).overrun == (m.overrun || (erased && Overfills(s, k)))
  {
    ChildrenAreCrowded(s);
    if erased {
      assert Items(u) == Items(s) - {Item(k, m.ids[k])};
      forall h: byte ensures h in Removed(m, k, |k| / 256).deep <==> HasChild(u, h) {
        NodesRemoved(s, u, m, k, h);
      }
      TallyIsShare(s, m, |k| / 256);
      ShareWithout(m.ids, k, |k| / 256);
    } else {
      assert Items(u) == Items(s);
    }
  }

  lemma NodesRemoved(s: State, u: State, m: Ideal, k: Key, h: byte)
    requires Represents(s, m) && Sound(s) && Tidy(s) && k in m.ids && Items(u) == Items(s) - {Item(k, m.ids[k])}
    requires HasChild(u, h) <==> HasChild(s, h) && Tally(Items(u), h) > SPLITBOUND / 3
    ensures h in Removed(m, k, |k| / 256).deep <==> HasChild(u, h)
  {
    TallyIsShare(s, m, h);
    TallyWithout(Items(s), Item(k, m.ids[k]), h);
    ShareWithout(m.ids, k, h);
    if HasChild(s, h) { ChildIsCrowded(s, h); }
  }

  lemma AfterExists(s: State, m: Ideal, k: Key, found: bool, id: nat)
    requires Represents(s, m) && (found <==> HasKey(s, k))
    requires if found then Item(k, id) in Items(s) else id == 0xFFFF_FFFF_FFFF_FFFF
    ensures Answer(found, id) == Reply(m, Exists(k)) && Represents(s, After(m, Exists(k)))
    ensures After(m, Exists(k)).overrun == m.overrun
  {
    KeyIffInMap(s, m, k);
  }

  lemma IdIsLive(s: State, m: Ideal, id: nat)
    requires Represents(s, m) && Allowed(m, Unpack(id))
    ensures Live(s, id)
  {
    assert Item(KeyOf(m, id), id) in Items(s);
  }

  /** The key of an id is the one the ideal map has under it. */
  lemma AfterUnpack(s: State, m: Ideal, id: nat, key: Key)
    requires Sound(s) && Represents(s, m) && Allowed(m, Unpack(id))
    requires exists x :: x in Items(s) && x.id == id && x.key == key
    ensures Unpacked(key) == Reply(m, Unpack(id)) && Represents(s, After(m, Unpack(id)))
    ensures After(m, Unpack(id)).overrun == m.overrun
  {
    IdsAreDistinct(s, m);
  }

  /** Any sequence of calls on a trie is answered as by the ideal set. A key that is not erased keeps its id, ids given
      out are new, and no two keys share one. */
  method Continue(t: Trie, calls: seq<Call>, ghost m: Ideal) returns (answers: seq<Answer>)
    requires t.Valid() && t.entries && t.Roomy(|calls|) && Represents(t.s, m) && Legal(m, calls)
    requires t.overrun == m.overrun
    modifies t.Repr, t.heap
    ensures t.Valid() && fresh(t.Repr - old(t.Repr)) && Fair(old(t.Accounts()), t.Accounts())
    ensures answers == Replies(m, calls) && Represents(t.s, AfterAll(m, calls))
    ensures t.overrun == AfterAll(m, calls).overrun && Scratched(old(t.overrun), t.overrun)
    ensures t.dangling == old(t.dangling)
    ensures forall x | x in old(Items(t.s)) && Spared(calls, x.key) :: x in Items(t.s)
    ensures forall x | x in Items(t.s) && x !in old(Items(t.s)) :: x.id >= |old(t.s.owner)|
    ensures forall x, y | x in Items(t.s) && y in Items(t.s) && x.id == y.id :: x == y
  {
    hide Reply, Represents, HasRoom, Allowed, After, All, Items, Fair, Trie.Matches, Bounded, Spared, Tidy;
    t.Unmoved();
    ghost var n, s0 := m, t.s;
    answers := [];
    for i := 0 to |calls|
      invariant t.Valid() && fresh(t.Repr - old(t.Repr)) && Fair(old(t.Accounts()), t.Accounts())
      invariant Represents(t.s, n) && Legal(n, calls[i..]) && t.Roomy(|calls| - i)
      invariant Scratched(old(t.overrun), t.overrun) && t.overrun == n.overrun && t.dangling == old(t.dangling)
      invariant answers + Replies(n, calls[i..]) == Replies(m, calls) && AfterAll(n, calls[i..]) == AfterAll(m, calls)
    {
      assert calls[i..][1..] == calls[i+1..];
      ghost var a, had := t.Accounts(), Items(t.s);
      RoomForFewer(t.Accounts(), Items(t.s), |calls| - i, 1);
      var r := Perform(t, calls[i], n);
      RoomAfter(a, t.Accounts(), had, Items(t.s), |calls| - i);
      FairChain(old(t.Accounts()), a, t.Accounts());
      answers := answers + [r];
      n := After(n, calls[i]);
    }
    assert answers + [] == answers;
    RunKeepsIds(s0, t.s, m, calls);
  }

  lemma RoomForFewer(b: Books, items: set<Item>, more: nat, fewer: nat)
    requires HasRoom(b, items, more) && fewer <= more
    ensures HasRoom(b, items, fewer)
  {
  }

  lemma RoomAfter(a: Books, b: Books, had: set<Item>, items: set<Item>, more: nat)
    requires Fair(a, b) && HasRoom(a, had, more) && |items| <= |had| + 1 && more > 0
    ensures HasRoom(b, items, more - 1)
  {
  }

  // ------------------------------------------------------------ the same, from the calls alone

  /** Before the i-th call, k was inserted by the j-th and has not been erased since. */
  predicate Inserted(calls: seq<Call>, i: nat, k: Key, j: nat)
    requires i <= |calls|
  {
    j < i && calls[j] == Insert(k) && forall l | j < l < i :: calls[l] != Erase(k)
  }

  /** Before the i-th call, k was inserted and has not been erased since. */
  ghost predicate Kept(calls: seq<Call>, i: nat, k: Key)
    requires i <= |calls|
  {
    exists j: nat :: Inserted(calls, i, k, j)
  }

  /** The i-th call inserts a key that is not there. */
  ghost predicate Adds(calls: seq<Call>, i: nat)
    requires i < |calls|
  {
    calls[i].Insert? && !Kept(calls, i, calls[i].key)
  }

  /** The number of calls before the i-th that insert a key that was not there. */
  ghost function Count(calls: seq<Call>, i: nat): nat
    requires i <= |calls|
  {
    if i == 0 then 0 else Count(calls, i - 1) + if Adds(calls, i - 1) then 1 else 0
  }

  /** Before the i-th call, k has the id: the one that it was given when it was inserted as a new key. */
  ghost predicate HasId(calls: seq<Call>, i: nat, k: Key, id: nat)
    requires i <= |calls|
  {
    exists j: nat :: Inserted(calls, i, k, j) && Adds(calls, j) && Count(calls, j) == id
  }

  /** Only ids are unpacked that a key has at that time. */
  ghost predicate Proper(calls: seq<Call>) {
    forall i | 0 <= i < |calls| && calls[i].Unpack? :: exists k :: HasId(calls, i, k, calls[i].id)
  }

  /** The right answer to the i-th of the calls on a new trie. */
  ghost predicate Correct(calls: seq<Call>, i: nat, a: Answer)
    requires i < |calls|
  {
    match calls[i]
    case Insert(k) => a.Answer? && (a.flag <==> !Kept(calls, i, k)) &&
      if a.flag then a.id == Count(calls, i) else HasId(calls, i, k, a.id)
    case Erase(k) => a.Erased? && (a.flag <==> Kept(calls, i, k))
    case Exists(k) => a.Answer? && (a.flag <==> Kept(calls, i, k)) &&
      if a.flag then HasId(calls, i, k, a.id) else a.id == 0xFFFF_FFFF_FFFF_FFFF
    case Unpack(id) => a.Unpacked? && HasId(calls, i, a.key, id)
  }

  /** The ideal set after the first i calls. */
  ghost function Past(calls: seq<Call>, i: nat): Ideal
    requires i <= |calls|
  {
    if i == 0 then EMPTY else After(Past(calls, i - 1), calls[i-1])
  }

  /** The ideal set knows what the calls say. */
  ghost predicate Recalls(m: Ideal, calls: seq<Call>, i: nat)
    requires i <= |calls|
  {
    && m.next == Count(calls, i)
    && (forall k :: k in m.ids <==> Kept(calls, i, k))
    && (forall k | k in m.ids :: HasId(calls, i, k, m.ids[k]))
    && (forall k, id | HasId(calls, i, k, id) :: k in m.ids && m.ids[k] == id)
  }

  lemma InsertedLater(calls: seq<Call>, i: nat, k: Key, j: nat)
    requires i < |calls|
    ensures Inserted(calls, i + 1, k, j) <==>
      (Inserted(calls, i, k, j) && calls[i] != Erase(k)) || (j == i && calls[i] == Insert(k))
  {
  }

  lemma KeptLater(calls: seq<Call>, i: nat, k: Key)
    requires i < |calls|
    ensures Kept(calls, i + 1, k) <==> calls[i] == Insert(k) || (Kept(calls, i, k) && calls[i] != Erase(k))
  {
    if Kept(calls, i + 1, k) {
      var j: nat :| Inserted(calls, i + 1, k, j);
      InsertedLater(calls, i, k, j);
    }
    if Kept(calls, i, k) {
      var j: nat :| Inserted(calls, i, k, j);
      InsertedLater(calls, i, k, j);
    }
    InsertedLater(calls, i, k, i);
  }

  lemma HasIdLater(calls: seq<Call>, i: nat, k: Key, id: nat)
    requires i < |calls|
    ensures HasId(calls, i + 1, k, id) <==>
      (HasId(calls, i, k, id) && calls[i] != Erase(k)) ||
      (Adds(calls, i) && calls[i] == Insert(k) && id == Count(calls, i))
  {
    if HasId(calls, i + 1, k, id) {
      var j: nat :| Inserted(calls, i + 1, k, j) && Adds(calls, j) && Count(calls, j) == id;
      InsertedLater(calls, i, k, j);
    }
    if HasId(calls, i, k, id) {
      var j: nat :| Inserted(calls, i, k, j) && Adds(calls, j) && Count(calls, j) == id;
      InsertedLater(calls, i, k, j);
    }
    InsertedLater(calls, i, k, i);
  }

  lemma RecallsNext(m: Ideal, calls: seq<Call>, i: nat)
    requires i < |calls| && Recalls(m, calls, i)
    ensures Recalls(After(m, calls[i]), calls, i + 1)
  {
    hide Kept, HasId;
    var n := After(m, calls[i]);
    forall k ensures k in n.ids <==> Kept(calls, i + 1, k) { KeptLater(calls, i, k); }
    forall k | k in n.ids ensures HasId(calls, i + 1, k, n.ids[k]) { HasIdLater(calls, i, k, n.ids[k]); }
    var later := i + 1;
    forall k, id | HasId(calls, later, k, id) ensures k in n.ids && n.ids[k] == id { HasIdLater(calls, i, k, id); }
  }

  lemma {:induction false} PastRecalls(calls: seq<Call>, i: nat)
    requires i <= |calls|
    ensures Recalls(Past(calls, i), calls, i)
  {
    if i > 0 {
      PastRecalls(calls, i - 1);
      RecallsNext(Past(calls, i - 1), calls, i - 1);
    }
  }

  lemma {:induction false} CountGrows(calls: seq<Call>, j: nat, i: nat)
    requires j < i <= |calls|
    ensures Count(calls, j) + (if Adds(calls, j) then 1 else 0) <= Count(calls, i) <= i
    decreases i
  {
    if j + 1 < i {
      CountGrows(calls, j, i - 1);
    } else if j > 0 {
      CountGrows(calls, 0, j);
    }
  }

  /** No two keys have the same id at the same time, and up to 2^64 - 1 calls no key has the id of an absent one. */
  lemma IdsTellKeys(calls: seq<Call>, i: nat, k: Key, id: nat)
    requires i <= |calls| && HasId(calls, i, k, id)
    ensures id < i && forall l, ld | HasId(calls, i, l, ld) :: l == k <==> ld == id
  {
    var j: nat :| Inserted(calls, i, k, j) && Adds(calls, j) && Count(calls, j) == id;
    CountGrows(calls, j, i);
    PastRecalls(calls, i);
    forall l, ld | HasId(calls, i, l, ld) ensures l == k <==> ld == id {
      var o: nat :| Inserted(calls, i, l, o) && Adds(calls, o) && Count(calls, o) == ld;
      if o < j { CountGrows(calls, o, j); }
      if j < o { CountGrows(calls, j, o); }
    }
  }

  /** A sequence of calls is legal exactly if it unpacks only ids that a key has at that time. */
  lemma LegalIsProper(calls: seq<Call>)
    ensures Legal(EMPTY, calls) <==> Proper(calls)
  {
    LegalFrom(calls, 0);
    assert calls[0..] == calls;
  }

  lemma {:induction false} LegalFrom(calls: seq<Call>, i: nat)
    requires i <= |calls|
    ensures Legal(Past(calls, i), calls[i..]) <==>
      forall j | i <= j < |calls| && calls[j].Unpack? :: exists k :: HasId(calls, j, k, calls[j].id)
    decreases |calls| - i
  {
    if i < |calls| {
      hide HasId;
      PastRecalls(calls, i);
      LegalFrom(calls, i + 1);
      assert calls[i..][1..] == calls[i+1..];
      var m := Past(calls, i);
      assert calls[i].Unpack? ==> (Allowed(m, calls[i]) <==> exists k :: HasId(calls, i, k, calls[i].id));
    }
  }

  /** The ideal set answers as the calls demand. */
  lemma {:induction false} ReplyIsCorrect(calls: seq<Call>, i: nat, j: nat)
    requires i <= j < |calls| && Legal(Past(calls, i), calls[i..])
    ensures Correct(calls, j, Replies(Past(calls, i), calls[i..])[j-i])
    decreases j - i
  {
    hide HasId, Kept;
    assert calls[i..][1..] == calls[i+1..];
    if i == j {
      PastRecalls(calls, i);
    } else {
      ReplyIsCorrect(calls, i + 1, j);
    }
  }

  lemma {:induction false} AfterAllIsPast(calls: seq<Call>, i: nat)
    requires i <= |calls|
    ensures AfterAll(Past(calls, i), calls[i..]) == Past(calls, |calls|)
    decreases |calls| - i
  {
    if i < |calls| {
      assert calls[i..][1..] == calls[i+1..];
      AfterAllIsPast(calls, i + 1);
    }
  }

  /** What the trie holds after a run is what the calls say. */
  lemma HeldAfter(s: State, calls: seq<Call>)
    requires Represents(s, AfterAll(EMPTY, calls))
    ensures forall k, id :: Item(k, id) in Items(s) <==> HasId(calls, |calls|, k, id)
    ensures forall k :: HasKey(s, k) <==> Kept(calls, |calls|, k)
  {
    hide HasId, Kept;
    AfterAllIsPast(calls, 0);
    assert calls[0..] == calls;
    PastRecalls(calls, |calls|);
    forall k ensures HasKey(s, k) <==> Kept(calls, |calls|, k) { KeyIffInMap(s, Past(calls, |calls|), k); }
  }

  /** Any sequence of calls on a new trie is answered as by the ideal set. Afterwards the blocks in use are those that
      were in use before and those of the trie's leaves, and below every node but the root there are more keys than may
      be merged into one leaf. The array of lengths has been overrun exactly if the ideal set says so, and no deleted
      leaf has been looked at. */
  method Run(calls: seq<Call>, heap: BlockHeap) returns (t: Trie, answers: seq<Answer>)
    requires Proper(calls) && heap.Valid() && |heap.free| >= |calls| + SPLITBOUND
    modifies heap
    ensures |answers| == |calls| && forall i | 0 <= i < |calls| :: Correct(calls, i, answers[i])
    ensures forall k, id :: Item(k, id) in Items(t.s) <==> HasId(calls, |calls|, k, id)
    ensures forall k :: HasKey(t.s, k) <==> Kept(calls, |calls|, k)
    ensures Legal(EMPTY, calls) && answers == Replies(EMPTY, calls)
    ensures t.Valid() && fresh(t.Repr) && t.heap == heap && Represents(t.s, AfterAll(EMPTY, calls))
    ensures Conserved(t.s.leaf, t.plots, heap.blocks)
    ensures Exchanged(old(heap.blocks), heap.blocks, {}, All(t.plots))
    ensures t.overrun == AfterAll(EMPTY, calls).overrun && (SPLITBOUND <= 770 ==> !t.overrun) && !t.dangling
    ensures forall p | p in t.s.slots && p != [] :: |Under(t.s, p)| > SPLITBOUND / 3
    ensures forall n | n in t.s.leaf :: 0 < |t.s.leaf[n].items| < SPLITBOUND
  {
    hide Inserted, HasId, Kept, Correct, Proper, Recalls;
    LegalIsProper(calls);
    assert calls[0..] == calls;
    t := new Trie(heap, true);
    EmptyRepresents(t.s);
    ghost var a := t.Accounts();
    answers := Continue(t, calls, EMPTY);
    NoBlocks();
    assert Exchanged(a.blocks, heap.blocks, a.mine, All(t.plots));
    forall p | p in t.s.slots && p != [] ensures |Under(t.s, p)| > SPLITBOUND / 3 { NodeIsCrowded(t.s, p); }
    forall i | 0 <= i < |calls| ensures Correct(calls, i, answers[i]) { ReplyIsCorrect(calls, 0, i); }
    HeldAfter(t.s, calls);
  }

  lemma NoBlocks()
    ensures All(map[]) == {}
  {
  }

  lemma EmptyRepresents(s: State)
    requires s == EMPTY_STATE
    ensures Represents(s, EMPTY) && Items(s) == {}
  {
  }

  // ------------------------------------------------------------ what the ideal set promises

  /** No call erases k. */
  predicate Spared(calls: seq<Call>, k: Key) {
    forall i | 0 <= i < |calls| :: calls[i] != Erase(k)
  }

  /** A key keeps its id as long as it is not erased. */
  lemma {:induction false} IdIsStable(m: Ideal, calls: seq<Call>, k: Key)
    requires k in m.ids && Spared(calls, k)
    ensures k in AfterAll(m, calls).ids && AfterAll(m, calls).ids[k] == m.ids[k]
    decreases |calls|
  {
    if calls != [] {
      assert calls[0] != Erase(k);
      IdIsStable(After(m, calls[0]), calls[1..], k);
    }
  }

  /** A key has the id it had, or one that was not given out before. */
  lemma {:induction false} KeptOrNew(m: Ideal, calls: seq<Call>, k: Key, had: set<Item>, bound: nat)
    requires m.next >= bound && (k in m.ids ==> Item(k, m.ids[k]) in had || m.ids[k] >= bound)
    requires k in AfterAll(m, calls).ids
    ensures Item(k, AfterAll(m, calls).ids[k]) in had || AfterAll(m, calls).ids[k] >= bound
    decreases |calls|
  {
    if calls != [] { KeptOrNew(After(m, calls[0]), calls[1..], k, had, bound); }
  }

  /** What a run does to the ids in the trie. */
  lemma RunKeepsIds(s: State, u: State, m: Ideal, calls: seq<Call>)
    requires Sound(u) && Represents(s, m) && Represents(u, AfterAll(m, calls))
    ensures forall x | x in Items(s) && Spared(calls, x.key) :: x in Items(u)
    ensures forall x | x in Items(u) && x !in Items(s) :: x.id >= |s.owner|
    ensures forall x, y | x in Items(u) && y in Items(u) && x.id == y.id :: x == y
  {
    forall x | x in Items(s) && Spared(calls, x.key) ensures x in Items(u) {
      IdIsStable(m, calls, x.key);
    }
    forall x | x in Items(u) && x !in Items(s) ensures x.id >= |s.owner| {
      KeptOrNew(m, calls, x.key, Items(s), |s.owner|);
    }
    IdsAreDistinct(u, AfterAll(m, calls));
  }
}
