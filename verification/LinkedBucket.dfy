/** The concurrent id allocator: threads append buckets to a shared chain and index them. Every atomic access is one
    action, so a run is any interleaving of actions. */
module LinkedBucket {

  type positive = n: nat | n >= 1 witness 1

  /** Cells per bucket, and slots per index page. */
  const C: positive

  datatype Ptr = Null | To(i: nat)

  datatype Bucket = Bucket(next: Ptr, offset: nat, count: nat)

  datatype Page = Page(slots: seq<Ptr>, next: Ptr)

  /** Where a thread is inside `next`, with its local variables. `at` is the position of page p in the page chain; the
      program does not store it. */
  datatype Pc =
    | Idle
    | Init(b: nat, n: nat)
    | Cas(b: nat, n: nat, expected: Ptr)
    | Bump(b: nat, n: nat, m: nat)
    | Linked(b: nat)
    | Index(b: nat, id: nat, p: nat, at: nat)
    | PageCas(b: nat, id: nat, p: nat, at: nat, np: nat)
    | Take

  datatype Thread = Thread(tnext: Ptr, pc: Pc)

  /** Shared memory and threads. `chain` and `pchain` list the linked buckets and pages in order, `live` the ids given
      out and not taken back, `log` every id returned: none is read by a thread. */
  datatype State = State(
    buckets: seq<Bucket>, pages: seq<Page>, threads: seq<Thread>,
    chain: seq<nat>, pchain: seq<nat>, live: set<nat>, log: seq<nat>)

  function NoSlots(): seq<Ptr> { seq(C, _ => Null) }

  /** One bucket, which belongs to thread 0, already in the index. */
  function Start(n: positive): State {
    State([Bucket(Null, 0, 0)], [Page(NoSlots()[0 := To(0)], Null)],
          seq(n, t => Thread(if t == 0 then To(0) else Null, Idle)), [0], [0], {}, [])
  }

  // ------------------------------------------------------------ positions and offsets

  /** Offset of the bucket at position j: j * C, by repeated addition. */
  function Off(j: nat): nat {
    if j == 0 then 0 else Off(j - 1) + C
  }

  /** Position of the bucket that holds an id, and its cell there: id / C and id % C, by repeated subtraction. */
  function Pos(id: nat): nat {
    if id < C then 0 else 1 + Pos(id - C)
  }

  function Cell(id: nat): (c: nat)
    ensures c < C
  {
    if id < C then id else Cell(id - C)
  }

  lemma {:induction false} PosCell(j: nat, r: nat)
    requires r < C
    ensures Pos(Off(j) + r) == j && Cell(Off(j) + r) == r
  {
    if j > 0 { PosCell(j - 1, r); }
  }

  lemma {:induction false} IdFrom(id: nat)
    ensures id == Off(Pos(id)) + Cell(id)
  {
    if id >= C { IdFrom(id - C); }
  }

  lemma {:induction false} OffGrows(i: nat, j: nat)
    requires i < j
    ensures Off(i) + C <= Off(j)
    decreases j
  {
    if i < j - 1 { OffGrows(i, j - 1); }
  }

  lemma {:induction false} OffAdds(i: nat, j: nat)
    ensures Off(i + j) == Off(i) + Off(j)
  {
    if j > 0 { OffAdds(i, j - 1); }
  }

  lemma {:induction false} OffIsProduct(j: nat)
    ensures Off(j) == j * C
  {
    if j > 0 { OffIsProduct(j - 1); }
  }

  lemma PosIsQuotient(id: nat)
    ensures Pos(id) == id / C && Cell(id) == id % C
  {
    IdFrom(id);
    OffIsProduct(Pos(id));
    Divide(id, C, Pos(id), Cell(id));
  }

  lemma MulMono(c: nat, a: int, b: int)
    requires a <= b
    ensures c * a <= c * b
  {
  }

  lemma Divide(x: int, c: positive, q: int, r: nat)
    requires x == c * q + r && r < c && x >= 0
    ensures x / c == q && x % c == r
  {
    var a, b := x / c, x % c;
    assert x == c * a + b;
    if a < q { MulMono(c, a + 1, q); } else if q < a { MulMono(c, q + 1, a); }
  }

  lemma SlotInPage(id: nat)
    requires id < C * C
    ensures Pos(id) < C
  {
    IdFrom(id);
    OffIsProduct(C);
    if Pos(id) >= C { OffMonotone(C, Pos(id)); }
  }

  lemma OffMonotone(i: nat, j: nat)
    requires i <= j
    ensures Off(i) <= Off(j)
  {
    if i < j { OffGrows(i, j); }
  }

  // ------------------------------------------------------------ actions

  /** Thread t takes its next step; a weak compare-and-swap may fail for no reason. */
  datatype Action = Run(t: nat, spurious: bool) | PopBack(t: nat)

  function Goto(s: State, t: nat, pc: Pc): State
    requires t < |s.threads|
  {
    s.(threads := s.threads[t := s.threads[t].(pc := pc)])
  }

  function SetBucket(s: State, b: nat, x: Bucket): State
    requires b < |s.buckets|
  {
    s.(buckets := s.buckets[b := x])
  }

  function SetPage(s: State, p: nat, x: Page): State
    requires p < |s.pages|
  {
    s.(pages := s.pages[p := x])
  }

  /** A new bucket is needed when the thread has none or its own is full. */
  predicate NeedsBucket(s: State, t: nat)
    requires t < |s.threads|
  {
    match s.threads[t].tnext
    case Null => true
    case To(b) => b < |s.buckets| && s.buckets[b].count == C
  }

  function BeginNext(s: State, t: nat): State
    requires t < |s.threads|
  {
    if NeedsBucket(s, t) then
      var n := if s.threads[t].tnext == Null then 0 else s.threads[t].tnext.i;
      Goto(s.(buckets := s.buckets + [Bucket(Null, 0, 0)]), t, Init(|s.buckets|, n))
    else
      Goto(s, t, Take)
  }

  function SetOffset(s: State, t: nat, b: nat, n: nat): State
    requires t < |s.threads| && b < |s.buckets| && n < |s.buckets|
  {
    Goto(SetBucket(s, b, s.buckets[b].(offset := s.buckets[n].offset + C)), t, Cas(b, n, Null))
  }

  function TryLink(s: State, t: nat, b: nat, n: nat, expected: Ptr, spurious: bool): State
    requires t < |s.threads| && b < |s.buckets| && n < |s.buckets|
  {
    var seen := s.buckets[n].next;
    if seen == expected && !spurious then
      Goto(SetBucket(s, n, s.buckets[n].(next := To(b))).(chain := s.chain + [b]), t, Linked(b))
    else if seen != Null then
      Goto(s, t, Bump(b, n, seen.i))
    else
      Goto(s, t, Cas(b, n, Null))
  }

  /** The expected value is not reset: it stays the bucket that the thread has moved to. */
  function MoveOn(s: State, t: nat, b: nat, m: nat): State
    requires t < |s.threads| && b < |s.buckets|
  {
    Goto(SetBucket(s, b, s.buckets[b].(offset := s.buckets[b].offset + C)), t, Cas(b, m, To(m)))
  }

  function Adopt(s: State, t: nat, b: nat): State
    requires t < |s.threads| && b < |s.buckets|
  {
    s.(threads := s.threads[t := Thread(To(b), Index(b, s.buckets[b].offset, 0, 0))])
  }

  function IndexStep(s: State, t: nat, b: nat, id: nat, p: nat, at: nat): State
    requires t < |s.threads| && p < |s.pages| && |s.pages[p].slots| == C
  {
    if id >= C * C then
      match s.pages[p].next
      case To(q) => Goto(s, t, Index(b, id - C * C, q, at + 1))
      case Null => Goto(s.(pages := s.pages + [Page(NoSlots(), Null)]), t, PageCas(b, id, p, at, |s.pages|))
    else
      SlotInPage(id);
      Goto(SetPage(s, p, s.pages[p].(slots := s.pages[p].slots[Pos(id) := To(b)])), t, Take)
  }

  function TryLinkPage(s: State, t: nat, b: nat, id: nat, p: nat, at: nat, np: nat): State
    requires t < |s.threads| && p < |s.pages| && np < |s.pages| && id >= C * C
  {
    if s.pages[p].next == Null then
      Goto(SetPage(s, p, s.pages[p].(next := To(np))).(pchain := s.pchain + [np]), t, Index(b, id - C * C, np, at + 1))
    else
      Goto(s, t, Index(b, id, p, at))
  }

  function Give(s: State, t: nat, b: nat): State
    requires t < |s.threads| && b < |s.buckets|
  {
    var id := s.buckets[b].offset + s.buckets[b].count;
    Goto(SetBucket(s, b, s.buckets[b].(count := s.buckets[b].count + 1)).(live := s.live + {id}, log := s.log + [id]),
      t, Idle)
  }

  function TakeBack(s: State, b: nat): State
    requires b < |s.buckets| && s.buckets[b].count > 0
  {
    var id := s.buckets[b].offset + s.buckets[b].count - 1;
    SetBucket(s, b, s.buckets[b].(count := s.buckets[b].count - 1)).(live := s.live - {id})
  }

  // ------------------------------------------------------------ invariant

  /** What follows position j of a chain. */
  function NextAt(ch: seq<nat>, j: nat): Ptr {
    if j + 1 < |ch| then To(ch[j + 1]) else Null
  }

  predicate Distinct(ch: seq<nat>) {
    forall i, j | 0 <= i < j < |ch| :: ch[i] != ch[j]
  }

  /** `ch` starts at the first bucket, follows the next pointers to the end without repeating a bucket, and the bucket
      at position j starts at id j * C. */
  ghost predicate ChainOk(bs: seq<Bucket>, ch: seq<nat>) {
    && |ch| > 0 && ch[0] == 0 && Distinct(ch)
    && (forall j | 0 <= j < |ch| :: ch[j] < |bs|)
    && (forall j {:trigger bs[ch[j]]} | 0 <= j < |ch| :: bs[ch[j]].offset == Off(j) && bs[ch[j]].next == NextAt(ch, j))
    && (forall b | 0 <= b < |bs| :: bs[b].count <= C)
    && (forall b | 0 <= b < |bs| && b !in ch :: bs[b].next == Null && bs[b].count == 0)
  }

  ghost predicate PagesOk(ps: seq<Page>, pch: seq<nat>) {
    && |pch| > 0 && pch[0] == 0 && Distinct(pch)
    && (forall q | 0 <= q < |pch| :: pch[q] < |ps|)
    && (forall q {:trigger ps[pch[q]]} | 0 <= q < |pch| :: ps[pch[q]].next == NextAt(pch, q))
    && (forall p | 0 <= p < |ps| :: |ps[p].slots| == C)
    && (forall p | 0 <= p < |ps| && p !in pch :: ps[p] == Page(NoSlots(), Null))
  }

  /** Slot r of page q is empty or holds the bucket at position q * C + r of the chain. */
  ghost predicate SlotsOk(ps: seq<Page>, pch: seq<nat>, ch: seq<nat>) {
    forall q, r {:trigger ps[pch[q]].slots[r]} | 0 <= q < |pch| && pch[q] < |ps| && 0 <= r < |ps[pch[q]].slots| ::
      ps[pch[q]].slots[r] == Null || (Off(q) + r < |ch| && ps[pch[q]].slots[r] == To(ch[Off(q) + r]))
  }

  /** The bucket at position j of the chain is in the index. */
  ghost predicate Indexed(ps: seq<Page>, pch: seq<nat>, ch: seq<nat>, j: nat) {
    && j < |ch| && Pos(j) < |pch| && pch[Pos(j)] < |ps| && Cell(j) < |ps[pch[Pos(j)]].slots|
    && ps[pch[Pos(j)]].slots[Cell(j)] == To(ch[j])
  }

  ghost predicate IsLive(bs: seq<Bucket>, ch: seq<nat>, id: nat) {
    Pos(id) < |ch| && ch[Pos(id)] < |bs| && Cell(id) < bs[ch[Pos(id)]].count
  }

  /** An id is live exactly when its cell in its bucket has been handed out. */
  ghost predicate LiveOk(bs: seq<Bucket>, ch: seq<nat>, live: set<nat>) {
    forall id: nat {:trigger id in live} {:trigger IsLive(bs, ch, id)} :: id in live <==> IsLive(bs, ch, id)
  }

  /** Buckets that have given out ids are in the index. */
  ghost predicate UsedIndexed(bs: seq<Bucket>, ch: seq<nat>, ps: seq<Page>, pch: seq<nat>) {
    forall j {:trigger Indexed(ps, pch, ch, j)} |
      0 <= j < |ch| && ch[j] < |bs| && bs[ch[j]].count > 0 :: Indexed(ps, pch, ch, j)
  }

  ghost predicate MemoryOk(s: State) {
    && ChainOk(s.buckets, s.chain) && PagesOk(s.pages, s.pchain) && SlotsOk(s.pages, s.pchain, s.chain)
    && LiveOk(s.buckets, s.chain, s.live) && UsedIndexed(s.buckets, s.chain, s.pages, s.pchain)
  }

  ghost predicate InChain(s: State, b: nat) {
    b < |s.buckets| && b in s.chain
  }

  /** A bucket that a thread has allocated and not yet linked. */
  ghost predicate Private(s: State, b: nat) {
    b < |s.buckets| && b !in s.chain
  }

  /** The thread's own bucket is linked and indexed. */
  ghost predicate OwnOk(s: State, p: Ptr) {
    p.To? ==> InChain(s, p.i) && Indexed(s.pages, s.pchain, s.chain, Pos(s.buckets[p.i].offset))
  }

  ghost predicate ThreadOk(s: State, th: Thread) {
    match th.pc
    case Idle => OwnOk(s, th.tnext)
    case Init(b, n) => OwnOk(s, th.tnext) && Private(s, b) && InChain(s, n)
    case Cas(b, n, expected) =>
      && OwnOk(s, th.tnext) && Private(s, b) && InChain(s, n) && s.buckets[b].offset == s.buckets[n].offset + C
      && (expected == Null || expected == To(n))
    case Bump(b, n, m) =>
      && OwnOk(s, th.tnext) && Private(s, b) && InChain(s, n) && InChain(s, m)
      && s.buckets[b].offset == s.buckets[n].offset + C == s.buckets[m].offset
    case Linked(b) => OwnOk(s, th.tnext) && InChain(s, b) && s.buckets[b].count == 0
    case Index(b, id, p, at) =>
      && th.tnext == To(b) && InChain(s, b) && s.buckets[b].count == 0
      && at < |s.pchain| && s.pchain[at] == p && s.buckets[b].offset == id + Off(Off(at))
    case PageCas(b, id, p, at, np) =>
      && th.tnext == To(b) && InChain(s, b) && s.buckets[b].count == 0
      && at < |s.pchain| && s.pchain[at] == p && s.buckets[b].offset == id + Off(Off(at))
      && id >= C * C && np < |s.pages| && np !in s.pchain
    case Take => th.tnext.To? && OwnOk(s, th.tnext) && s.buckets[th.tnext.i].count < C
  }

  /** The buckets that only this thread writes to. */
  function Owned(th: Thread): set<nat> {
    (if th.tnext.To? then {th.tnext.i} else {}) +
    match th.pc
    case Init(b, n) => {b}
    case Cas(b, n, expected) => {b}
    case Bump(b, n, m) => {b}
    case Linked(b) => {b}
    case _ => {}
  }

  /** The index page that only this thread knows. */
  function OwnedPage(th: Thread): set<nat> {
    match th.pc
    case PageCas(b, id, p, at, np) => {np}
    case _ => {}
  }

  ghost predicate Separate(ths: seq<Thread>) {
    forall t, u | 0 <= t < u < |ths| :: Owned(ths[t]) !! Owned(ths[u]) && OwnedPage(ths[t]) !! OwnedPage(ths[u])
  }

  /** MemoryOk(s), put so that the verifier opens it only where it is mentioned. */
  ghost predicate Memory(s: State) {
    forall m {:trigger MemoryOk(m)} | m == s :: MemoryOk(m)
  }

  ghost predicate Inv(s: State) {
    && Memory(s)
    && Separate(s.threads) && (forall t | 0 <= t < |s.threads| :: ThreadOk(s, s.threads[t]))
  }

  // ------------------------------------------------------------ what one thread's step leaves to the others

  /** Every linked bucket stays at its place with its offset, and indexed buckets stay indexed. */
  ghost predicate Extends(s: State, u: State) {
    && |s.buckets| <= |u.buckets| && |s.pages| <= |u.pages| && s.chain <= u.chain && s.pchain <= u.pchain
    && (forall b | b in s.chain && b < |s.buckets| :: u.buckets[b].offset == s.buckets[b].offset)
    && (forall j {:trigger Indexed(u.pages, u.pchain, u.chain, j)} :: Indexed(s.pages, s.pchain, s.chain, j) ==>
      Indexed(u.pages, u.pchain, u.chain, j))
  }

  /** Changes that do not disturb a thread that owns these buckets and pages. */
  ghost predicate Undisturbed(s: State, u: State, own: set<nat>, ownPages: set<nat>) {
    && Extends(s, u)
    && (forall b | b in own && b < |s.buckets| ::
      u.buckets[b].offset == s.buckets[b].offset && u.buckets[b].count == s.buckets[b].count)
    && (forall b | b in own && b in u.chain :: b in s.chain)
    && (forall p | p in ownPages && p in u.pchain :: p in s.pchain)
  }

  lemma ThreadStays(s: State, u: State, th: Thread)
    requires ThreadOk(s, th) && Undisturbed(s, u, Owned(th), OwnedPage(th))
    ensures ThreadOk(u, th)
  {
    PrefixMembers(s.chain, u.chain);
    if th.tnext.To? && OwnOk(s, th.tnext) { OwnStays(s, u, th.tnext); }
  }

  lemma PrefixMembers(a: seq<nat>, b: seq<nat>)
    requires a <= b
    ensures forall x | x in a :: x in b
    ensures forall i | 0 <= i < |a| :: b[i] == a[i]
  {
  }

  lemma OwnStays(s: State, u: State, p: Ptr)
    requires OwnOk(s, p) && Extends(s, u)
    ensures OwnOk(u, p)
  {
    PrefixMembers(s.chain, u.chain);
  }

  lemma OnlyMine(ths: seq<Thread>, t: nat, v: nat)
    requires Separate(ths) && t < |ths| && v < |ths| && v != t
    ensures Owned(ths[t]) !! Owned(ths[v]) && OwnedPage(ths[t]) !! OwnedPage(ths[v])
  {
    if v < t { assert Owned(ths[v]) !! Owned(ths[t]); } else { assert Owned(ths[t]) !! Owned(ths[v]); }
  }

  /** What a thread owns exists. */
  lemma OwnedExists(s: State, th: Thread)
    requires ThreadOk(s, th)
    ensures forall b | b in Owned(th) :: b < |s.buckets|
    ensures forall p | p in OwnedPage(th) :: p < |s.pages|
  {
  }

  /** A thread that gives up ownership, or takes on what did not exist, stays separate from the others. */
  lemma StaysSeparate(s: State, ths: seq<Thread>, t: nat)
    requires Separate(s.threads) && (forall v | 0 <= v < |s.threads| :: ThreadOk(s, s.threads[v]))
    requires t < |s.threads| && |ths| == |s.threads|
    requires forall v | 0 <= v < |s.threads| && v != t :: ths[v] == s.threads[v]
    requires forall b | b in Owned(ths[t]) :: b in Owned(s.threads[t]) || b >= |s.buckets|
    requires forall p | p in OwnedPage(ths[t]) :: p in OwnedPage(s.threads[t]) || p >= |s.pages|
    ensures Separate(ths)
  {
    forall v | 0 <= v < |s.threads| && v != t
      ensures Owned(ths[t]) !! Owned(ths[v]) && OwnedPage(ths[t]) !! OwnedPage(ths[v])
    {
      OwnedExists(s, s.threads[v]);
      OnlyMine(s.threads, t, v);
    }
  }

  /** A step by thread t keeps the invariant if memory is right afterwards, the thread is, and no other is disturbed. */
  lemma StepDone(s: State, u: State, t: nat)
    requires Inv(s) && t < |s.threads| && |u.threads| == |s.threads|
    requires Memory(u) && ThreadOk(u, u.threads[t])
    requires forall v | 0 <= v < |s.threads| && v != t :: u.threads[v] == s.threads[v]
    requires forall v {:trigger s.threads[v]} | 0 <= v < |s.threads| && v != t ::
      Undisturbed(s, u, Owned(s.threads[v]), OwnedPage(s.threads[v]))
    requires forall b | b in Owned(u.threads[t]) :: b in Owned(s.threads[t]) || b >= |s.buckets|
    requires forall p | p in OwnedPage(u.threads[t]) :: p in OwnedPage(s.threads[t]) || p >= |s.pages|
    ensures Inv(u)
  {
    StaysSeparate(s, u.threads, t);
    forall v | 0 <= v < |s.threads| ensures ThreadOk(u, u.threads[v]) {
      if v != t { ThreadStays(s, u, s.threads[v]); }
    }
  }

  // ------------------------------------------------------------ changes to the chain

  /** Buckets that are not in the chain may change, as long as they stay empty and without successor. */
  lemma ChainFrame(bs: seq<Bucket>, cs: seq<Bucket>, ch: seq<nat>)
    requires ChainOk(bs, ch) && |bs| <= |cs|
    requires forall j | 0 <= j < |ch| :: cs[ch[j]] == bs[ch[j]]
    requires forall b | 0 <= b < |cs| && b !in ch :: cs[b].next == Null && cs[b].count == 0
    ensures ChainOk(cs, ch)
  {
    forall j | 0 <= j < |ch| ensures cs[ch[j]].offset == Off(j) && cs[ch[j]].next == NextAt(ch, j) {
      assert bs[ch[j]].next == NextAt(ch, j);
    }
    forall b | 0 <= b < |cs| ensures cs[b].count <= C {
      if b in ch {
        var j :| 0 <= j < |ch| && ch[j] == b;
        assert cs[ch[j]] == bs[ch[j]];
      }
    }
  }

  lemma LiveFrame(bs: seq<Bucket>, cs: seq<Bucket>, ch: seq<nat>, live: set<nat>)
    requires LiveOk(bs, ch, live) && |bs| <= |cs|
    requires forall j | 0 <= j < |ch| :: ch[j] < |bs| && cs[ch[j]].count == bs[ch[j]].count
    ensures LiveOk(cs, ch, live)
  {
    forall id: nat ensures id in live <==> IsLive(cs, ch, id) {
      assert id in live <==> IsLive(bs, ch, id);
    }
  }

  lemma UsedFrame(bs: seq<Bucket>, cs: seq<Bucket>, ch: seq<nat>, ps: seq<Page>, pch: seq<nat>)
    requires UsedIndexed(bs, ch, ps, pch)
    requires forall j | 0 <= j < |ch| :: ch[j] < |bs| <= |cs| && cs[ch[j]].count == bs[ch[j]].count
    ensures UsedIndexed(cs, ch, ps, pch)
  {
  }

  lemma AppendDistinct(ch: seq<nat>, b: nat)
    requires Distinct(ch) && b !in ch
    ensures Distinct(ch + [b])
  {
    var dh := ch + [b];
    forall i, j | 0 <= i < j < |dh| ensures dh[i] != dh[j] {
      if j == |ch| { assert ch[i] in ch; }
    }
  }

  /** A private bucket is linked at the tail. */
  lemma LinkChain(bs: seq<Bucket>, ch: seq<nat>, b: nat)
    requires ChainOk(bs, ch) && b < |bs| && b !in ch && bs[b].offset == Off(|ch|)
    ensures var n := ch[|ch|-1]; ChainOk(bs[n := bs[n].(next := To(b))], ch + [b])
  {
    var n := ch[|ch|-1];
    var cs, dh := bs[n := bs[n].(next := To(b))], ch + [b];
    forall j | 0 <= j < |dh| ensures dh[j] < |cs| && cs[dh[j]].offset == Off(j) && cs[dh[j]].next == NextAt(dh, j) {
      LinkPlace(bs, ch, b, j);
    }
    AppendDistinct(ch, b);
    assert n in ch;
    PrefixMembers(ch, dh);
  }

  lemma LinkPlace(bs: seq<Bucket>, ch: seq<nat>, b: nat, j: nat)
    requires ChainOk(bs, ch) && b < |bs| && b !in ch && bs[b].offset == Off(|ch|) && j <= |ch|
    ensures var n := ch[|ch|-1]; var cs, dh := bs[n := bs[n].(next := To(b))], ch + [b];
      dh[j] < |cs| && cs[dh[j]].offset == Off(j) && cs[dh[j]].next == NextAt(dh, j)
  {
    var n := ch[|ch|-1];
    assert n in ch;
    if j < |ch| {
      assert bs[ch[j]].next == NextAt(ch, j);
      if j < |ch| - 1 { assert ch[j] != ch[|ch|-1]; }
    }
  }

  lemma LinkLive(bs: seq<Bucket>, cs: seq<Bucket>, ch: seq<nat>, b: nat, live: set<nat>)
    requires LiveOk(bs, ch, live) && |cs| == |bs| && b < |cs| && cs[b].count == 0
    requires forall j | 0 <= j < |ch| :: ch[j] < |bs| && cs[ch[j]].count == bs[ch[j]].count
    ensures LiveOk(cs, ch + [b], live)
  {
    var dh := ch + [b];
    forall id: nat ensures id in live <==> IsLive(cs, dh, id) {
      assert id in live <==> IsLive(bs, ch, id);
      if Pos(id) < |ch| { assert dh[Pos(id)] == ch[Pos(id)]; }
    }
  }

  /** What was indexed stays indexed when the chain grows. */
  lemma IndexedGrows(ps: seq<Page>, pch: seq<nat>, ch: seq<nat>, dh: seq<nat>, j: nat)
    requires Indexed(ps, pch, ch, j) && ch <= dh
    ensures Indexed(ps, pch, dh, j)
  {
  }

  lemma LinkUsed(bs: seq<Bucket>, cs: seq<Bucket>, ch: seq<nat>, b: nat, ps: seq<Page>, pch: seq<nat>)
    requires UsedIndexed(bs, ch, ps, pch) && |cs| == |bs| && b < |cs| && cs[b].count == 0
    requires forall j | 0 <= j < |ch| :: ch[j] < |bs| && cs[ch[j]].count == bs[ch[j]].count
    ensures UsedIndexed(cs, ch + [b], ps, pch)
  {
    var dh := ch + [b];
    forall j | 0 <= j < |dh| && dh[j] < |cs| && cs[dh[j]].count > 0 ensures Indexed(ps, pch, dh, j) {
      assert j < |ch| && dh[j] == ch[j];
      IndexedGrows(ps, pch, ch, dh, j);
    }
  }

  lemma LinkSlots(ps: seq<Page>, pch: seq<nat>, ch: seq<nat>, b: nat)
    requires SlotsOk(ps, pch, ch)
    ensures SlotsOk(ps, pch, ch + [b])
  {
    var dh := ch + [b];
    assert forall j | 0 <= j < |ch| :: dh[j] == ch[j];
  }

  // ------------------------------------------------------------ every action keeps the invariant

  lemma BeginKeeps(s: State, t: nat)
    requires Inv(s) && t < |s.threads| && s.threads[t].pc == Idle
    ensures Inv(BeginNext(s, t)) && Extends(s, BeginNext(s, t))
  {
    var u := BeginNext(s, t);
    assert ThreadOk(s, s.threads[t]);
    NewBucket(s, u);
    BeginThread(s, u, t);
    StepDone(s, u, t);
  }

  lemma NewBucket(s: State, u: State)
    requires Memory(s) && (u.buckets == s.buckets || u.buckets == s.buckets + [Bucket(Null, 0, 0)])
    requires u.pages == s.pages && u.chain == s.chain && u.pchain == s.pchain && u.live == s.live
    ensures Memory(u) && |s.buckets| !in s.chain && InChain(s, 0)
    ensures forall b | 0 <= b < |s.buckets| :: s.buckets[b].count <= C
  {
    assert MemoryOk(s);
    assert s.chain[0] in s.chain;
    ChainFrame(s.buckets, u.buckets, s.chain);
    LiveFrame(s.buckets, u.buckets, s.chain, s.live);
    UsedFrame(s.buckets, u.buckets, s.chain, s.pages, s.pchain);
  }

  lemma BeginThread(s: State, u: State, t: nat)
    requires t < |s.threads| && s.threads[t].pc == Idle && ThreadOk(s, s.threads[t]) && u == BeginNext(s, t)
    requires |s.buckets| !in s.chain && InChain(s, 0)
    requires forall b | 0 <= b < |s.buckets| :: s.buckets[b].count <= C
    ensures ThreadOk(u, u.threads[t])
  {
  }

  /** A private bucket gets its offset. */
  lemma OffsetMemory(s: State, u: State, b: nat, x: nat)
    requires Memory(s) && Private(s, b) && u.buckets == s.buckets[b := s.buckets[b].(offset := x)]
    requires u.pages == s.pages && u.chain == s.chain && u.pchain == s.pchain && u.live == s.live
    ensures Memory(u)
    ensures forall c | c in s.chain && c < |s.buckets| :: u.buckets[c] == s.buckets[c]
  {
    assert MemoryOk(s);
    forall j | 0 <= j < |s.chain| ensures s.chain[j] != b {
      assert s.chain[j] in s.chain;
    }
    ChainFrame(s.buckets, u.buckets, s.chain);
    LiveFrame(s.buckets, u.buckets, s.chain, s.live);
    UsedFrame(s.buckets, u.buckets, s.chain, s.pages, s.pchain);
  }

  lemma SetOffsetKeeps(s: State, t: nat, b: nat, n: nat)
    requires Inv(s) && t < |s.threads| && s.threads[t].pc == Init(b, n)
    requires b < |s.buckets| && n < |s.buckets|
    ensures Inv(SetOffset(s, t, b, n)) && Extends(s, SetOffset(s, t, b, n))
  {
    var u := SetOffset(s, t, b, n);
    assert ThreadOk(s, s.threads[t]);
    OffsetMemory(s, u, b, s.buckets[n].offset + C);
    forall v | 0 <= v < |s.threads| && v != t ensures Undisturbed(s, u, Owned(s.threads[v]), OwnedPage(s.threads[v])) {
      OnlyMine(s.threads, t, v);
      assert b in Owned(s.threads[t]);
    }
    StepDone(s, u, t);
  }

  lemma MoveOnKeeps(s: State, t: nat, b: nat, n: nat, m: nat)
    requires Inv(s) && t < |s.threads| && s.threads[t].pc == Bump(b, n, m) && b < |s.buckets|
    ensures Inv(MoveOn(s, t, b, m)) && Extends(s, MoveOn(s, t, b, m))
  {
    var u := MoveOn(s, t, b, m);
    assert ThreadOk(s, s.threads[t]);
    OffsetMemory(s, u, b, s.buckets[b].offset + C);
    forall v | 0 <= v < |s.threads| && v != t ensures Undisturbed(s, u, Owned(s.threads[v]), OwnedPage(s.threads[v])) {
      OnlyMine(s.threads, t, v);
      assert b in Owned(s.threads[t]);
    }
    StepDone(s, u, t);
  }

  /** A bucket in the chain has a position; its successor is the next one, and none means it is the tail. */
  lemma PlaceInChain(s: State, n: nat) returns (j: nat)
    requires Memory(s) && InChain(s, n)
    ensures j < |s.chain| && s.chain[j] == n && s.buckets[n].offset == Off(j)
    ensures s.buckets[n].next == NextAt(s.chain, j) && s.buckets[n].next != To(n)
    ensures j + 1 < |s.chain| ==> InChain(s, s.chain[j+1]) && s.buckets[s.chain[j+1]].offset == Off(j) + C
  {
    assert MemoryOk(s);
    j :| 0 <= j < |s.chain| && s.chain[j] == n;
    assert s.buckets[s.chain[j]].next == NextAt(s.chain, j);
    if j + 1 < |s.chain| {
      assert s.chain[j+1] in s.chain && s.chain[j] != s.chain[j+1];
      assert s.buckets[s.chain[j+1]].offset == Off(j + 1);
    }
  }

  lemma LinkMemory(s: State, u: State, b: nat)
    requires Memory(s) && Private(s, b) && |s.chain| > 0 && s.chain[|s.chain|-1] < |s.buckets|
    requires s.buckets[b].offset == Off(|s.chain|)
    requires var n := s.chain[|s.chain|-1]; u.buckets == s.buckets[n := s.buckets[n].(next := To(b))]
    requires u.chain == s.chain + [b] && u.pages == s.pages && u.pchain == s.pchain && u.live == s.live
    ensures Memory(u) && u.buckets[b] == s.buckets[b] && s.buckets[b].count == 0
  {
    assert MemoryOk(s);
    assert s.chain[|s.chain|-1] in s.chain;
    LinkChain(s.buckets, s.chain, b);
    LinkLive(s.buckets, u.buckets, s.chain, b, s.live);
    LinkUsed(s.buckets, u.buckets, s.chain, b, s.pages, s.pchain);
    LinkSlots(s.pages, s.pchain, s.chain, b);
  }

  /** The swap succeeds only at the tail of the chain. */
  lemma LinkKeeps(s: State, t: nat, b: nat, n: nat, j: nat)
    requires Inv(s) && t < |s.threads| && s.threads[t].pc == Cas(b, n, Null)
    requires j + 1 == |s.chain| && s.chain[j] == n < |s.buckets| && s.buckets[n].offset == Off(j)
    requires b < |s.buckets| && s.buckets[n].next == Null
    ensures var u := TryLink(s, t, b, n, Null, false); Inv(u) && Extends(s, u) && u.chain == s.chain + [b]
  {
    var u := TryLink(s, t, b, n, Null, false);
    assert ThreadOk(s, s.threads[t]);
    LinkMemory(s, u, b);
    assert u.chain[j+1] == b;
    LinkExtends(s, u, b, n);
    forall v | 0 <= v < |s.threads| && v != t ensures Undisturbed(s, u, Owned(s.threads[v]), OwnedPage(s.threads[v])) {
      OnlyMine(s.threads, t, v);
      assert b in Owned(s.threads[t]);
    }
    assert ThreadOk(u, u.threads[t]) by { OwnStays(s, u, s.threads[t].tnext); }
    StepDone(s, u, t);
  }

  lemma LinkExtends(s: State, u: State, b: nat, n: nat)
    requires n < |s.buckets| && u.buckets == s.buckets[n := s.buckets[n].(next := To(b))]
    requires u.chain == s.chain + [b] && u.pages == s.pages && u.pchain == s.pchain
    ensures Extends(s, u)
  {
    forall j | Indexed(s.pages, s.pchain, s.chain, j) ensures Indexed(u.pages, u.pchain, u.chain, j) {
      IndexedGrows(s.pages, s.pchain, s.chain, u.chain, j);
    }
  }

  lemma TryLinkKeeps(s: State, t: nat, b: nat, n: nat, expected: Ptr, spurious: bool)
    requires Inv(s) && t < |s.threads| && s.threads[t].pc == Cas(b, n, expected) && b < |s.buckets| && n < |s.buckets|
    ensures var u := TryLink(s, t, b, n, expected, spurious); Inv(u) && Extends(s, u)
  {
    var u := TryLink(s, t, b, n, expected, spurious);
    assert ThreadOk(s, s.threads[t]);
    var j := PlaceInChain(s, n);
    if s.buckets[n].next == expected && !spurious {
      LinkKeeps(s, t, b, n, j);
    } else {
      SameMemory(s, u);
      StepDone(s, u, t);
    }
  }

  lemma SameMemory(s: State, u: State)
    requires Memory(s) && u.buckets == s.buckets && u.pages == s.pages && u.chain == s.chain && u.pchain == s.pchain
    requires u.live == s.live
    ensures Memory(u)
  {
    assert MemoryOk(s);
  }

  lemma AdoptKeeps(s: State, t: nat, b: nat)
    requires Inv(s) && t < |s.threads| && s.threads[t].pc == Linked(b) && b < |s.buckets|
    ensures Inv(Adopt(s, t, b)) && Extends(s, Adopt(s, t, b))
  {
    var u := Adopt(s, t, b);
    assert ThreadOk(s, s.threads[t]);
    SameMemory(s, u);
    FirstPage(s);
    StepDone(s, u, t);
  }

  lemma FirstPage(s: State)
    requires Memory(s)
    ensures |s.pchain| > 0 && s.pchain[0] == 0
  {
    assert MemoryOk(s);
  }

  /** On the last page, slot Pos(id) stands for the bucket's own position in the chain. */
  lemma PageArith(id: nat, at: nat)
    requires id < C * C
    ensures var r := Pos(id);
      && r < C && Pos(id + Off(Off(at))) == Off(at) + r
      && Pos(Off(at) + r) == at && Cell(Off(at) + r) == r
  {
    SlotInPage(id);
    IdFrom(id);
    OffAdds(Off(at), Pos(id));
    PosCell(Off(at) + Pos(id), Cell(id));
    PosCell(at, Pos(id));
  }

  lemma NextPageArith(at: nat)
    ensures Off(Off(at + 1)) == Off(Off(at)) + C * C
  {
    OffAdds(Off(at), C);
    OffIsProduct(C);
  }

  lemma PagesFrame(ps: seq<Page>, qs: seq<Page>, pch: seq<nat>, p: nat, r: nat, x: Ptr)
    requires PagesOk(ps, pch) && p < |ps| && p in pch && r < C && qs == ps[p := ps[p].(slots := ps[p].slots[r := x])]
    ensures PagesOk(qs, pch)
  {
    forall q | 0 <= q < |pch| ensures qs[pch[q]].next == NextAt(pch, q) {
      assert ps[pch[q]].next == NextAt(pch, q);
    }
  }

  /** Only page p of the chain changes. */
  lemma OtherPages(ps: seq<Page>, qs: seq<Page>, pch: seq<nat>, at: nat, x: Page)
    requires Distinct(pch) && at < |pch| && (forall q | 0 <= q < |pch| :: pch[q] < |ps|) && qs == ps[pch[at] := x]
    ensures forall q | 0 <= q < |pch| :: qs[pch[q]] == if q == at then x else ps[pch[q]]
  {
  }

  lemma SlotWrite(ps: seq<Page>, qs: seq<Page>, pch: seq<nat>, ch: seq<nat>, at: nat, r: nat)
    requires SlotsOk(ps, pch, ch) && at < |pch| && Off(at) + r < |ch| && (forall q | 0 <= q < |pch| :: pch[q] < |ps|)
    requires |qs| == |ps|
    requires r < |ps[pch[at]].slots| && qs[pch[at]].slots == ps[pch[at]].slots[r := To(ch[Off(at) + r])]
    requires forall q | 0 <= q < |pch| && q != at :: qs[pch[q]] == ps[pch[q]]
    ensures SlotsOk(qs, pch, ch)
  {
    forall q, i | 0 <= q < |pch| && pch[q] < |qs| && 0 <= i < |qs[pch[q]].slots|
      ensures qs[pch[q]].slots[i] == Null || (Off(q) + i < |ch| && qs[pch[q]].slots[i] == To(ch[Off(q) + i]))
    {
      if q != at || i != r { assert qs[pch[q]].slots[i] == ps[pch[q]].slots[i]; }
    }
  }

  lemma SlotIndexed(ps: seq<Page>, qs: seq<Page>, pch: seq<nat>, ch: seq<nat>, at: nat, r: nat, j: nat)
    requires at < |pch| && r < C && Off(at) + r < |ch| && (forall q | 0 <= q < |pch| :: pch[q] < |ps|) && |qs| == |ps|
    requires r < |ps[pch[at]].slots| && qs[pch[at]].slots == ps[pch[at]].slots[r := To(ch[Off(at) + r])]
    requires forall q | 0 <= q < |pch| && q != at :: qs[pch[q]] == ps[pch[q]]
    requires Indexed(ps, pch, ch, j) || j == Off(at) + r
    ensures Indexed(qs, pch, ch, j)
  {
    PosCell(at, r);
    IdFrom(j);
  }

  lemma SlotMemory(s: State, u: State, at: nat, r: nat)
    requires Memory(s) && at < |s.pchain| && r < C && Off(at) + r < |s.chain| && s.pchain[at] < |s.pages|
    requires |s.pages[s.pchain[at]].slots| == C
    requires var p := s.pchain[at];
      u.pages == s.pages[p := s.pages[p].(slots := s.pages[p].slots[r := To(s.chain[Off(at) + r])])]
    requires u.buckets == s.buckets && u.chain == s.chain && u.pchain == s.pchain && u.live == s.live
    ensures Memory(u) && Extends(s, u) && Indexed(u.pages, u.pchain, u.chain, Off(at) + r)
  {
    assert MemoryOk(s);
    assert s.pchain[at] in s.pchain;
    PagesFrame(s.pages, u.pages, s.pchain, s.pchain[at], r, To(s.chain[Off(at) + r]));
    OtherPages(s.pages, u.pages, s.pchain, at, u.pages[s.pchain[at]]);
    SlotWrite(s.pages, u.pages, s.pchain, s.chain, at, r);
    forall j: nat | Indexed(s.pages, s.pchain, s.chain, j) || j == Off(at) + r
      ensures Indexed(u.pages, u.pchain, u.chain, j)
    {
      SlotIndexed(s.pages, u.pages, s.pchain, s.chain, at, r, j);
    }
    UsedGrows(s, u);
  }

  lemma UsedGrows(s: State, u: State)
    requires UsedIndexed(s.buckets, s.chain, s.pages, s.pchain) && u.buckets == s.buckets && u.chain == s.chain
    requires forall j | Indexed(s.pages, s.pchain, s.chain, j) :: Indexed(u.pages, u.pchain, u.chain, j)
    ensures UsedIndexed(u.buckets, u.chain, u.pages, u.pchain)
  {
    forall j | 0 <= j < |u.chain| && u.chain[j] < |u.buckets| && u.buckets[u.chain[j]].count > 0
      ensures Indexed(u.pages, u.pchain, u.chain, j)
    {
      assert Indexed(s.pages, s.pchain, s.chain, j);
    }
  }

  /** The bucket that a thread wants to index has the position that the page and slot stand for. */
  lemma SlotForBucket(s: State, b: nat, id: nat, at: nat, r: nat)
    requires Memory(s) && InChain(s, b) && s.buckets[b].offset == id + Off(Off(at))
    requires Pos(id + Off(Off(at))) == Off(at) + r
    ensures Off(at) + r < |s.chain| && s.chain[Off(at) + r] == b && Pos(s.buckets[b].offset) == Off(at) + r
  {
    var j := PlaceInChain(s, b);
    PosCell(j, 0);
  }

  lemma StoreKeeps(s: State, t: nat, b: nat, id: nat, p: nat, at: nat)
    requires Inv(s) && t < |s.threads| && s.threads[t].pc == Index(b, id, p, at)
    requires p < |s.pages| && |s.pages[p].slots| == C && id < C * C
    ensures Inv(IndexStep(s, t, b, id, p, at)) && Extends(s, IndexStep(s, t, b, id, p, at))
  {
    var u := IndexStep(s, t, b, id, p, at);
    assert ThreadOk(s, s.threads[t]);
    PageArith(id, at);
    SlotForBucket(s, b, id, at, Pos(id));
    SlotMemory(s, u, at, Pos(id));
    StoreDone(s, u, t, b, Off(at) + Pos(id));
  }

  lemma StoreDone(s: State, u: State, t: nat, b: nat, j: nat)
    requires Inv(s) && Memory(u) && Extends(s, u) && t < |s.threads| && s.threads[t].pc.Index? && s.threads[t].pc.b == b
    requires u.buckets == s.buckets && u.chain == s.chain && u.pchain == s.pchain
    requires u.threads == s.threads[t := s.threads[t].(pc := Take)]
    requires b < |s.buckets| && Pos(s.buckets[b].offset) == j && Indexed(u.pages, u.pchain, u.chain, j)
    ensures Inv(u)
  {
    assert ThreadOk(s, s.threads[t]);
    StepDone(s, u, t);
  }

  lemma PageInChain(s: State, at: nat)
    requires Memory(s) && at < |s.pchain|
    ensures s.pchain[at] < |s.pages| && |s.pages[s.pchain[at]].slots| == C
    ensures s.pages[s.pchain[at]].next == NextAt(s.pchain, at)
    ensures |s.pages| !in s.pchain
  {
    assert MemoryOk(s);
    assert s.pages[s.pchain[at]].next == NextAt(s.pchain, at);
  }

  lemma MorePages(s: State, u: State)
    requires Memory(s) && u.pages == s.pages + [Page(NoSlots(), Null)]
    requires u.buckets == s.buckets && u.chain == s.chain && u.pchain == s.pchain && u.live == s.live
    ensures Memory(u) && Extends(s, u)
  {
    assert MemoryOk(s);
    forall q | 0 <= q < |s.pchain| ensures u.pages[s.pchain[q]].next == NextAt(s.pchain, q) {
      assert s.pages[s.pchain[q]].next == NextAt(s.pchain, q);
    }
    UsedGrows(s, u);
  }

  lemma IndexKeeps(s: State, t: nat, b: nat, id: nat, p: nat, at: nat)
    requires Inv(s) && t < |s.threads| && s.threads[t].pc == Index(b, id, p, at) && p < |s.pages|
    requires |s.pages[p].slots| == C
    ensures Inv(IndexStep(s, t, b, id, p, at)) && Extends(s, IndexStep(s, t, b, id, p, at))
  {
    var u := IndexStep(s, t, b, id, p, at);
    assert ThreadOk(s, s.threads[t]);
    if id < C * C {
      StoreKeeps(s, t, b, id, p, at);
    } else {
      PageInChain(s, at);
      if s.pages[p].next == Null { MorePages(s, u); } else { SameMemory(s, u); NextPageArith(at); }
      StepDone(s, u, t);
    }
  }

  lemma LinkPages(ps: seq<Page>, pch: seq<nat>, np: nat)
    requires PagesOk(ps, pch) && np < |ps| && np !in pch
    ensures var p := pch[|pch|-1]; PagesOk(ps[p := ps[p].(next := To(np))], pch + [np])
  {
    var p := pch[|pch|-1];
    var qs, qch := ps[p := ps[p].(next := To(np))], pch + [np];
    assert p in pch;
    forall q | 0 <= q < |qch| ensures qch[q] < |qs| && qs[qch[q]].next == NextAt(qch, q) {
      if q < |pch| {
        assert ps[pch[q]].next == NextAt(pch, q);
        if q < |pch| - 1 { assert pch[q] != pch[|pch|-1]; }
      }
    }
    AppendDistinct(pch, np);
    forall x | 0 <= x < |qs| && x !in qch ensures qs[x] == Page(NoSlots(), Null) {
      assert x !in pch by { PrefixMembers(pch, qch); }
    }
  }

  lemma LinkPageSlots(ps: seq<Page>, qs: seq<Page>, pch: seq<nat>, np: nat, ch: seq<nat>)
    requires SlotsOk(ps, pch, ch) && |qs| == |ps| && np < |ps| && ps[np].slots == NoSlots()
    requires forall x | 0 <= x < |ps| :: qs[x].slots == ps[x].slots
    ensures SlotsOk(qs, pch + [np], ch)
  {
    var qch := pch + [np];
    forall q, r | 0 <= q < |qch| && qch[q] < |qs| && 0 <= r < |qs[qch[q]].slots|
      ensures qs[qch[q]].slots[r] == Null || (Off(q) + r < |ch| && qs[qch[q]].slots[r] == To(ch[Off(q) + r]))
    {
      if q < |pch| { assert qch[q] == pch[q] && ps[pch[q]].slots[r] == qs[pch[q]].slots[r]; }
    }
  }

  lemma LinkPageMemory(s: State, u: State, p: nat, np: nat)
    requires Memory(s) && np < |s.pages| && np !in s.pchain && |s.pchain| > 0 && s.pchain[|s.pchain|-1] == p < |s.pages|
    requires u.pages == s.pages[p := s.pages[p].(next := To(np))] && u.pchain == s.pchain + [np]
    requires u.buckets == s.buckets && u.chain == s.chain && u.live == s.live
    ensures Memory(u) && Extends(s, u)
  {
    assert MemoryOk(s);
    LinkPages(s.pages, s.pchain, np);
    LinkPageSlots(s.pages, u.pages, s.pchain, np, s.chain);
    forall j | Indexed(s.pages, s.pchain, s.chain, j) ensures Indexed(u.pages, u.pchain, u.chain, j) {
      assert u.pchain[Pos(j)] == s.pchain[Pos(j)];
    }
    UsedGrows(s, u);
  }

  lemma TryLinkPageKeeps(s: State, t: nat, b: nat, id: nat, p: nat, at: nat, np: nat)
    requires Inv(s) && t < |s.threads| && s.threads[t].pc == PageCas(b, id, p, at, np)
    requires p < |s.pages| && np < |s.pages| && id >= C * C
    ensures var u := TryLinkPage(s, t, b, id, p, at, np); Inv(u) && Extends(s, u)
  {
    var u := TryLinkPage(s, t, b, id, p, at, np);
    assert ThreadOk(s, s.threads[t]);
    PageInChain(s, at);
    if s.pages[p].next == Null {
      LinkPageMemory(s, u, p, np);
      NextPageArith(at);
      forall v | 0 <= v < |s.threads| && v != t
        ensures Undisturbed(s, u, Owned(s.threads[v]), OwnedPage(s.threads[v]))
      {
        OnlyMine(s.threads, t, v);
        assert np in OwnedPage(s.threads[t]);
      }
    } else {
      SameMemory(s, u);
    }
    StepDone(s, u, t);
  }

  // ------------------------------------------------------------ giving out ids and taking them back

  /** Changing one bucket's count. */
  lemma CountChain(bs: seq<Bucket>, ch: seq<nat>, b: nat, c: nat)
    requires ChainOk(bs, ch) && b < |bs| && b in ch && c <= C
    ensures ChainOk(bs[b := bs[b].(count := c)], ch)
  {
    var cs := bs[b := bs[b].(count := c)];
    forall j | 0 <= j < |ch| ensures cs[ch[j]].offset == Off(j) && cs[ch[j]].next == NextAt(ch, j) {
      assert bs[ch[j]].next == NextAt(ch, j);
    }
  }

  /** The id with cell c of the bucket at position j comes and goes as the count steps between c and c + 1. */
  lemma CountLive(bs: seq<Bucket>, cs: seq<Bucket>, ch: seq<nat>, live: set<nat>, j: nat, c: nat, up: bool)
    requires LiveOk(bs, ch, live) && Distinct(ch) && j < |ch| && (forall i | 0 <= i < |ch| :: ch[i] < |bs|) && c < C
    requires bs[ch[j]].count == (if up then c else c + 1)
    requires cs == bs[ch[j] := bs[ch[j]].(count := if up then c + 1 else c)]
    ensures var id := Off(j) + c; (id in live <==> !up) && LiveOk(cs, ch, if up then live + {id} else live - {id})
  {
    var x := Off(j) + c;
    PosCell(j, c);
    assert IsLive(bs, ch, x) <==> !up;
    var after := if up then live + {x} else live - {x};
    forall id: nat ensures id in after <==> IsLive(cs, ch, id) {
      assert id in live <==> IsLive(bs, ch, id);
      IdFrom(id);
      if Pos(id) < |ch| && Pos(id) != j { assert ch[Pos(id)] != ch[j]; }
    }
  }

  lemma CountMemory(s: State, u: State, j: nat, c: nat, up: bool)
    requires Memory(s) && j < |s.chain| && s.chain[j] < |s.buckets| && c < C
    requires s.buckets[s.chain[j]].count == (if up then c else c + 1)
    requires u.buckets == s.buckets[s.chain[j] := s.buckets[s.chain[j]].(count := if up then c + 1 else c)]
    requires Indexed(s.pages, s.pchain, s.chain, j) && u.pages == s.pages && u.chain == s.chain && u.pchain == s.pchain
    requires u.live == if up then s.live + {Off(j) + c} else s.live - {Off(j) + c}
    ensures Memory(u) && (Off(j) + c in s.live <==> !up)
  {
    CountLiveOk(s, u, j, c, up);
    CountRest(s, u, j, if up then c + 1 else c);
  }

  lemma CountLiveOk(s: State, u: State, j: nat, c: nat, up: bool)
    requires Memory(s) && j < |s.chain| && s.chain[j] < |s.buckets| && c < C
    requires s.buckets[s.chain[j]].count == (if up then c else c + 1)
    requires u.buckets == s.buckets[s.chain[j] := s.buckets[s.chain[j]].(count := if up then c + 1 else c)]
    requires u.chain == s.chain
    requires u.live == if up then s.live + {Off(j) + c} else s.live - {Off(j) + c}
    ensures LiveOk(u.buckets, u.chain, u.live) && (Off(j) + c in s.live <==> !up)
  {
    assert MemoryOk(s);
    CountLive(s.buckets, u.buckets, s.chain, s.live, j, c, up);
  }

  lemma CountRest(s: State, u: State, j: nat, d: nat)
    requires Memory(s) && j < |s.chain| && s.chain[j] < |s.buckets| && d <= C
    requires u.buckets == s.buckets[s.chain[j] := s.buckets[s.chain[j]].(count := d)]
    requires Indexed(s.pages, s.pchain, s.chain, j) && u.pages == s.pages && u.chain == s.chain && u.pchain == s.pchain
    requires LiveOk(u.buckets, u.chain, u.live)
    ensures Memory(u)
  {
    assert MemoryOk(s);
    assert s.chain[j] in s.chain;
    CountChain(s.buckets, s.chain, s.chain[j], d);
    CountUsed(s, u, j);
  }

  lemma CountUsed(s: State, u: State, j: nat)
    requires UsedIndexed(s.buckets, s.chain, s.pages, s.pchain) && u.chain == s.chain && u.pages == s.pages
    requires u.pchain == s.pchain
    requires j < |s.chain| && Distinct(s.chain) && Indexed(s.pages, s.pchain, s.chain, j)
    requires |u.buckets| == |s.buckets| && forall b | 0 <= b < |s.buckets| && b != s.chain[j] ::
      u.buckets[b] == s.buckets[b]
    ensures UsedIndexed(u.buckets, u.chain, u.pages, u.pchain)
  {
    forall i | 0 <= i < |u.chain| && u.chain[i] < |u.buckets| && u.buckets[u.chain[i]].count > 0
      ensures Indexed(u.pages, u.pchain, u.chain, i)
    {
      if i != j { assert s.chain[i] != s.chain[j] && Indexed(s.pages, s.pchain, s.chain, i); }
    }
  }

  /** The id that `next` returns is not live before, and is live after. */
  lemma GiveKeeps(s: State, t: nat, b: nat)
    requires Inv(s) && t < |s.threads| && s.threads[t].pc == Take && s.threads[t].tnext == To(b) && b < |s.buckets|
    ensures var u := Give(s, t, b); Inv(u) && Extends(s, u) && u.log[|s.log|] !in s.live
  {
    var u := Give(s, t, b);
    assert ThreadOk(s, s.threads[t]);
    var j := PlaceInChain(s, b);
    PosCell(j, 0);
    CountMemory(s, u, j, s.buckets[b].count, true);
    forall v | 0 <= v < |s.threads| && v != t ensures Undisturbed(s, u, Owned(s.threads[v]), OwnedPage(s.threads[v])) {
      OnlyMine(s.threads, t, v);
      assert b in Owned(s.threads[t]);
    }
    StepDone(s, u, t);
  }

  lemma TakeBackKeeps(s: State, t: nat, b: nat)
    requires Inv(s) && t < |s.threads| && s.threads[t] == Thread(To(b), Idle) && b < |s.buckets|
    requires s.buckets[b].count > 0
    ensures var u := TakeBack(s, b);
      Inv(u) && Extends(s, u) && u.live == s.live - {s.buckets[b].offset + s.buckets[b].count - 1}
    ensures s.buckets[b].offset + s.buckets[b].count - 1 in s.live
  {
    var u := TakeBack(s, b);
    assert ThreadOk(s, s.threads[t]);
    var j := PlaceInChain(s, b);
    PosCell(j, 0);
    Counts(s, b);
    CountMemory(s, u, j, s.buckets[b].count - 1, false);
    forall v | 0 <= v < |s.threads| && v != t ensures Undisturbed(s, u, Owned(s.threads[v]), OwnedPage(s.threads[v])) {
      OnlyMine(s.threads, t, v);
      assert b in Owned(s.threads[t]);
    }
    StepDone(s, u, t);
  }

  lemma Counts(s: State, b: nat)
    requires Memory(s) && b < |s.buckets|
    ensures s.buckets[b].count <= C
  {
    assert MemoryOk(s);
  }

  // ------------------------------------------------------------ runs

  /** A thread may call pop_back between two calls of next, when it has handed out an id from its bucket. */
  predicate MayPop(s: State, t: nat) {
    && t < |s.threads| && s.threads[t].pc == Idle && s.threads[t].tnext.To?
    && s.threads[t].tnext.i < |s.buckets| && s.buckets[s.threads[t].tnext.i].count > 0
  }

  ghost function Step(s: State, t: nat, spurious: bool): State
    requires Inv(s) && t < |s.threads|
  {
    assert ThreadOk(s, s.threads[t]);
    match s.threads[t].pc
    case Idle => BeginNext(s, t)
    case Init(b, n) => SetOffset(s, t, b, n)
    case Cas(b, n, expected) => TryLink(s, t, b, n, expected, spurious)
    case Bump(b, n, m) => MoveOn(s, t, b, m)
    case Linked(b) => Adopt(s, t, b)
    case Index(b, id, p, at) => PageInChain(s, at); IndexStep(s, t, b, id, p, at)
    case PageCas(b, id, p, at, np) => PageInChain(s, at); TryLinkPage(s, t, b, id, p, at, np)
    case Take => Give(s, t, s.threads[t].tnext.i)
  }

  /** What one action does; an action that is not possible does nothing. */
  ghost function Apply(s: State, a: Action): State
    requires Inv(s)
  {
    match a
    case Run(t, spurious) => if t < |s.threads| then Step(s, t, spurious) else s
    case PopBack(t) => if MayPop(s, t) then TakeBack(s, s.threads[t].tnext.i) else s
  }

  /** No action, whichever thread takes it, moves a linked bucket, drops an index entry or breaks the invariant. */
  lemma ApplyKeeps(s: State, a: Action)
    requires Inv(s)
    ensures Inv(Apply(s, a)) && Extends(s, Apply(s, a))
  {
    match a
    case PopBack(t) =>
      if MayPop(s, t) { TakeBackKeeps(s, t, s.threads[t].tnext.i); }
    case Run(t, spurious) =>
      if t < |s.threads| {
        assert ThreadOk(s, s.threads[t]);
        match s.threads[t].pc
        case Idle => BeginKeeps(s, t);
        case Init(b, n) => SetOffsetKeeps(s, t, b, n);
        case Cas(b, n, expected) => TryLinkKeeps(s, t, b, n, expected, spurious);
        case Bump(b, n, m) => MoveOnKeeps(s, t, b, n, m);
        case Linked(b) => AdoptKeeps(s, t, b);
        case Index(b, id, p, at) => PageInChain(s, at); IndexKeeps(s, t, b, id, p, at);
        case PageCas(b, id, p, at, np) => PageInChain(s, at); TryLinkPageKeeps(s, t, b, id, p, at, np);
        case Take => GiveKeeps(s, t, s.threads[t].tnext.i);
      }
  }

  /** The state after a whole interleaving. */
  ghost function Exec(s: State, acts: seq<Action>): (u: State)
    requires Inv(s)
    ensures Inv(u)
    decreases |acts|
  {
    if acts == [] then s else ApplyKeeps(s, acts[0]); Exec(Apply(s, acts[0]), acts[1..])
  }

  lemma StartOk(n: positive)
    ensures Inv(Start(n))
  {
    var s := Start(n);
    StartMemory(s, n);
    forall t | 0 <= t < n ensures ThreadOk(s, s.threads[t]) {
      assert s.chain[0] in s.chain;
    }
  }

  lemma StartMemory(s: State, n: positive)
    requires s == Start(n)
    ensures Memory(s) && Indexed(s.pages, s.pchain, s.chain, 0)
  {
    assert s.buckets[s.chain[0]].next == NextAt(s.chain, 0);
    assert PagesOk(s.pages, s.pchain) by { assert s.pages[s.pchain[0]].next == NextAt(s.pchain, 0); }
    StartIndexed(s);
    forall id: nat ensures id !in s.live && !IsLive(s.buckets, s.chain, id) {
    }
  }

  lemma StartIndexed(s: State)
    requires exists n: positive :: s == Start(n)
    ensures Indexed(s.pages, s.pchain, s.chain, 0) && SlotsOk(s.pages, s.pchain, s.chain)
  {
    var page := s.pages[0].slots;
    assert page[0] == To(0) && forall r | 0 < r < C :: page[r] == Null;
  }

  lemma {:induction false} ExecExtends(s: State, acts: seq<Action>)
    requires Inv(s)
    ensures Extends(s, Exec(s, acts))
    decreases |acts|
  {
    if acts != [] {
      var m := Apply(s, acts[0]);
      ApplyKeeps(s, acts[0]);
      ExecExtends(m, acts[1..]);
      ExtendsTrans(s, m, Exec(m, acts[1..]));
    }
  }

  lemma ExtendsTrans(s: State, m: State, u: State)
    requires Extends(s, m) && Extends(m, u)
    ensures Extends(s, u)
  {
    PrefixMembers(s.chain, m.chain);
    forall j | Indexed(s.pages, s.pchain, s.chain, j) ensures Indexed(u.pages, u.pchain, u.chain, j) {
      assert Indexed(m.pages, m.pchain, m.chain, j);
    }
  }

  /** In every reachable state the chain visits each of its buckets once, in next order, and ends at Null; the bucket at
      position j starts at id j * C. */
  lemma ChainInEveryRun(n: positive, acts: seq<Action>, j: nat)
    ensures var u := Exec(StartOf(n), acts);
      && |u.chain| > 0 && u.chain[0] == 0
      && (forall i | 0 <= i < |u.chain| && j < |u.chain| && i != j :: u.chain[i] != u.chain[j])
      && (j < |u.chain| ==>
            && u.chain[j] < |u.buckets| && u.buckets[u.chain[j]].offset == j * C
            && u.buckets[u.chain[j]].next == if j + 1 < |u.chain| then To(u.chain[j + 1]) else Null)
  {
    var u := Exec(StartOf(n), acts);
    assert MemoryOk(u);
    OffIsProduct(j);
    if j < |u.chain| { assert u.buckets[u.chain[j]].next == NextAt(u.chain, j); }
  }

  /** The initial state, which satisfies the invariant. */
  ghost function StartOf(n: positive): (s: State)
    ensures Inv(s)
  {
    StartOk(n);
    Start(n)
  }

  // ------------------------------------------------------------ ids are handed out once

  predicate NoPops(acts: seq<Action>) {
    forall k | 0 <= k < |acts| :: acts[k].Run?
  }

  ghost predicate LogLive(s: State) {
    Distinct(s.log) && forall k | 0 <= k < |s.log| :: s.log[k] in s.live
  }

  lemma StepLog(s: State, t: nat, spurious: bool)
    requires Inv(s) && LogLive(s)
    ensures LogLive(Apply(s, Run(t, spurious))) && s.log <= Apply(s, Run(t, spurious)).log
  {
    if t < |s.threads| {
      assert ThreadOk(s, s.threads[t]);
      if s.threads[t].pc == Take { GiveKeeps(s, t, s.threads[t].tnext.i); }
    }
  }

  lemma {:induction false} LogStaysLive(s: State, acts: seq<Action>)
    requires Inv(s) && LogLive(s) && NoPops(acts)
    ensures LogLive(Exec(s, acts))
    decreases |acts|
  {
    if acts != [] {
      ApplyKeeps(s, acts[0]);
      StepLog(s, acts[0].t, acts[0].spurious);
      LogStaysLive(Apply(s, acts[0]), acts[1..]);
    }
  }

  /** Whatever the interleaving, `next` never returns the same id twice while none is taken back. */
  lemma IdsAreDistinct(n: positive, acts: seq<Action>, i: nat, j: nat)
    requires NoPops(acts)
    ensures var log := Exec(StartOf(n), acts).log; i < j < |log| ==> log[i] != log[j]
  {
    LogStaysLive(StartOf(n), acts);
  }

  // ------------------------------------------------------------ one thread receives 0, 1, 2, ...

  ghost function Tail(s: State): nat
    requires |s.chain| > 0
  {
    s.chain[|s.chain| - 1]
  }

  /** One thread has the id list to itself: its bucket is the last of the chain, all buckets before it are full, and the
      ids returned so far are those below the next cell. */
  ghost predicate Solo(s: State) {
    && |s.threads| == 1 && |s.chain| > 0 && (forall k | 0 <= k < |s.log| :: s.log[k] == k)
    && var th := s.threads[0];
    match th.pc
    case Init(b, n) => th.tnext == To(Tail(s)) && n == Tail(s) && |s.log| == Off(|s.chain|)
    case Cas(b, n, expected) => th.tnext == To(Tail(s)) && n == Tail(s) && |s.log| == Off(|s.chain|)
    case Bump(b, n, m) => false
    case Linked(b) => b == Tail(s) && |s.log| == Off(|s.chain| - 1)
    case Index(b, id, q, at) => b == Tail(s) && |s.log| == Off(|s.chain| - 1)
    case PageCas(b, id, q, at, np) => b == Tail(s) && |s.log| == Off(|s.chain| - 1)
    case _ =>
      th.tnext == To(Tail(s)) && Tail(s) < |s.buckets| && |s.log| == Off(|s.chain| - 1) + s.buckets[Tail(s)].count
  }

  /** The last bucket of the chain. */
  lemma TailBucket(s: State)
    requires Memory(s) && |s.chain| > 0
    ensures Tail(s) < |s.buckets| && s.buckets[Tail(s)].offset == Off(|s.chain| - 1)
    ensures s.buckets[Tail(s)].next == Null && s.buckets[Tail(s)].count <= C
  {
    assert MemoryOk(s);
    assert s.buckets[s.chain[|s.chain| - 1]].next == NextAt(s.chain, |s.chain| - 1);
  }

  lemma SoloStep(s: State, a: Action)
    requires Inv(s) && Solo(s) && a.Run?
    ensures Solo(Apply(s, a))
  {
    hide Separate, Distinct;
    if a.t == 0 {
      TailBucket(s);
      assert ThreadOk(s, s.threads[0]);
      match s.threads[0].pc
      case Idle => SoloBegin(s);
      case Init(b, n) => SoloOffset(s, b, n);
      case Cas(b, n, expected) => SoloLink(s, b, n, expected, a.spurious);
      case Linked(b) =>
      case Index(b, id, q, at) => PageInChain(s, at);
      case PageCas(b, id, q, at, np) => PageInChain(s, at);
      case Take => SoloGive(s);
    }
  }

  lemma SoloBegin(s: State)
    requires Solo(s) && s.threads[0].pc == Idle && s.buckets[Tail(s)].count <= C
    ensures Solo(BeginNext(s, 0))
  {
  }

  lemma SoloOffset(s: State, b: nat, n: nat)
    requires Solo(s) && s.threads[0].pc == Init(b, n) && b < |s.buckets| && n < |s.buckets|
    ensures Solo(SetOffset(s, 0, b, n))
  {
  }

  lemma SoloGive(s: State)
    requires Solo(s) && s.threads[0].pc == Take && Tail(s) < |s.buckets|
    requires s.buckets[Tail(s)].offset == Off(|s.chain| - 1)
    ensures Solo(Give(s, 0, Tail(s)))
  {
  }

  lemma SoloLink(s: State, b: nat, n: nat, expected: Ptr, spurious: bool)
    requires Inv(s) && Solo(s) && s.threads[0].pc == Cas(b, n, expected) && b < |s.buckets| && n < |s.buckets|
    requires s.buckets[n].next == Null
    ensures Solo(TryLink(s, 0, b, n, expected, spurious))
  {
    var u := TryLink(s, 0, b, n, expected, spurious);
    if expected == Null && !spurious { assert u.chain == s.chain + [b] && Tail(u) == b; }
  }

  lemma {:induction false} SoloRun(s: State, acts: seq<Action>)
    requires Inv(s) && Solo(s) && NoPops(acts)
    ensures Solo(Exec(s, acts))
    decreases |acts|
  {
    if acts != [] {
      ApplyKeeps(s, acts[0]);
      SoloStep(s, acts[0]);
      SoloRun(Apply(s, acts[0]), acts[1..]);
    }
  }

  /** A single thread that takes nothing back receives the ids 0, 1, 2, ... in this order. */
  lemma OneThreadCounts(acts: seq<Action>, k: nat)
    requires NoPops(acts)
    ensures var log := Exec(StartOf(1), acts).log; k < |log| ==> log[k] == k
  {
    SoloRun(StartOf(1), acts);
  }

  /** With pop_back too, an id that is returned was not live at that moment, and pop_back ends exactly one. Only the
      last step of `next` returns an id. */
  lemma ReturnedIdIsFree(s: State, a: Action)
    requires Inv(s)
    ensures var u := Apply(s, a);
      match a
      case Run(t, spurious) =>
        if t < |s.threads| && s.threads[t].pc == Take then
          exists id :: id !in s.live && u.live == s.live + {id} && u.log == s.log + [id]
        else u.live == s.live && u.log == s.log
      case PopBack(t) =>
        && u.log == s.log
        && if MayPop(s, t) then exists id :: id in s.live && u.live == s.live - {id} else u.live == s.live
  {
    match a
    case PopBack(t) =>
      if MayPop(s, t) { TakeBackKeeps(s, t, s.threads[t].tnext.i); }
    case Run(t, spurious) =>
      if t < |s.threads| {
        assert ThreadOk(s, s.threads[t]);
        if s.threads[t].pc == Take { GiveKeeps(s, t, s.threads[t].tnext.i); }
      }
  }

  // ------------------------------------------------------------ finding the cell of an id

  /** The walk for id i has come to page p, the one at position `at`, and id is what is left of i. */
  ghost predicate Walked(s: State, i: nat, id: int, p: nat, at: nat) {
    at < |s.pchain| && s.pchain[at] == p < |s.pages| && |s.pages[p].slots| == C && id >= 0 && i == id + Off(Off(at))
  }

  /** The index walk: page by page, then the slot. */
  method IndexToBucket(s: State, i: nat) returns (r: Ptr)
    requires Memory(s)
    ensures r == Null || (Pos(i) < |s.chain| && r == To(s.chain[Pos(i)]))
    ensures Indexed(s.pages, s.pchain, s.chain, Pos(i)) ==> r != Null
    ensures i in s.live ==> r != Null
  {
    var id: int, p: nat := i, 0;
    ghost var at := 0;
    FirstPage(s);
    PageInChain(s, 0);
    LiveIsIndexed(s, i);
    while id >= C * C
      invariant Walked(s, i, id, p, at)
      decreases id
    {
      WalkOn(s, i, id, p, at);
      if s.pages[p].next == Null {
        return Null;
      }
      p, id, at := s.pages[p].next.i, id - C * C, at + 1;
    }
    LastPage(s, i, id, at);
    r := s.pages[p].slots[Pos(id)];
  }

  lemma WalkOn(s: State, i: nat, id: int, p: nat, at: nat)
    requires Memory(s) && Walked(s, i, id, p, at) && id >= C * C
    ensures C * C > 0
    ensures s.pages[p].next == Null ==> !Indexed(s.pages, s.pchain, s.chain, Pos(i))
    ensures s.pages[p].next != Null ==> Walked(s, i, id - C * C, s.pages[p].next.i, at + 1)
  {
    PageInChain(s, at);
    if at + 1 < |s.pchain| { PageInChain(s, at + 1); }
    NextPageArith(at);
    PageOf(i, at);
    MulMono(C, 1, C);
  }

  /** An id that is not on page `at` is on a later one. */
  lemma PageOf(i: nat, at: nat)
    requires i >= Off(Off(at)) + C * C
    ensures Pos(Pos(i)) > at
  {
    NextPageArith(at);
    IdFrom(i);
    IdFrom(Pos(i));
    if Pos(i) < Off(at + 1) { OffGrows(Pos(i), Off(at + 1)); }
    if Pos(Pos(i)) < at + 1 { OffGrows(Pos(Pos(i)), at + 1); }
  }

  /** The slot where the walk ends is the one for the id's bucket. */
  lemma LastPage(s: State, i: nat, id: nat, at: nat)
    requires Memory(s) && at < |s.pchain| && i == id + Off(Off(at)) && id < C * C
    ensures s.pchain[at] < |s.pages| && Pos(id) < |s.pages[s.pchain[at]].slots|
    ensures var x := s.pages[s.pchain[at]].slots[Pos(id)];
      && (x == Null || (Pos(i) < |s.chain| && x == To(s.chain[Pos(i)])))
      && (Indexed(s.pages, s.pchain, s.chain, Pos(i)) ==> x != Null)
  {
    PageArith(id, at);
    SlotHolds(s, at, Pos(id), Pos(i));
  }

  lemma LiveIsIndexed(s: State, i: nat)
    requires Memory(s)
    ensures i in s.live ==> Indexed(s.pages, s.pchain, s.chain, Pos(i))
  {
    assert MemoryOk(s);
    if i in s.live { assert IsLive(s.buckets, s.chain, i); }
  }

  lemma SlotsPart(s: State)
    requires Memory(s)
    ensures SlotsOk(s.pages, s.pchain, s.chain)
  {
    assert MemoryOk(s);
  }

  lemma SlotHolds(s: State, at: nat, r: nat, j: nat)
    requires Memory(s) && at < |s.pchain| && r < C && j == Off(at) + r
    ensures s.pchain[at] < |s.pages| && r < |s.pages[s.pchain[at]].slots|
    ensures var x := s.pages[s.pchain[at]].slots[r];
      && (x == Null || (j < |s.chain| && x == To(s.chain[j])))
      && (Indexed(s.pages, s.pchain, s.chain, j) ==> x != Null)
  {
    SlotsPart(s);
    PageInChain(s, at);
    PosCell(at, r);
  }

  /** operator[]: through the index, or else along the chain. The cell is that of the id's own bucket. */
  method Access(s: State, i: nat) returns (bucket: nat, cell: nat)
    requires Memory(s) && Pos(i) < |s.chain|
    ensures Pos(i) == i / C && bucket == s.chain[Pos(i)] && cell == i % C
  {
    PosIsQuotient(i);
    cell := i % C;
    var x := IndexToBucket(s, i);
    if x != Null {
      return x.i, cell;
    }
    var b := C;
    bucket := 0;
    ghost var j := 0;
    FirstBucket(s);
    while b <= i
      invariant j < |s.chain| && bucket == s.chain[j] && b == Off(j + 1) && j <= Pos(i)
      decreases i + 1 - b
    {
      ChainStep(s, j, i);
      b := b + C;
      bucket := s.buckets[bucket].next.i;
      j := j + 1;
    }
    ChainEnd(i, j);
  }

  lemma FirstBucket(s: State)
    requires Memory(s)
    ensures |s.chain| > 0 && s.chain[0] == 0
  {
    assert MemoryOk(s);
  }

  lemma ChainStep(s: State, j: nat, i: nat)
    requires Memory(s) && j < |s.chain| && Off(j + 1) <= i && Pos(i) < |s.chain|
    ensures j < Pos(i) && s.chain[j] < |s.buckets| && s.buckets[s.chain[j]].next == To(s.chain[j + 1])
  {
    assert MemoryOk(s);
    IdFrom(i);
    if Pos(i) < j + 1 { OffGrows(Pos(i), j + 1); }
    assert s.buckets[s.chain[j]].next == NextAt(s.chain, j);
  }

  lemma ChainEnd(i: nat, j: nat)
    requires Off(j + 1) > i && j <= Pos(i)
    ensures j == Pos(i)
  {
    IdFrom(i);
    if j + 1 < Pos(i) { OffGrows(j + 1, Pos(i)); }
  }

  /** Different live ids have different cells, and no later action of any thread moves a cell. */
  lemma CellsAreApart(s: State, acts: seq<Action>, i: nat, j: nat)
    requires Inv(s) && i in s.live && j in s.live && i != j
    ensures var u := Exec(s, acts);
      && Pos(i) < |s.chain| <= |u.chain| && u.chain[Pos(i)] == s.chain[Pos(i)]
      && Pos(j) < |s.chain| && (s.chain[Pos(i)] != s.chain[Pos(j)] || Cell(i) != Cell(j))
  {
    LiveIs(s, i);
    LiveIs(s, j);
    IdFrom(i);
    IdFrom(j);
    if Pos(i) != Pos(j) { ChainDistinct(s, Pos(i), Pos(j)); }
    ExecExtends(s, acts);
  }

  lemma ChainDistinct(s: State, i: nat, j: nat)
    requires Memory(s) && i < |s.chain| && j < |s.chain| && i != j
    ensures s.chain[i] != s.chain[j]
  {
    assert MemoryOk(s);
    if i < j { assert s.chain[i] != s.chain[j]; } else { assert s.chain[j] != s.chain[i]; }
  }

  // ------------------------------------------------------------ size

  function Count(s: State, j: nat): nat
    requires j <= |s.chain| && forall i | 0 <= i < j :: s.chain[i] < |s.buckets|
  {
    if j == 0 then 0 else Count(s, j - 1) + s.buckets[s.chain[j - 1]].count
  }

  ghost function Below(live: set<nat>, j: nat): set<nat> {
    set id | id in live && Pos(id) < j
  }

  ghost function At(live: set<nat>, j: nat): set<nat> {
    set id | id in live && Pos(id) == j
  }

  lemma {:induction false} LiveBelow(s: State, j: nat)
    requires Memory(s) && j <= |s.chain| && forall i | 0 <= i < j :: s.chain[i] < |s.buckets|
    ensures |Below(s.live, j)| == Count(s, j)
  {
    if j == 0 {
      assert Below(s.live, j) == {};
    } else {
      LiveBelow(s, j - 1);
      var before, mine := Below(s.live, j - 1), At(s.live, j - 1);
      assert Below(s.live, j) == before + mine && before !! mine;
      LiveInBucket(s, j - 1);
    }
  }

  lemma LiveInBucket(s: State, j: nat)
    requires Memory(s) && j < |s.chain| && s.chain[j] < |s.buckets|
    ensures |At(s.live, j)| == s.buckets[s.chain[j]].count
  {
    var n := s.buckets[s.chain[j]].count;
    forall id: nat ensures id in At(s.live, j) <==> Off(j) <= id < Off(j) + n {
      LiveCell(s, j, id);
    }
    RangeSize(At(s.live, j), Off(j), n);
  }

  lemma LiveIs(s: State, id: nat)
    requires Memory(s)
    ensures id in s.live <==> IsLive(s.buckets, s.chain, id)
  {
    assert MemoryOk(s);
  }

  lemma LiveCell(s: State, j: nat, id: nat)
    requires Memory(s) && j < |s.chain| && s.chain[j] < |s.buckets|
    ensures (id in s.live && Pos(id) == j) <==> Off(j) <= id < Off(j) + s.buckets[s.chain[j]].count
  {
    LiveIs(s, id);
    Counts(s, s.chain[j]);
    IdFrom(id);
    if Off(j) <= id < Off(j) + s.buckets[s.chain[j]].count { PosCell(j, id - Off(j)); }
  }

  lemma {:induction false} RangeSize(a: set<nat>, lo: nat, n: nat)
    requires forall id: nat :: id in a <==> lo <= id < lo + n
    ensures |a| == n
  {
    if n == 0 {
      assert a == {};
    } else {
      RangeSize(a - {lo + n - 1}, lo, n - 1);
    }
  }

  /** The sum of the counts along the chain is the number of live ids. */
  method Size(s: State) returns (cnt: nat)
    requires Memory(s)
    ensures cnt == |s.live|
  {
    cnt := 0;
    FirstBucket(s);
    var n := To(0);
    ghost var j := 0;
    while n != Null
      invariant j <= |s.chain| && n == (if j < |s.chain| then To(s.chain[j]) else Null)
      invariant forall i | 0 <= i < j :: s.chain[i] < |s.buckets|
      invariant cnt == Count(s, j)
      decreases |s.chain| - j
    {
      ChainAt(s, j);
      cnt := cnt + s.buckets[n.i].count;
      n := s.buckets[n.i].next;
      j := j + 1;
    }
    LiveBelow(s, j);
    AllBelow(s);
  }

  lemma ChainAt(s: State, j: nat)
    requires Memory(s) && j < |s.chain|
    ensures s.chain[j] < |s.buckets| && s.buckets[s.chain[j]].next == NextAt(s.chain, j)
  {
    assert MemoryOk(s);
    assert s.buckets[s.chain[j]].next == NextAt(s.chain, j);
  }

  lemma AllBelow(s: State)
    requires Memory(s)
    ensures s.live == Below(s.live, |s.chain|)
  {
    assert MemoryOk(s);
    forall id | id in s.live ensures Pos(id) < |s.chain| {
      assert IsLive(s.buckets, s.chain, id);
    }
  }
}
