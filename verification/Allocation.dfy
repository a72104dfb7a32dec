/** What `next` and `pop_back` mean to the threads that call them: which ids a thread receives, that it receives one at
    all, and which id it gives back. */
module Allocation {
  import opened LinkedBucket

  // ------------------------------------------------------------ a call returns

  /** Thread t takes k steps while no other thread moves and no compare-and-swap fails without reason. */
  function Alone(t: nat, k: nat): seq<Action> {
    seq(k, _ => Run(t, false))
  }

  /** How far a thread has come in `next`. */
  function Phase(pc: Pc): nat {
    match pc
    case Idle => 5
    case Init(b, n) => 4
    case Cas(b, n, expected) => 3
    case Bump(b, n, m) => 3
    case Linked(b) => 2
    case Index(b, id, p, at) => 1
    case PageCas(b, id, p, at, np) => 1
    case Take => 0
  }

  /** Buckets between the thread and the tail of the chain, or ids between it and the page that it looks for. */
  ghost function Ahead(s: State, pc: Pc): int {
    match pc
    case Cas(b, n, expected) => if n < |s.buckets| then |s.chain| - Pos(s.buckets[n].offset) else 0
    case Bump(b, n, m) => if m < |s.buckets| then |s.chain| - Pos(s.buckets[m].offset) else 0
    case Index(b, id, p, at) => id
    case PageCas(b, id, p, at, np) => id
    case _ => 0
  }

  /** Steps that do not get nearer, but prepare for the next one that does. */
  ghost function Detail(s: State, pc: Pc): nat {
    match pc
    case Cas(b, n, expected) => if expected == Null then 0 else 1
    case Bump(b, n, m) => 2
    case Index(b, id, p, at) => if p < |s.pages| && s.pages[p].next == Null then 2 else 0
    case PageCas(b, id, p, at, np) => 1
    case _ => 0
  }

  /** Left alone, a thread gets nearer to the end of its call with every step. */
  ghost predicate Nearer(s: State, u: State, t: nat)
    requires t < |s.threads| && t < |u.threads|
  {
    var pc, qc := s.threads[t].pc, u.threads[t].pc;
    || Phase(qc) < Phase(pc)
    || (Phase(qc) == Phase(pc) && 0 <= Ahead(u, qc) < Ahead(s, pc))
    || (Phase(qc) == Phase(pc) && Ahead(u, qc) == Ahead(s, pc) && Detail(u, qc) < Detail(s, pc))
  }

  lemma LinksNearer(s: State, t: nat)
    requires Inv(s) && t < |s.threads| && (s.threads[t].pc.Cas? || s.threads[t].pc.Bump?)
    ensures var u := Apply(s, Run(t, false)); |u.threads| == |s.threads| && u.log == s.log && Nearer(s, u, t)
    ensures Ahead(s, s.threads[t].pc) >= 0
  {
    hide Separate, Memory, Distinct;
    assert ThreadOk(s, s.threads[t]);
    match s.threads[t].pc
    case Cas(b, n, expected) =>
      var j := PlaceInChain(s, n);
      PosCell(j, 0);
      if j + 1 < |s.chain| { PosCell(j + 1, 0); }
    case Bump(b, n, m) =>
      var j := PlaceInChain(s, m);
      PosCell(j, 0);
  }

  lemma IndexNearer(s: State, t: nat)
    requires Inv(s) && t < |s.threads| && (s.threads[t].pc.Index? || s.threads[t].pc.PageCas?)
    ensures var u := Apply(s, Run(t, false)); |u.threads| == |s.threads| && u.log == s.log && Nearer(s, u, t)
    ensures Ahead(s, s.threads[t].pc) >= 0
  {
    hide Separate, Memory, Distinct;
    assert ThreadOk(s, s.threads[t]);
    MulMono(C, 1, C);
    match s.threads[t].pc
    case Index(b, id, p, at) =>
      PageInChain(s, at);
    case PageCas(b, id, p, at, np) =>
      PageInChain(s, at);
  }

  lemma StepsNearer(s: State, t: nat)
    requires Inv(s) && t < |s.threads| && s.threads[t].pc != Take
    ensures var u := Apply(s, Run(t, false));
      Inv(u) && |u.threads| == |s.threads| && u.log == s.log && Nearer(s, u, t) && Ahead(s, s.threads[t].pc) >= 0
  {
    hide Separate, Memory, ThreadOk;
    ApplyKeeps(s, Run(t, false));
    if s.threads[t].pc.Cas? || s.threads[t].pc.Bump? {
      LinksNearer(s, t);
    } else if s.threads[t].pc.Index? || s.threads[t].pc.PageCas? {
      IndexNearer(s, t);
    }
  }

  lemma AloneFirst(s: State, t: nat, k: nat)
    requires Inv(s)
    ensures Inv(Apply(s, Run(t, false))) && Exec(s, Alone(t, k + 1)) == Exec(Apply(s, Run(t, false)), Alone(t, k))
  {
    hide Separate, Memory;
    ApplyKeeps(s, Run(t, false));
    assert Alone(t, k + 1)[1..] == Alone(t, k);
  }

  /** The last step of a call hands out one id. */
  lemma TakeReturns(s: State, t: nat, spurious: bool)
    requires Inv(s) && t < |s.threads| && s.threads[t].pc == Take
    ensures var u := Apply(s, Run(t, spurious));
      |u.log| == |s.log| + 1 && s.log <= u.log && |u.threads| == |s.threads| && u.threads[t].pc == Idle
  {
    hide Separate, Memory;
    assert ThreadOk(s, s.threads[t]);
  }

  /** From every state, a thread that is left alone returns from `next` after finitely many steps, with one id. */
  lemma {:induction false} NextReturns(s: State, t: nat) returns (k: nat)
    requires Inv(s) && t < |s.threads|
    ensures k > 0
    ensures var u := Exec(s, Alone(t, k));
      |u.log| == |s.log| + 1 && s.log <= u.log && |u.threads| == |s.threads| && u.threads[t].pc == Idle
    decreases Phase(s.threads[t].pc), Ahead(s, s.threads[t].pc), Detail(s, s.threads[t].pc)
  {
    hide Inv, Step, Apply;
    AloneFirst(s, t, 0);
    var u := Apply(s, Run(t, false));
    if s.threads[t].pc == Take {
      TakeReturns(s, t, false);
      k := 1;
      assert Alone(t, 0) == [];
    } else {
      StepsNearer(s, t);
      k := NextReturns(u, t);
      AloneFirst(s, t, k);
      k := k + 1;
    }
  }

  /** The next id of the thread's own bucket. */
  ghost function Upcoming(s: State, t: nat): nat
    requires t < |s.threads| && s.threads[t].tnext.To? && s.threads[t].tnext.i < |s.buckets|
  {
    s.buckets[s.threads[t].tnext.i].offset + s.buckets[s.threads[t].tnext.i].count
  }

  lemma UpcomingTaken(s: State, t: nat, spurious: bool)
    requires Inv(s) && t < |s.threads| && s.threads[t].pc == Take
    ensures s.threads[t].tnext.To? && OwnOk(s, s.threads[t].tnext) && s.buckets[s.threads[t].tnext.i].count < C
    ensures var u := Apply(s, Run(t, spurious));
      u.log == s.log + [Upcoming(s, t)] && Upcoming(s, t) !in s.live && u.live == s.live + {Upcoming(s, t)}
  {
    hide Separate, Memory;
    assert ThreadOk(s, s.threads[t]);
    GiveKeeps(s, t, s.threads[t].tnext.i);
  }

  /** A thread whose bucket has room needs two steps. */
  lemma NextAtOnce(s: State, t: nat, x: bool, y: bool)
    requires Inv(s) && t < |s.threads| && s.threads[t].pc == Idle && s.threads[t].tnext.To?
    requires s.threads[t].tnext.i < |s.buckets| && s.buckets[s.threads[t].tnext.i].count < C
    ensures var u := Exec(s, [Run(t, x), Run(t, y)]);
      u.log == s.log + [Upcoming(s, t)] && u.live == s.live + {Upcoming(s, t)} && u.threads == s.threads
  {
    hide Separate, Memory, ThreadOk;
    var m := Goto(s, t, Take);
    assert Apply(s, Run(t, x)) == m;
    ApplyKeeps(s, Run(t, x));
    TakesUp(s, t);
    UpcomingTaken(m, t, y);
    BackToIdle(m, t, y);
    ApplyKeeps(m, Run(t, y));
    TwoSteps(s, Run(t, x), Run(t, y));
  }

  lemma TakesUp(s: State, t: nat)
    requires t < |s.threads| && s.threads[t].tnext.To? && s.threads[t].tnext.i < |s.buckets|
    ensures Upcoming(Goto(s, t, Take), t) == Upcoming(s, t)
    ensures Goto(Goto(s, t, Take), t, s.threads[t].pc).threads == s.threads
  {
    var th := s.threads[t];
    assert th.(pc := Take).(pc := th.pc) == th;
    assert s.threads[t := th] == s.threads;
  }

  lemma BackToIdle(s: State, t: nat, spurious: bool)
    requires Inv(s) && t < |s.threads| && s.threads[t].pc == Take
    ensures Apply(s, Run(t, spurious)).threads == Goto(s, t, Idle).threads
  {
    hide Separate, Memory;
    assert ThreadOk(s, s.threads[t]);
  }

  lemma TwoSteps(s: State, a: Action, b: Action)
    requires Inv(s) && Inv(Apply(s, a)) && Inv(Apply(Apply(s, a), b))
    ensures Exec(s, [a, b]) == Apply(Apply(s, a), b)
  {
    hide Inv, Apply;
    assert [a, b][1..] == [b] && [b][1..] == [];
    assert Exec(Apply(s, a), [b]) == Exec(Apply(Apply(s, a), b), []);
  }

  lemma {:induction false} ExecTwice(s: State, a: seq<Action>, b: seq<Action>)
    requires Inv(s)
    ensures Exec(s, a + b) == Exec(Exec(s, a), b)
    decreases |a|
  {
    if a == [] {
      assert a + b == b;
    } else {
      ApplyKeeps(s, a[0]);
      assert (a + b)[1..] == a[1..] + b;
      ExecTwice(Apply(s, a[0]), a[1..], b);
    }
  }

  /** One thread alone receives 0, 1, ..., n - 1 in finitely many steps. */
  lemma {:induction false} OneThreadReceives(n: nat) returns (k: nat)
    ensures Exec(StartOf(1), Alone(0, k)).log == seq(n, i => i)
  {
    if n == 0 {
      k := 0;
      assert Alone(0, 0) == [];
    } else {
      var j := OneThreadReceives(n - 1);
      var u := Exec(StartOf(1), Alone(0, j));
      OneThreadStays(Alone(0, j));
      var l := NextReturns(u, 0);
      k := j + l;
      assert Alone(0, k) == Alone(0, j) + Alone(0, l);
      ExecTwice(StartOf(1), Alone(0, j), Alone(0, l));
      var log := Exec(StartOf(1), Alone(0, k)).log;
      forall i | 0 <= i < n ensures log[i] == i { OneThreadCounts(Alone(0, k), i); }
    }
  }

  lemma OneThreadStays(acts: seq<Action>)
    requires NoPops(acts)
    ensures |Exec(StartOf(1), acts).threads| == 1
  {
    SoloRun(StartOf(1), acts);
  }

  // ------------------------------------------------------------ what a thread has received

  /** What thread t gets from one action. */
  ghost function Given(s: State, a: Action, t: nat): seq<nat>
    requires Inv(s)
  {
    var u := Apply(s, a);
    if a.Run? && a.t == t && |s.log| < |u.log| then [u.log[|s.log|]] else []
  }

  /** The ids that thread t receives in a run, in order. */
  ghost function Received(s: State, acts: seq<Action>, t: nat): seq<nat>
    requires Inv(s)
    decreases |acts|
  {
    if acts == [] then []
    else
      ApplyKeeps(s, acts[0]);
      Given(s, acts[0], t) + Received(Apply(s, acts[0]), acts[1..], t)
  }

  ghost function Newest(r: seq<nat>): nat
    requires r != []
  {
    r[|r| - 1]
  }

  /** All ids returned so far lie in linked buckets. */
  ghost predicate LogPlaced(s: State) {
    forall k | 0 <= k < |s.log| :: Pos(s.log[k]) < |s.chain|
  }

  /** The bucket at this position has not given out an id. */
  ghost predicate Unused(s: State, b: nat) {
    b < |s.buckets| && s.buckets[b].count == 0 &&
    forall k | 0 <= k < |s.log| && Pos(s.log[k]) < |s.chain| :: s.chain[Pos(s.log[k])] != b
  }

  /** No thread writes to the bucket any more. */
  ghost predicate Left(s: State, b: nat) {
    b < |s.buckets| && forall v | 0 <= v < |s.threads| :: b !in Owned(s.threads[v])
  }

  /** The bucket of the id is b. */
  ghost predicate Lies(s: State, id: nat, b: nat) {
    Pos(id) < |s.chain| && s.chain[Pos(id)] == b < |s.buckets|
  }

  /** Behind the place where a live id of the bucket at `offset` was received, only higher ids of it were. */
  ghost predicate Stacked(r: seq<nat>, offset: nat, count: nat) {
    forall i: nat | i < count :: HasTop(r, offset, i)
  }

  ghost predicate HasTop(r: seq<nat>, offset: nat, i: nat) {
    exists j :: Topped(r, offset, i, j)
  }

  ghost predicate Topped(r: seq<nat>, offset: nat, i: nat, j: int) {
    0 <= j < |r| && r[j] == offset + i && forall l | j < l < |r| :: offset + i < r[l] < offset + C
  }

  /** The thread still uses the bucket of the id that it received last. */
  ghost predicate Staying(s: State, th: Thread, r: seq<nat>) {
    && r != [] && th.tnext.To? && Lies(s, Newest(r), th.tnext.i)
    && Stacked(r, s.buckets[th.tnext.i].offset, s.buckets[th.tnext.i].count)
  }

  /** The thread has an unused bucket, and the one that it used before is full and left. */
  ghost predicate Moved(s: State, th: Thread, r: seq<nat>) {
    && th.tnext.To? && Unused(s, th.tnext.i)
    && (r != [] ==> Pos(Newest(r)) < |s.chain| && FullAndLeft(s, s.chain[Pos(Newest(r))]))
  }

  ghost predicate FullAndLeft(s: State, b: nat) {
    Left(s, b) && s.buckets[b].count == C
  }

  /** What thread t has received accords with where it is. */
  ghost predicate Accords(s: State, t: nat, r: seq<nat>) {
    && t < |s.threads|
    && (t == 0 && r == [] ==> s.threads[t].tnext == To(0) && (s.threads[t].pc == Idle || s.threads[t].pc == Take))
    && match s.threads[t].pc
       case Idle =>
         || Staying(s, s.threads[t], r)
         || (r == [] && if t == 0 then Unused(s, 0) else s.threads[t].tnext == Null)
       case Index(b, id, p, at) => Moved(s, s.threads[t], r)
       case PageCas(b, id, p, at, np) => Moved(s, s.threads[t], r)
       case Take => Staying(s, s.threads[t], r) || Moved(s, s.threads[t], r)
       case Linked(b) => Unused(s, b) && Waiting(s, s.threads[t], r)
       case _ => Waiting(s, s.threads[t], r)
  }

  /** The thread needs a bucket: its own is full, or it has none. */
  ghost predicate Waiting(s: State, th: Thread, r: seq<nat>) {
    if r == [] then th.tnext == Null else Staying(s, th, r) && s.buckets[th.tnext.i].count == C
  }

  // ------------------------------------------------------------ other threads do not interfere

  /** What the actions of another thread leave as it is. */
  ghost predicate Apart(s: State, u: State, t: nat) {
    && t < |s.threads| == |u.threads| && u.threads[t] == s.threads[t] && Extends(s, u) && LogPlaced(u)
    && (forall b | b in Owned(s.threads[t]) && b < |s.buckets| :: u.buckets[b].count == s.buckets[b].count)
    && (forall b | b in Owned(s.threads[t]) && Unused(s, b) :: Unused(u, b))
    && (forall b | FullAndLeft(s, b) :: FullAndLeft(u, b))
  }

  lemma AccordsApart(s: State, u: State, t: nat, r: seq<nat>)
    requires Accords(s, t, r) && Apart(s, u, t)
    ensures Accords(u, t, r)
  {
    PrefixMembers(s.chain, u.chain);
    var th := s.threads[t];
    if Staying(s, th, r) {
      assert th.tnext.i in s.chain;
      assert Staying(u, th, r);
    }
  }

  /** A step of thread v, which takes no bucket that exists and changes at most the count of its own. */
  lemma BesideStep(s: State, v: nat, spurious: bool, t: nat)
    requires Inv(s) && LogPlaced(s) && v < |s.threads| && t < |s.threads| && v != t
    ensures Apart(s, Apply(s, Run(v, spurious)), t)
  {
    var u := Apply(s, Run(v, spurious));
    ApplyKeeps(s, Run(v, spurious));
    StepChanges(s, v, spurious);
    OnlyMine(s.threads, t, v);
    ApartFrom(s, u, v, t);
  }

  /** What a step of thread v changes of the counts, the log and the ownership. */
  ghost predicate Mild(s: State, u: State, v: nat) {
    && v < |s.threads| == |u.threads| && |s.buckets| <= |u.buckets|
    && (forall w | 0 <= w < |s.threads| && w != v :: u.threads[w] == s.threads[w])
    && (forall b | b in Owned(u.threads[v]) :: b in Owned(s.threads[v]) || b >= |s.buckets|)
    && (forall b | 0 <= b < |s.buckets| && b !in Owned(s.threads[v]) :: u.buckets[b].count == s.buckets[b].count)
    && s.log <= u.log
    && (forall k | |s.log| <= k < |u.log| ::
      Pos(u.log[k]) < |u.chain| && u.chain[Pos(u.log[k])] in Owned(s.threads[v]))
  }

  lemma LogAtTake(s: State, t: nat, spurious: bool)
    requires Inv(s) && t < |s.threads| && s.threads[t].pc != Take
    ensures Apply(s, Run(t, spurious)).log == s.log
  {
    hide Separate, Memory;
    assert ThreadOk(s, s.threads[t]);
  }

  lemma CountsAtTake(s: State, t: nat, spurious: bool)
    requires Inv(s) && t < |s.threads| && s.threads[t].pc != Take
    ensures var u := Apply(s, Run(t, spurious));
      |s.buckets| <= |u.buckets| && forall b | 0 <= b < |s.buckets| :: u.buckets[b].count == s.buckets[b].count
  {
    hide Separate, Memory;
    assert ThreadOk(s, s.threads[t]);
  }

  lemma OneMoves(s: State, v: nat, spurious: bool)
    requires Inv(s) && v < |s.threads|
    ensures var u := Apply(s, Run(v, spurious));
      |u.threads| == |s.threads| && forall w | 0 <= w < |s.threads| && w != v :: u.threads[w] == s.threads[w]
  {
    hide Separate, Memory;
    assert ThreadOk(s, s.threads[v]);
  }

  lemma OwnsNew(s: State, v: nat, spurious: bool)
    requires Inv(s) && v < |s.threads|
    ensures var u := Apply(s, Run(v, spurious));
      v < |u.threads| && forall b | b in Owned(u.threads[v]) :: b in Owned(s.threads[v]) || b >= |s.buckets|
  {
    hide Separate, Memory, Indexed, Off, Pos;
    assert ThreadOk(s, s.threads[v]);
    match s.threads[v].pc
    case Idle =>
    case Init(b, n) =>
    case Cas(b, n, expected) =>
    case Bump(b, n, m) =>
    case Linked(b) =>
    case Index(b, id, p, at) => PageInChain(s, at);
    case PageCas(b, id, p, at, np) => PageInChain(s, at);
    case Take =>
  }

  lemma StepChanges(s: State, v: nat, spurious: bool)
    requires Inv(s) && v < |s.threads|
    ensures Mild(s, Apply(s, Run(v, spurious)), v)
  {
    OneMoves(s, v, spurious);
    OwnsNew(s, v, spurious);
    if s.threads[v].pc == Take {
      TakeChanges(s, v, spurious);
    } else {
      hide Inv, Apply;
      LogAtTake(s, v, spurious);
      CountsAtTake(s, v, spurious);
    }
  }

  lemma TakeChanges(s: State, v: nat, spurious: bool)
    requires Inv(s) && v < |s.threads| && s.threads[v].pc == Take
    ensures Mild(s, Apply(s, Run(v, spurious)), v)
  {
    hide Separate, Memory;
    assert ThreadOk(s, s.threads[v]);
    TakeLies(s, v);
  }

  /** The id that is handed out next lies in the thread's own bucket. */
  lemma TakeLies(s: State, v: nat)
    requires Inv(s) && v < |s.threads| && s.threads[v].tnext.To? && OwnOk(s, s.threads[v].tnext)
    requires s.buckets[s.threads[v].tnext.i].count < C
    ensures var b := s.threads[v].tnext.i; var id := s.buckets[b].offset + s.buckets[b].count;
      Lies(s, id, b) && s.buckets[b].offset == Off(Pos(id)) && Cell(id) == s.buckets[b].count
  {
    hide Separate;
    var b := s.threads[v].tnext.i;
    var j := PlaceInChain(s, b);
    PosCell(j, s.buckets[b].count);
  }

  lemma ApartFrom(s: State, u: State, v: nat, t: nat)
    requires LogPlaced(s) && Extends(s, u) && Mild(s, u, v) && t < |s.threads| && v != t
    requires Owned(s.threads[t]) !! Owned(s.threads[v])
    ensures Apart(s, u, t)
  {
    PrefixMembers(s.chain, u.chain);
    PrefixLog(s.log, u.log);
    forall b | b in Owned(s.threads[t]) && Unused(s, b) ensures Unused(u, b) {
      StaysUnused(s, u, v, b);
    }
    forall b | FullAndLeft(s, b) ensures FullAndLeft(u, b) {
      StaysLeft(s, u, v, b);
    }
  }

  lemma PrefixLog(a: seq<nat>, b: seq<nat>)
    requires a <= b
    ensures forall i | 0 <= i < |a| :: b[i] == a[i]
  {
  }

  lemma StaysUnused(s: State, u: State, v: nat, b: nat)
    requires LogPlaced(s) && Extends(s, u) && Mild(s, u, v) && Unused(s, b) && b !in Owned(s.threads[v])
    ensures Unused(u, b)
  {
    PrefixMembers(s.chain, u.chain);
    PrefixLog(s.log, u.log);
  }

  lemma StaysLeft(s: State, u: State, v: nat, b: nat)
    requires Mild(s, u, v) && FullAndLeft(s, b)
    ensures FullAndLeft(u, b)
  {
    assert b !in Owned(s.threads[v]);
    forall w | 0 <= w < |u.threads| ensures b !in Owned(u.threads[w]) {
      if w != v { assert u.threads[w] == s.threads[w]; }
    }
  }

  lemma BesidePop(s: State, v: nat, t: nat)
    requires Inv(s) && LogPlaced(s) && t < |s.threads| && v != t
    ensures Apart(s, Apply(s, PopBack(v)), t)
  {
    var u := Apply(s, PopBack(v));
    ApplyKeeps(s, PopBack(v));
    if MayPop(s, v) {
      assert ThreadOk(s, s.threads[v]);
      OnlyMine(s.threads, t, v);
      ApartFrom(s, u, v, t);
    }
  }

  // ------------------------------------------------------------ the thread's own actions

  lemma StayingStays(s: State, u: State, th: Thread, r: seq<nat>)
    requires Staying(s, th, r) && Extends(s, u) && u.buckets[th.tnext.i].count == s.buckets[th.tnext.i].count
    ensures Staying(u, th, r)
  {
    PrefixMembers(s.chain, u.chain);
    assert th.tnext.i in s.chain;
  }

  /** Until the new bucket is linked, the thread waits. */
  lemma OwnWaiting(s: State, t: nat, spurious: bool, r: seq<nat>)
    requires Inv(s) && LogPlaced(s) && Accords(s, t, r)
    requires s.threads[t].pc.Init? || s.threads[t].pc.Cas? || s.threads[t].pc.Bump?
    ensures Accords(Apply(s, Run(t, spurious)), t, r) && LogPlaced(Apply(s, Run(t, spurious)))
  {
    var u := Apply(s, Run(t, spurious));
    WaitsOn(s, t, spurious);
    LogAtTake(s, t, spurious);
    CountsAtTake(s, t, spurious);
    ApplyKeeps(s, Run(t, spurious));
    hide Inv, Apply;
    NewIsUnused(s, u, t);
    if r != [] { StayingStays(s, u, s.threads[t], r); }
  }

  lemma WaitsOn(s: State, t: nat, spurious: bool)
    requires Inv(s) && t < |s.threads| && (s.threads[t].pc.Init? || s.threads[t].pc.Cas? || s.threads[t].pc.Bump?)
    ensures var u := Apply(s, Run(t, spurious));
      && |u.threads| == |s.threads| && u.threads[t].tnext == s.threads[t].tnext
      && match u.threads[t].pc
         case Linked(b) => b < |s.buckets| && s.buckets[b].count == 0 && b !in s.chain
         case Cas(b, n, expected) => true
         case Bump(b, n, m) => true
         case _ => false
  {
    hide Separate;
    assert ThreadOk(s, s.threads[t]);
    match s.threads[t].pc
    case Init(b, n) =>
    case Cas(b, n, expected) => assert MemoryOk(s);
    case Bump(b, n, m) =>
  }

  lemma NewIsUnused(s: State, u: State, t: nat)
    requires LogPlaced(s) && Extends(s, u) && u.log == s.log && t < |u.threads|
    requires u.threads[t].pc.Linked? ==> Private(s, u.threads[t].pc.b) && u.buckets[u.threads[t].pc.b].count == 0
    ensures u.threads[t].pc.Linked? ==> Unused(u, u.threads[t].pc.b)
    ensures LogPlaced(u)
  {
    PrefixMembers(s.chain, u.chain);
  }

  lemma OwnBegin(s: State, t: nat, spurious: bool, r: seq<nat>)
    requires Inv(s) && LogPlaced(s) && Accords(s, t, r) && s.threads[t].pc == Idle
    ensures Accords(Apply(s, Run(t, spurious)), t, r) && LogPlaced(Apply(s, Run(t, spurious)))
  {
    var u := Apply(s, Run(t, spurious));
    ApplyKeeps(s, Run(t, spurious));
    assert ThreadOk(s, s.threads[t]);
    if Staying(s, s.threads[t], r) { StayingStays(s, u, s.threads[t], r); }
  }

  lemma OwnAdopt(s: State, t: nat, spurious: bool, r: seq<nat>)
    requires Inv(s) && LogPlaced(s) && Accords(s, t, r) && s.threads[t].pc.Linked?
    ensures Accords(Apply(s, Run(t, spurious)), t, r) && LogPlaced(Apply(s, Run(t, spurious)))
  {
    var u := Apply(s, Run(t, spurious));
    ApplyKeeps(s, Run(t, spurious));
    assert ThreadOk(s, s.threads[t]);
    if r != [] {
      var b := s.threads[t].tnext.i;
      assert s.chain[Pos(Newest(r))] == b && b in Owned(s.threads[t]);
      forall v | 0 <= v < |u.threads| ensures b !in Owned(u.threads[v]) {
        if v != t { OnlyMine(s.threads, t, v); }
      }
    }
  }

  lemma OwnIndex(s: State, t: nat, spurious: bool, r: seq<nat>)
    requires Inv(s) && LogPlaced(s) && Accords(s, t, r) && (s.threads[t].pc.Index? || s.threads[t].pc.PageCas?)
    ensures Accords(Apply(s, Run(t, spurious)), t, r) && LogPlaced(Apply(s, Run(t, spurious)))
  {
    hide Separate, Memory;
    var u := Apply(s, Run(t, spurious));
    assert ThreadOk(s, s.threads[t]);
    StepChanges(s, t, spurious);
    if r != [] { StaysLeft(s, u, t, s.chain[Pos(Newest(r))]); }
    match s.threads[t].pc
    case Index(b, id, p, at) => PageInChain(s, at);
    case PageCas(b, id, p, at, np) => PageInChain(s, at);
  }

  /** The id that the thread receives is the next of its bucket. */
  lemma OwnTake(s: State, t: nat, spurious: bool, r: seq<nat>)
    requires Inv(s) && LogPlaced(s) && Accords(s, t, r) && s.threads[t].pc == Take
    ensures var u := Apply(s, Run(t, spurious));
      LogPlaced(u) && |u.log| == |s.log| + 1 && Accords(u, t, r + [u.log[|s.log|]])
  {
    var u := Apply(s, Run(t, spurious));
    ApplyKeeps(s, Run(t, spurious));
    assert ThreadOk(s, s.threads[t]);
    TakeLies(s, t);
    var b := s.threads[t].tnext.i;
    var x := s.buckets[b];
    StackGrows(s, t, r);
  }

  lemma StackGrows(s: State, t: nat, r: seq<nat>)
    requires t < |s.threads| && s.threads[t].tnext.To? && s.threads[t].tnext.i < |s.buckets|
    requires Staying(s, s.threads[t], r) || Moved(s, s.threads[t], r)
    requires s.buckets[s.threads[t].tnext.i].count < C
    ensures var x := s.buckets[s.threads[t].tnext.i]; Stacked(r + [x.offset + x.count], x.offset, x.count + 1)
  {
    var x := s.buckets[s.threads[t].tnext.i];
    var q := r + [x.offset + x.count];
    forall i: nat | i < x.count + 1 ensures HasTop(q, x.offset, i) {
      if i == x.count {
        assert Topped(q, x.offset, i, |r|);
      } else {
        assert HasTop(r, x.offset, i);
        var j :| Topped(r, x.offset, i, j);
        assert Topped(q, x.offset, i, j);
      }
    }
  }

  lemma OwnPop(s: State, t: nat, r: seq<nat>)
    requires Inv(s) && LogPlaced(s) && Accords(s, t, r)
    ensures Accords(Apply(s, PopBack(t)), t, r) && LogPlaced(Apply(s, PopBack(t)))
  {
    var u := Apply(s, PopBack(t));
    if MayPop(s, t) {
      ApplyKeeps(s, PopBack(t));
      assert ThreadOk(s, s.threads[t]);
      PrefixMembers(s.chain, u.chain);
      var b := s.threads[t].tnext.i;
      assert Staying(s, s.threads[t], r);
      forall i: nat | i < u.buckets[b].count ensures HasTop(r, u.buckets[b].offset, i) {
        assert HasTop(r, s.buckets[b].offset, i);
      }
    }
  }

  // ------------------------------------------------------------ over whole runs

  lemma AccordsNext(s: State, a: Action, t: nat, r: seq<nat>)
    requires Inv(s) && LogPlaced(s) && Accords(s, t, r)
    ensures Accords(Apply(s, a), t, r + Given(s, a, t)) && LogPlaced(Apply(s, a))
  {
    hide Inv, Accords, LogPlaced, Step, Extends;
    assert t < |s.threads| by { AccordsBounds(s, t, r); }
    assert r + [] == r;
    if a.PopBack? {
      if a.t == t {
        OwnPop(s, t, r);
      } else {
        BesidePop(s, a.t, t);
        AccordsApart(s, Apply(s, a), t, r);
      }
    } else if a.t == t {
      match s.threads[t].pc
      case Take => OwnTake(s, t, a.spurious, r);
      case Idle => LogAtTake(s, t, a.spurious); OwnBegin(s, t, a.spurious, r);
      case Linked(b) => LogAtTake(s, t, a.spurious); OwnAdopt(s, t, a.spurious, r);
      case Index(b, id, p, at) => LogAtTake(s, t, a.spurious); OwnIndex(s, t, a.spurious, r);
      case PageCas(b, id, p, at, np) => LogAtTake(s, t, a.spurious); OwnIndex(s, t, a.spurious, r);
      case _ => LogAtTake(s, t, a.spurious); OwnWaiting(s, t, a.spurious, r);
    } else if a.t < |s.threads| {
      BesideStep(s, a.t, a.spurious, t);
      AccordsApart(s, Apply(s, a), t, r);
    }
  }

  lemma AccordsBounds(s: State, t: nat, r: seq<nat>)
    requires Accords(s, t, r)
    ensures t < |s.threads|
  {
  }

  lemma {:induction false} AccordsRun(s: State, acts: seq<Action>, t: nat, r: seq<nat>)
    requires Inv(s) && LogPlaced(s) && Accords(s, t, r)
    ensures Accords(Exec(s, acts), t, r + Received(s, acts, t)) && LogPlaced(Exec(s, acts))
    decreases |acts|
  {
    hide Inv, Accords, LogPlaced, Apply;
    if acts == [] {
      assert r + [] == r;
    } else {
      ApplyKeeps(s, acts[0]);
      AccordsNext(s, acts[0], t, r);
      AccordsRun(Apply(s, acts[0]), acts[1..], t, r + Given(s, acts[0], t));
      assert r + Received(s, acts, t) ==
        r + Given(s, acts[0], t) + Received(Apply(s, acts[0]), acts[1..], t);
    }
  }

  lemma AccordsFirst(n: positive, t: nat)
    requires t < n
    ensures Accords(StartOf(n), t, []) && LogPlaced(StartOf(n))
  {
  }

  /** In every run, what a thread has received accords with where it is. */
  lemma AccordsAlways(n: positive, acts: seq<Action>, t: nat)
    requires t < n
    ensures var s := Exec(StartOf(n), acts); Accords(s, t, Received(StartOf(n), acts, t)) && LogPlaced(s)
  {
    hide Accords, LogPlaced;
    AccordsFirst(n, t);
    AccordsRun(StartOf(n), acts, t, []);
    assert [] + Received(StartOf(n), acts, t) == Received(StartOf(n), acts, t);
  }

  /** How many ids of the bucket that the id belongs to are live. */
  ghost function LiveBeside(live: set<nat>, id: nat): nat {
    |set i | i in live && i / C == id / C|
  }

  /** The id is the first of a bucket from which none was returned so far. */
  ghost predicate Opens(log: seq<nat>, id: nat) {
    id % C == 0 && forall k | 0 <= k < |log| :: log[k] / C != id / C
  }

  /** Which id a thread receives: of the bucket of the id it received last, the one after those that are live, and if
      all are live, or it has received none, the first of an untouched bucket. */
  lemma NextId(n: positive, acts: seq<Action>, t: nat, spurious: bool)
    requires t < n
    ensures var s, r := Exec(StartOf(n), acts), Received(StartOf(n), acts, t);
      var u := Apply(s, Run(t, spurious));
      u.log != s.log ==>
        && |u.log| == |s.log| + 1 && s.log <= u.log
        && var id := u.log[|s.log|];
        && id !in s.live && u.live == s.live + {id}
        && if r != [] && LiveBeside(s.live, Newest(r)) < C
           then id == Newest(r) / C * C + LiveBeside(s.live, Newest(r))
           else Opens(s.log, id) && (r == [] && t == 0 ==> id == 0)
  {
    var s, r := Exec(StartOf(n), acts), Received(StartOf(n), acts, t);
    var u := Apply(s, Run(t, spurious));
    AccordsAlways(n, acts, t);
    AccordsBounds(s, t, r);
    if s.threads[t].pc != Take {
      LogAtTake(s, t, spurious);
    } else {
      UpcomingTaken(s, t, spurious);
      UpcomingPlace(s, t, r);
      if r != [] { BesideIsCount(s, Newest(r)); }
    }
  }

  /** Counting by quotients. */
  lemma BesideIsCount(s: State, id: nat)
    requires Inv(s) && Pos(id) < |s.chain|
    ensures s.chain[Pos(id)] < |s.buckets| && LiveBeside(s.live, id) == s.buckets[s.chain[Pos(id)]].count
    ensures id / C * C == Off(Pos(id))
  {
    hide Separate;
    ChainAt(s, Pos(id));
    LiveInBucket(s, Pos(id));
    PosIsQuotient(id);
    OffIsProduct(Pos(id));
    forall i | i in s.live ensures i / C == id / C <==> Pos(i) == Pos(id) { PosIsQuotient(i); }
    assert (set i | i in s.live && i / C == id / C) == At(s.live, Pos(id));
  }

  lemma OpensUnused(s: State, id: nat, b: nat)
    requires LogPlaced(s) && Unused(s, b) && Lies(s, id, b) && Cell(id) == 0
    ensures Opens(s.log, id)
  {
    PosIsQuotient(id);
    forall k | 0 <= k < |s.log| ensures s.log[k] / C != id / C { PosIsQuotient(s.log[k]); }
  }

  lemma SamePlace(s: State, i: nat, j: nat, b: nat)
    requires Memory(s) && Lies(s, i, b) && Lies(s, j, b)
    ensures Pos(i) == Pos(j)
  {
    if Pos(i) != Pos(j) { ChainDistinct(s, Pos(i), Pos(j)); }
  }

  lemma UpcomingPlace(s: State, t: nat, r: seq<nat>)
    requires Inv(s) && LogPlaced(s) && Accords(s, t, r) && s.threads[t].pc == Take
    requires s.threads[t].tnext.To? && OwnOk(s, s.threads[t].tnext) && s.buckets[s.threads[t].tnext.i].count < C
    ensures r != [] ==> Pos(Newest(r)) < |s.chain| && s.chain[Pos(Newest(r))] < |s.buckets|
    ensures var id := Upcoming(s, t);
      if r != [] && s.buckets[s.chain[Pos(Newest(r))]].count < C
      then id == Off(Pos(Newest(r))) + s.buckets[s.chain[Pos(Newest(r))]].count
      else Opens(s.log, id) && (r == [] && t == 0 ==> id == 0)
  {
    hide Separate, Memory, Opens, Stacked, Indexed;
    TakeLies(s, t);
    var b, id := s.threads[t].tnext.i, Upcoming(s, t);
    if Moved(s, s.threads[t], r) {
      OpensUnused(s, id, b);
      if r == [] && t == 0 { FirstBucketOpens(s); }
    } else {
      SamePlace(s, Newest(r), id, b);
    }
  }

  lemma FirstBucketOpens(s: State)
    requires Memory(s)
    ensures |s.buckets| > 0 && s.buckets[0].offset == 0
  {
    assert MemoryOk(s);
    assert s.buckets[s.chain[0]].offset == Off(0);
  }

  // ------------------------------------------------------------ while nothing is taken back

  /** Each id is followed by the next one, except at the end of a bucket, where another bucket begins. */
  ghost predicate Consecutive(r: seq<nat>) {
    forall j {:trigger r[j]} | 0 <= j < |r| - 1 :: Follows(r[j], r[j+1])
  }

  predicate Follows(i: nat, j: nat) {
    if i % C != C - 1 then j == i + 1 else j % C == 0
  }

  /** The ids up to the one received last are those that its bucket has given out. */
  ghost predicate Steady(s: State, r: seq<nat>) {
    r != [] ==>
      && Pos(Newest(r)) < |s.chain| && s.chain[Pos(Newest(r))] < |s.buckets|
      && s.buckets[s.chain[Pos(Newest(r))]].count == Cell(Newest(r)) + 1
  }

  lemma SteadyStep(s: State, a: Action, t: nat, r: seq<nat>)
    requires Inv(s) && LogPlaced(s) && Accords(s, t, r) && Steady(s, r) && Consecutive(r) && a.Run?
    ensures Steady(Apply(s, a), r + Given(s, a, t)) && Consecutive(r + Given(s, a, t))
  {
    hide Inv, Accords, LogPlaced, Step, Extends, Consecutive;
    assert t < |s.threads| by { AccordsBounds(s, t, r); }
    assert r + [] == r;
    if a.t < |s.threads| {
      if a.t == t && s.threads[t].pc == Take {
        SteadyTake(s, t, a.spurious, r);
      } else {
        SteadyStays(s, a, t, r);
      }
    }
  }

  lemma SteadyStays(s: State, a: Action, t: nat, r: seq<nat>)
    requires Inv(s) && LogPlaced(s) && Accords(s, t, r) && Steady(s, r) && a.Run? && a.t < |s.threads|
    requires a.t != t || s.threads[t].pc != Take
    ensures Steady(Apply(s, a), r) && Given(s, a, t) == []
  {
    var u := Apply(s, a);
    ApplyKeeps(s, a);
    PrefixMembers(s.chain, u.chain);
    StepChanges(s, a.t, a.spurious);
    if a.t == t {
      LogAtTake(s, t, a.spurious);
      CountsAtTake(s, t, a.spurious);
    } else {
      OnlyMine(s.threads, t, a.t);
    }
  }

  lemma SteadyTake(s: State, t: nat, spurious: bool, r: seq<nat>)
    requires Inv(s) && LogPlaced(s) && Accords(s, t, r) && Steady(s, r) && Consecutive(r)
    requires t < |s.threads| && s.threads[t].pc == Take
    ensures var a := Run(t, spurious);
      Steady(Apply(s, a), r + Given(s, a, t)) && Consecutive(r + Given(s, a, t))
  {
    var u := Apply(s, Run(t, spurious));
    UpcomingTaken(s, t, spurious);
    UpcomingPlace(s, t, r);
    assert ThreadOk(s, s.threads[t]);
    TakeLies(s, t);
    var id := u.log[|s.log|];
    if r != [] { FollowsNewest(s, r, id); }
  }

  lemma FollowsNewest(s: State, r: seq<nat>, id: nat)
    requires r != [] && Steady(s, r)
    requires var c := s.buckets[s.chain[Pos(Newest(r))]].count;
      if c < C then id == Off(Pos(Newest(r))) + c else id % C == 0
    ensures Follows(Newest(r), id)
  {
    PosIsQuotient(Newest(r));
    IdFrom(Newest(r));
  }

  lemma {:induction false} SteadyRun(s: State, acts: seq<Action>, t: nat, r: seq<nat>)
    requires Inv(s) && LogPlaced(s) && Accords(s, t, r) && Steady(s, r) && Consecutive(r) && NoPops(acts)
    ensures Consecutive(r + Received(s, acts, t))
    decreases |acts|
  {
    hide Inv, Accords, LogPlaced, Apply, Steady, Consecutive;
    if acts == [] {
      assert r + [] == r;
    } else {
      ApplyKeeps(s, acts[0]);
      AccordsNext(s, acts[0], t, r);
      SteadyStep(s, acts[0], t, r);
      SteadyRun(Apply(s, acts[0]), acts[1..], t, r + Given(s, acts[0], t));
      assert r + Received(s, acts, t) ==
        r + Given(s, acts[0], t) + Received(Apply(s, acts[0]), acts[1..], t);
    }
  }

  /** While nothing is taken back, a thread that receives i receives i + 1 next, unless i is the last of its bucket. */
  lemma IdsAreConsecutive(n: positive, acts: seq<Action>, t: nat, j: nat)
    requires t < n && NoPops(acts)
    ensures var r := Received(StartOf(n), acts, t);
      j + 1 < |r| ==> if r[j] % C != C - 1 then r[j + 1] == r[j] + 1 else r[j + 1] % C == 0
  {
    AccordsFirst(n, t);
    SteadyRun(StartOf(n), acts, t, []);
    var r := Received(StartOf(n), acts, t);
    assert [] + r == r;
    if j + 1 < |r| { assert Follows(r[j], r[j+1]); }
  }

  // ------------------------------------------------------------ pop_back

  /** Of what was received, the id at place j is the last that is live. */
  ghost predicate LastLive(r: seq<nat>, live: set<nat>, j: int) {
    0 <= j < |r| && r[j] in live && forall l | j < l < |r| :: r[l] !in live
  }

  /** A thread may call pop_back exactly if it is between two calls and the id that it received last and that is still
      live belongs to the same bucket as the one that it received last. Then this id is taken back, and no other. */
  lemma PopTakesLast(n: positive, acts: seq<Action>, t: nat)
    requires t < n
    ensures var s, r := Exec(StartOf(n), acts), Received(StartOf(n), acts, t);
      var u := Apply(s, PopBack(t));
      && t < |s.threads|
      && (MayPop(s, t) <==>
            s.threads[t].pc == Idle && exists j :: LastLive(r, s.live, j) && r[j] / C == Newest(r) / C)
      && (forall j | LastLive(r, s.live, j) && MayPop(s, t) :: u.live == s.live - {r[j]} && u.log == s.log)
      && (!MayPop(s, t) ==> u == s)
  {
    var s, r := Exec(StartOf(n), acts), Received(StartOf(n), acts, t);
    AccordsAlways(n, acts, t);
    if MayPop(s, t) {
      var j := TopIsLast(s, t, r);
    }
    forall j | LastLive(r, s.live, j) && s.threads[t].pc == Idle && r[j] / C == Newest(r) / C ensures MayPop(s, t) {
      LastMayPop(s, t, r, j);
    }
  }

  lemma TopIsLast(s: State, t: nat, r: seq<nat>) returns (j: int)
    requires Inv(s) && Accords(s, t, r) && MayPop(s, t)
    ensures LastLive(r, s.live, j) && r[j] / C == Newest(r) / C
    ensures Apply(s, PopBack(t)).live == s.live - {r[j]} && Apply(s, PopBack(t)).log == s.log
  {
    assert ThreadOk(s, s.threads[t]);
    var b := s.threads[t].tnext.i;
    var x := s.buckets[b];
    TakeBackKeeps(s, t, b);
    assert HasTop(r, x.offset, x.count - 1);
    j :| Topped(r, x.offset, x.count - 1, j);
    var p := PlaceInChain(s, b);
    Counts(s, b);
    forall l | j < l < |r| ensures r[l] !in s.live { AboveTop(s, p, r[l]); }
    PosCell(p, x.count - 1);
    SamePlace(s, r[j], Newest(r), b);
    PosIsQuotient(r[j]);
    PosIsQuotient(Newest(r));
  }

  /** Ids of a bucket from its count on are not live. */
  lemma AboveTop(s: State, p: nat, id: nat)
    requires Memory(s) && p < |s.chain| && s.chain[p] < |s.buckets|
    requires Off(p) + s.buckets[s.chain[p]].count <= id < Off(p) + C
    ensures id !in s.live
  {
    LiveIs(s, id);
    PosCell(p, id - Off(p));
  }

  lemma LastMayPop(s: State, t: nat, r: seq<nat>, j: int)
    requires Inv(s) && Accords(s, t, r) && s.threads[t].pc == Idle && LastLive(r, s.live, j)
    requires r[j] / C == Newest(r) / C
    ensures MayPop(s, t)
  {
    PosIsQuotient(r[j]);
    PosIsQuotient(Newest(r));
    LiveIs(s, r[j]);
    assert ThreadOk(s, s.threads[t]);
  }

  /** After pop_back the next call returns the same id, and the same ids are live as before. */
  lemma PopThenNext(s: State, t: nat, x: bool, y: bool)
    requires Inv(s) && MayPop(s, t)
    ensures Inv(Apply(s, PopBack(t)))
    ensures var u := Apply(s, PopBack(t)); var w := Exec(u, [Run(t, x), Run(t, y)]);
      exists id :: id in s.live && u.live == s.live - {id} && w.log == s.log + [id] && w.live == s.live
  {
    hide Separate, Memory;
    assert ThreadOk(s, s.threads[t]);
    var b := s.buckets[s.threads[t].tnext.i];
    TakeBackKeeps(s, t, s.threads[t].tnext.i);
    Counts(s, s.threads[t].tnext.i);
    ApplyKeeps(s, PopBack(t));
    var u := Apply(s, PopBack(t));
    NextAtOnce(u, t, x, y);
    assert u.live + {b.offset + b.count - 1} == s.live;
  }
}
