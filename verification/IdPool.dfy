/** Session identifiers: a counter and a bounded stack of recycled identifiers behind one lock. */
module IdPool {
  import opened Sequences

  const POOL_SIZE := 20

  datatype Pool = Pool(highest: nat, recycled: seq<nat>)

  function Top(p: Pool): nat {
    if p.recycled == [] then p.highest else p.recycled[|p.recycled| - 1]
  }

  /** The pool after its next identifier, `Top`, has been handed out. */
  function Acquired(p: Pool): Pool {
    if p.recycled == [] then p.(highest := p.highest + 1) else p.(recycled := p.recycled[..|p.recycled| - 1])
  }

  predicate Drops(p: Pool) {
    |p.recycled| >= POOL_SIZE
  }

  /** With a full stack a released identifier is forgotten. */
  function Relinquished(p: Pool, id: nat): Pool {
    if Drops(p) then p else p.(recycled := p.recycled + [id])
  }

  /** The globals of the server; a method body is one critical section of the lock. */
  class IdGenerator {
    var currentHighestId: nat
    const recycledIdPool: array<nat>
    var recycledIdCount: nat

    ghost predicate Valid()
      reads this
    {
      recycledIdPool.Length == POOL_SIZE && recycledIdCount <= POOL_SIZE
    }

    ghost function View(): Pool
      requires Valid()
      reads this, recycledIdPool
    {
      Pool(currentHighestId, recycledIdPool[..recycledIdCount])
    }

    constructor ()
      ensures Valid() && fresh(recycledIdPool) && View() == Pool(0, [])
    {
      currentHighestId := 0;
      recycledIdPool := new nat[POOL_SIZE](_ => 0);
      recycledIdCount := 0;
    }

    method AcquireNewSessionIdentifier() returns (id: nat)
      requires Valid()
      modifies this
      ensures Valid() && id == Top(old(View())) && View() == Acquired(old(View()))
    {
      if recycledIdCount <= 0 {
        id := currentHighestId;
        currentHighestId := currentHighestId + 1;
      } else {
        recycledIdCount := recycledIdCount - 1;
        id := recycledIdPool[recycledIdCount];
      }
    }

    method RelinquishSessionIdentifier(id: nat)
      requires Valid()
      modifies this, recycledIdPool
      ensures Valid() && View() == Relinquished(old(View()), id)
    {
      if recycledIdCount < POOL_SIZE {
        recycledIdPool[recycledIdCount] := id;
        recycledIdCount := recycledIdCount + 1;
      }
    }
  }

  // ---------------------------------------------------------------- any interleaving

  datatype Holding = Holding(thread: int, id: nat)

  /** The pool, who holds what, and what full stacks have forgotten. */
  datatype World = World(pool: Pool, held: seq<Holding>, dropped: multiset<nat>)

  /** One critical section: some thread acquires, or gives back one of its holdings. */
  datatype Action = Acquire(thread: int) | Release(index: nat)

  predicate Enabled(w: World, a: Action) {
    a.Release? ==> a.index < |w.held|
  }

  function Without(held: seq<Holding>, k: nat): seq<Holding>
    requires k < |held|
  {
    held[..k] + held[k + 1..]
  }

  function Apply(w: World, a: Action): World
    requires Enabled(w, a)
  {
    match a
    case Acquire(t) =>
      World(Acquired(w.pool), w.held + [Holding(t, Top(w.pool))], w.dropped)
    case Release(k) =>
      World(Relinquished(w.pool, w.held[k].id), Without(w.held, k),
            if Drops(w.pool) then w.dropped + multiset{w.held[k].id} else w.dropped)
  }

  predicate Runs(w: World, acts: seq<Action>)
    decreases |acts|
  {
    acts == [] || (Enabled(w, acts[0]) && Runs(Apply(w, acts[0]), acts[1..]))
  }

  function Run(w: World, acts: seq<Action>): World
    requires Runs(w, acts)
    decreases |acts|
  {
    if acts == [] then w else Run(Apply(w, acts[0]), acts[1..])
  }

  const START := World(Pool(0, []), [], multiset{})

  function Ids(held: seq<Holding>): multiset<nat> {
    if held == [] then multiset{} else multiset{held[0].id} + Ids(held[1..])
  }

  function Upto(n: nat): multiset<nat> {
    if n == 0 then multiset{} else Upto(n - 1) + multiset{n - 1}
  }

  /** Conservation: the identifiers held, pooled and dropped are together exactly 0..highest-1, each
      of them once. */
  predicate Conserved(w: World) {
    && Ids(w.held) + multiset(w.pool.recycled) + w.dropped == Upto(w.pool.highest)
    && |w.pool.recycled| <= POOL_SIZE
  }

  lemma {:induction false} UptoCounts(n: nat, x: nat)
    ensures Upto(n)[x] == if x < n then 1 else 0
    ensures |Upto(n)| == n
  {
    if n > 0 {
      UptoCounts(n - 1, x);
    }
  }

  lemma {:induction false} IdsAppend(held: seq<Holding>, h: Holding)
    ensures Ids(held + [h]) == Ids(held) + multiset{h.id}
    decreases |held|
  {
    if held == [] {
      assert ([] + [h])[1..] == [];
      assert Ids([h]) == multiset{h.id} + Ids([]);
    } else {
      assert (held + [h])[1..] == held[1..] + [h];
      IdsAppend(held[1..], h);
    }
  }

  lemma {:induction false} IdsWithout(held: seq<Holding>, k: nat)
    requires k < |held|
    ensures Ids(held) == Ids(Without(held, k)) + multiset{held[k].id}
    decreases |held|
  {
    if k == 0 {
      assert Without(held, 0) == held[1..];
    } else {
      assert Without(held, k)[1..] == Without(held[1..], k - 1);
      IdsWithout(held[1..], k - 1);
    }
  }

  lemma {:induction false} IdsMember(held: seq<Holding>, i: nat)
    requires i < |held|
    ensures held[i].id in Ids(held) && |Ids(held)| == |held|
    decreases |held|
  {
    if |held| > 1 {
      IdsMember(held[1..], if i == 0 then 0 else i - 1);
    } else {
      assert Ids(held[1..]) == multiset{};
    }
  }

  lemma PopRecycled(r: seq<nat>)
    requires r != []
    ensures multiset(r) == multiset(r[..|r| - 1]) + multiset{r[|r| - 1]}
  {
    assert r == r[..|r| - 1] + [r[|r| - 1]];
  }

  lemma MoveOne(a: multiset<nat>, b: multiset<nat>, c: multiset<nat>, x: nat)
    ensures a + (b + multiset{x}) + c == (a + multiset{x}) + b + c == a + b + c + multiset{x}
  {
  }

  lemma AcquireConserves(w: World, t: int)
    requires Conserved(w)
    ensures Conserved(Apply(w, Acquire(t)))
  {
    var id, ids, r := Top(w.pool), Ids(w.held), w.pool.recycled;
    IdsAppend(w.held, Holding(t, id));
    if r != [] {
      PopRecycled(r);
      MoveOne(ids, multiset(r[..|r| - 1]), w.dropped, id);
    } else {
      MoveOne(ids, multiset{}, w.dropped, id);
    }
  }

  lemma ReleaseConserves(w: World, k: nat)
    requires Conserved(w) && k < |w.held|
    ensures Conserved(Apply(w, Release(k)))
  {
    IdsWithout(w.held, k);
    var id := w.held[k].id;
    assert multiset(w.pool.recycled + [id]) == multiset(w.pool.recycled) + multiset{id};
  }

  lemma StepConserves(w: World, a: Action)
    requires Conserved(w) && Enabled(w, a)
    ensures Conserved(Apply(w, a))
  {
    match a
    case Acquire(t) => AcquireConserves(w, t);
    case Release(k) => ReleaseConserves(w, k);
  }

  lemma {:induction false} RunConserves(w: World, acts: seq<Action>)
    requires Conserved(w) && Runs(w, acts)
    ensures Conserved(Run(w, acts))
    decreases |acts|
  {
    if acts != [] {
      StepConserves(w, acts[0]);
      RunConserves(Apply(w, acts[0]), acts[1..]);
    }
  }

  lemma {:induction false} IdsTwice(held: seq<Holding>, i: nat, j: nat)
    requires i < j < |held| && held[i].id == held[j].id
    ensures Ids(held)[held[i].id] >= 2
    decreases |held|
  {
    if i == 0 {
      IdsMember(held[1..], j - 1);
    } else {
      IdsTwice(held[1..], i - 1, j - 1);
    }
  }

  predicate Distinct(ids: seq<nat>) {
    forall i, j | 0 <= i < j < |ids| :: ids[i] != ids[j]
  }

  /** What conservation says of one identifier. */
  lemma ConservedCount(w: World, x: nat)
    requires Conserved(w)
    ensures Ids(w.held)[x] + multiset(w.pool.recycled)[x] + w.dropped[x] == if x < w.pool.highest then 1 else 0
  {
    UptoCounts(w.pool.highest, x);
    var all := Ids(w.held) + multiset(w.pool.recycled) + w.dropped;
    assert all[x] == Upto(w.pool.highest)[x];
  }

  lemma ConservedTotal(w: World)
    requires Conserved(w)
    ensures w.pool.highest == |w.held| + |w.pool.recycled| + |w.dropped|
  {
    UptoCounts(w.pool.highest, 0);
    if w.held != [] { IdsMember(w.held, 0); }
    var all := Ids(w.held) + multiset(w.pool.recycled) + w.dropped;
    assert |all| == |Upto(w.pool.highest)|;
  }

  lemma HeldDistinct(w: World, i: nat, j: nat)
    requires Conserved(w) && i < j < |w.held|
    ensures w.held[i].id != w.held[j].id
  {
    if w.held[i].id == w.held[j].id {
      IdsTwice(w.held, i, j);
      ConservedCount(w, w.held[i].id);
    }
  }

  lemma HeldNotPooled(w: World, i: nat, j: nat)
    requires Conserved(w) && i < |w.held| && j < |w.pool.recycled|
    ensures w.held[i].id != w.pool.recycled[j] && w.held[i].id < w.pool.highest
  {
    IdsMember(w.held, i);
    ConservedCount(w, w.held[i].id);
    assert w.pool.recycled[j] in multiset(w.pool.recycled);
  }

  lemma HeldIssued(w: World, i: nat)
    requires Conserved(w) && i < |w.held|
    ensures w.held[i].id < w.pool.highest
  {
    IdsMember(w.held, i);
    ConservedCount(w, w.held[i].id);
  }

  lemma PooledDistinct(w: World)
    requires Conserved(w)
    ensures Distinct(w.pool.recycled) && forall i | 0 <= i < |w.pool.recycled| :: w.pool.recycled[i] < w.pool.highest
  {
    var r := w.pool.recycled;
    forall i, j | 0 <= i < j < |r|
      ensures r[i] != r[j]
    {
      ConservedCount(w, r[i]);
      assert r == r[..j] + r[j..];
      assert multiset(r) == multiset(r[..j]) + multiset(r[j..]);
      assert r[..j][i] in multiset(r[..j]) && r[j..][0] in multiset(r[j..]);
    }
    forall i | 0 <= i < |r|
      ensures r[i] < w.pool.highest
    {
      ConservedCount(w, r[i]);
      assert r[i] in multiset(r);
    }
  }

  /** What is handed out next is not held. */
  lemma NextNotHeld(w: World)
    requires Conserved(w)
    ensures Top(w.pool) !in Ids(w.held)
  {
    ConservedCount(w, Top(w.pool));
    if w.pool.recycled != [] {
      assert Top(w.pool) in multiset(w.pool.recycled);
    }
  }

  /** Pool safety: in every interleaving no identifier is handed out twice while it is held, none is
      both held and pooled, the pool holds none twice and only identifiers that were issued, and the
      counter accounts for every identifier. */
  lemma PoolSafety(acts: seq<Action>)
    requires Runs(START, acts)
    ensures var w := Run(START, acts);
      && (forall i, j | 0 <= i < j < |w.held| :: w.held[i].id != w.held[j].id)
      && (forall i, j | 0 <= i < |w.held| && 0 <= j < |w.pool.recycled| :: w.held[i].id != w.pool.recycled[j])
      && Distinct(w.pool.recycled)
      && (forall i | 0 <= i < |w.held| :: w.held[i].id < w.pool.highest)
      && (forall j | 0 <= j < |w.pool.recycled| :: w.pool.recycled[j] < w.pool.highest)
      && Top(w.pool) !in Ids(w.held)
      && w.pool.highest == |w.held| + |w.pool.recycled| + |w.dropped|
  {
    var w := Run(START, acts);
    StartConserved();
    RunConserves(START, acts);
    forall i, j | 0 <= i < j < |w.held|
      ensures w.held[i].id != w.held[j].id
    {
      HeldDistinct(w, i, j);
    }
    forall i, j | 0 <= i < |w.held| && 0 <= j < |w.pool.recycled|
      ensures w.held[i].id != w.pool.recycled[j]
    {
      HeldNotPooled(w, i, j);
    }
    forall i | 0 <= i < |w.held|
      ensures w.held[i].id < w.pool.highest
    {
      HeldIssued(w, i);
    }
    PooledDistinct(w);
    NextNotHeld(w);
    ConservedTotal(w);
  }

  lemma StartConserved()
    ensures Conserved(START)
  {
    assert Ids([]) == multiset{};
  }

  // ---------------------------------------------------------------- the counter is a high-water mark

  function Max(a: nat, b: nat): nat {
    if a >= b then a else b
  }

  /** The largest number of identifiers held or lost at one time along a run. */
  function Peak(w: World, acts: seq<Action>): nat
    requires Runs(w, acts)
    decreases |acts|
  {
    var now := |w.held| + |w.dropped|;
    if acts == [] then now else Max(now, Peak(Apply(w, acts[0]), acts[1..]))
  }

  /** On every run the counter is the largest number of identifiers ever held or lost at one time. */
  lemma {:induction false} HighestIsPeak(w: World, acts: seq<Action>)
    requires Conserved(w) && Runs(w, acts)
    ensures Run(w, acts).pool.highest == Max(w.pool.highest, Peak(w, acts))
    decreases |acts|
  {
    ConservedTotal(w);
    if acts != [] {
      StepConserves(w, acts[0]);
      HighestIsPeak(Apply(w, acts[0]), acts[1..]);
    }
  }

  lemma PeakBound(acts: seq<Action>)
    requires Runs(START, acts)
    ensures Run(START, acts).pool.highest == Peak(START, acts)
  {
    StartConserved();
    HighestIsPeak(START, acts);
  }

  /** The largest number of identifiers held at one time along a run. */
  function PeakHeld(w: World, acts: seq<Action>): nat
    requires Runs(w, acts)
    decreases |acts|
  {
    if acts == [] then |w.held| else Max(|w.held|, PeakHeld(Apply(w, acts[0]), acts[1..]))
  }

  /** A forgotten identifier stays forgotten; without any the two peaks are the same. */
  lemma {:induction false} NoDropNoLoss(w: World, acts: seq<Action>)
    requires Runs(w, acts) && Run(w, acts).dropped == multiset{}
    ensures w.dropped == multiset{} && Peak(w, acts) == PeakHeld(w, acts)
    decreases |acts|
  {
    if acts != [] {
      NoDropNoLoss(Apply(w, acts[0]), acts[1..]);
      assert w.dropped <= Apply(w, acts[0]).dropped;
    }
  }

  /** A run that dropped no identifier: the counter is the largest number held at one time. */
  lemma PeakBoundWithoutDrops(acts: seq<Action>)
    requires Runs(START, acts) && Run(START, acts).dropped == multiset{}
    ensures Run(START, acts).pool.highest == PeakHeld(START, acts)
  {
    PeakBound(acts);
    NoDropNoLoss(START, acts);
  }

  // ---------------------------------------------------------------- last in, first out

  function ReleaseAll(p: Pool, ids: seq<nat>): Pool
    decreases |ids|
  {
    if ids == [] then p else ReleaseAll(Relinquished(p, ids[0]), ids[1..])
  }

  function AcquireMany(p: Pool, n: nat): (seq<nat>, Pool)
    decreases n
  {
    if n == 0 then ([], p)
    else
      var later := AcquireMany(Acquired(p), n - 1);
      ([Top(p)] + later.0, later.1)
  }

  lemma {:induction false} ReleaseAllPushes(p: Pool, ids: seq<nat>)
    requires |p.recycled| <= POOL_SIZE
    ensures var room := if |p.recycled| + |ids| <= POOL_SIZE then |ids| else POOL_SIZE - |p.recycled|;
      ReleaseAll(p, ids) == p.(recycled := p.recycled + ids[..room])
    decreases |ids|
  {
    if ids == [] {
      assert p.recycled + [] == p.recycled;
    } else if Drops(p) {
      ReleaseAllPushes(p, ids[1..]);
      assert ids[..0] == ids[1..][..0];
    } else {
      ReleaseAllPushes(Relinquished(p, ids[0]), ids[1..]);
      var room := if |p.recycled| + |ids| <= POOL_SIZE then |ids| else POOL_SIZE - |p.recycled|;
      assert ids[..room] == [ids[0]] + ids[1..][..room - 1];
    }
  }

  lemma {:induction false} AcquireManyPops(p: Pool, base: seq<nat>, ids: seq<nat>)
    requires p.recycled == base + ids
    ensures AcquireMany(p, |ids|) == (Reverse(ids), p.(recycled := base))
    decreases |ids|
  {
    if ids == [] {
      assert base + [] == base;
    } else {
      var n := |ids| - 1;
      assert ids == ids[..n] + [ids[n]];
      assert p.recycled[..|p.recycled| - 1] == base + ids[..n];
      AcquireManyPops(Acquired(p), base, ids[..n]);
      ReverseSnoc(ids[..n], ids[n]);
    }
  }

  /** Distinct identifiers released one after the other come back in reverse order, and the pool is as
      before, exactly when they all found room among the 20 places. */
  lemma LastInFirstOut(p: Pool, ids: seq<nat>)
    requires |p.recycled| <= POOL_SIZE && ids != []
    requires Distinct(ids)
    requires forall i, j | 0 <= i < |ids| && 0 <= j < |p.recycled| :: ids[i] != p.recycled[j]
    ensures AcquireMany(ReleaseAll(p, ids), |ids|) == (Reverse(ids), p) <==> |p.recycled| + |ids| <= 20
  {
    ReleaseAllPushes(p, ids);
    if |p.recycled| + |ids| <= POOL_SIZE {
      assert ids[..|ids|] == ids;
      AcquireManyPops(ReleaseAll(p, ids), p.recycled, ids);
    } else {
      LastOneLost(p, ids);
    }
  }

  /** Without room the last identifier released is not the first to come back. */
  lemma LastOneLost(p: Pool, ids: seq<nat>)
    requires |p.recycled| <= POOL_SIZE < |p.recycled| + |ids|
    requires Distinct(ids)
    requires forall i, j | 0 <= i < |ids| && 0 <= j < |p.recycled| :: ids[i] != p.recycled[j]
    ensures AcquireMany(ReleaseAll(p, ids), |ids|).0 != Reverse(ids)
  {
    TopOfFullPool(p, ids);
    FirstAcquired(ReleaseAll(p, ids), |ids|);
    LastComesFirst(ids);
  }

  lemma FirstAcquired(p: Pool, n: nat)
    requires n > 0
    ensures AcquireMany(p, n).0 != [] && AcquireMany(p, n).0[0] == Top(p)
  {
  }

  lemma LastComesFirst(ids: seq<nat>)
    requires ids != []
    ensures Reverse(ids)[0] == ids[|ids| - 1]
  {
    var n := |ids| - 1;
    assert ids == ids[..n] + [ids[n]];
    ReverseSnoc(ids[..n], ids[n]);
  }

  lemma TopOfFullPool(p: Pool, ids: seq<nat>)
    requires |p.recycled| <= POOL_SIZE < |p.recycled| + |ids|
    requires Distinct(ids)
    requires forall i, j | 0 <= i < |ids| && 0 <= j < |p.recycled| :: ids[i] != p.recycled[j]
    ensures Top(ReleaseAll(p, ids)) != ids[|ids| - 1]
  {
    ReleaseAllPushes(p, ids);
    var room := POOL_SIZE - |p.recycled|;
    var r := p.recycled + ids[..room];
    assert ReleaseAll(p, ids).recycled == r && |r| == POOL_SIZE;
    assert r[POOL_SIZE - 1] == if room > 0 then ids[room - 1] else p.recycled[POOL_SIZE - 1];
  }

  // ---------------------------------------------------------------- the pool does overflow

  function Upfrom(k: nat, n: nat): (ids: seq<nat>)
    requires k <= n
    ensures |ids| == n - k && forall i | 0 <= i < n - k :: ids[i] == k + i
  {
    seq(n - k, i requires 0 <= i < n - k => k + i)
  }

  function HeldFrom(t: int, k: nat, n: nat): (held: seq<Holding>)
    requires k <= n
    ensures |held| == n - k && forall i | 0 <= i < n - k :: held[i] == Holding(t, k + i)
  {
    seq(n - k, i requires 0 <= i < n - k => Holding(t, k + i))
  }

  function Times(a: Action, n: nat): seq<Action> {
    if n == 0 then [] else [a] + Times(a, n - 1)
  }

  lemma {:induction false} ManyAcquisitions(t: int, k: nat, n: nat)
    requires k <= n
    ensures var w := World(Pool(k, []), HeldFrom(t, 0, k), multiset{});
      && Runs(w, Times(Acquire(t), n - k))
      && Run(w, Times(Acquire(t), n - k)) == World(Pool(n, []), HeldFrom(t, 0, n), multiset{})
    decreases n - k
  {
    var w := World(Pool(k, []), HeldFrom(t, 0, k), multiset{});
    if k < n {
      assert Apply(w, Acquire(t)).held == HeldFrom(t, 0, k + 1);
      assert Times(Acquire(t), n - k)[1..] == Times(Acquire(t), n - k - 1);
      ManyAcquisitions(t, k + 1, n);
    }
  }

  /** The holder of n identifiers gives them back, the oldest first; k are back already. */
  lemma {:induction false} ManyReleases(t: int, k: nat, n: nat)
    requires k <= n == POOL_SIZE + 1
    ensures var w := Draining(t, k, n);
      && Runs(w, Times(Release(0), n - k))
      && Run(w, Times(Release(0), n - k)) == World(Pool(n, Upfrom(0, POOL_SIZE)), [], multiset{POOL_SIZE})
    decreases n - k
  {
    var w := Draining(t, k, n);
    if k == n {
      assert w.held == [];
    } else {
      assert Without(w.held, 0) == HeldFrom(t, k + 1, n);
      assert k < POOL_SIZE ==> w.pool.recycled + [k] == Upfrom(0, k + 1);
      assert Times(Release(0), n - k)[1..] == Times(Release(0), n - k - 1);
      ManyReleases(t, k + 1, n);
    }
  }

  function Draining(t: int, k: nat, n: nat): World
    requires k <= n == POOL_SIZE + 1
  {
    World(Pool(n, Upfrom(0, if k <= POOL_SIZE then k else POOL_SIZE)), HeldFrom(t, k, n),
          if k <= POOL_SIZE then multiset{} else multiset{POOL_SIZE})
  }

  /** Twenty-one sessions opened and then all closed: the pool is full and the last identifier forgotten. */
  lemma TwentyOneOverflow(t: int)
    ensures var acquired := Times(Acquire(t), 21);
      && Runs(START, acquired)
      && Run(START, acquired) == World(Pool(21, []), HeldFrom(t, 0, 21), multiset{})
      && Runs(Run(START, acquired), Times(Release(0), 21))
      && Run(Run(START, acquired), Times(Release(0), 21)) ==
         World(Pool(21, Upfrom(0, 20)), [], multiset{20})
  {
    assert HeldFrom(t, 0, 0) == [] && Upfrom(0, 0) == [];
    ManyAcquisitions(t, 0, 21);
    ManyReleases(t, 0, 21);
  }

  /** Those releases are the ones `LastInFirstOut` speaks of, without room: its failing half occurs. */
  lemma TwentyOneNotReversed()
    ensures var p, ids := Pool(21, []), Upfrom(0, 21);
      AcquireMany(ReleaseAll(p, ids), 21) != (Reverse(ids), p)
  {
    LastInFirstOut(Pool(21, []), Upfrom(0, 21));
  }
}
