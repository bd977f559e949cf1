/** The session registry: recycled identifiers index the slots of the array. Opening a session takes
    an identifier and implants it at that very offset; closing one excises the slot and gives the
    identifier back. */
module Registry {
  import opened IdPool
  import opened DynamicArray
  import opened StoreLaws

  const POINTER_BYTES := 8
  const STARTER_SLOTS := 3
  const ID_LIMIT := 0x1_0000

  /** A session is known by its identifier; `dropped` is history: the identifiers that full
      pools have forgotten and that failed creations have lost. */
  datatype Registry = Registry(pool: Pool, store: Store<nat>, dropped: set<nat>)

  const EMPTY := Registry(Pool(0, []), Store(STARTER_SLOTS, POINTER_BYTES, Nulls(STARTER_SLOTS), 0), {})

  /** An identifier is acquired and nobody ever gives it back. */
  function Leaked(reg: Registry): Registry {
    reg.(pool := Acquired(reg.pool), dropped := reg.dropped + {Top(reg.pool)})
  }

  /** A failed implant destroys the session and ends the thread; the identifier is lost. */
  function Opened(reg: Registry): (Code, Registry) {
    var (code, store) := Implanted(reg.store, Top(reg.pool), Top(reg.pool), true);
    (code, if code.Failed? then Leaked(reg) else reg.(pool := Acquired(reg.pool), store := store))
  }

  function Closed(reg: Registry, id: nat): Registry {
    Registry(Relinquished(reg.pool, id), Excised(reg.store, id, true).1,
             if Drops(reg.pool) then reg.dropped + {id} else reg.dropped)
  }

  function Sessions(reg: Registry): set<nat> {
    Entries(reg.store).Keys
  }

  /** Live, pooled and dropped identifiers are disjoint and together exactly those ever issued; the
      count of occupied slots is the number of live sessions; slot i holds session i. */
  ghost predicate Accounted(reg: Registry) {
    && Sparse(reg.store) && reg.store.floor == STARTER_SLOTS && reg.store.footprint == POINTER_BYTES
    && reg.store.Allocated() > 0
    && Distinct(reg.pool.recycled) && |reg.pool.recycled| <= POOL_SIZE
    && (forall i: nat :: i < reg.pool.highest <==> i in Sessions(reg) || i in reg.pool.recycled || i in reg.dropped)
    && (forall i | i in reg.pool.recycled :: i !in Sessions(reg) && i !in reg.dropped)
    && (forall i | i in reg.dropped :: i !in Sessions(reg))
    && (forall i | i in Sessions(reg) :: Entries(reg.store)[i] == i)
  }

  /** Nothing lost, and every identifier issued so far has a slot. */
  ghost predicate Lockstep(reg: Registry) {
    && Accounted(reg) && reg.dropped == {}
    && reg.pool.highest <= reg.store.Allocated() <= STARTER_SLOTS + 2 * reg.pool.highest
  }

  lemma OccupiedSmall(reg: Registry)
    requires Accounted(reg)
    ensures reg.store.occupied <= reg.store.Allocated() <= SIZE_MAX
  {
    LiveBound(reg.store.slots);
    assert reg.store.Allocated() * POINTER_BYTES <= SIZE_MAX;
  }

  lemma EmptyInLockstep()
    ensures Lockstep(EMPTY)
  {
    assert EMPTY.store.Allocated() == EMPTY.store.floor * Pow2(0);
    LiveOfNulls(EMPTY.store.slots);
    assert Sessions(EMPTY) == {};
  }

  lemma {:induction false} BelowSize(s: set<nat>, n: nat)
    requires forall i: nat :: i in s <==> i < n
    ensures |s| == n
  {
    if n == 0 {
      assert s == {};
    } else {
      BelowSize(s - {n - 1}, n - 1);
      assert s == (s - {n - 1}) + {n - 1};
    }
  }

  /** The identifier about to be issued is in nobody's hands. */
  lemma TopUnused(reg: Registry)
    requires Accounted(reg)
    ensures Top(reg.pool) !in Sessions(reg) && Top(reg.pool) !in reg.dropped
    ensures reg.pool.recycled != [] ==> Top(reg.pool) in reg.pool.recycled && Top(reg.pool) < reg.pool.highest
  {
    if reg.pool.recycled != [] {
      assert Top(reg.pool) in reg.pool.recycled;
    }
  }

  lemma AcquireAccounts(pool: Pool)
    requires Distinct(pool.recycled)
    ensures Distinct(Acquired(pool).recycled)
    ensures forall i: nat :: i in Acquired(pool).recycled <==> i in pool.recycled && i != Top(pool)
  {
    var r := pool.recycled;
    if r != [] {
      assert r == r[..|r| - 1] + [r[|r| - 1]];
      assert forall k | 0 <= k < |r| - 1 :: r[..|r| - 1][k] == r[k] != Top(pool);
    }
  }

  /** Where the next identifier falls: into an empty slot, right behind a full block, or amiss. */
  ghost predicate TopHasRoom(reg: Registry) {
    || Top(reg.pool) < reg.store.Allocated()
    || (Top(reg.pool) == reg.store.Allocated() && reg.store.occupied >= reg.store.Allocated())
  }

  /** Opening succeeds exactly when the identifier has room, and the array can grow if it must; otherwise
      it writes behind the block or fails, according to the offset. */
  lemma OpenSucceedsIffRoom(reg: Registry)
    requires Accounted(reg)
    ensures Opened(reg).0.Done? <==> TopHasRoom(reg) && !ExpandFails(reg.store, true)
    ensures Opened(reg).0.Overrun? <==>
      Top(reg.pool) == reg.store.Allocated() && reg.store.occupied < reg.store.Allocated()
    ensures Opened(reg).0.Failed? <==> Top(reg.pool) > reg.store.Allocated() || ExpandFails(reg.store, true)
  {
    LiveBound(reg.store.slots);
    ImplantOverrunsIff(reg.store, Top(reg.pool), Top(reg.pool), true);
  }

  lemma OpenStore(reg: Registry)
    requires Accounted(reg) && TopHasRoom(reg) && !ExpandFails(reg.store, true)
    ensures var id, (code, after) := Top(reg.pool), Opened(reg);
      && code.Done? && id !in Sessions(reg) && Sparse(after.store) && after.store.Allocated() > 0
      && Entries(after.store) == Entries(reg.store)[id := id] && after.store.occupied == |Sessions(after)|
      && after.store.floor == reg.store.floor && after.store.footprint == reg.store.footprint
  {
    var id: nat := Top(reg.pool);
    TopUnused(reg);
    OccupiedSmall(reg);
    LiveIsMapSize(reg.store);
    if id < reg.store.Allocated() {
      assert reg.store.slots[id].Null?;
    }
    ImplantAddsEntry(reg.store, id, id, true);
    assert |Sessions(Opened(reg).1)| == |Entries(Opened(reg).1.store)|;
  }

  /** A successful opening adds exactly one session, under an unused identifier. */
  lemma OpenAccounts(reg: Registry)
    requires Accounted(reg) && TopHasRoom(reg) && !ExpandFails(reg.store, true)
    ensures var (code, after) := Opened(reg);
      && code.Done? && Accounted(after) && after.dropped == reg.dropped
      && Top(reg.pool) !in Sessions(reg) && Sessions(after) == Sessions(reg) + {Top(reg.pool)}
      && after.store.occupied == |Sessions(after)|
  {
    TopUnused(reg);
    OpenStore(reg);
    AcquireAccounts(reg.pool);
  }

  /** A creation that fails after it acquired its identifier changes no session, and the accounts name
      the lost identifier. */
  lemma LeakAccounts(reg: Registry)
    requires Accounted(reg)
    ensures Accounted(Leaked(reg)) && Sessions(Leaked(reg)) == Sessions(reg)
  {
    TopUnused(reg);
    AcquireAccounts(reg.pool);
  }

  /** In lockstep every identifier has room, so every opening succeeds and keeps the lockstep. */
  lemma OpenKeepsLockstep(reg: Registry)
    requires Lockstep(reg) && reg.pool.highest < ID_LIMIT
    ensures var (code, after) := Opened(reg);
      && code.Done? && Lockstep(after) && Sessions(after) == Sessions(reg) + {Top(reg.pool)}
      && Top(reg.pool) < ID_LIMIT
  {
    TopUnused(reg);
    LiveBound(reg.store.slots);
    LiveIsMapSize(reg.store);
    if reg.pool.recycled == [] {
      BelowSize(Sessions(reg), reg.pool.highest);
      assert |Sessions(reg)| == |Entries(reg.store)|;
    }
    assert TopHasRoom(reg) && CanGrow(reg.store);
    OpenAccounts(reg);
    ImplantCapacity(reg.store, Top(reg.pool));
  }

  lemma ImplantCapacity(st: Store<nat>, offset: nat)
    requires WellSized(st)
    ensures Implanted(st, offset, offset, true).1.Allocated() >= st.Allocated()
    ensures Implanted(st, offset, offset, true).1.Allocated() == st.Allocated() ||
            Implanted(st, offset, offset, true).1.Allocated() <= 2 * st.occupied + st.floor
    ensures Implanted(st, offset, offset, true).0.Done? ==> offset < Implanted(st, offset, offset, true).1.Allocated()
  {
  }

  lemma RelinquishAccounts(pool: Pool, id: nat)
    requires Distinct(pool.recycled) && id !in pool.recycled && |pool.recycled| <= POOL_SIZE
    ensures Distinct(Relinquished(pool, id).recycled) && |Relinquished(pool, id).recycled| <= POOL_SIZE
    ensures forall i: nat :: i in Relinquished(pool, id).recycled <==> i in pool.recycled || (i == id && !Drops(pool))
    ensures Relinquished(pool, id).highest == pool.highest
  {
  }

  /** Closing removes exactly that session and accounts for its identifier, whether it is kept or
      dropped and whether or not the array shrinks. */
  lemma CloseAccounts(reg: Registry, id: nat)
    requires Accounted(reg) && id in Sessions(reg)
    ensures Accounted(Closed(reg, id)) && Sessions(Closed(reg, id)) == Sessions(reg) - {id}
    ensures Closed(reg, id).store.occupied == |Sessions(Closed(reg, id))|
  {
    OccupiedSmall(reg);
    var after := Closed(reg, id);
    ExciseRemovesEntry(reg.store, id, true);
    assert Sessions(after) == Sessions(reg) - {id};
    assert |Sessions(after)| == |Entries(after.store)|;
    ExciseCapacity(reg.store, id);
    RelinquishAccounts(reg.pool, id);
  }

  lemma ExciseCapacity(st: Store<nat>, offset: nat)
    requires WellSized(st) && st.Allocated() > 0
    ensures 0 < Excised(st, offset, true).1.Allocated() <= st.Allocated()
  {
  }

  /** No excision shrinks the array and no identifier is dropped: the lockstep survives. */
  lemma CloseKeepsLockstep(reg: Registry, id: nat)
    requires Lockstep(reg) && id in Sessions(reg)
    requires !Drops(reg.pool) && Closed(reg, id).store.Allocated() == reg.store.Allocated()
    ensures Lockstep(Closed(reg, id))
  {
    CloseAccounts(reg, id);
  }

  // ---------------------------------------------------------------- runs

  datatype Action = Open | Close(id: nat)

  /** The action is possible, within the 16 bits of an identifier, drops nothing and shrinks nothing. */
  predicate Orderly(reg: Registry, a: Action) {
    match a
    case Open => reg.pool.highest < ID_LIMIT
    case Close(id) =>
      && id in Entries(reg.store) && !Drops(reg.pool)
      && Closed(reg, id).store.Allocated() == reg.store.Allocated()
  }

  function Apply(reg: Registry, a: Action): Registry {
    match a
    case Open => Opened(reg).1
    case Close(id) => Closed(reg, id)
  }

  predicate OrderlyRun(reg: Registry, acts: seq<Action>)
    decreases |acts|
  {
    acts == [] || (Orderly(reg, acts[0]) && OrderlyRun(Apply(reg, acts[0]), acts[1..]))
  }

  function Run(reg: Registry, acts: seq<Action>): Registry
    decreases |acts|
  {
    if acts == [] then reg else Run(Apply(reg, acts[0]), acts[1..])
  }

  predicate OpensSucceed(reg: Registry, acts: seq<Action>)
    decreases |acts|
  {
    acts == [] || ((acts[0].Open? ==> Opened(reg).0.Done?) && OpensSucceed(Apply(reg, acts[0]), acts[1..]))
  }

  /** In every orderly run every opening succeeds in bounds, live and pooled identifiers partition
      those below the counter, and as many slots are occupied as there are sessions. */
  lemma {:induction false} OrderlyRunsStayInLockstep(reg: Registry, acts: seq<Action>)
    requires Lockstep(reg) && OrderlyRun(reg, acts)
    ensures Lockstep(Run(reg, acts))
    ensures OpensSucceed(reg, acts)
    decreases |acts|
  {
    if acts != [] {
      match acts[0] {
        case Open => OpenKeepsLockstep(reg);
        case Close(id) => CloseKeepsLockstep(reg, id);
      }
      OrderlyRunsStayInLockstep(Apply(reg, acts[0]), acts[1..]);
    }
  }

  /** Every orderly run of a server that has just started. */
  lemma OrderlyFromStart(acts: seq<Action>)
    requires OrderlyRun(EMPTY, acts)
    ensures Lockstep(Run(EMPTY, acts)) && OpensSucceed(EMPTY, acts)
  {
    EmptyInLockstep();
    OrderlyRunsStayInLockstep(EMPTY, acts);
  }

  lemma LockstepMeans(reg: Registry)
    requires Lockstep(reg)
    ensures forall i: nat :: i < reg.pool.highest <==> (i in Sessions(reg)) != (i in reg.pool.recycled)
    ensures reg.store.occupied == |Sessions(reg)| && reg.pool.highest == |Sessions(reg)| + |reg.pool.recycled|
  {
    LiveIsMapSize(reg.store);
    assert |Sessions(reg)| == |Entries(reg.store)|;
    var pooled := Members(reg.pool.recycled);
    DistinctSize(reg.pool.recycled);
    BelowSize(Sessions(reg) + pooled, reg.pool.highest);
    assert Sessions(reg) !! pooled;
    assert |Sessions(reg) + pooled| == |Sessions(reg)| + |pooled|;
  }

  function Members(r: seq<nat>): set<nat> {
    set i | i in r
  }

  lemma {:induction false} DistinctSize(r: seq<nat>)
    requires Distinct(r)
    ensures |Members(r)| == |r|
    decreases |r|
  {
    if r != [] {
      var tail := r[1..];
      assert Distinct(tail) by {
        assert forall k | 0 <= k < |tail| :: tail[k] == r[k + 1];
      }
      DistinctSize(tail);
      assert r[0] !in Members(tail);
      assert Members(r) == {r[0]} + Members(tail);
    }
  }

  // ---------------------------------------------------------------- why the array must not shrink

  function Reg(highest: nat, recycled: seq<nat>, slots: seq<Slot<nat>>, occupied: nat): Registry {
    Registry(Pool(highest, recycled), Store(STARTER_SLOTS, POINTER_BYTES, slots, occupied), {})
  }

  const FOUR_OPENS := [Open, Open, Open, Open]
  const CLOSE_132 := [Close(1), Close(3), Close(2)]
  const CLOSE_342 := [Close(3), Close(4), Close(2)]

  /** After four sessions have been opened, and 1, 3 and 2 closed in this order, the array has shrunk to
      three slots. The next opening still finds its slot 2, but the one after it gets identifier 3 and
      writes behind the block, although nothing was dropped and the accounts are in order. */
  lemma ShrinkingLosesRoom()
    ensures var reg := Run(EMPTY, FOUR_OPENS + CLOSE_132 + [Open]);
      reg == Reg(4, [1, 3], [Ref(0), Null, Ref(2)], 2) && Opened(reg).0.Overrun?
  {
    var r4 := Reg(4, [], [Ref(0), Ref(1), Ref(2), Ref(3), Null, Null], 4);
    var r7 := Reg(4, [1, 3, 2], [Ref(0), Null, Null], 1);
    FourOpens(r4);
    Close132(r4, r7);
    LastOpen(r7, Reg(4, [1, 3], [Ref(0), Null, Ref(2)], 2));
    RunAppend(EMPTY, FOUR_OPENS + CLOSE_132, [Open]);
    RunAppend(EMPTY, FOUR_OPENS, CLOSE_132);
  }

  /** A run after which the next opening fails: five sessions are opened, and 3, 4 and 2 closed in this
      order, which shrinks the array to three slots. One opening takes slot 2 again, the next one gets
      identifier 4, beyond the block, and loses it. */
  lemma ShrinkingFailsAnOpening()
    ensures var reg := Run(EMPTY, FOUR_OPENS + [Open] + CLOSE_342 + [Open]);
      && reg == Reg(5, [3, 4], [Ref(0), Ref(1), Ref(2)], 3)
      && Opened(reg) == (Failed, Leaked(reg)) && Leaked(reg) == reg.(pool := Pool(5, [3]), dropped := {4})
  {
    var r4 := Reg(4, [], [Ref(0), Ref(1), Ref(2), Ref(3), Null, Null], 4);
    var r5 := Reg(5, [], [Ref(0), Ref(1), Ref(2), Ref(3), Ref(4), Null], 5);
    var r8 := Reg(5, [3, 4, 2], [Ref(0), Ref(1), Null], 2);
    FourOpens(r4);
    FifthOpen(r4, r5);
    Close342(r5, r8);
    OpenThenFail(r8, Reg(5, [3, 4], [Ref(0), Ref(1), Ref(2)], 3));
    RunAppend(EMPTY, FOUR_OPENS + [Open] + CLOSE_342, [Open]);
    RunAppend(EMPTY, FOUR_OPENS + [Open], CLOSE_342);
    RunAppend(EMPTY, FOUR_OPENS, [Open]);
  }

  lemma {:induction false} RunAppend(reg: Registry, xs: seq<Action>, ys: seq<Action>)
    ensures Run(reg, xs + ys) == Run(Run(reg, xs), ys)
    decreases |xs|
  {
    if xs == [] {
      assert xs + ys == ys;
    } else {
      assert (xs + ys)[1..] == xs[1..] + ys;
      RunAppend(Apply(reg, xs[0]), xs[1..], ys);
    }
  }

  lemma RunOne(reg: Registry, a: Action, after: Registry)
    requires Apply(reg, a) == after
    ensures Run(reg, [a]) == after
  {
    assert [a][1..] == [];
  }

  lemma RunThree(r0: Registry, a: Action, r1: Registry, b: Action, r2: Registry, c: Action, r3: Registry)
    requires Apply(r0, a) == r1 && Apply(r1, b) == r2 && Apply(r2, c) == r3
    ensures Run(r0, [a, b, c]) == r3
  {
    assert [a, b, c][1..] == [b, c] && [b, c][1..] == [c];
    RunOne(r2, c, r3);
  }

  lemma LastOpen(r7: Registry, r8: Registry)
    requires r7 == Reg(4, [1, 3, 2], [Ref(0), Null, Null], 1) && r8 == Reg(4, [1, 3], [Ref(0), Null, Ref(2)], 2)
    ensures Run(r7, [Open]) == r8 && Opened(r8).0.Overrun?
  {
    assert Acquired(r7.pool).recycled == [1, 3];
    assert r7.store.slots[2 := Ref(2)] == r8.store.slots;
    RunOne(r7, Open, r8);
  }

  lemma GrowingOpen(r3: Registry, r4: Registry)
    requires r3 == Reg(3, [], [Ref(0), Ref(1), Ref(2)], 3)
    requires r4 == Reg(4, [], [Ref(0), Ref(1), Ref(2), Ref(3), Null, Null], 4)
    ensures Opened(r3).1 == r4
  {
    assert Expanded(r3.store, true).slots == [Ref(0), Ref(1), Ref(2), Null, Null, Null];
  }

  lemma FourOpens(r4: Registry)
    requires r4 == Reg(4, [], [Ref(0), Ref(1), Ref(2), Ref(3), Null, Null], 4)
    ensures Run(EMPTY, FOUR_OPENS) == r4
  {
    var r1 := Reg(1, [], [Ref(0), Null, Null], 1);
    var r2 := Reg(2, [], [Ref(0), Ref(1), Null], 2);
    var r3 := Reg(3, [], [Ref(0), Ref(1), Ref(2)], 3);
    assert Opened(EMPTY).1 == r1;
    assert FOUR_OPENS[1..] == [Open, Open, Open];
    GrowingOpen(r3, r4);
    RunThree(r1, Open, r2, Open, r3, Open, r4);
  }

  lemma FifthOpen(r4: Registry, r5: Registry)
    requires r4 == Reg(4, [], [Ref(0), Ref(1), Ref(2), Ref(3), Null, Null], 4)
    requires r5 == Reg(5, [], [Ref(0), Ref(1), Ref(2), Ref(3), Ref(4), Null], 5)
    ensures Run(r4, [Open]) == r5
  {
    assert r4.store.slots[4 := Ref(4)] == r5.store.slots;
    RunOne(r4, Open, r5);
  }

  lemma OpenThenFail(r8: Registry, r9: Registry)
    requires r8 == Reg(5, [3, 4, 2], [Ref(0), Ref(1), Null], 2)
    requires r9 == Reg(5, [3, 4], [Ref(0), Ref(1), Ref(2)], 3)
    ensures Run(r8, [Open]) == r9
    ensures Opened(r9) == (Failed, Leaked(r9)) && Leaked(r9) == r9.(pool := Pool(5, [3]), dropped := {4})
  {
    assert Acquired(r8.pool).recycled == [3, 4];
    assert r8.store.slots[2 := Ref(2)] == r9.store.slots;
    RunOne(r8, Open, r9);
    assert Acquired(r9.pool).recycled == [3];
  }

  lemma Close132(r4: Registry, r7: Registry)
    requires r4 == Reg(4, [], [Ref(0), Ref(1), Ref(2), Ref(3), Null, Null], 4)
    requires r7 == Reg(4, [1, 3, 2], [Ref(0), Null, Null], 1)
    ensures Run(r4, CLOSE_132) == r7
  {
    var r5 := Reg(4, [1], [Ref(0), Null, Ref(2), Ref(3), Null, Null], 3);
    var r6 := Reg(4, [1, 3], [Ref(0), Null, Ref(2), Null, Null, Null], 2);
    assert Closed(r4, 1) == r5;
    assert Closed(r5, 3) == r6;
    assert Closed(r6, 2) == r7;
    RunThree(r4, Close(1), r5, Close(3), r6, Close(2), r7);
  }

  lemma Close342(r5: Registry, r8: Registry)
    requires r5 == Reg(5, [], [Ref(0), Ref(1), Ref(2), Ref(3), Ref(4), Null], 5)
    requires r8 == Reg(5, [3, 4, 2], [Ref(0), Ref(1), Null], 2)
    ensures Run(r5, CLOSE_342) == r8
  {
    var r6 := Reg(5, [3], [Ref(0), Ref(1), Ref(2), Null, Ref(4), Null], 4);
    var r7 := Reg(5, [3, 4], [Ref(0), Ref(1), Ref(2), Null, Null, Null], 3);
    assert Closed(r5, 3) == r6;
    assert Closed(r6, 4) == r7;
    assert Closed(r7, 2) == r8;
    RunThree(r5, Close(3), r6, Close(4), r7, Close(2), r8);
  }
}
