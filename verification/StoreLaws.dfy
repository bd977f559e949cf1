/** What the operations of the store amount to: used with offsets it is a finite map, used at its tail
    it is a stack. The two uses are separate; each keeps its own discipline. */
module StoreLaws {
  import opened DynamicArray

  // ---------------------------------------------------------------- capacity

  function Pow2(k: nat): nat {
    if k == 0 then 1 else 2 * Pow2(k - 1)
  }

  /** The capacity is zero or the floor doubled some number of times, and its bytes are countable. */
  ghost predicate WellSized<T>(st: Store<T>) {
    && st.floor > 0
    && (st.Allocated() == 0 || exists k: nat :: st.Allocated() == st.floor * Pow2(k))
    && st.Allocated() * st.footprint <= SIZE_MAX
  }

  lemma {:induction false} Pow2Positive(k: nat)
    ensures Pow2(k) >= 1
  {
    if k > 0 { Pow2Positive(k - 1); }
  }

  lemma FloorTimes(f: nat, p: nat)
    requires p >= 1
    ensures f <= f * p
  {
    assert f * p == f + f * (p - 1);
  }

  lemma QuotientBound(n: nat, m: nat, f: nat)
    requires f > 0 && n <= m / f
    ensures n * f <= m
  {
    assert n * f <= (m / f) * f <= m;
  }

  lemma ExpandedWellSized<T>(st: Store<T>, reallocOk: bool)
    requires WellSized(st)
    ensures WellSized(Expanded(st, reallocOk))
    ensures var cap := Expanded(st, reallocOk).Allocated();
      cap == st.Allocated() || (cap == NextCapacity(st) && cap > st.Allocated())
  {
    var grown := Expanded(st, reallocOk);
    if grown.Allocated() != st.Allocated() {
      if st.footprint > 0 {
        QuotientBound(NextCapacity(st), SIZE_MAX, st.footprint);
      }
      if st.Allocated() == 0 {
        assert grown.Allocated() == st.floor * Pow2(0);
      } else {
        var k: nat :| st.Allocated() == st.floor * Pow2(k);
        assert grown.Allocated() == st.floor * Pow2(k + 1) by { assert Pow2(k + 1) == 2 * Pow2(k); }
      }
    }
  }

  lemma ProductMonotone(a: nat, b: nat, f: nat)
    requires a <= b
    ensures a * f <= b * f
  {
  }

  lemma CompactedWellSized<T>(st: Store<T>, excised: nat, reallocOk: bool)
    requires WellSized(st)
    ensures WellSized(Compacted(st, excised, reallocOk))
  {
    if Compacts(st, excised, reallocOk) {
      var k: nat :| st.Allocated() == st.floor * Pow2(k);
      ProductMonotone(ReducedCapacity(st), st.Allocated(), st.footprint);
      if k == 0 {
        assert ReducedCapacity(st) == st.floor == st.floor * Pow2(0);
      } else {
        HalfOfPower(st.floor, k);
        assert ReducedCapacity(st) == st.floor * Pow2(k - 1);
      }
    }
  }

  lemma HalfOfPower(f: nat, k: nat)
    requires k > 0
    ensures (f * Pow2(k)) / 2 == f * Pow2(k - 1) >= f
  {
    assert f * Pow2(k) == 2 * (f * Pow2(k - 1));
    Pow2Positive(k - 1);
    FloorTimes(f, Pow2(k - 1));
  }

  /** Every operation keeps the capacity law. */
  lemma GrowingKeepsSize<T>(st: Store<T>, offset: nat, v: T, reallocOk: bool)
    requires WellSized(st)
    ensures WellSized(Appended(st, v, reallocOk).1) && WellSized(Implanted(st, offset, v, reallocOk).1)
  {
    ExpandedWellSized(st, reallocOk);
  }

  lemma ShrinkingKeepsSize<T>(st: Store<T>, offset: nat, reallocOk: bool)
    requires WellSized(st)
    ensures WellSized(Extracted(st, reallocOk).2) && WellSized(Excised(st, offset, reallocOk).1)
  {
    if 0 < st.occupied <= st.Allocated() {
      CompactedWellSized(st.(occupied := st.occupied - 1), st.occupied - 1, reallocOk);
    }
    if offset < st.Allocated() {
      CompactedWellSized(
        st.(slots := st.slots[offset := Null], occupied := (st.occupied + SIZE_MAX) % (SIZE_MAX + 1)),
        offset, reallocOk);
    }
  }

  // ---------------------------------------------------------------- the sparse use: a finite map

  function Entries<T>(st: Store<T>): map<nat, T> {
    map i: nat | i < |st.slots| && st.slots[i].Ref? :: st.slots[i].value
  }

  function Live<T>(slots: seq<Slot<T>>): nat {
    if slots == [] then 0 else (if slots[0].Ref? then 1 else 0) + Live(slots[1..])
  }

  /** `occupied` counts the live slots. */
  ghost predicate Sparse<T>(st: Store<T>) {
    WellSized(st) && st.occupied == Live(st.slots)
  }

  lemma {:induction false} LiveAppend<T>(a: seq<Slot<T>>, b: seq<Slot<T>>)
    ensures Live(a + b) == Live(a) + Live(b)
    decreases |a|
  {
    if a == [] {
      assert a + b == b;
    } else {
      assert (a + b)[1..] == a[1..] + b;
      LiveAppend(a[1..], b);
    }
  }

  lemma {:induction false} LiveOfNulls<T>(slots: seq<Slot<T>>)
    requires forall i | 0 <= i < |slots| :: slots[i].Null?
    ensures Live(slots) == 0
  {
    if slots != [] { LiveOfNulls(slots[1..]); }
  }

  lemma {:induction false} LiveBound<T>(slots: seq<Slot<T>>)
    ensures Live(slots) <= |slots|
    ensures Live(slots) == |slots| ==> forall i | 0 <= i < |slots| :: slots[i].Ref?
  {
    if slots != [] {
      LiveBound(slots[1..]);
      if Live(slots) == |slots| {
        assert forall i | 1 <= i < |slots| :: slots[i] == slots[1..][i - 1];
      }
    }
  }

  lemma {:induction false} LiveUpdate<T>(slots: seq<Slot<T>>, i: nat, s: Slot<T>)
    requires i < |slots|
    ensures Live(slots[i := s]) == Live(slots) - (if slots[i].Ref? then 1 else 0) + (if s.Ref? then 1 else 0)
    decreases |slots|
  {
    if i == 0 {
      assert slots[i := s][1..] == slots[1..];
    } else {
      assert slots[i := s][1..] == slots[1..][i - 1 := s];
      LiveUpdate(slots[1..], i - 1, s);
    }
  }

  /** The live count is the size of the map. */
  lemma {:induction false} LiveIsMapSize<T>(st: Store<T>)
    ensures |Entries(st)| == Live(st.slots)
    decreases |st.slots|
  {
    var n := |st.slots|;
    if n == 0 {
      assert Entries(st) == map[];
    } else {
      var rest := st.(slots := st.slots[..n - 1]);
      LiveIsMapSize(rest);
      assert st.slots == rest.slots + [st.slots[n - 1]];
      LiveAppend(rest.slots, [st.slots[n - 1]]);
      assert Live([st.slots[n - 1]]) == if st.slots[n - 1].Ref? then 1 else 0;
      if st.slots[n - 1].Ref? {
        assert Entries(st) == Entries(rest)[n - 1 := st.slots[n - 1].value];
      } else {
        assert Entries(st) == Entries(rest);
      }
    }
  }

  lemma GrowthKeepsEntries<T>(st: Store<T>, reallocOk: bool)
    ensures Entries(Expanded(st, reallocOk)) == Entries(st)
    ensures Live(Expanded(st, reallocOk).slots) == Live(st.slots)
  {
    var grown := Expanded(st, reallocOk);
    if grown.slots != st.slots {
      var added: seq<Slot<T>> := Nulls(NextCapacity(st) - st.Allocated());
      LiveAppend(st.slots, added);
      LiveOfNulls(added);
    }
  }

  lemma CompactionKeepsEntries<T>(st: Store<T>, excised: nat, reallocOk: bool)
    ensures Entries(Compacted(st, excised, reallocOk)) == Entries(st)
    ensures Live(Compacted(st, excised, reallocOk).slots) == Live(st.slots)
  {
    if Compacts(st, excised, reallocOk) {
      var n := ReducedCapacity(st);
      assert st.slots == st.slots[..n] + st.slots[n..];
      LiveAppend(st.slots[..n], st.slots[n..]);
      LiveOfNulls(st.slots[n..]);
    }
  }

  /** Growth and compaction change no entry. */
  lemma ResizingKeepsEntries<T>(st: Store<T>, excised: nat, reallocOk: bool)
    ensures Entries(Expanded(st, reallocOk)) == Entries(st)
    ensures Live(Expanded(st, reallocOk).slots) == Live(st.slots)
    ensures Entries(Compacted(st, excised, reallocOk)) == Entries(st)
    ensures Live(Compacted(st, excised, reallocOk).slots) == Live(st.slots)
  {
    GrowthKeepsEntries(st, reallocOk);
    CompactionKeepsEntries(st, excised, reallocOk);
  }

  lemma EntriesOfUpdate<T>(st: Store<T>, other: Store<T>, i: nat, s: Slot<T>)
    requires i < st.Allocated() && other.slots == st.slots[i := s]
    ensures Entries(other) == if s.Ref? then Entries(st)[i := s.value] else Entries(st) - {i}
    ensures Live(other.slots) == Live(st.slots) - (if st.slots[i].Ref? then 1 else 0) + (if s.Ref? then 1 else 0)
  {
    LiveUpdate(st.slots, i, s);
  }

  /** The slot in question after the growth, if any: still there, still null. */
  lemma ImplantTarget<T>(st: Store<T>, offset: nat, reallocOk: bool)
    requires WellSized(st) && !ExpandFails(st, reallocOk)
    requires (offset < st.Allocated() && st.slots[offset].Null?) || offset == st.Allocated() == st.occupied
    ensures var grown := Expanded(st, reallocOk);
      offset < grown.Allocated() && grown.slots[offset].Null? && WellSized(grown)
  {
    ExpandedWellSized(st, reallocOk);
  }

  /** Putting a pointer into an empty slot, or right behind a full block, adds one entry. */
  lemma ImplantAddsEntry<T>(st: Store<T>, offset: nat, v: T, reallocOk: bool)
    requires Sparse(st) && !ExpandFails(st, reallocOk) && st.occupied < SIZE_MAX
    requires (offset < st.Allocated() && st.slots[offset].Null?) || offset == st.Allocated() == st.occupied
    ensures var (code, after) := Implanted(st, offset, v, reallocOk);
      && code.Done? && Sparse(after) && offset !in Entries(st)
      && Entries(after) == Entries(st)[offset := v] && after.occupied == |Entries(after)| == |Entries(st)| + 1
  {
    var grown, after := Expanded(st, reallocOk), Implanted(st, offset, v, reallocOk).1;
    ImplantTarget(st, offset, reallocOk);
    ResizingKeepsEntries(st, 0, reallocOk);
    EntriesOfUpdate(grown, after, offset, Ref(v));
    SameSize(grown, after);
    LiveIsMapSize(st);
    LiveIsMapSize(after);
  }

  lemma SameSize<T>(st: Store<T>, other: Store<T>)
    requires WellSized(st) && other.floor == st.floor && other.footprint == st.footprint
    requires other.Allocated() == st.Allocated()
    ensures WellSized(other)
  {
  }

  /** Excising a live slot removes exactly its entry. */
  lemma ExciseRemovesEntry<T>(st: Store<T>, offset: nat, reallocOk: bool)
    requires Sparse(st) && offset in Entries(st) && st.occupied <= SIZE_MAX
    ensures var (code, after) := Excised(st, offset, reallocOk);
      && code.Done? && Sparse(after)
      && Entries(after) == Entries(st) - {offset} && after.occupied == |Entries(after)| == |Entries(st)| - 1
  {
    var cleared := st.(slots := st.slots[offset := Null], occupied := (st.occupied + SIZE_MAX) % (SIZE_MAX + 1));
    EntriesOfUpdate(st, cleared, offset, Null);
    SameSize(st, cleared);
    CompactedWellSized(cleared, offset, reallocOk);
    ResizingKeepsEntries(cleared, offset, reallocOk);
    LiveIsMapSize(st);
    LiveIsMapSize(Excised(st, offset, reallocOk).1);
  }

  /** Fetching is lookup: the receiver, null before, is null after exactly when there is no entry. */
  lemma FetchIsLookup<T>(st: Store<T>, offset: nat)
    ensures Fetched(st, offset).1 == if offset in Entries(st) then Ref(Entries(st)[offset]) else Null
    ensures Fetched(st, offset).0.Failed? <==> offset >= st.Allocated()
  {
  }

  /** The offset check of an implant is one too weak: a write lands behind the block exactly when the
      offset is the capacity while some slot still counts as free. */
  lemma ImplantOverrunsIff<T>(st: Store<T>, offset: nat, v: T, reallocOk: bool)
    requires WellSized(st)
    ensures Implanted(st, offset, v, reallocOk).0.Overrun? <==> offset == st.Allocated() && st.occupied < st.Allocated()
    ensures Implanted(st, offset, v, reallocOk).0.Done? <==>
      !ExpandFails(st, reallocOk) && (offset < st.Allocated() || offset == st.Allocated() <= st.occupied)
  {
    ExpandedWellSized(st, reallocOk);
  }

  // ---------------------------------------------------------------- when the block changes its size

  lemma HalfAboveFloor<T>(st: Store<T>)
    requires WellSized(st) && st.Allocated() > st.floor
    ensures st.floor <= st.Allocated() / 2 && st.Allocated() / 2 + st.Allocated() / 2 == st.Allocated()
  {
    var k: nat :| st.Allocated() == st.floor * Pow2(k);
    assert k > 0 by {
      assert k == 0 ==> Pow2(k) == 1 && st.floor * Pow2(k) == st.floor;
    }
    HalfOfPower(st.floor, k);
    assert st.Allocated() == 2 * (st.floor * Pow2(k - 1));
  }

  lemma CompactsIff<T>(st: Store<T>, excised: nat, reallocOk: bool)
    requires WellSized(st)
    ensures var after := Compacted(st, excised, reallocOk);
      && (after.Allocated() < st.Allocated() <==>
            reallocOk && excised + 1 == st.Allocated() / 2 && st.Allocated() > st.floor
            && forall i | i in Entries(st) :: i < st.Allocated() / 2)
      && (after.Allocated() == st.Allocated() || after.Allocated() == st.Allocated() / 2)
  {
    if st.Allocated() > st.floor {
      HalfAboveFloor(st);
    }
    assert forall i | 0 <= i < st.Allocated() :: st.slots[i].Null? <==> i !in Entries(st);
  }

  /** The store between the clearing of a slot and the compaction. */
  function Cleared<T>(st: Store<T>, offset: nat): Store<T>
    requires offset < st.Allocated()
  {
    st.(slots := st.slots[offset := Null], occupied := (st.occupied + SIZE_MAX) % (SIZE_MAX + 1))
  }

  lemma ClearedLaws<T>(st: Store<T>, offset: nat)
    requires WellSized(st) && offset < st.Allocated()
    ensures var cleared := Cleared(st, offset);
      && WellSized(cleared) && Entries(cleared) == Entries(st) - {offset}
      && cleared.Allocated() == st.Allocated() && cleared.floor == st.floor
    ensures forall reallocOk :: Excised(st, offset, reallocOk) ==
                                (Done, Compacted(Cleared(st, offset), offset, reallocOk))
  {
    var cleared := Cleared(st, offset);
    SameSize(st, cleared);
    assert forall i | 0 <= i < st.Allocated() && i != offset :: cleared.slots[i] == st.slots[i];
  }

  /** Excising a live slot shrinks the block exactly when memory allows it, the slot was the last of the
      lower half, the block is larger than the floor, and the upper half is empty; then it is halved. */
  lemma ExciseShrinksIff<T>(st: Store<T>, offset: nat, reallocOk: bool)
    requires Sparse(st) && offset in Entries(st)
    ensures var after := Excised(st, offset, reallocOk).1;
      && (after.Allocated() < st.Allocated() <==>
            reallocOk && offset + 1 == st.Allocated() / 2 && st.Allocated() > st.floor
            && forall i | i in Entries(st) :: i < st.Allocated() / 2)
      && (after.Allocated() == st.Allocated() || after.Allocated() == st.Allocated() / 2)
  {
    ClearedLaws(st, offset);
    CompactsIff(Cleared(st, offset), offset, reallocOk);
    if offset + 1 == st.Allocated() / 2 {
      assert forall i | i in Entries(st) && i != offset :: i in Entries(Cleared(st, offset));
    }
  }

  /** The block can be made larger: both its slot count and its bytes stay within a size_t. */
  predicate Enlargeable<T>(st: Store<T>) {
    if st.Allocated() == 0 then st.floor * st.footprint <= SIZE_MAX
    else 2 * st.Allocated() <= SIZE_MAX && 2 * st.Allocated() * st.footprint <= SIZE_MAX
  }

  lemma QuotientIff(n: nat, m: nat, f: nat)
    requires f > 0
    ensures n <= m / f <==> n * f <= m
  {
    assert (m / f + 1) * f == (m / f) * f + f > m;
    if n <= m / f {
      QuotientBound(n, m, f);
    } else {
      ProductMonotone(m / f + 1, n, f);
    }
  }

  lemma CanGrowIff<T>(st: Store<T>)
    ensures CanGrow(st) <==> Enlargeable(st)
  {
    if st.footprint > 0 {
      QuotientIff(NextCapacity(st), SIZE_MAX, st.footprint);
    }
  }

  function EnlargedIfFull<T>(st: Store<T>): nat {
    if st.occupied < st.Allocated() then st.Allocated()
    else if st.Allocated() == 0 then st.floor else 2 * st.Allocated()
  }

  /** An append or an implant in range changes the block exactly when every slot counts as occupied, and
      fails if it cannot then be enlarged; enlarged, it has twice its slots, or the floor if it had none. */
  lemma GrowsIff<T>(st: Store<T>, offset: nat, v: T, reallocOk: bool)
    requires WellSized(st)
    ensures Appended(st, v, reallocOk).0.Failed? <==>
      st.occupied >= st.Allocated() && !(Enlargeable(st) && reallocOk)
    ensures Implanted(st, offset, v, reallocOk).0.Failed? <==>
      offset > st.Allocated() || (st.occupied >= st.Allocated() && !(Enlargeable(st) && reallocOk))
    ensures Appended(st, v, reallocOk).0.Done? ==> Appended(st, v, reallocOk).1.Allocated() == EnlargedIfFull(st)
    ensures Implanted(st, offset, v, reallocOk).0.Done? ==>
      Implanted(st, offset, v, reallocOk).1.Allocated() == EnlargedIfFull(st)
  {
    CanGrowIff(st);
  }

  // ---------------------------------------------------------------- when the count goes astray

  lemma CountGoesDown(n: nat)
    requires n <= SIZE_MAX
    ensures (n + SIZE_MAX) % (SIZE_MAX + 1) == if n == 0 then SIZE_MAX else n - 1
  {
    if n > 0 {
      assert n + SIZE_MAX == (SIZE_MAX + 1) + (n - 1);
    }
  }

  lemma EmptySlotGoesAstray<T>(st: Store<T>, offset: nat, reallocOk: bool)
    requires Sparse(st) && offset < st.Allocated() && offset !in Entries(st) && st.occupied <= SIZE_MAX
    ensures !Sparse(Excised(st, offset, reallocOk).1)
  {
    var cleared := Cleared(st, offset);
    assert cleared.slots == st.slots;
    CountGoesDown(st.occupied);
    CompactionKeepsEntries(cleared, offset, reallocOk);
    ClearedLaws(st, offset);
  }

  /** Clearing an empty slot lowers the count all the same, so the store keeps its law exactly when the
      slot was live. */
  lemma ExciseKeepsCountIff<T>(st: Store<T>, offset: nat, reallocOk: bool)
    requires Sparse(st) && offset < st.Allocated() && st.occupied <= SIZE_MAX
    ensures var (code, after) := Excised(st, offset, reallocOk);
      && code.Done? && Entries(after) == Entries(st) - {offset}
      && after.occupied == (if st.occupied == 0 then SIZE_MAX else st.occupied - 1)
      && (Sparse(after) <==> offset in Entries(st))
  {
    CountGoesDown(st.occupied);
    ClearedLaws(st, offset);
    CompactionKeepsEntries(Cleared(st, offset), offset, reallocOk);
    if offset in Entries(st) {
      ExciseRemovesEntry(st, offset, reallocOk);
    } else {
      EmptySlotGoesAstray(st, offset, reallocOk);
    }
  }

  /** Writing over a live slot raises the count all the same. */
  lemma ImplantKeepsCountIff<T>(st: Store<T>, offset: nat, v: T, reallocOk: bool)
    requires Sparse(st) && st.occupied < SIZE_MAX && Implanted(st, offset, v, reallocOk).0.Done?
    ensures var after := Implanted(st, offset, v, reallocOk).1;
      && Entries(after) == Entries(st)[offset := v] && after.occupied == st.occupied + 1
      && (Sparse(after) <==> offset !in Entries(st))
  {
    LiveBound(st.slots);
    if offset !in Entries(st) {
      ImplantAddsEntry(st, offset, v, reallocOk);
      LiveIsMapSize(st);
    } else {
      OverwriteGoesAstray(st, offset, v, reallocOk);
    }
  }

  lemma OverwriteGoesAstray<T>(st: Store<T>, offset: nat, v: T, reallocOk: bool)
    requires Sparse(st) && st.occupied < SIZE_MAX && Implanted(st, offset, v, reallocOk).0.Done?
    requires offset in Entries(st)
    ensures var after := Implanted(st, offset, v, reallocOk).1;
      !Sparse(after) && Entries(after) == Entries(st)[offset := v] && after.occupied == st.occupied + 1
  {
    var grown, after := Expanded(st, reallocOk), Implanted(st, offset, v, reallocOk).1;
    GrowthKeepsEntries(st, reallocOk);
    EntriesOfUpdate(grown, after, offset, Ref(v));
    LiveIsMapSize(st);
    LiveIsMapSize(after);
    assert Entries(after).Keys == Entries(st).Keys;
    assert |Entries(after)| == |Entries(after).Keys| == |Entries(st)|;
  }

  // ---------------------------------------------------------------- the dense use: a stack

  ghost predicate Dense<T>(st: Store<T>) {
    && WellSized(st) && st.occupied <= st.Allocated()
    && forall i | 0 <= i < st.occupied :: st.slots[i].Ref?
  }

  function Stack<T>(st: Store<T>): seq<T>
    requires st.occupied <= st.Allocated() && forall i | 0 <= i < st.occupied :: st.slots[i].Ref?
  {
    seq(st.occupied, i requires 0 <= i < st.occupied => st.slots[i].value)
  }

  /** Appending pushes, through a growth if one is needed. */
  lemma AppendPushes<T>(st: Store<T>, v: T, reallocOk: bool)
    requires Dense(st)
    ensures var (code, after) := Appended(st, v, reallocOk);
      && Dense(after) && (code.Done? <==> !ExpandFails(st, reallocOk)) && (code.Done? || code.Failed?)
      && Stack(after) == (if code.Done? then Stack(st) + [v] else Stack(st))
  {
    ExpandedWellSized(st, reallocOk);
  }

  /** Extracting pops, through a compaction if one is due; it fails exactly on the empty stack. */
  lemma ExtractPops<T>(st: Store<T>, reallocOk: bool)
    requires Dense(st)
    ensures var (code, received, after) := Extracted(st, reallocOk);
      && Dense(after) && (code.Failed? <==> Stack(st) == []) && (code.Done? || code.Failed?)
      && (code.Failed? ==> after == st)
      && (code.Done? ==> var n := |Stack(st)| - 1; received == Ref(Stack(st)[n]) && Stack(after) == Stack(st)[..n])
  {
    if st.occupied > 0 {
      var popped := st.(occupied := st.occupied - 1);
      assert WellSized(popped);
      CompactedWellSized(popped, st.occupied - 1, reallocOk);
    }
  }

  /** So a push is undone by the next pop. */
  lemma PopUndoesPush<T>(st: Store<T>, v: T, reallocOk: bool)
    requires Dense(st) && Appended(st, v, reallocOk).0.Done?
    ensures var after := Appended(st, v, reallocOk).1;
      && Extracted(after, reallocOk).1 == Ref(v)
      && Dense(Extracted(after, reallocOk).2) && Stack(Extracted(after, reallocOk).2) == Stack(st)
  {
    AppendPushes(st, v, reallocOk);
    ExtractPops(Appended(st, v, reallocOk).1, reallocOk);
    assert (Stack(st) + [v])[..|Stack(st)|] == Stack(st);
  }

  // ---------------------------------------------------------------- the cost of growing

  function AppendAll<T>(st: Store<T>, vs: seq<T>): Store<T>
    decreases |vs|
  {
    if vs == [] then st else AppendAll(Appended(st, vs[0], true).1, vs[1..])
  }

  predicate AllSucceed<T>(st: Store<T>, vs: seq<T>)
    decreases |vs|
  {
    vs == [] || (Appended(st, vs[0], true).0.Done? && AllSucceed(Appended(st, vs[0], true).1, vs[1..]))
  }

  /** Slots zero-filled by the growths along the way. */
  function ZeroFilled<T>(st: Store<T>, vs: seq<T>): nat
    decreases |vs|
  {
    if vs == [] then 0
    else Expanded(st, true).Allocated() - st.Allocated() + ZeroFilled(Appended(st, vs[0], true).1, vs[1..])
  }

  lemma {:induction false} GrowthBound<T>(st: Store<T>, vs: seq<T>)
    requires Dense(st) && AllSucceed(st, vs) && (st.Allocated() == 0 ==> st.floor == 1)
    ensures var after := AppendAll(st, vs);
      && Dense(after) && Stack(after) == Stack(st) + vs && after.occupied == st.occupied + |vs|
      && ZeroFilled(st, vs) == after.Allocated() - st.Allocated()
      && (after.Allocated() == st.Allocated() || after.Allocated() < 2 * after.occupied)
    decreases |vs|
  {
    if vs == [] {
      assert Stack(st) + vs == Stack(st);
    } else {
      AppendPushes(st, vs[0], true);
      ExpandedWellSized(st, true);
      var next := Appended(st, vs[0], true).1;
      GrowthBound(next, vs[1..]);
      assert Stack(st) + vs == Stack(st) + [vs[0]] + vs[1..];
    }
  }

  /** Appending n >= 1 pointers to a fresh store zero-fills fewer than 2n slots in all, and the store
      then holds exactly them, in order. */
  lemma AppendsAreCheap<T>(starter: nat, footprint: nat, vs: seq<T>)
    requires vs != [] && starter * footprint <= SIZE_MAX
    requires AllSucceed(Store(if starter == 0 then 1 else starter, footprint, Nulls(starter), 0), vs)
    ensures var st: Store<T> := Store(if starter == 0 then 1 else starter, footprint, Nulls(starter), 0);
      && ZeroFilled(st, vs) < 2 * |vs| && Dense(AppendAll(st, vs)) && Stack(AppendAll(st, vs)) == vs
  {
    var st: Store<T> := Store(if starter == 0 then 1 else starter, footprint, Nulls(starter), 0);
    assert starter != 0 ==> st.Allocated() == st.floor * Pow2(0);
    assert WellSized(st);
    GrowthBound(st, vs);
    assert Stack(st) + vs == vs;
  }

  // ---------------------------------------------------------------- a stack never shrinks

  datatype StackOp<T> = Push(value: T, reallocOk: bool) | Pop(reallocOk: bool)

  function Performed<T>(st: Store<T>, op: StackOp<T>): Store<T> {
    match op
    case Push(v, reallocOk) => Appended(st, v, reallocOk).1
    case Pop(reallocOk) => Extracted(st, reallocOk).2
  }

  function PerformedAll<T>(st: Store<T>, ops: seq<StackOp<T>>): Store<T>
    decreases |ops|
  {
    if ops == [] then st else PerformedAll(Performed(st, ops[0]), ops[1..])
  }

  /** A block above the floor was enlarged by a push, which wrote the first slot of its upper half. */
  ghost predicate UpperHalfUsed<T>(st: Store<T>) {
    Dense(st) && (st.Allocated() > st.floor ==> st.slots[st.Allocated() / 2].Ref?)
  }

  /** A popped slot keeps its bytes, so the upper half never counts as empty again. */
  lemma PopKeepsBlock<T>(st: Store<T>, reallocOk: bool)
    requires UpperHalfUsed(st)
    ensures Extracted(st, reallocOk).2.slots == st.slots
  {
    if st.occupied > 0 {
      var popped := st.(occupied := st.occupied - 1);
      CompactsIff(popped, popped.occupied, reallocOk);
      if st.Allocated() > st.floor {
        HalfAboveFloor(st);
        assert st.Allocated() / 2 in Entries(popped);
      }
    }
  }

  lemma StackOpKeepsHalf<T>(st: Store<T>, op: StackOp<T>)
    requires UpperHalfUsed(st)
    ensures UpperHalfUsed(Performed(st, op)) && st.Allocated() <= Performed(st, op).Allocated()
  {
    match op
    case Push(v, reallocOk) =>
      AppendPushes(st, v, reallocOk);
      GrowsIff(st, 0, v, reallocOk);
    case Pop(reallocOk) =>
      ExtractPops(st, reallocOk);
      PopKeepsBlock(st, reallocOk);
  }

  /** In no run of pushes and pops does the block shrink, although every pop asks for a compaction. */
  lemma {:induction false} StacksNeverShrink<T>(st: Store<T>, ops: seq<StackOp<T>>)
    requires UpperHalfUsed(st)
    ensures UpperHalfUsed(PerformedAll(st, ops)) && st.Allocated() <= PerformedAll(st, ops).Allocated()
    decreases |ops|
  {
    if ops != [] {
      StackOpKeepsHalf(st, ops[0]);
      StacksNeverShrink(Performed(st, ops[0]), ops[1..]);
    }
  }

  /** A new store starts like that. */
  lemma NewStoreUnused<T>(starter: nat, footprint: nat)
    requires starter * footprint <= SIZE_MAX
    ensures UpperHalfUsed<T>(Store(if starter == 0 then 1 else starter, footprint, Nulls(starter), 0))
  {
    var st: Store<T> := Store(if starter == 0 then 1 else starter, footprint, Nulls(starter), 0);
    assert starter != 0 ==> st.Allocated() == st.floor * Pow2(0);
  }

  // ---------------------------------------------------------------- interleaved appends

  /** Thread `t` is done with its first pointer. */
  function Advance<T>(programs: seq<seq<T>>, t: nat): seq<seq<T>>
    requires t < |programs| && programs[t] != []
  {
    programs[t := programs[t][1..]]
  }

  /** Threads run through their own lists of pointers; a schedule names who gets the lock next. */
  function RunThreads<T>(st: Store<T>, programs: seq<seq<T>>, schedule: seq<nat>): Store<T>
    decreases |schedule|
  {
    if schedule == [] then st
    else if schedule[0] < |programs| && programs[schedule[0]] != [] then
      var t := schedule[0];
      RunThreads(Appended(st, programs[t][0], true).1, Advance(programs, t), schedule[1..])
    else RunThreads(st, programs, schedule[1..])
  }

  /** The part of a merged sequence that one thread contributed. */
  function Share<T>(out: seq<T>, owners: seq<nat>, t: nat): seq<T>
    requires |out| == |owners|
  {
    if out == [] then [] else (if owners[0] == t then [out[0]] else []) + Share(out[1..], owners[1..], t)
  }

  /** What thread `t` gets done: one pointer whenever the schedule names it, while it has any left. */
  function Served<T>(programs: seq<seq<T>>, schedule: seq<nat>, t: nat): seq<T>
    requires t < |programs|
  {
    var turns := multiset(schedule)[t];
    programs[t][..if turns <= |programs[t]| then turns else |programs[t]|]
  }

  lemma TurnsStep(schedule: seq<nat>, t: nat)
    requires schedule != []
    ensures multiset(schedule)[t] == multiset(schedule[1..])[t] + (if schedule[0] == t then 1 else 0)
  {
    assert schedule == [schedule[0]] + schedule[1..];
  }

  lemma ServedStep<T>(programs: seq<seq<T>>, schedule: seq<nat>, t: nat)
    requires schedule != [] && t < |programs|
    ensures Served(programs, schedule, t) ==
      if schedule[0] != t || programs[t] == [] then Served(programs, schedule[1..], t)
      else [programs[t][0]] + Served(Advance(programs, t), schedule[1..], t)
  {
    TurnsStep(schedule, t);
  }

  lemma PushWithRoom<T>(st: Store<T>, v: T)
    requires Growable(st) && !ExpandFails(st, true)
    ensures Growable(Appended(st, v, true).1) && Stack(Appended(st, v, true).1) == Stack(st) + [v]
  {
    AppendPushes(st, v, true);
    ExpandedWellSized(st, true);
  }

  ghost predicate Growable<T>(st: Store<T>) {
    Dense(st) && (st.Allocated() == 0 ==> st.floor == 1)
  }

  /** The merge splits into exactly what the schedule lets each thread do. */
  ghost predicate Merge<T>(programs: seq<seq<T>>, schedule: seq<nat>, out: seq<T>, owners: seq<nat>) {
    && |out| == |owners| && (forall i | 0 <= i < |owners| :: owners[i] < |programs|)
    && forall t: nat | t < |programs| :: Share(out, owners, t) == Served(programs, schedule, t)
  }

  lemma MergeStep<T>(programs: seq<seq<T>>, schedule: seq<nat>, out: seq<T>, owners: seq<nat>)
    requires schedule != [] && schedule[0] < |programs| && programs[schedule[0]] != []
    requires Merge(Advance(programs, schedule[0]), schedule[1..], out, owners)
    ensures Merge(programs, schedule, [programs[schedule[0]][0]] + out, [schedule[0]] + owners)
  {
    var who := schedule[0];
    var out', owners' := [programs[who][0]] + out, [who] + owners;
    assert out'[1..] == out && owners'[1..] == owners;
    forall t: nat | t < |programs|
      ensures Share(out', owners', t) == Served(programs, schedule, t)
    {
      ServedStep(programs, schedule, t);
      assert Share(out, owners, t) == Served(Advance(programs, who), schedule[1..], t);
    }
  }

  lemma MergeIdle<T>(programs: seq<seq<T>>, schedule: seq<nat>, out: seq<T>, owners: seq<nat>)
    requires schedule != [] && (schedule[0] >= |programs| || programs[schedule[0]] == [])
    requires Merge(programs, schedule[1..], out, owners)
    ensures Merge(programs, schedule, out, owners)
  {
    forall t: nat | t < |programs|
      ensures Share(out, owners, t) == Served(programs, schedule, t)
    {
      ServedStep(programs, schedule, t);
    }
  }

  /** While memory lasts, whatever the schedule, the store gains a merge of the threads' lists: each
      thread's pointers in its own order, one for every turn it had, nothing lost and nothing invented. */
  lemma {:induction false} AppendsMerge<T>(st: Store<T>, programs: seq<seq<T>>, schedule: seq<nat>)
    returns (out: seq<T>, owners: seq<nat>)
    requires Growable(st) && AlwaysRoom(st, programs, schedule)
    ensures Merge(programs, schedule, out, owners)
    ensures var after := RunThreads(st, programs, schedule); Dense(after) && Stack(after) == Stack(st) + out
    decreases |schedule|
  {
    if schedule == [] {
      out, owners := [], [];
    } else if schedule[0] < |programs| && programs[schedule[0]] != [] {
      var t := schedule[0];
      var v := programs[t][0];
      PushWithRoom(st, v);
      var out', owners' := AppendsMerge(Appended(st, v, true).1, Advance(programs, t), schedule[1..]);
      MergeStep(programs, schedule, out', owners');
      out, owners := [v] + out', [t] + owners';
      assert Stack(st) + out == Stack(st) + [v] + out';
    } else {
      out, owners := AppendsMerge(st, programs, schedule[1..]);
      MergeIdle(programs, schedule, out, owners);
    }
  }

  /** A schedule that runs every thread to its end leaves all their pointers in the store. */
  lemma AllAppendsArrive<T>(st: Store<T>, programs: seq<seq<T>>, schedule: seq<nat>)
    returns (out: seq<T>, owners: seq<nat>)
    requires Growable(st) && AlwaysRoom(st, programs, schedule)
    requires forall t: nat | t < |programs| :: multiset(schedule)[t] >= |programs[t]|
    ensures |out| == |owners|
    ensures var after := RunThreads(st, programs, schedule); Dense(after) && Stack(after) == Stack(st) + out
    ensures forall t: nat | t < |programs| :: Share(out, owners, t) == programs[t]
    ensures forall i | 0 <= i < |owners| :: owners[i] < |programs|
  {
    out, owners := AppendsMerge(st, programs, schedule);
    forall t: nat | t < |programs|
      ensures Share(out, owners, t) == programs[t]
    {
      assert Share(out, owners, t) == Served(programs, schedule, t);
    }
  }

  predicate AlwaysRoom<T>(st: Store<T>, programs: seq<seq<T>>, schedule: seq<nat>)
    decreases |schedule|
  {
    if schedule == [] then true
    else if schedule[0] < |programs| && programs[schedule[0]] != [] then
      var t := schedule[0];
      !ExpandFails(st, true) && AlwaysRoom(Appended(st, programs[t][0], true).1, Advance(programs, t), schedule[1..])
    else AlwaysRoom(st, programs, schedule[1..])
  }
}
