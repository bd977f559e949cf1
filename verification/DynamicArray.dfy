/** The growing and shrinking array behind both registries. Its elements are pointers: a slot is the
    null pointer, all zero bytes, or refers to something. One value type describes the store, one
    class carries the operations out in place. */
module DynamicArray {
  const SIZE_MAX := 0xFFFF_FFFF_FFFF_FFFF

  datatype Slot<T> = Null | Ref(value: T)

  /** Return codes; `Overrun` stands for a write past the end of the block. */
  datatype Code = Done | Failed | Overrun

  datatype Store<T> = Store(floor: nat, footprint: nat, slots: seq<Slot<T>>, occupied: nat)
  {
    function Allocated(): nat {
      |slots|
    }
  }

  function Nulls<T>(n: nat): seq<Slot<T>> {
    seq(n, _ => Null)
  }

  // ---------------------------------------------------------------- what each operation does

  function NextCapacity<T>(st: Store<T>): nat {
    if st.Allocated() != 0 then st.Allocated() * 2 else st.floor
  }

  /** Neither the doubled slot count nor its size in bytes overflows. */
  predicate CanGrow<T>(st: Store<T>) {
    && st.Allocated() <= SIZE_MAX / 2
    && (st.footprint == 0 || NextCapacity(st) <= SIZE_MAX / st.footprint)
  }

  predicate ExpandFails<T>(st: Store<T>, reallocOk: bool) {
    st.occupied >= st.Allocated() && !(CanGrow(st) && reallocOk)
  }

  /** Growth is by doubling and only when every slot counts as occupied; new slots are null. */
  function Expanded<T>(st: Store<T>, reallocOk: bool): Store<T> {
    if st.occupied < st.Allocated() || ExpandFails(st, reallocOk) || NextCapacity(st) < st.Allocated() then st
    else st.(slots := st.slots + Nulls(NextCapacity(st) - st.Allocated()))
  }

  function ReducedCapacity<T>(st: Store<T>): nat {
    if st.Allocated() / 2 >= st.floor then st.Allocated() / 2 else st.floor
  }

  predicate Compacts<T>(st: Store<T>, excised: nat, reallocOk: bool) {
    && st.Allocated() != 0 && excised + 1 == st.Allocated() / 2 && ReducedCapacity(st) <= st.Allocated()
    && (forall k | ReducedCapacity(st) <= k < st.Allocated() :: st.slots[k].Null?)
    && reallocOk
  }

  /** Vacating the last slot of the lower half gives the upper half back, if nothing is in it. */
  function Compacted<T>(st: Store<T>, excised: nat, reallocOk: bool): Store<T> {
    if Compacts(st, excised, reallocOk) then st.(slots := st.slots[..ReducedCapacity(st)]) else st
  }

  function Appended<T>(st: Store<T>, v: T, reallocOk: bool): (Code, Store<T>) {
    var grown := Expanded(st, reallocOk);
    if ExpandFails(st, reallocOk) then (Failed, st)
    else if st.occupied >= grown.Allocated() then (Overrun, st)
    else (Done, grown.(slots := grown.slots[st.occupied := Ref(v)], occupied := st.occupied + 1))
  }

  /** The popped slot keeps its old contents. */
  function Extracted<T>(st: Store<T>, reallocOk: bool): (Code, Slot<T>, Store<T>) {
    if st.occupied == 0 then (Failed, Null, st)
    else if st.occupied > st.Allocated() then (Overrun, Null, st)
    else (Done, st.slots[st.occupied - 1],
          Compacted(st.(occupied := st.occupied - 1), st.occupied - 1, reallocOk))
  }

  function Implanted<T>(st: Store<T>, offset: nat, v: T, reallocOk: bool): (Code, Store<T>) {
    var grown := Expanded(st, reallocOk);
    if offset > st.Allocated() || ExpandFails(st, reallocOk) then (Failed, st)
    else if offset >= grown.Allocated() then (Overrun, st)
    else (Done, grown.(slots := grown.slots[offset := Ref(v)], occupied := (st.occupied + 1) % (SIZE_MAX + 1)))
  }

  function Fetched<T>(st: Store<T>, offset: nat): (Code, Slot<T>) {
    if offset < st.Allocated() then (Done, st.slots[offset]) else (Failed, Null)
  }

  /** The count goes down whether or not anything was there. */
  function Excised<T>(st: Store<T>, offset: nat, reallocOk: bool): (Code, Store<T>) {
    if offset < st.Allocated() then
      (Done, Compacted(st.(slots := st.slots[offset := Null], occupied := (st.occupied + SIZE_MAX) % (SIZE_MAX + 1)),
                       offset, reallocOk))
    else (Failed, st)
  }

  // ---------------------------------------------------------------- the store in place

  class DynamicArray<T(0)> {
    var floorThreshold: nat
    var elementByteFootprint: nat
    var allocatedSlots: nat
    var occupiedSlots: nat
    var heapRegion: array<Slot<T>>

    ghost predicate Valid()
      reads this
    {
      && heapRegion.Length == allocatedSlots
      && (allocatedSlots == 0 || floorThreshold <= allocatedSlots) && floorThreshold > 0
    }

    ghost function View(): Store<T>
      reads this, heapRegion
    {
      Store(floorThreshold, elementByteFootprint, heapRegion[..], occupiedSlots)
    }

    ghost function Repr(): set<object>
      reads this
    {
      {this, heapRegion}
    }

    /** `starterSlots` null slots, which are also the floor; without any the floor is 1. */
    constructor (starterSlots: nat, footprint: nat)
      requires footprint > 0 && starterSlots * footprint <= SIZE_MAX
      ensures Valid() && fresh(heapRegion)
      ensures View() == Store(if starterSlots == 0 then 1 else starterSlots, footprint, Nulls(starterSlots), 0)
    {
      elementByteFootprint, occupiedSlots, allocatedSlots := footprint, 0, starterSlots;
      floorThreshold := if starterSlots == 0 then 1 else starterSlots;
      heapRegion := new Slot<T>[starterSlots](_ => Null);
      new;
      assert heapRegion[..] == Nulls(starterSlots);
    }

    /** realloc: a block of another size with the common prefix, the rest null. */
    method Relocate(capacity: nat)
      requires Valid() && (capacity == 0 || floorThreshold <= capacity)
      modifies this`heapRegion, this`allocatedSlots
      ensures Valid() && fresh(heapRegion)
      ensures heapRegion[..] == if capacity <= old(allocatedSlots) then old(heapRegion[..capacity])
                                else old(heapRegion[..]) + Nulls(capacity - old(allocatedSlots))
    {
      var block := new Slot<T>[capacity](i requires 0 <= i reads this, heapRegion =>
        if i < heapRegion.Length then heapRegion[i] else Null);
      heapRegion, allocatedSlots := block, capacity;
    }

    method ExpandStorageIfRequired(reallocOk: bool) returns (ok: bool)
      requires Valid()
      modifies this`heapRegion, this`allocatedSlots
      ensures Valid() && (heapRegion == old(heapRegion) || fresh(heapRegion))
      ensures ok <==> !ExpandFails(old(View()), reallocOk)
      ensures View() == Expanded(old(View()), reallocOk)
    {
      if occupiedSlots >= allocatedSlots {
        var nextCap;
        if allocatedSlots != 0 {
          if allocatedSlots <= SIZE_MAX / 2 {
            nextCap := allocatedSlots * 2;
          } else {
            return false;
          }
        } else {
          nextCap := floorThreshold;
        }
        if (elementByteFootprint == 0 || nextCap <= SIZE_MAX / elementByteFootprint) && reallocOk {
          Relocate(nextCap);
          return true;
        }
        return false;
      }
      return true;
    }

    method AppendToStore(v: T, reallocOk: bool) returns (code: Code)
      requires Valid()
      modifies this, heapRegion
      ensures Valid() && (heapRegion == old(heapRegion) || fresh(heapRegion))
      ensures code == Appended(old(View()), v, reallocOk).0
      ensures !code.Overrun? ==> View() == Appended(old(View()), v, reallocOk).1
    {
      var ok := ExpandStorageIfRequired(reallocOk);
      if !ok {
        return Failed;
      }
      if occupiedSlots >= heapRegion.Length {
        return Overrun;
      }
      heapRegion[occupiedSlots] := Ref(v);
      occupiedSlots := occupiedSlots + 1;
      return Done;
    }

    method ExtractTailFromStore(reallocOk: bool) returns (code: Code, received: Slot<T>)
      requires Valid()
      modifies this
      ensures Valid() && (heapRegion == old(heapRegion) || fresh(heapRegion))
      ensures (code, received, View()) == Extracted(old(View()), reallocOk)
    {
      received := Null;
      if occupiedSlots == 0 {
        return Failed, received;
      }
      if occupiedSlots > heapRegion.Length {
        return Overrun, received;
      }
      occupiedSlots := occupiedSlots - 1;
      received := heapRegion[occupiedSlots];
      EvaluateCompaction(occupiedSlots, reallocOk);
      code := Done;
    }

    method ImplantAtOffset(offset: nat, v: T, reallocOk: bool) returns (code: Code)
      requires Valid()
      modifies this, heapRegion
      ensures Valid() && (heapRegion == old(heapRegion) || fresh(heapRegion))
      ensures code == Implanted(old(View()), offset, v, reallocOk).0
      ensures !code.Overrun? ==> View() == Implanted(old(View()), offset, v, reallocOk).1
    {
      if offset > allocatedSlots {
        return Failed;
      }
      var ok := ExpandStorageIfRequired(reallocOk);
      if !ok {
        return Failed;
      }
      if offset >= heapRegion.Length {
        return Overrun;
      }
      heapRegion[offset] := Ref(v);
      occupiedSlots := (occupiedSlots + 1) % (SIZE_MAX + 1);
      return Done;
    }

    /** Copies a slot into a receiver that the callers initialise to null. */
    method FetchFromOffset(offset: nat) returns (code: Code, received: Slot<T>)
      requires Valid()
      ensures (code, received) == Fetched(View(), offset)
    {
      if offset < allocatedSlots {
        return Done, heapRegion[offset];
      }
      return Failed, Null;
    }

    method ExciseAtOffset(offset: nat, reallocOk: bool) returns (code: Code)
      requires Valid()
      modifies this, heapRegion
      ensures Valid() && (heapRegion == old(heapRegion) || fresh(heapRegion))
      ensures (code, View()) == Excised(old(View()), offset, reallocOk)
    {
      if offset < allocatedSlots {
        heapRegion[offset] := Null;
        occupiedSlots := (occupiedSlots + SIZE_MAX) % (SIZE_MAX + 1);
        EvaluateCompaction(offset, reallocOk);
        return Done;
      }
      return Failed;
    }

    method EvaluateCompaction(excised: nat, reallocOk: bool)
      requires Valid()
      modifies this`heapRegion, this`allocatedSlots
      ensures Valid() && (heapRegion == old(heapRegion) || fresh(heapRegion))
      ensures View() == Compacted(old(View()), excised, reallocOk)
    {
      if allocatedSlots != 0 && excised + 1 == allocatedSlots / 2 {
        var reducedCap := allocatedSlots / 2;
        if reducedCap < floorThreshold {
          reducedCap := floorThreshold;
        }
        var compactionAllowed := true;
        var k := reducedCap;
        while k < allocatedSlots
          invariant reducedCap <= k <= allocatedSlots && compactionAllowed
          invariant forall i | reducedCap <= i < k :: heapRegion[i].Null?
        {
          if !heapRegion[k].Null? {
            assert !View().slots[k].Null?;
            compactionAllowed := false;
            break;
          }
          k := k + 1;
        }
        if compactionAllowed && reallocOk {
          Relocate(reducedCap);
        }
      }
    }
  }
}
