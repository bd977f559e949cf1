/** The lobby's handlers in place: the identifier pool, the session array and the players' active
    sessions are shared objects that each handler changes. Memory for a larger array is always there. */
module LobbyServer {
  import opened IdPool
  import opened DynamicArray
  import opened Registry
  import opened Lobby
  import opened Protocol

  class LobbyServer {
    const ids: IdGenerator
    const activeMatchSessions: DynamicArray<nat>
    /** The session records behind the array's pointers, and activeSessionId of every connected node. */
    var sessions: map<nat, Session>
    var bound: map<int, int>
    /** History: identifiers that a full pool has forgotten or a failed creation has lost. */
    ghost var dropped: set<nat>

    ghost function Repr(): set<object>
      reads this, activeMatchSessions
    {
      {this, ids, ids.recycledIdPool, activeMatchSessions, activeMatchSessions.heapRegion}
    }

    ghost predicate Valid()
      reads this, ids, activeMatchSessions
    {
      && ids.Valid() && activeMatchSessions.Valid()
      && ids.recycledIdPool as object != activeMatchSessions.heapRegion as object
    }

    ghost function View(): Lobby
      requires Valid()
      reads this, ids, ids.recycledIdPool, activeMatchSessions, activeMatchSessions.heapRegion
    {
      Lobby(Registry(ids.View(), activeMatchSessions.View(), dropped), sessions, bound)
    }

    constructor ()
      ensures Valid() && fresh(Repr()) && View() == VACANT
    {
      ids := new IdGenerator();
      activeMatchSessions := new DynamicArray<nat>(STARTER_SLOTS, POINTER_BYTES);
      sessions, bound, dropped := map[], map[], {};
    }

    method Connect(p: int)
      requires Valid() && p !in bound
      modifies this`bound
      ensures Valid() && Repr() == old(Repr())
      ensures View() == After(old(View()), Connecting(p)) && bound == old(bound)[p := -1]
    {
      bound := bound[p := UNBOUND];
    }

    /** A bound player is refused; otherwise an identifier is acquired and, if a usable name follows, the
        session implanted there. */
    method ProcessInstantiation(p: int, named: bool) returns (reply: Reply)
      requires Valid() && p in bound
      modifies Repr()
      ensures Valid() && fresh(Repr() - old(Repr()))
      ensures reply == Create(old(View()), p, named).0
      ensures reply != Broken(Overrun) ==> View() == Create(old(View()), p, named).1
    {
      if bound[p] != UNBOUND {
        return Reply.Refused;
      }
      var freshId := ids.AcquireNewSessionIdentifier();
      if !named {
        dropped := dropped + {freshId};
        return Nameless;
      }
      var novel := Session(freshId, p, Nobody, FreshInstance);
      var code := activeMatchSessions.ImplantAtOffset(freshId, freshId, true);
      if !code.Done? {
        dropped := dropped + {freshId};
        return Broken(code);
      }
      sessions := sessions[freshId := novel.(state := PendingPlayer)];
      bound := bound[p := freshId];
      return Created(freshId);
    }

    /** The session is looked up in its slot; its master's answer binds both players or leaves everything
        as it was. */
    method ProcessActivation(p: int, id: nat, approved: bool) returns (reply: Reply)
      requires Valid() && p in bound
      modifies this`sessions, this`bound
      ensures Valid() && Repr() == old(Repr())
      ensures (reply, View()) == Start(old(View()), p, id, approved)
    {
      if bound[p] != UNBOUND {
        return Reply.Refused;
      }
      var code, target := activeMatchSessions.FetchFromOffset(id);
      if target.Null? || target.value !in sessions || !approved {
        return Declined;
      }
      var handle := target.value;
      var master := sessions[handle].primary;
      sessions := sessions[handle := sessions[handle].(secondary := Somebody(p), state := InProgress)];
      bound := bound[p := id];
      bound := bound[master := id];
      return Started;
    }

    /** The last part of the match loop: both players free, the slot empty, the identifier given back. */
    method FinishMatch(id: nat)
      requires Valid() && id in sessions && sessions[id].secondary.Somebody?
      modifies Repr()
      ensures Valid() && fresh(Repr() - old(Repr()))
      ensures View() == Finish(old(View()), id)
      ensures old(activeMatchSessions.allocatedSlots) <= id ==> View().reg == old(View()).reg
    {
      var s := sessions[id];
      bound := bound[s.primary := UNBOUND];
      bound := bound[s.secondary.player := UNBOUND];
      var code := activeMatchSessions.ExciseAtOffset(id, true);
      if code.Done? {
        dropped := if Drops(ids.View()) then dropped + {id} else dropped;
        ids.RelinquishSessionIdentifier(id);
      }
      sessions := sessions - {id};
    }

    /** The cleanup of a leaving player: a scan of all slots, releasing and excising its sessions. */
    method Cleanup(p: int)
      requires Valid() && p in bound
      modifies Repr()
      ensures Valid() && fresh(Repr() - old(Repr()))
      ensures View() == Disconnect(old(View()), p)
    {
      bound := bound - {p};
      var idx := 0;
      while idx < activeMatchSessions.allocatedSlots
        invariant Valid() && fresh(Repr() - old(Repr())) && bound == old(bound) - {p}
        invariant Purge(View().reg, sessions, p, idx) == Purge(old(View()).reg, old(sessions), p, 0)
        decreases activeMatchSessions.allocatedSlots - idx
      {
        PurgeAt(p, idx);
        idx := idx + 1;
      }
    }

    method PurgeAt(p: int, idx: nat)
      requires Valid() && idx < activeMatchSessions.allocatedSlots
      modifies Repr()
      ensures Valid() && fresh(Repr() - old(Repr())) && bound == old(bound)
      ensures activeMatchSessions.allocatedSlots <= old(activeMatchSessions.allocatedSlots)
      ensures Purge(View().reg, sessions, p, idx + 1) == Purge(old(View()).reg, old(sessions), p, idx)
    {
      var code, orphan := activeMatchSessions.FetchFromOffset(idx);
      if orphan.Ref? && orphan.value in sessions && sessions[orphan.value].primary == p {
        var id := sessions[orphan.value].sessionId;
        dropped := if Drops(ids.View()) then dropped + {id} else dropped;
        ids.RelinquishSessionIdentifier(id);
        var wiped := activeMatchSessions.ExciseAtOffset(idx, true);
        sessions := sessions - {orphan.value};
      }
    }
  }
}
