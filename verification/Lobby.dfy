/** The lobby: which player is bound to which session. Creating, starting, ending and declining a
    match and leaving are single steps; steps of other players may come between the start of a match
    and its end. */
module Lobby {
  import opened IdPool
  import opened DynamicArray
  import opened StoreLaws
  import opened Registry
  import opened Protocol

  const UNBOUND := -1

  datatype Partner = Nobody | Somebody(player: int)

  datatype Session = Session(sessionId: nat, primary: int, secondary: Partner, state: SessionState)

  /** The registry of sessions, the sessions themselves, and every connected player's active session. */
  datatype Lobby = Lobby(reg: Registry, sessions: map<nat, Session>, bound: map<int, int>)

  datatype Reply = Created(id: nat) | Refused | Nameless | Started | Declined | Broken(code: Code)

  const VACANT := Lobby(EMPTY, map[], map[])

  // ---------------------------------------------------------------- the handlers

  /** `named` tells whether a usable name followed the opcode. The identifier is acquired before the
      name is read: without a name, or when the implant fails, it is lost and the player's thread ends,
      without the cleanup of a leaving player. */
  function Create(l: Lobby, p: int, named: bool): (Reply, Lobby)
    requires p in l.bound
  {
    if l.bound[p] != UNBOUND then (Reply.Refused, l)
    else if !named then (Nameless, l.(reg := Leaked(l.reg)))
    else
      var id, (code, reg) := Top(l.reg.pool), Opened(l.reg);
      if code.Done? then
        (Created(id), Lobby(reg, l.sessions[id := Session(id, p, Nobody, PendingPlayer)], l.bound[p := id]))
      else (Broken(code), l.(reg := reg))
  }

  /** The slot of that number refers to a session. */
  predicate Registered(l: Lobby, id: nat) {
    var slot := Fetched(l.reg.store, id).1;
    slot.Ref? && slot.value in l.sessions
  }

  /** A join looks the session up in its slot. An empty or absent slot is answered with a refusal;
      otherwise the answer of the session's master decides. */
  function Start(l: Lobby, p: int, id: nat, approved: bool): (Reply, Lobby)
    requires p in l.bound
  {
    if l.bound[p] != UNBOUND then (Reply.Refused, l)
    else if !Registered(l, id) || !approved then (Declined, l)
    else
      var handle := l.reg.store.slots[id].value;
      var s := l.sessions[handle];
      (Started, l.(sessions := l.sessions[handle := s.(secondary := Somebody(p), state := InProgress)],
                   bound := l.bound[p := id][s.primary := id]))
  }

  /** The end of a match frees both players and closes the session. */
  function Finish(l: Lobby, id: nat): Lobby
    requires id in l.sessions && l.sessions[id].secondary.Somebody?
  {
    var s := l.sessions[id];
    Lobby(if id < l.reg.store.Allocated() then Closed(l.reg, id) else l.reg,
          l.sessions - {id}, l.bound[s.primary := UNBOUND][s.secondary.player := UNBOUND])
  }

  predicate OwnedAt(reg: Registry, sessions: map<nat, Session>, p: int, idx: nat) {
    && idx < reg.store.Allocated() && reg.store.slots[idx].Ref?
    && reg.store.slots[idx].value in sessions && sessions[reg.store.slots[idx].value].primary == p
  }

  /** The cleanup loop of a leaving player over the slots from `idx` on: every session it is the master
      of gives its identifier back and loses its slot. The bound is read anew each time. */
  function Purge(reg: Registry, sessions: map<nat, Session>, p: int, idx: nat): (Registry, map<nat, Session>)
    decreases reg.store.Allocated() - idx
  {
    if idx >= reg.store.Allocated() then (reg, sessions)
    else if OwnedAt(reg, sessions, p, idx) then
      var handle := reg.store.slots[idx].value;
      var id := sessions[handle].sessionId;
      var after := Registry(Relinquished(reg.pool, id), Excised(reg.store, idx, true).1,
                                     if Drops(reg.pool) then reg.dropped + {id} else reg.dropped);
      Purge(after, sessions - {handle}, p, idx + 1)
    else Purge(reg, sessions, p, idx + 1)
  }

  function Disconnect(l: Lobby, p: int): Lobby {
    var (reg, sessions) := Purge(l.reg, l.sessions, p, 0);
    Lobby(reg, sessions, l.bound - {p})
  }

  // ---------------------------------------------------------------- the invariant

  predicate Names(s: Session, p: int) {
    s.primary == p || s.secondary == Somebody(p)
  }

  predicate SessionOk(sessions: map<nat, Session>, bound: map<int, int>, id: nat)
    requires id in sessions
  {
    var s := sessions[id];
    && s.sessionId == id
    && s.primary in bound && bound[s.primary] == id
    && (match s.secondary
        case Nobody => s.state.PendingPlayer?
        case Somebody(q) => s.state.InProgress? && q != s.primary && q in bound && bound[q] == id)
  }

  predicate PlayerOk(sessions: map<nat, Session>, bound: map<int, int>, p: int)
    requires p in bound
  {
    bound[p] == UNBOUND || (0 <= bound[p] && bound[p] in sessions && Names(sessions[bound[p] as nat], p))
  }

  /** Sessions and players point at each other. */
  ghost predicate Bindings(sessions: map<nat, Session>, bound: map<int, int>) {
    && (forall id | id in sessions :: SessionOk(sessions, bound, id))
    && (forall p | p in bound :: PlayerOk(sessions, bound, p))
  }

  ghost predicate LobbyInv(l: Lobby) {
    Accounted(l.reg) && l.sessions.Keys == Sessions(l.reg) && Bindings(l.sessions, l.bound)
  }

  /** What the invariant means for a player: never in two sessions; the active session is -1 exactly
      when no registered session names the player, and otherwise it is the one that does. */
  lemma OneSessionPerPlayer(l: Lobby, p: int)
    requires LobbyInv(l)
    ensures forall i, j | i in l.sessions && j in l.sessions ::
      Names(l.sessions[i], p) && Names(l.sessions[j], p) ==> i == j
    ensures p in l.bound ==>
      (l.bound[p] == UNBOUND <==> forall i | i in l.sessions :: !Names(l.sessions[i], p))
    ensures p in l.bound && l.bound[p] != UNBOUND ==>
      forall i | i in l.sessions :: Names(l.sessions[i], p) <==> i == l.bound[p]
    ensures forall i | i in l.sessions && Names(l.sessions[i], p) :: p in l.bound
  {
    forall i | i in l.sessions && Names(l.sessions[i], p)
      ensures p in l.bound && l.bound[p] == i
    {
      assert SessionOk(l.sessions, l.bound, i);
    }
    if p in l.bound {
      assert PlayerOk(l.sessions, l.bound, p);
    }
  }

  // ---------------------------------------------------------------- steps and runs

  datatype Step =
    | Connecting(player: int)
    | Creating(player: int, named: bool)
    | Starting(player: int, id: nat, approved: bool)
    | Ending(id: nat)
    | Leaving(player: int)

  predicate InMatch(l: Lobby, p: int) {
    p in l.bound && l.bound[p] >= 0 && l.bound[p] in l.sessions && l.sessions[l.bound[p] as nat].state.InProgress?
  }

  /** A join of an existing session needs it to be pending, with its master free to answer; a player in a
      match cannot leave, because the match holds its stream. A creation may fail in every way but one:
      with a write behind the array's block the run is over for any model. */
  predicate Possible(l: Lobby, s: Step) {
    match s
    case Connecting(p) => p !in l.bound
    case Creating(p, named) => p in l.bound && (l.bound[p] == UNBOUND && named ==> !Opened(l.reg).0.Overrun?)
    case Starting(p, id, _) => p in l.bound && (id in l.sessions ==> l.sessions[id].state.PendingPlayer?)
    case Ending(id) => id in l.sessions && l.sessions[id].state.InProgress? && l.sessions[id].secondary.Somebody?
    case Leaving(p) => p in l.bound && !InMatch(l, p)
  }

  function After(l: Lobby, s: Step): Lobby
    requires Possible(l, s)
  {
    match s
    case Connecting(p) => l.(bound := l.bound[p := UNBOUND])
    case Creating(p, named) => Create(l, p, named).1
    case Starting(p, id, approved) => Start(l, p, id, approved).1
    case Ending(id) => Finish(l, id)
    case Leaving(p) => Disconnect(l, p)
  }

  lemma FreshBinds(sessions: map<nat, Session>, bound: map<int, int>, p: int)
    requires Bindings(sessions, bound) && p !in bound
    ensures Bindings(sessions, bound[p := UNBOUND])
  {
    var after := bound[p := UNBOUND];
    forall id | id in sessions ensures SessionOk(sessions, after, id) { assert SessionOk(sessions, bound, id); }
    forall q | q in after ensures PlayerOk(sessions, after, q) { assert q != p ==> PlayerOk(sessions, bound, q); }
  }

  lemma CreationBinds(sessions: map<nat, Session>, bound: map<int, int>, p: int, id: nat)
    requires Bindings(sessions, bound) && p in bound && bound[p] == UNBOUND && id !in sessions
    ensures Bindings(sessions[id := Session(id, p, Nobody, PendingPlayer)], bound[p := id])
  {
    var more, after := sessions[id := Session(id, p, Nobody, PendingPlayer)], bound[p := id];
    forall i | i in more ensures SessionOk(more, after, i) { assert i != id ==> SessionOk(sessions, bound, i); }
    forall q | q in after ensures PlayerOk(more, after, q) { assert q != p ==> PlayerOk(sessions, bound, q); }
  }

  lemma StartBinds(sessions: map<nat, Session>, bound: map<int, int>, p: int, id: nat)
    requires Bindings(sessions, bound) && p in bound && bound[p] == UNBOUND
    requires id in sessions && sessions[id].state.PendingPlayer?
    ensures Bindings(sessions[id := sessions[id].(secondary := Somebody(p), state := InProgress)],
                     bound[p := id][sessions[id].primary := id])
  {
    var more := sessions[id := sessions[id].(secondary := Somebody(p), state := InProgress)];
    var after := bound[p := id][sessions[id].primary := id];
    assert SessionOk(sessions, bound, id);
    forall i | i in more ensures SessionOk(more, after, i) { assert SessionOk(sessions, bound, i); }
    forall q | q in after ensures PlayerOk(more, after, q) { assert PlayerOk(sessions, bound, q); }
  }

  lemma EndBinds(sessions: map<nat, Session>, bound: map<int, int>, id: nat)
    requires Bindings(sessions, bound) && id in sessions && sessions[id].secondary.Somebody?
    ensures var s := sessions[id]; var after := bound[s.primary := UNBOUND][s.secondary.player := UNBOUND];
      && Bindings(sessions - {id}, after) && after.Keys == bound.Keys
      && forall p | p in bound && !Names(s, p) :: after[p] == bound[p]
  {
    var s, less := sessions[id], sessions - {id};
    var after := bound[s.primary := UNBOUND][s.secondary.player := UNBOUND];
    assert SessionOk(sessions, bound, id);
    forall i | i in less ensures SessionOk(less, after, i) { assert SessionOk(sessions, bound, i); }
    forall q | q in after ensures PlayerOk(less, after, q) { assert PlayerOk(sessions, bound, q); }
  }

  lemma LeaveBinds(sessions: map<nat, Session>, bound: map<int, int>, p: int)
    requires Bindings(sessions, bound) && p in bound
    requires bound[p] != UNBOUND ==>
      bound[p] >= 0 && bound[p] in sessions && sessions[bound[p] as nat].state.PendingPlayer?
    ensures Bindings(if bound[p] == UNBOUND then sessions else sessions - {bound[p] as nat}, bound - {p})
  {
    var less, after := if bound[p] == UNBOUND then sessions else sessions - {bound[p] as nat}, bound - {p};
    assert PlayerOk(sessions, bound, p);
    if bound[p] != UNBOUND {
      assert SessionOk(sessions, bound, bound[p] as nat);
    }
    forall i | i in less ensures SessionOk(less, after, i) { assert SessionOk(sessions, bound, i); }
    forall q | q in after ensures PlayerOk(less, after, q) { assert PlayerOk(sessions, bound, q); }
  }

  lemma ConnectKeeps(l: Lobby, p: int)
    requires LobbyInv(l) && p !in l.bound
    ensures LobbyInv(l.(bound := l.bound[p := UNBOUND]))
  {
    FreshBinds(l.sessions, l.bound, p);
  }

  lemma CreateIs(l: Lobby, p: int)
    requires p in l.bound && l.bound[p] == UNBOUND && Opened(l.reg).0.Done?
    ensures var after := Create(l, p, true).1; var id: nat := Top(l.reg.pool);
      && after.reg == Opened(l.reg).1 && after.sessions.Keys == l.sessions.Keys + {id}
      && after.sessions == l.sessions[id := Session(id, p, Nobody, PendingPlayer)] && after.bound == l.bound[p := id]
      && Create(l, p, true).0 == Created(id)
  {
  }

  lemma SuccessKeeps(l: Lobby, p: int)
    requires LobbyInv(l) && p in l.bound && l.bound[p] == UNBOUND && Opened(l.reg).0.Done?
    ensures LobbyInv(Create(l, p, true).1)
  {
    OpenSucceedsIffRoom(l.reg);
    OpenAccounts(l.reg);
    CreationBinds(l.sessions, l.bound, p, Top(l.reg.pool));
    CreateIs(l, p);
    InvFrom(Create(l, p, true).1, Opened(l.reg).1);
  }

  /** A creation succeeds or changes no session and no binding, and keeps the invariant either way. */
  lemma CreateKeeps(l: Lobby, p: int, named: bool)
    requires LobbyInv(l) && Possible(l, Creating(p, named))
    ensures LobbyInv(Create(l, p, named).1)
    ensures !Create(l, p, named).0.Created? ==>
      Create(l, p, named).1.sessions == l.sessions && Create(l, p, named).1.bound == l.bound
  {
    if l.bound[p] == UNBOUND {
      if named && Opened(l.reg).0.Done? {
        SuccessKeeps(l, p);
      } else {
        LeakAccounts(l.reg);
      }
    }
  }

  /** What a creation does. A bound player is refused and no identifier is touched. A free player with a
      usable name, and room for the identifier, is bound to a new pending session of that number. */
  lemma CreationIs(l: Lobby, p: int, named: bool)
    requires LobbyInv(l) && p in l.bound
    ensures l.bound[p] != -1 ==> Create(l, p, named) == (Reply.Refused, l)
    ensures l.bound[p] == -1 && named && TopHasRoom(l.reg) && !ExpandFails(l.reg.store, true) ==>
      var id, (reply, after) := Top(l.reg.pool), Create(l, p, named);
      && reply == Created(id) && id !in l.sessions
      && after.sessions == l.sessions[id := Session(id, p, Nobody, PendingPlayer)]
      && after.bound == l.bound[p := id]
      && Sessions(after.reg) == Sessions(l.reg) + {id} && after.reg.dropped == l.reg.dropped
      && (forall i: nat :: i in after.reg.pool.recycled <==> i in l.reg.pool.recycled && i != id)
  {
    if l.bound[p] == -1 && TopHasRoom(l.reg) && !ExpandFails(l.reg.store, true) {
      OpenAccounts(l.reg);
      AcquireAccounts(l.reg.pool);
    }
  }

  /** A free player's creation that brings no usable name, or whose implant fails, loses the identifier
      it has acquired: it is in no session and not in the pool, and the next creation gets another one. */
  lemma FailedCreationLosesId(l: Lobby, p: int, named: bool)
    requires LobbyInv(l) && p in l.bound && l.bound[p] == -1
    requires !named || Top(l.reg.pool) > l.reg.store.Allocated() || ExpandFails(l.reg.store, true)
    ensures var id, (reply, after) := Top(l.reg.pool), Create(l, p, named);
      && reply == (if named then Broken(Failed) else Nameless)
      && after.sessions == l.sessions && after.bound == l.bound && after.reg.store == l.reg.store
      && after.reg.dropped == l.reg.dropped + {id} && id !in l.reg.dropped && id !in Sessions(after.reg)
      && (forall i: nat :: i in after.reg.pool.recycled <==> i in l.reg.pool.recycled && i != id)
      && id < after.reg.pool.highest && Top(after.reg.pool) != id
      && (forall q | q in after.bound :: Create(after, q, true).0 != Created(id))
  {
    OpenSucceedsIffRoom(l.reg);
    TopUnused(l.reg);
    AcquireAccounts(l.reg.pool);
    LeakAccounts(l.reg);
    TopUnused(Leaked(l.reg));
  }

  lemma StepKeepsLosses(l: Lobby, s: Step)
    requires LobbyInv(l) && Possible(l, s)
    ensures l.reg.dropped <= After(l, s).reg.dropped
  {
    match s
    case Connecting(p) =>
    case Creating(p, named) =>
    case Starting(p, id, approved) => StartIs(l, p, id, approved);
    case Ending(id) =>
    case Leaving(p) => LeaveIs(l, p);
  }

  /** A lost identifier is lost for good: in no run does a session get it again. */
  lemma {:induction false} LostForGood(l: Lobby, steps: seq<Step>, id: nat)
    requires LobbyInv(l) && PossibleRun(l, steps) && id in l.reg.dropped
    ensures var after := AfterAll(l, steps);
      id in after.reg.dropped && id !in after.sessions && id !in after.reg.pool.recycled
    decreases |steps|
  {
    if steps != [] {
      StepKeepsLobbyInv(l, steps[0]);
      StepKeepsLosses(l, steps[0]);
      LostForGood(After(l, steps[0]), steps[1..], id);
    }
  }

  lemma RegisteredIs(l: Lobby, id: nat)
    requires LobbyInv(l)
    ensures Registered(l, id) <==> id in l.sessions
    ensures id in l.sessions ==> l.reg.store.slots[id].value == id
  {
    FetchIsLookup(l.reg.store, id);
    assert id in Entries(l.reg.store) ==> Entries(l.reg.store)[id] == id;
  }

  /** What a join does. A bound player is refused; an unknown session, or a master who declines, leaves
      everything as it was; an approval starts that session and binds its master and the joiner to it, and
      nothing else changes. */
  lemma StartIs(l: Lobby, p: int, id: nat, approved: bool)
    requires LobbyInv(l) && p in l.bound
    ensures l.bound[p] != -1 ==> Start(l, p, id, approved) == (Reply.Refused, l)
    ensures l.bound[p] == -1 && (id !in l.sessions || !approved) ==> Start(l, p, id, approved) == (Declined, l)
    ensures l.bound[p] == -1 && id in l.sessions && approved ==>
      var (reply, after) := Start(l, p, id, approved);
      var master := l.sessions[id].primary;
      && reply == Started && after.reg == l.reg && master != p
      && after.sessions.Keys == l.sessions.Keys && after.bound.Keys == l.bound.Keys
      && after.sessions[id] == Session(id, master, Somebody(p), InProgress)
      && after.bound[p] == id && after.bound[master] == id
      && (forall i | i in l.sessions && i != id :: after.sessions[i] == l.sessions[i])
      && (forall q | q in l.bound && q != p && q != master :: after.bound[q] == l.bound[q])
  {
    RegisteredIs(l, id);
    if id in l.sessions {
      assert SessionOk(l.sessions, l.bound, id);
    }
  }

  lemma StartKeeps(l: Lobby, p: int, id: nat, approved: bool)
    requires LobbyInv(l) && Possible(l, Starting(p, id, approved))
    ensures LobbyInv(Start(l, p, id, approved).1)
  {
    RegisteredIs(l, id);
    if l.bound[p] == UNBOUND && approved && id in l.sessions {
      StartBinds(l.sessions, l.bound, p, id);
    }
  }

  lemma EndKeeps(l: Lobby, id: nat)
    requires LobbyInv(l) && Possible(l, Ending(id))
    ensures LobbyInv(Finish(l, id)) && Sessions(Finish(l, id).reg) == Sessions(l.reg) - {id}
  {
    EndBinds(l.sessions, l.bound, id);
    LiveSlot(l.reg, id);
    EndIs(l, id);
    CloseAccounts(l.reg, id);
    InvFrom(Finish(l, id), Closed(l.reg, id));
  }

  /** After the end of a match both players are free, the session is gone from the registry, and nobody
      else's binding has changed. */
  lemma EndFreesBoth(l: Lobby, id: nat)
    requires LobbyInv(l) && Possible(l, Ending(id))
    ensures var s := l.sessions[id];
      && s.primary in l.bound && s.secondary.player in l.bound
      && Finish(l, id).bound[s.primary] == -1 && Finish(l, id).bound[s.secondary.player] == -1
      && (forall p | p in l.bound && !Names(s, p) :: Finish(l, id).bound[p] == l.bound[p])
    ensures id !in Finish(l, id).sessions && id !in Sessions(Finish(l, id).reg)
    ensures forall i | i in l.sessions && i != id ::
      i in Finish(l, id).sessions && Finish(l, id).sessions[i] == l.sessions[i]
  {
    assert SessionOk(l.sessions, l.bound, id);
    EndKeeps(l, id);
  }

  lemma EndIs(l: Lobby, id: nat)
    requires id in l.sessions && l.sessions[id].secondary.Somebody? && id < l.reg.store.Allocated()
    ensures Finish(l, id).reg == Closed(l.reg, id) && Finish(l, id).sessions.Keys == l.sessions.Keys - {id}
  {
  }

  lemma InvFrom(l: Lobby, reg: Registry)
    requires l.reg == reg && Accounted(reg) && l.sessions.Keys == Sessions(reg) && Bindings(l.sessions, l.bound)
    ensures LobbyInv(l)
  {
  }

  lemma LiveSlot(reg: Registry, id: nat)
    requires Accounted(reg) && id in Sessions(reg)
    ensures id < reg.store.Allocated() && reg.store.slots[id] == Ref(id)
  {
    assert Entries(reg.store)[id] == id;
  }

  /** With nothing left to find the cleanup loop changes nothing. */
  lemma {:induction false} PurgeNothing(reg: Registry, sessions: map<nat, Session>, p: int, idx: nat)
    requires forall i | i in sessions :: sessions[i].primary != p
    ensures Purge(reg, sessions, p, idx) == (reg, sessions)
    decreases reg.store.Allocated() - idx
  {
    if idx < reg.store.Allocated() {
      PurgeNothing(reg, sessions, p, idx + 1);
    }
  }

  lemma OwnerIsUnique(l: Lobby, p: int, id: nat, i: nat)
    requires LobbyInv(l) && id in l.sessions && i in l.sessions
    requires l.sessions[id].primary == p && l.sessions[i].primary == p
    ensures i == id
  {
    assert SessionOk(l.sessions, l.bound, id) && SessionOk(l.sessions, l.bound, i);
  }

  lemma SlotHoldsItsNumber(l: Lobby, idx: nat)
    requires LobbyInv(l) && idx < l.reg.store.Allocated() && l.reg.store.slots[idx].Ref?
    ensures l.reg.store.slots[idx].value == idx
  {
    assert Entries(l.reg.store)[idx] == idx;
  }

  lemma OwnsNoOtherSlot(l: Lobby, p: int, id: nat, idx: nat)
    requires LobbyInv(l) && id in l.sessions && l.sessions[id].primary == p && idx != id
    ensures !OwnedAt(l.reg, l.sessions, p, idx)
  {
    if idx < l.reg.store.Allocated() && l.reg.store.slots[idx].Ref? {
      SlotHoldsItsNumber(l, idx);
      if idx in l.sessions && l.sessions[idx].primary == p { OwnerIsUnique(l, p, id, idx); }
    }
  }

  /** The loop finds the one session of its player and closes it like the end of a match would. */
  lemma {:induction false} PurgeFinds(l: Lobby, p: int, id: nat, idx: nat)
    requires LobbyInv(l) && id in l.sessions && l.sessions[id].primary == p && idx <= id
    ensures Purge(l.reg, l.sessions, p, idx) == (Closed(l.reg, id), l.sessions - {id})
    decreases id - idx
  {
    LiveSlot(l.reg, id);
    if idx == id {
      assert l.sessions[id].sessionId == id by { assert SessionOk(l.sessions, l.bound, id); }
      forall i | i in l.sessions - {id}
        ensures (l.sessions - {id})[i].primary != p
      {
        if l.sessions[i].primary == p { OwnerIsUnique(l, p, id, i); }
      }
      PurgeNothing(Closed(l.reg, id), l.sessions - {id}, p, id + 1);
    } else {
      OwnsNoOtherSlot(l, p, id, idx);
      PurgeFinds(l, p, id, idx + 1);
    }
  }

  /** Leaving closes the player's pending session, if there is one, and nothing else. */
  lemma LeaveIs(l: Lobby, p: int)
    requires LobbyInv(l) && Possible(l, Leaving(p))
    ensures l.bound[p] != UNBOUND ==>
      l.bound[p] >= 0 && l.bound[p] in l.sessions && l.sessions[l.bound[p] as nat].state.PendingPlayer?
    ensures Disconnect(l, p) ==
      if l.bound[p] == UNBOUND then l.(bound := l.bound - {p})
      else Lobby(Closed(l.reg, l.bound[p] as nat), l.sessions - {l.bound[p] as nat}, l.bound - {p})
  {
    assert PlayerOk(l.sessions, l.bound, p);
    OneSessionPerPlayer(l, p);
    if l.bound[p] == UNBOUND {
      PurgeNothing(l.reg, l.sessions, p, 0);
    } else {
      assert SessionOk(l.sessions, l.bound, l.bound[p] as nat);
      PurgeFinds(l, p, l.bound[p], 0);
    }
  }

  lemma LeaveKeeps(l: Lobby, p: int)
    requires LobbyInv(l) && Possible(l, Leaving(p))
    ensures LobbyInv(Disconnect(l, p))
  {
    LeaveIs(l, p);
    LeaveBinds(l.sessions, l.bound, p);
    if l.bound[p] != UNBOUND {
      CloseAccounts(l.reg, l.bound[p]);
    }
  }

  lemma StepKeepsLobbyInv(l: Lobby, s: Step)
    requires LobbyInv(l) && Possible(l, s)
    ensures LobbyInv(After(l, s))
  {
    match s
    case Connecting(p) => ConnectKeeps(l, p);
    case Creating(p, named) => CreateKeeps(l, p, named);
    case Starting(p, id, approved) => StartKeeps(l, p, id, approved);
    case Ending(id) => EndKeeps(l, id);
    case Leaving(p) => LeaveKeeps(l, p);
  }

  predicate PossibleRun(l: Lobby, steps: seq<Step>)
    decreases |steps|
  {
    steps == [] || (Possible(l, steps[0]) && PossibleRun(After(l, steps[0]), steps[1..]))
  }

  function AfterAll(l: Lobby, steps: seq<Step>): Lobby
    requires PossibleRun(l, steps)
    decreases |steps|
  {
    if steps == [] then l else AfterAll(After(l, steps[0]), steps[1..])
  }

  /** The bindings survive every run of the lobby. */
  lemma {:induction false} RunsKeepLobbyInv(l: Lobby, steps: seq<Step>)
    requires LobbyInv(l) && PossibleRun(l, steps)
    ensures LobbyInv(AfterAll(l, steps))
    decreases |steps|
  {
    if steps != [] {
      StepKeepsLobbyInv(l, steps[0]);
      RunsKeepLobbyInv(After(l, steps[0]), steps[1..]);
    }
  }

  lemma VacantInv()
    ensures LobbyInv(VACANT) && Lockstep(VACANT.reg)
  {
    EmptyInLockstep();
    assert Sessions(EMPTY) == {};
  }

  /** Every run of a server that has just started: nobody is ever in two sessions, and the active
      session is -1 exactly when no session names the player, otherwise the one that does. */
  lemma EveryRunBindsOnce(steps: seq<Step>, p: int)
    requires PossibleRun(VACANT, steps)
    ensures var l := AfterAll(VACANT, steps);
      && LobbyInv(l)
      && (forall i, j | i in l.sessions && j in l.sessions ::
            Names(l.sessions[i], p) && Names(l.sessions[j], p) ==> i == j)
      && (p in l.bound ==> (l.bound[p] == -1 <==> forall i | i in l.sessions :: !Names(l.sessions[i], p)))
      && (p in l.bound && l.bound[p] != -1 ==>
            forall i | i in l.sessions :: Names(l.sessions[i], p) <==> i == l.bound[p])
  {
    VacantInv();
    RunsKeepLobbyInv(VACANT, steps);
    OneSessionPerPlayer(AfterAll(VACANT, steps), p);
  }

  // ---------------------------------------------------------------- bindings and lockstep together

  /** A step of a lobby in lockstep that neither loses an identifier nor shrinks the array. Nothing is
      asked of a creation with a name but that identifiers stay within 16 bits. */
  ghost predicate Smooth(l: Lobby, s: Step) {
    match s
    case Connecting(p) => p !in l.bound
    case Creating(p, named) => p in l.bound && named && l.reg.pool.highest < ID_LIMIT
    case Starting(p, id, approved) => Possible(l, s)
    case Ending(id) => Possible(l, s) && Orderly(l.reg, Close(id))
    case Leaving(p) => Possible(l, s) && (l.bound[p] >= 0 ==> Orderly(l.reg, Close(l.bound[p])))
  }

  lemma SmoothIsPossible(l: Lobby, s: Step)
    requires LobbyInv(l) && Lockstep(l.reg) && Smooth(l, s)
    ensures Possible(l, s)
  {
    if s.Creating? {
      OpenKeepsLockstep(l.reg);
    }
  }

  lemma SmoothKeepsLockstep(l: Lobby, s: Step)
    requires LobbyInv(l) && Lockstep(l.reg) && Smooth(l, s) && Possible(l, s)
    ensures Lockstep(After(l, s).reg)
  {
    match s
    case Connecting(p) =>
    case Creating(p, named) => OpenKeepsLockstep(l.reg);
    case Starting(p, id, approved) =>
    case Ending(id) =>
      assert id in Entries(l.reg.store);
      CloseKeepsLockstep(l.reg, id);
    case Leaving(p) =>
      LeaveIs(l, p);
      assert PlayerOk(l.sessions, l.bound, p);
      if l.bound[p] != UNBOUND {
        CloseKeepsLockstep(l.reg, l.bound[p]);
      }
  }

  ghost predicate SmoothRun(l: Lobby, steps: seq<Step>)
    decreases |steps|
  {
    steps == [] ||
    (Smooth(l, steps[0]) && (Possible(l, steps[0]) ==> SmoothRun(After(l, steps[0]), steps[1..])))
  }

  predicate CreationsSucceed(l: Lobby) {
    l.reg.pool.highest < ID_LIMIT ==>
      forall p | p in l.bound && l.bound[p] == UNBOUND :: Create(l, p, true).0.Created?
  }

  /** Every step of a smooth run is possible, so no creation writes behind the array's block; bindings,
      identifiers and slots stay consistent, and the next creation by a free player succeeds. */
  lemma {:induction false} SmoothRunsStaySound(l: Lobby, steps: seq<Step>)
    requires LobbyInv(l) && Lockstep(l.reg) && SmoothRun(l, steps)
    ensures PossibleRun(l, steps) && LobbyInv(AfterAll(l, steps)) && Lockstep(AfterAll(l, steps).reg)
    ensures CreationsSucceed(AfterAll(l, steps))
    decreases |steps|
  {
    if steps == [] {
      if l.reg.pool.highest < ID_LIMIT {
        OpenKeepsLockstep(l.reg);
      }
    } else {
      SmoothIsPossible(l, steps[0]);
      StepKeepsLobbyInv(l, steps[0]);
      SmoothKeepsLockstep(l, steps[0]);
      SmoothRunsStaySound(After(l, steps[0]), steps[1..]);
    }
  }

  /** The same for every smooth run of a server that has just started. */
  lemma SmoothFromStart(steps: seq<Step>)
    requires SmoothRun(VACANT, steps)
    ensures PossibleRun(VACANT, steps)
    ensures LobbyInv(AfterAll(VACANT, steps)) && Lockstep(AfterAll(VACANT, steps).reg)
    ensures CreationsSucceed(AfterAll(VACANT, steps))
  {
    VacantInv();
    SmoothRunsStaySound(VACANT, steps);
  }
}
