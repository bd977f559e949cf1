/** The server's match loop as it is written: nested loops over a session whose fields and grid
    change in place. Each statement that touches a channel is recorded as one action of the protocol,
    and the recorded trace always leads from the start to the state the fields are in. */
module MatchServer {
  import opened Board
  import opened ServerGrid
  import opened Protocol

  lemma TraceExtended(start: State, trace: seq<Action>, mid: State, a: Action)
    requires Run(start, trace) == Reached(mid) && Enabled(mid, a)
    ensures Run(start, trace + [a]) == Reached(Apply(mid, a))
  {
    RunAppend(start, trace, [a]);
    assert Run(mid, [a]) == Run(Apply(mid, a), []);
  }

  predicate ByServer(a: Action) {
    a.ServerStep? || a.PollStep?
  }

  class MatchSession {
    const sockP: int
    const sockS: int
    const gridMatrix: array2<int>
    var activeTurnIdx: int
    var currentState: SessionState
    /** The thread's own variables: the node it serves and what the two polling threads brought. */
    var acting: Side
    var outcomeP: Answer
    var outcomeS: Answer
    /** The two sockets: what was sent to each player and what each player has written. */
    var toP: seq<Packet>
    var toS: seq<Packet>
    var fromP: seq<Packet>
    var fromS: seq<Packet>

    /** History: the statement reached, who began, the players as they stand, and the run so far. */
    ghost var pc: Pc
    ghost var starter: Side
    ghost const clientP: Client
    ghost const clientS: Client
    ghost const start: State
    ghost var trace: seq<Action>

    ghost function View(): State
      requires Is3x3(gridMatrix)
      reads this, gridMatrix
    {
      State(Server(pc, sockP, sockS, Cells(gridMatrix), acting, activeTurnIdx, currentState, starter,
                   outcomeP, outcomeS),
            End(clientP, toP, fromP), End(clientS, toS, fromS))
    }

    ghost predicate Valid()
      reads this, gridMatrix
    {
      && Is3x3(gridMatrix) && sockP != sockS
      && Run(start, trace) == Reached(View())
      && forall a | a in trace :: ByServer(a)
    }

    /** A session about to enter the loop, with whatever the two players write. */
    constructor (sockP: int, sockS: int, grid: array2<int>, ghost clientP: Client, ghost clientS: Client,
                 fromP: seq<Packet>, fromS: seq<Packet>)
      requires Is3x3(grid) && sockP != sockS
      ensures Valid() && trace == [] && pc == PickStarter && gridMatrix == grid
      ensures View().p == End(clientP, [], fromP) && View().s == End(clientS, [], fromS)
      ensures View().srv.sockP == sockP && View().srv.sockS == sockS && View().srv.grid == Cells(grid)
    {
      this.sockP, this.sockS, gridMatrix := sockP, sockS, grid;
      activeTurnIdx, currentState, acting, outcomeP, outcomeS := 0, InProgress, Primary, Unasked, Unasked;
      toP, toS, this.fromP, this.fromS := [], [], fromP, fromS;
      pc, starter, trace := PickStarter, Primary, [];
      this.clientP, this.clientS := clientP, clientS;
      start := State(Server(PickStarter, sockP, sockS, Cells(grid), Primary, 0, InProgress, Primary, Unasked, Unasked),
                     End(clientP, [], fromP), End(clientS, [], fromS));
    }

    /** Closes one statement: it took the system from `before` to the fields' present values. */
    ghost method Record(before: State, a: Action)
      requires Is3x3(gridMatrix) && sockP != sockS && ByServer(a)
      requires Run(start, trace) == Reached(before) && forall b | b in trace :: ByServer(b)
      requires Enabled(before, a) && Apply(before, a) == View()
      modifies this`trace
      ensures Valid() && trace == old(trace) + [a]
    {
      TraceExtended(start, trace, before, a);
      trace := trace + [a];
    }

    method Send(x: Side, kind: Kind, value: int)
      modifies this`toP, this`toS
      ensures toP == if x == Primary then old(toP) + [Packet(kind, value)] else old(toP)
      ensures toS == if x == Secondary then old(toS) + [Packet(kind, value)] else old(toS)
    {
      if x == Primary {
        toP := toP + [Packet(kind, value)];
      } else {
        toS := toS + [Packet(kind, value)];
      }
    }

    /** A blocking read; with nothing written yet the thread stays where it is. */
    method Receive(x: Side) returns (got: bool, value: int)
      modifies this`fromP, this`fromS
      ensures var was := old(if x == Primary then fromP else fromS);
        && (got <==> was != [])
        && (got ==> value == was[0].value)
        && fromP == (if got && x == Primary then old(fromP)[1..] else old(fromP))
        && fromS == (if got && x == Secondary then old(fromS)[1..] else old(fromS))
    {
      got, value := false, 0;
      if x == Primary && fromP != [] {
        got, value, fromP := true, fromP[0].value, fromP[1..];
      } else if x == Secondary && fromS != [] {
        got, value, fromS := true, fromS[0].value, fromS[1..];
      }
    }

    /** Makes the drawn player the starter and sends it to both players. */
    method AnnounceTurn(coin: bool)
      requires Valid() && pc.PickStarter?
      modifies this`activeTurnIdx, this`currentState, this`acting, this`starter, this`pc, this`trace, this`toP, this`toS
      ensures Valid() && pc.AwaitMove? && |trace| == |old(trace)| + 3 && old(trace) <= trace
      ensures starter == acting == (if coin then Secondary else Primary)
      ensures activeTurnIdx == if coin then sockS else sockP
      ensures toP == old(toP) + [Packet(TurnMarker, activeTurnIdx)]
      ensures toS == old(toS) + [Packet(TurnMarker, activeTurnIdx)]
    {
      ghost var before := View();
      activeTurnIdx := if coin then sockS else sockP;
      currentState := InProgress;
      acting := if activeTurnIdx != sockP then Secondary else Primary;
      starter := acting;
      pc := TurnToPrimary;
      Record(before, ServerStep(coin));
      TellTurn();
    }

    method TellTurn()
      requires Valid() && pc.TurnToPrimary?
      modifies this`pc, this`trace, this`toP, this`toS
      ensures Valid() && pc.AwaitMove? && |trace| == |old(trace)| + 2 && old(trace) <= trace
      ensures toP == old(toP) + [Packet(TurnMarker, activeTurnIdx)]
      ensures toS == old(toS) + [Packet(TurnMarker, activeTurnIdx)]
    {
      ghost var before := View();
      Send(Primary, TurnMarker, activeTurnIdx);
      pc := TurnToSecondary;
      Record(before, ServerStep(true));
      before := View();
      Send(Secondary, TurnMarker, activeTurnIdx);
      pc := AwaitMove;
      Record(before, ServerStep(true));
    }

    /** One turn: read a coordinate, write the grid, pass the turn on, relay the move, and send the
        status to both. `OPEN` is also the answer when the player has not written its move yet. */
    method ServeTurn() returns (served: bool, coreStatus: int)
      requires Valid() && pc.AwaitMove?
      modifies this, gridMatrix
      ensures Valid() && old(trace) <= trace && (served ==> |trace| > |old(trace)|)
      ensures !served ==> (pc.Corrupt? || (pc.AwaitMove? && View().At(acting).outbox == []))
      ensures served ==>
        if coreStatus == OPEN then pc.AwaitMove? else pc.Poll? && outcomeP.Unasked? && outcomeS.Unasked?
      ensures served ==> |fromP| + |fromS| < |old(fromP)| + |old(fromS)|
    {
      served, coreStatus := false, OPEN;
      ghost var before := View();
      var got, cell := Receive(acting);
      if !got {
        assert View() == before;
        return;
      }
      if !IsCell(cell) {
        pc := Corrupt;
        Record(before, ServerStep(true));
        return;
      }
      WriteCell(gridMatrix, cell, if acting == Primary then sockP else sockS);
      acting := DispatchActiveNode(sockP, sockS, if acting == Primary then sockP else sockS);
      activeTurnIdx := if acting == Primary then sockP else sockS;
      pc := RelayMove(cell);
      Record(before, ServerStep(true));
      coreStatus := RelayAndReport(cell);
      served := true;
    }

    method RelayAndReport(cell: int) returns (coreStatus: int)
      requires Valid() && pc == RelayMove(cell)
      modifies this`toP, this`toS, this`pc, this`trace
      modifies this`activeTurnIdx, this`currentState, this`outcomeP, this`outcomeS
      ensures Valid() && old(trace) <= trace && |trace| == |old(trace)| + 3
      ensures coreStatus == Victor(Cells(gridMatrix), sockP, sockS)
      ensures if coreStatus == OPEN then pc.AwaitMove? else pc.Poll? && outcomeP.Unasked? && outcomeS.Unasked?
    {
      ghost var before := View();
      Send(acting, Move, cell);
      coreStatus := CalculateSessionVictor(gridMatrix, sockP, sockS);
      pc := StatusToPrimary(coreStatus);
      Record(before, ServerStep(true));
      ReportToPrimary(coreStatus);
      ReportToSecondary(coreStatus);
    }

    method ReportToPrimary(coreStatus: int)
      requires Valid() && pc == StatusToPrimary(coreStatus)
      modifies this`toP, this`toS, this`pc, this`trace
      ensures Valid() && pc == StatusToSecondary(coreStatus)
      ensures old(trace) <= trace && |trace| == |old(trace)| + 1
    {
      ghost var before := View();
      Send(Primary, Status, coreStatus);
      pc := StatusToSecondary(coreStatus);
      Record(before, ServerStep(true));
    }

    /** The last message of a turn; a final status also closes the game. */
    method ReportToSecondary(coreStatus: int)
      requires Valid() && pc == StatusToSecondary(coreStatus)
      modifies this`toP, this`toS, this`pc, this`trace
      modifies this`activeTurnIdx, this`currentState, this`outcomeP, this`outcomeS
      ensures Valid() && old(trace) <= trace && |trace| == |old(trace)| + 1
      ensures if coreStatus == OPEN then pc.AwaitMove? else pc.Poll? && outcomeP.Unasked? && outcomeS.Unasked?
    {
      ghost var before := View();
      Send(Secondary, Status, coreStatus);
      if coreStatus == OPEN {
        pc := AwaitMove;
      } else {
        activeTurnIdx := DispatchTurnMarker(sockP, sockS, activeTurnIdx);
        currentState := Concluded;
        outcomeP, outcomeS := Unasked, Unasked;
        pc := Poll;
      }
      Record(before, ServerStep(true));
    }

    /** One polling thread: the answer of one player, if it has been written. */
    method PollPlayer(x: Side)
      requires Valid() && pc.Poll? && View().srv.PollOf(x).Unasked?
      modifies this`fromP, this`fromS, this`outcomeP, this`outcomeS, this`trace
      ensures Valid() && old(trace) <= trace
      ensures |fromP| + |fromS| <= |old(fromP)| + |old(fromS)|
      ensures var other := x.Other(); View().srv.PollOf(other) == old(View()).srv.PollOf(other)
      ensures View().At(x.Other()).outbox == old(View()).At(x.Other()).outbox
      ensures View().srv.PollOf(x).Got? || View().At(x).outbox == []
    {
      ghost var before := View();
      var got, verdict := Receive(x);
      if !got {
        assert View() == before;
        return;
      }
      if x == Primary {
        outcomeP := Got(verdict);
      } else {
        outcomeS := Got(verdict);
      }
      Record(before, PollStep(x));
    }

    /** Both answers, the common verdict, and for a rematch the wiped grid. */
    method InvokeRematch() returns (answered: bool, again: bool)
      requires Valid() && pc.Poll? && outcomeP.Unasked? && outcomeS.Unasked?
      modifies this, gridMatrix
      ensures Valid() && old(trace) <= trace
      ensures |fromP| + |fromS| <= |old(fromP)| + |old(fromS)|
      ensures answered ==> if again then pc.PickStarter? && Cells(gridMatrix) == BLANK else pc.Finished?
      ensures !answered ==>
        pc.Poll? && !ServerReady(View()) && !PollReady(View(), Primary) && !PollReady(View(), Secondary)
    {
      answered, again := false, false;
      PollPlayer(Primary);
      PollPlayer(Secondary);
      if outcomeP.Unasked? || outcomeS.Unasked? {
        return;
      }
      again := DecideAndTell();
      answered := true;
    }

    method DecideAndTell() returns (again: bool)
      requires Valid() && pc.Poll? && outcomeP.Got? && outcomeS.Got?
      modifies this`toP, this`toS, this`pc, this`trace, this`currentState, gridMatrix
      ensures Valid() && old(trace) <= trace
      ensures again <==> outcomeP == Got(APPROVE) && outcomeS == Got(APPROVE)
      ensures if again then pc.PickStarter? && Cells(gridMatrix) == BLANK else pc.Finished?
    {
      ghost var before := View();
      var answer;
      if outcomeP.value != APPROVE || outcomeS.value != APPROVE {
        answer, again, currentState := DECLINE, false, Concluded;
      } else {
        answer, again, currentState := APPROVE, true, InProgress;
        WipeTopologicalGrid(gridMatrix);
      }
      pc := VerdictToPrimary(answer);
      Record(before, ServerStep(true));
      TellVerdict(answer);
    }

    method TellVerdict(answer: int)
      requires Valid() && pc == VerdictToPrimary(answer)
      modifies this`toP, this`toS, this`pc, this`trace
      ensures Valid() && old(trace) <= trace
      ensures pc == if answer == APPROVE then PickStarter else Finished
    {
      ghost var before := View();
      Send(Primary, Verdict, answer);
      pc := VerdictToSecondary(answer);
      Record(before, ServerStep(true));
      before := View();
      Send(Secondary, Verdict, answer);
      pc := if answer == APPROVE then PickStarter else Finished;
      Record(before, ServerStep(true));
    }

    /** The whole match, rematches included: runs until the server is done or nobody has written what
        it waits for. What it did is a run of the protocol's server actions from the state it began in,
        and at the end no further server action is possible. */
    method ExecuteCoreLoop() returns (finished: bool)
      requires Valid() && pc.PickStarter? && trace == []
      modifies this, gridMatrix
      ensures Valid() && Run(old(View()), trace) == Reached(View())
      ensures forall a | a in trace :: ByServer(a)
      ensures finished <==> pc.Finished?
      ensures !ServerReady(View()) && !PollReady(View(), Primary) && !PollReady(View(), Secondary)
    {
      assert Run(start, []) == Reached(start);
      var rematchAccepted := true;
      while rematchAccepted
        invariant Valid() && (if rematchAccepted then pc.PickStarter? else pc.Finished?)
        decreases |fromP| + |fromS|, rematchAccepted
      {
        ghost var waiting := |fromP| + |fromS|;
        var coin: bool := *;
        AnnounceTurn(coin);
        var coreStatus := OPEN;
        while coreStatus == OPEN
          invariant Valid() && |fromP| + |fromS| <= waiting
          invariant if coreStatus == OPEN then pc.AwaitMove? else
            pc.Poll? && outcomeP.Unasked? && outcomeS.Unasked? && |fromP| + |fromS| < waiting
          decreases |fromP| + |fromS|, coreStatus == OPEN
        {
          var served;
          served, coreStatus := ServeTurn();
          if !served {
            return false;
          }
        }
        var answered, again := InvokeRematch();
        if !answered {
          return false;
        }
        rematchAccepted := again;
      }
      return true;
    }
  }
}
