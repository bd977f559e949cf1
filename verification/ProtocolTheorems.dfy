/** What the invariant means for players: theorems about every state that any run can reach. */
module ProtocolTheorems {
  import opened Board
  import opened TrisGame
  import opened Protocol
  import opened ProtocolInvariant

  /** States reached from two freshly opened windows by some sequence of actions. */
  ghost predicate Reachable(st: State) {
    exists st0: State, acts: seq<Action> :: Init(st0) && Run(st0, acts) == Reached(st)
  }

  lemma ReachableInv(st: State)
    requires Reachable(st)
    ensures Inv(st)
  {
    var st0: State, acts: seq<Action> :| Init(st0) && Run(st0, acts) == Reached(st);
    InitEstablishesInv(st0);
    RunKeepsInv(st0, acts);
  }

  lemma ReachableStep(st: State, a: Action)
    requires Reachable(st) && Enabled(st, a)
    ensures Reachable(Apply(st, a))
  {
    var st0: State, acts: seq<Action> :| Init(st0) && Run(st0, acts) == Reached(st);
    RunAppend(st0, acts, [a]);
    assert Run(st, [a]) == Run(Apply(st, a), []) == Reached(Apply(st, a));
  }

  // ---------------------------------------------------------------- boards

  /** The server's grid with the move that the acting player has under way. */
  function GridInFlight(st: State): Grid {
    var out := st.At(st.srv.acting).outbox;
    if StageOf(st.srv).Play? && out != [] && IsCell(out[0].value)
    then Place(st.srv.grid, out[0].value, st.srv.Sock(st.srv.acting))
    else st.srv.grid
  }

  /** A board with the acting player's outstanding move applied by whoever has not got it yet. */
  function BoardInFlight(st: State, x: Side): Grid {
    var d, out := Settled(st, x), st.At(st.srv.acting).outbox;
    if StageOf(st.srv).Play? && x != st.srv.acting && out != [] then OpponentApplied(d.board, d.mark, out[0].value)
    else d.board
  }

  lemma BoardAgreementInPlay(st: State)
    requires Inv(st) && StageOf(st.srv).Play?
    ensures BoardInFlight(st, st.srv.acting) == Marks(GridInFlight(st), st.srv.Sock(st.srv.starter))
    ensures BoardInFlight(st, st.srv.acting.Other()) == Marks(GridInFlight(st), st.srv.Sock(st.srv.starter))
  {
    var x, starter := st.srv.acting, st.srv.Sock(st.srv.starter);
    var out := st.At(x).outbox;
    if out != [] {
      MarksVacant(st.srv.grid, starter);
      MarksOfPlace(st.srv.grid, out[0].value, st.srv.Sock(x), starter);
    }
  }

  /** Board agreement: during a game and until its verdict is out, both clients' boards, brought up
      to date with everything in flight, are the mark image of the server's grid. While it lasts the
      starter plays mark 1 and the other player mark 2. */
  lemma BoardAgreement(st: State)
    requires Reachable(st) && (StageOf(st.srv).Play? || StageOf(st.srv).Ended?)
    ensures BoardInFlight(st, Primary) == Marks(GridInFlight(st), st.srv.Sock(st.srv.starter))
    ensures BoardInFlight(st, Secondary) == Marks(GridInFlight(st), st.srv.Sock(st.srv.starter))
    ensures StageOf(st.srv).Play? ==> forall x: Side :: Settled(st, x).mark == MarkOf(st.srv, x)
  {
    ReachableInv(st);
    if StageOf(st.srv).Play? {
      BoardAgreementInPlay(st);
    }
  }

  /** Where nothing is in flight the boards agree as they stand. */
  lemma QuietBoardsAgree(st: State, x: Side)
    requires Reachable(st) && st.srv.pc.AwaitMove?
    requires st.At(x).inbox == [] && st.At(st.srv.acting).outbox == []
    ensures st.At(x).client.board == Marks(st.srv.grid, st.srv.Sock(st.srv.starter))
  {
    ReachableInv(st);
    assert Pending(st, x) == [];
  }

  // ---------------------------------------------------------------- stream phase

  /** Every value a client reads as turn, move, status or verdict was written by the server as that
      kind; the value comes only when the client is due one; a move read hits a free cell. */
  lemma ClientStreamPhase(st: State, x: Side)
    requires Reachable(st) && ReadReady(st.At(x))
    ensures var c, p := st.At(x).client, st.At(x).inbox[0];
      && (c.reader.AtTurn? <==> p.kind.TurnMarker?)
      && (c.reader.AtMove? <==> p.kind.Move?)
      && (c.reader.AtStatus? <==> p.kind.Status?)
      && (c.reader.AtVerdict? <==> p.kind.Verdict?)
      && !(c.readerToken && MayClick(c))
      && (p.kind.Move? ==> Vacant(c.board, p.value))
  {
    ReachableInv(st);
    assert Pending(st, x)[0] == st.At(x).inbox[0];
  }

  /** The other direction: what the server reads as a move or as an answer was written as one. */
  lemma ServerStreamPhase(st: State)
    requires Reachable(st)
    ensures st.srv.pc.AwaitMove? && ServerReady(st) ==> st.At(st.srv.acting).outbox[0].kind.Move?
    ensures forall x: Side :: PollReady(st, x) ==> st.At(x).outbox[0].kind.Verdict?
  {
    ReachableInv(st);
  }

  /** Once a rematch is refused the server's next read starts on a frame boundary, and after both
      clients have read the refusal all four channels are empty. */
  lemma RefusalLeavesNothing(st: State)
    requires Reachable(st) && StageOf(st.srv).Closed?
    ensures st.p.outbox == [] && st.s.outbox == []
    ensures st.srv.pc.Finished? && st.p.client.reader.Gone? && st.s.client.reader.Gone? ==>
              st.p.inbox == [] && st.s.inbox == []
  {
    ReachableInv(st);
    if st.srv.pc.Finished? && st.p.client.reader.Gone? && st.s.client.reader.Gone? {
      assert Pending(st, Primary) == st.p.inbox && Pending(st, Secondary) == st.s.inbox;
      assert Expects(st.p.client) == Nothing && Expects(st.s.client) == Nothing;
    }
  }

  // ---------------------------------------------------------------- turns

  /** Only the player the server is reading can make a move. */
  lemma TurnSafety(st: State, x: Side, y: Side, cell: int, cell2: int)
    requires Reachable(st) && ClickReady(st.At(x).client, cell)
    ensures StageOf(st.srv).Play? && x == st.srv.acting && st.At(x).outbox == []
    ensures ClickReady(st.At(y).client, cell2) ==> y == x
  {
    ReachableInv(st);
    ClickKeepsInv(st, x, cell);
    ClickContext(st, x);
    if ClickReady(st.At(y).client, cell2) {
      ClickKeepsInv(st, y, cell2);
    }
  }

  /** The session's fields as the rest of the server sees them: while a game goes on the turn index is
      the socket of the player being served and the state is in-progress; once its result is out the
      index names the player who moved last; a refused rematch leaves the session concluded. */
  lemma SessionFieldsFollow(st: State)
    requires Reachable(st)
    ensures st.srv.pc.AwaitMove? ==> st.srv.turnIdx == st.srv.Sock(st.srv.acting) && st.srv.state.InProgress?
    ensures st.srv.pc.Poll? ==> st.srv.turnIdx == st.srv.Sock(st.srv.acting.Other()) && st.srv.state.Concluded?
    ensures st.srv.pc.Poll? && StatusNow(st.srv) != DRAW ==> st.srv.turnIdx == StatusNow(st.srv)
    ensures st.srv.pc.Finished? ==> st.srv.state.Concluded?
  {
    ReachableInv(st);
    VictorMeaning(st.srv.grid, st.srv.sockP, st.srv.sockS);
  }

  /** How many values can be on their way to a client in this position at most. */
  function Room(c: Client): nat {
    match c.reader
    case AtTurn => 3
    case AtMove => 2
    case AtStatus => if c.uiToken then (if c.readerToken then 0 else 1) else if c.readerToken then 3 else 4
    case AtVerdict => 4
    case Over => 0
    case Gone => 0
  }

  lemma {:induction false} AlignedFitsRoom(c: Client, ps: seq<Packet>)
    requires Aligned(c, ps)
    ensures |ps| <= Room(c)
    decreases |ps|
  {
    if ps != [] {
      AlignedFitsRoom(Consume(c, ps[0].value), ps[1..]);
    }
  }

  /** At most one message is in flight from a client and at most four are towards it, those the
      server has yet to send included. */
  lemma ChannelBounds(st: State, x: Side)
    requires Reachable(st)
    ensures |st.At(x).outbox| <= 1
    ensures |st.At(x).inbox| <= |Pending(st, x)| <= 4
  {
    ReachableInv(st);
    AlignedFitsRoom(st.At(x).client, Pending(st, x));
  }

  // ---------------------------------------------------------------- legality

  /** The server checks nothing, yet every cell it writes is inside the grid and still free. */
  lemma LegalityByComposition(st: State)
    requires Reachable(st)
    ensures st.srv.pc != Corrupt
    ensures st.srv.pc.AwaitMove? && ServerReady(st) ==> Vacant(st.srv.grid, st.At(st.srv.acting).outbox[0].value)
  {
    ReachableInv(st);
  }

  predicate AgreesToRematch(st: State, a: Action) {
    st.srv.pc.Poll? && a.ServerStep? && ServerReady(st) && Decide(st.srv).pc == VerdictToPrimary(APPROVE)
  }

  /** Coordinates the server accepts along a run. */
  function AcceptedMoves(st: State, acts: seq<Action>): nat
    requires Run(st, acts).Reached?
    decreases |acts|
  {
    if acts == [] then 0
    else (if st.srv.pc.AwaitMove? && acts[0].ServerStep? then 1 else 0)
         + AcceptedMoves(Apply(st, acts[0]), acts[1..])
  }

  predicate NoRematchAgreed(st: State, acts: seq<Action>)
    requires Run(st, acts).Reached?
    decreases |acts|
  {
    acts == [] || (!AgreesToRematch(st, acts[0]) && NoRematchAgreed(Apply(st, acts[0]), acts[1..]))
  }

  lemma GridAfterStep(st: State, a: Action)
    requires Inv(st) && Enabled(st, a) && !AgreesToRematch(st, a)
    ensures Vacancies(Apply(st, a).srv.grid) ==
            Vacancies(st.srv.grid) - (if st.srv.pc.AwaitMove? && a.ServerStep? then 1 else 0)
  {
    if st.srv.pc.AwaitMove? && a.ServerStep? {
      AwaitedMove(st);
      PlaceFillsVacancy(st.srv.grid, st.At(st.srv.acting).outbox[0].value - 1, st.srv.Sock(st.srv.acting));
    } else {
      assert Apply(st, a).srv.grid == st.srv.grid;
    }
  }

  /** Between two agreed rematches each accepted move uses up one free cell, so a game has at most
      as many moves as its grid had free cells, and nine at the very most. */
  lemma {:induction false} MovesUseUpVacancies(st: State, acts: seq<Action>)
    requires Inv(st) && Run(st, acts).Reached? && NoRematchAgreed(st, acts)
    ensures AcceptedMoves(st, acts) + Vacancies(Run(st, acts).st.srv.grid) == Vacancies(st.srv.grid)
    ensures AcceptedMoves(st, acts) <= 9
    decreases |acts|
  {
    VacanciesBound(st.srv.grid);
    if acts != [] {
      GridAfterStep(st, acts[0]);
      StepKeepsInv(st, acts[0]);
      MovesUseUpVacancies(Apply(st, acts[0]), acts[1..]);
    }
  }

  // ---------------------------------------------------------------- verdicts

  /** What each window shows when the game is over. */
  predicate SeesWin(c: Client) {
    c.finalStatus == c.sock
  }

  /** On every reachable grid at most one player owns a line, the order in which the two players are
      checked is immaterial, and -1 and -2 mean full without and open without a line. While the game
      goes on nobody owns one; when it is over its owner, if any, is the player who moved last. */
  lemma VerdictSoundness(st: State)
    requires Reachable(st)
    ensures var g, a, b := st.srv.grid, st.srv.sockP, st.srv.sockS;
      && AtMostOneOwner(g, a, b) && Victor(g, a, b) == Victor(g, b, a)
      && (Victor(g, a, b) == DRAW <==> Full(g) && !HasLine(g, a) && !HasLine(g, b))
      && (Victor(g, a, b) == OPEN <==> !Full(g) && !HasLine(g, a) && !HasLine(g, b))
      && (StageOf(st.srv).Play? ==> Victor(g, a, b) == OPEN)
      && (StageOf(st.srv).Ended? && Victor(g, a, b) != DRAW ==>
            && Victor(g, a, b) == st.srv.Sock(st.srv.acting.Other())
            && HasLine(g, st.srv.Sock(st.srv.acting.Other()))
            && !HasLine(g, st.srv.Sock(st.srv.acting)))
  {
    ReachableInv(st);
    VictorMeaning(st.srv.grid, st.srv.sockP, st.srv.sockS);
  }

  /** Both windows announce the same outcome: exactly one of them a win, or both a draw. The board
      each of them holds, judged by the client's own algorithm, tells the same. */
  lemma OutcomesAgree(st: State)
    requires Reachable(st) && StageOf(st.srv).Ended?
    requires st.p.client.reader.Over? && st.s.client.reader.Over?
    ensures st.p.client.finalStatus == st.s.client.finalStatus == StatusNow(st.srv)
    ensures st.p.client.finalStatus != DRAW ==> (SeesWin(st.p.client) <==> !SeesWin(st.s.client))
    ensures st.p.client.finalStatus == DRAW ==> !SeesWin(st.p.client) && !SeesWin(st.s.client)
    ensures st.p.client.finalStatus == DRAW <==>
              ClientWinner(st.p.client.board) == 0 && Full(st.p.client.board)
    ensures forall x: Side :: SeesWin(st.At(x).client) <==> ClientWinner(st.p.client.board) == MarkOf(st.srv, x)
    ensures st.p.client.board == st.s.client.board
  {
    ReachableInv(st);
    var g, x, y := st.srv.grid, st.srv.starter, st.srv.starter.Other();
    assert Pending(st, Primary) == [] && Pending(st, Secondary) == [];
    VictorMeaning(g, st.srv.sockP, st.srv.sockS);
    WinnerAlgorithmsAgree(g, st.srv.Sock(x), st.srv.Sock(y));
  }

  // ---------------------------------------------------------------- rematches

  /** A rematch is granted exactly when both players asked for one, and both clients will read the
      same answer and go on, or leave, together. */
  lemma RematchAgreement(st: State)
    requires Reachable(st) && st.srv.pc.Poll? && ServerReady(st)
    ensures st.p.client.reader.AtVerdict? && st.s.client.reader.AtVerdict?
    ensures var next := ServerApply(st, true);
      && (next.srv.pc == VerdictToPrimary(APPROVE) <==> st.p.client.wantsRematch && st.s.client.wantsRematch)
      && (next.srv.pc == VerdictToPrimary(APPROVE) || next.srv.pc == VerdictToPrimary(DECLINE))
      && (forall x: Side :: Pending(next, x) == [Packet(Verdict, next.srv.pc.answer)])
      && (forall x: Side :: if next.srv.pc.answer == APPROVE then Settled(next, x).reader.AtTurn?
                            else Settled(next, x).reader.Gone?)
  {
    ReachableInv(st);
    var next := ServerApply(st, true);
    ServerKeepsInv(st, true);
    forall x: Side
      ensures Pending(st, x) == [] && st.At(x).client.reader.AtVerdict?
      ensures st.srv.PollOf(x) == Got(VerdictWord(st.At(x).client.wantsRematch))
      ensures Pending(next, x) == [Packet(Verdict, next.srv.pc.answer)]
    {
      BothPolled(st, x);
      SettledAtVerdict(st.At(x).client, Pending(st, x));
    }
  }

  /** Only a client that is waiting for its verdict can still be waiting after draining: no message
      leads back to that position. */
  lemma {:induction false} SettledAtVerdict(c: Client, ps: seq<Packet>)
    requires Aligned(c, ps) && Drain(c, ps).reader.AtVerdict?
    ensures ps == [] && c.reader.AtVerdict?
    decreases |ps|
  {
    if ps != [] {
      SettledAtVerdict(Consume(c, ps[0].value), ps[1..]);
    }
  }

  /** A client about to read a turn marker: what is on its way leads into the game and, at most, to the
      opponent's first move on its board. */
  lemma AfterTurnMarker(c: Client, ps: seq<Packet>) returns (i: nat, v: int)
    requires Aligned(c, ps) && c.reader.AtTurn? && ps != []
    ensures Drain(c, ps).mark == Consume(c, ps[0].value).mark
    ensures Drain(c, ps).reader.AtMove? || Drain(c, ps).reader.AtStatus? || Drain(c, ps).reader.Over?
    ensures i < 9 && Drain(c, ps).board == BLANK[i := v]
  {
    i, v := 0, 0;
    var c1, ps1 := Consume(c, ps[0].value), ps[1..];
    if ps1 == [] {
      assert Drain(c, ps) == c1 && c1.board == BLANK == BLANK[0 := 0];
    } else {
      assert Fits(c1, ps1[0]) && c1.reader.AtMove?;
      var c2, ps2 := Consume(c1, ps1[0].value), ps1[1..];
      i, v := ps1[0].value - 1, OppMark(c1.mark);
      assert c2.board == BLANK[i := v];
      assert Drain(c, ps) == Drain(c2, ps2) && Aligned(c2, ps2);
      if ps2 != [] {
        var c3, ps3 := Consume(c2, ps2[0].value), ps2[1..];
        assert Aligned(c3, ps3) && Expects(c3) == Nothing;
        assert Drain(c2, ps2) == Drain(c3, ps3);
        assert ps3 == [];
      }
    }
  }

  /** A board with at most one mark is an open game. */
  lemma OneMoveIsOpen(srv: Server, i: nat, v: int)
    requires ServerOk(srv) && i < 9 && BoardOf(srv) == BLANK[i := v]
    ensures StatusNow(srv) == OPEN
  {
    var g, starter := srv.grid, srv.Sock(srv.starter);
    forall k | 0 <= k < 9 && k != i
      ensures g[k] == 0
    {
      assert Marks(g, starter)[k] == Mark(g[k], starter) == BLANK[k];
    }
    VictorMeaning(g, srv.sockP, srv.sockS);
    assert g[if i == 0 then 1 else 0] == 0;
  }

  /** Every game starts from blank boards: the server's before it sends the turn markers, and each
      client's from the moment it reads its own. By then the game is on, with mark 1 and both tokens for
      the server's starter and mark 2 and none for the other. */
  lemma BlankStart(st: State, x: Side)
    requires Reachable(st)
    ensures StageOf(st.srv).Fresh? || st.srv.pc.TurnToPrimary? || st.srv.pc.TurnToSecondary? ==> st.srv.grid == BLANK
    ensures ReadReady(st.At(x)) && st.At(x).client.reader.AtTurn? ==>
      var c := ReadApply(st.At(x)).client;
      && StageOf(st.srv).Play? && c.board == BLANK && c.mark == MarkOf(st.srv, x)
      && (c.uiToken <==> x == st.srv.starter) && (c.readerToken <==> x == st.srv.starter)
  {
    ReachableInv(st);
    if ReadReady(st.At(x)) && st.At(x).client.reader.AtTurn? {
      var ps := Pending(st, x);
      assert ps[0] == st.At(x).inbox[0];
      var i, v := AfterTurnMarker(st.At(x).client, ps);
      if StageOf(st.srv).Ended? {
        OneMoveIsOpen(st.srv, i, v);
      }
    }
  }

  /** Once both clients wait for the turn marker of the rematch, the system is again in an initial
      state: nothing is left in any channel. */
  lemma RematchIsInitial(st: State)
    requires Reachable(st) && st.srv.pc.PickStarter?
    requires st.p.client.reader.AtTurn? && st.s.client.reader.AtTurn?
    ensures Init(st)
  {
    ReachableInv(st);
    assert Pending(st, Primary) == st.p.inbox && Pending(st, Secondary) == st.s.inbox;
    SettledAtTurn(st.p.client, st.p.inbox);
    SettledAtTurn(st.s.client, st.s.inbox);
  }

  lemma {:induction false} SettledAtTurn(c: Client, ps: seq<Packet>)
    requires Aligned(c, ps) && Drain(c, ps).reader.AtTurn?
    ensures c.reader.AtTurn? || c.reader.AtVerdict?
    ensures c.reader.AtTurn? ==> ps == []
    decreases |ps|
  {
    if ps != [] {
      SettledAtTurn(Consume(c, ps[0].value), ps[1..]);
    }
  }

  // ---------------------------------------------------------------- no leak between games

  predicate AlikeClients(c: Client, d: Client) {
    && c.sock == d.sock && c.reader == d.reader && c.uiToken == d.uiToken
    && (!c.reader.AtTurn? ==> c.mark == d.mark && c.board == d.board && c.readerToken == d.readerToken)
    && (c.reader.Over? ==> c.finalStatus == d.finalStatus)
    && (c.reader.AtVerdict? ==> c.wantsRematch == d.wantsRematch)
  }

  predicate AlikeServers(a: Server, b: Server) {
    && a.pc == b.pc && a.sockP == b.sockP && a.sockS == b.sockS && a.grid == b.grid
    && (!a.pc.PickStarter? ==> a.acting == b.acting && a.turnIdx == b.turnIdx && a.starter == b.starter)
    && (a.pc.Poll? ==> a.pollP == b.pollP && a.pollS == b.pollS)
  }

  predicate AlikeEnds(a: End, b: End) {
    AlikeClients(a.client, b.client) && a.inbox == b.inbox && a.outbox == b.outbox
  }

  /** Equal in everything the parties can still observe. */
  predicate Alike(a: State, b: State) {
    AlikeServers(a.srv, b.srv) && AlikeEnds(a.p, b.p) && AlikeEnds(a.s, b.s)
  }

  lemma AlikeRead(a: End, b: End)
    requires AlikeEnds(a, b) && ReadReady(a)
    ensures ReadReady(b) && AlikeEnds(ReadApply(a), ReadApply(b))
  {
  }

  lemma AlikeServer(a: State, b: State, coin: bool)
    requires Alike(a, b) && ServerReady(a)
    ensures ServerReady(b) && Alike(ServerApply(a, coin), ServerApply(b, coin))
  {
    match a.srv.pc
    case PickStarter =>
    case AwaitMove =>
      var cell := a.At(a.srv.acting).outbox[0].value;
      assert AlikeServers(Accept(a.srv, cell), Accept(b.srv, cell));
    case Poll =>
    case TurnToPrimary =>
    case TurnToSecondary =>
    case RelayMove(cell) =>
      assert StatusNow(a.srv) == StatusNow(b.srv);
    case StatusToPrimary(status) =>
    case StatusToSecondary(status) =>
    case VerdictToPrimary(answer) =>
    case VerdictToSecondary(answer) =>
  }

  lemma AlikeStep(a: State, b: State, act: Action)
    requires Alike(a, b) && Enabled(a, act)
    ensures Enabled(b, act) && Alike(Apply(a, act), Apply(b, act))
  {
    match act
    case ServerStep(coin) => AlikeServer(a, b, coin);
    case PollStep(x) =>
    case ClientRead(x) => AlikeRead(a.At(x), b.At(x));
    case Click(x, cell) => assert AlikeEnds(a.At(x), b.At(x));
    case Choose(x, wants) => assert AlikeEnds(a.At(x), b.At(x));
  }

  /** No state leaks from an earlier game: whatever the two systems went through before, from two
      initial states with the same sockets the same actions give the same grids, messages and boards. */
  lemma {:induction false} RematchForgetsThePast(a: State, b: State, acts: seq<Action>)
    requires Alike(a, b) || (Init(a) && Init(b) && a.srv.sockP == b.srv.sockP && a.srv.sockS == b.srv.sockS)
    requires Run(a, acts).Reached?
    ensures Run(b, acts).Reached? && Alike(Run(a, acts).st, Run(b, acts).st)
    decreases |acts|
  {
    if acts != [] {
      AlikeStep(a, b, acts[0]);
      RematchForgetsThePast(Apply(a, acts[0]), Apply(b, acts[0]), acts[1..]);
    }
  }
}
