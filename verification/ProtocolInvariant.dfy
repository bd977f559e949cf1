/** The inductive invariant of the match protocol.

    Everything that one client is still going to read (its channel, and behind it what the server
    has committed itself to send) is drained into the client ahead of time. The drained clients
    always stand in one of four simple relations to the server, whatever is in flight. */
module ProtocolInvariant {
  import opened Board
  import opened TrisGame
  import opened Protocol

  // ---------------------------------------------------------------- draining a channel

  datatype Expectation = Nothing | Next(kind: Kind)

  /** The kind of value a client in this position must receive next. A client whose own move is
      still outstanding must receive nothing, although its reader is blocked on a status. */
  function Expects(c: Client): Expectation {
    match c.reader
    case AtTurn => Next(TurnMarker)
    case AtMove => Next(Move)
    case AtStatus => if c.readerToken && c.uiToken then Nothing else Next(Status)
    case AtVerdict => Next(Verdict)
    case Over => Nothing
    case Gone => Nothing
  }

  /** The value is of the kind the client takes it for, and a move names a free cell of its board. */
  predicate Fits(c: Client, p: Packet) {
    Expects(c) == Next(p.kind) && (p.kind.Move? ==> Vacant(c.board, p.value))
  }

  /** So do all values of the channel, each at the position where it will be read. */
  predicate Aligned(c: Client, ps: seq<Packet>)
    decreases |ps|
  {
    ps == [] || (Fits(c, ps[0]) && Aligned(Consume(c, ps[0].value), ps[1..]))
  }

  function Drain(c: Client, ps: seq<Packet>): Client
    decreases |ps|
  {
    if ps == [] then c else Drain(Consume(c, ps[0].value), ps[1..])
  }

  lemma {:induction false} DrainAppend(c: Client, xs: seq<Packet>, ys: seq<Packet>)
    ensures Aligned(c, xs + ys) <==> Aligned(c, xs) && Aligned(Drain(c, xs), ys)
    ensures Drain(c, xs + ys) == Drain(Drain(c, xs), ys)
    decreases |xs|
  {
    if xs == [] {
      assert xs + ys == ys;
    } else {
      assert (xs + ys)[1..] == xs[1..] + ys;
      DrainAppend(Consume(c, xs[0].value), xs[1..], ys);
    }
  }

  lemma {:induction false} DrainKeepsSocket(c: Client, ps: seq<Packet>)
    ensures Drain(c, ps).sock == c.sock
    decreases |ps|
  {
    if ps != [] {
      DrainKeepsSocket(Consume(c, ps[0].value), ps[1..]);
    }
  }

  /** What the server will still send to `x` before it next waits for anybody. */
  function Backlog(srv: Server, x: Side): seq<Packet> {
    match srv.pc
    case TurnToPrimary => [Packet(TurnMarker, srv.turnIdx)]
    case TurnToSecondary => if x == Secondary then [Packet(TurnMarker, srv.turnIdx)] else []
    case RelayMove(cell) =>
      (if x == srv.acting then [Packet(Move, cell)] else []) + [Packet(Status, StatusNow(srv))]
    case StatusToPrimary(status) => [Packet(Status, status)]
    case StatusToSecondary(status) => if x == Secondary then [Packet(Status, status)] else []
    case VerdictToPrimary(answer) => [Packet(Verdict, answer)]
    case VerdictToSecondary(answer) => if x == Secondary then [Packet(Verdict, answer)] else []
    case _ => []
  }

  function Pending(st: State, x: Side): seq<Packet> {
    st.At(x).inbox + Backlog(st.srv, x)
  }

  /** The client once it has read everything that is on its way. */
  function Settled(st: State, x: Side): Client {
    Drain(st.At(x).client, Pending(st, x))
  }

  // ---------------------------------------------------------------- the four relations

  datatype Stage = Play | Ended | Fresh | Closed | Broken

  function StageOf(srv: Server): Stage {
    match srv.pc
    case PickStarter => Fresh
    case TurnToPrimary => Play
    case TurnToSecondary => Play
    case AwaitMove => Play
    case RelayMove(_) => if StatusNow(srv) == OPEN then Play else Ended
    case StatusToPrimary(status) => if status == OPEN then Play else Ended
    case StatusToSecondary(status) => if status == OPEN then Play else Ended
    case Poll => Ended
    case VerdictToPrimary(answer) => if answer == APPROVE then Fresh else Closed
    case VerdictToSecondary(answer) => if answer == APPROVE then Fresh else Closed
    case Finished => Closed
    case Corrupt => Broken
  }

  predicate Sockets(srv: Server) {
    srv.sockP > 0 && srv.sockS > 0 && srv.sockP != srv.sockS
  }

  /** The session's own fields: the turn index names the player the server is serving, after the game
      the one who moved last, and the lifecycle state follows the loop. */
  predicate FieldsOk(srv: Server) {
    match srv.pc
    case PickStarter => true
    case Poll => srv.turnIdx == srv.Sock(srv.acting.Other()) && srv.state.Concluded?
    case VerdictToPrimary(answer) => if answer == APPROVE then srv.state.InProgress? else srv.state.Concluded?
    case VerdictToSecondary(answer) => if answer == APPROVE then srv.state.InProgress? else srv.state.Concluded?
    case Finished => srv.state.Concluded?
    case Corrupt => true
    case _ => srv.turnIdx == srv.Sock(srv.acting) && srv.state.InProgress?
  }

  predicate ServerOk(srv: Server) {
    && Sockets(srv) && FieldsOk(srv)
    && Between(srv.grid, srv.sockP, srv.sockS)
    && AtMostOneOwner(srv.grid, srv.sockP, srv.sockS)
    && (match srv.pc
        case TurnToPrimary => srv.grid == BLANK && srv.acting == srv.starter
        case TurnToSecondary => srv.grid == BLANK && srv.acting == srv.starter
        case StatusToPrimary(status) => status == StatusNow(srv)
        case StatusToSecondary(status) => status == StatusNow(srv)
        case VerdictToPrimary(answer) => answer == APPROVE || answer == DECLINE
        case VerdictToSecondary(answer) => answer == APPROVE || answer == DECLINE
        case _ => true)
    && (StageOf(srv).Play? ==> StatusNow(srv) == OPEN)
    && (StageOf(srv).Ended? ==> StatusNow(srv) != OPEN && !HasLine(srv.grid, srv.Sock(srv.acting)))
    && (StageOf(srv).Fresh? ==> srv.grid == BLANK)
  }

  function MarkOf(srv: Server, x: Side): int {
    if x == srv.starter then 1 else 2
  }

  function BoardOf(srv: Server): Grid {
    Marks(srv.grid, srv.Sock(srv.starter))
  }

  /** The player the server is reading: it holds both tokens, or its move is already under way. */
  predicate Mover(srv: Server, d: Client, outbox: seq<Packet>) {
    && d.reader.AtStatus? && d.readerToken && d.mark == MarkOf(srv, srv.acting)
    && (if d.uiToken then outbox == [] && d.board == BoardOf(srv)
        else
          && |outbox| == 1 && outbox[0].kind.Move?
          && Vacant(srv.grid, outbox[0].value)
          && d.board == Place(BoardOf(srv), outbox[0].value, d.mark))
  }

  predicate Waiter(srv: Server, d: Client, outbox: seq<Packet>) {
    && d.reader.AtMove? && !d.readerToken && !d.uiToken && d.mark == MarkOf(srv, srv.acting.Other())
    && outbox == [] && d.board == BoardOf(srv)
  }

  function VerdictWord(wants: bool): int {
    if wants then APPROVE else DECLINE
  }

  /** A player whose game is over: still undecided, answered but unread, or read by the server. */
  predicate Finalist(srv: Server, x: Side, d: Client, outbox: seq<Packet>) {
    && d.board == BoardOf(srv) && d.finalStatus == StatusNow(srv)
    && (|| (d.reader.Over? && outbox == [] && (srv.pc.Poll? ==> srv.PollOf(x).Unasked?))
        || (d.reader.AtVerdict? && outbox == [Packet(Verdict, VerdictWord(d.wantsRematch))]
            && (srv.pc.Poll? ==> srv.PollOf(x).Unasked?))
        || (d.reader.AtVerdict? && outbox == [] && srv.pc.Poll? && srv.PollOf(x) == Got(VerdictWord(d.wantsRematch))))
  }

  predicate Related(srv: Server, x: Side, d: Client, outbox: seq<Packet>) {
    match StageOf(srv)
    case Play => if x == srv.acting then Mover(srv, d, outbox) else Waiter(srv, d, outbox)
    case Ended => Finalist(srv, x, d, outbox)
    case Fresh => d.reader.AtTurn? && !d.uiToken && outbox == []
    case Closed => d.reader.Gone? && outbox == []
    case Broken => false
  }

  predicate EndOk(st: State, x: Side) {
    && st.At(x).client.sock == st.srv.Sock(x)
    && Aligned(st.At(x).client, Pending(st, x))
    && Related(st.srv, x, Settled(st, x), st.At(x).outbox)
  }

  predicate Inv(st: State) {
    ServerOk(st.srv) && EndOk(st, Primary) && EndOk(st, Secondary)
  }

  lemma InitEstablishesInv(st: State)
    requires Init(st)
    ensures Inv(st)
  {
    assert Pending(st, Primary) == [] && Pending(st, Secondary) == [];
  }

  // ---------------------------------------------------------------- preservation, action by action

  /** The end of `x` when its client does not act and `extra` is added to what is on its way. */
  lemma EndExtended(st: State, st2: State, x: Side, extra: seq<Packet>)
    requires st2.At(x).client == st.At(x).client
    requires Pending(st2, x) == Pending(st, x) + extra
    ensures Settled(st2, x) == Drain(Settled(st, x), extra)
    ensures Aligned(st2.At(x).client, Pending(st2, x)) <==>
            Aligned(st.At(x).client, Pending(st, x)) && Aligned(Settled(st, x), extra)
  {
    DrainAppend(st.At(x).client, Pending(st, x), extra);
  }

  predicate Sending(pc: Pc) {
    !pc.PickStarter? && !pc.AwaitMove? && !pc.Poll? && !pc.Finished? && !pc.Corrupt?
  }

  /** A send moves a committed packet into the channel: what is on its way does not change. */
  lemma SendKeepsPending(st: State, coin: bool, x: Side)
    requires Sending(st.srv.pc)
    ensures Pending(ServerApply(st, coin), x) == Pending(st, x)
    ensures ServerApply(st, coin).At(x).client == st.At(x).client
    ensures ServerApply(st, coin).At(x).outbox == st.At(x).outbox
  {
    var st2 := ServerApply(st, coin);
    assert Pending(st2, x) == Pending(st, x) by {
      assert st2.At(x).inbox == st.At(x).inbox || |st2.At(x).inbox| == |st.At(x).inbox| + 1;
    }
  }

  /** The relation of a client to the server depends on the stage, not on the statement reached. */
  lemma RelatedWithinStage(a: Server, b: Server, x: Side, d: Client, outbox: seq<Packet>)
    requires Related(a, x, d, outbox)
    requires StageOf(a) == StageOf(b) && a.grid == b.grid && a.sockP == b.sockP && a.sockS == b.sockS
    requires a.acting == b.acting && a.starter == b.starter
    requires !a.pc.Poll? && (b.pc.Poll? ==> b.PollOf(x).Unasked?)
    ensures Related(b, x, d, outbox)
  {
  }

  lemma SendKeepsServerOk(st: State, coin: bool)
    requires ServerOk(st.srv) && Sending(st.srv.pc)
    ensures ServerOk(ServerApply(st, coin).srv)
    ensures var a, b := st.srv, ServerApply(st, coin).srv;
      && StageOf(a) == StageOf(b) && a.grid == b.grid && a.sockP == b.sockP && a.sockS == b.sockS
      && a.acting == b.acting && a.starter == b.starter
      && (b.pc.Poll? ==> b.pollP.Unasked? && b.pollS.Unasked?)
  {
  }

  lemma SendKeepsInv(st: State, coin: bool)
    requires Inv(st) && Sending(st.srv.pc)
    ensures Inv(ServerApply(st, coin))
  {
    var st2 := ServerApply(st, coin);
    SendKeepsServerOk(st, coin);
    forall x: Side
      ensures EndOk(st2, x)
    {
      SendKeepsPending(st, coin, x);
      RelatedWithinStage(st.srv, st2.srv, x, Settled(st, x), st.At(x).outbox);
    }
  }

  lemma PickKeepsInv(st: State, coin: bool)
    requires Inv(st) && st.srv.pc.PickStarter?
    ensures Inv(ServerApply(st, coin))
  {
    var st2 := ServerApply(st, coin);
    var turn := [Packet(TurnMarker, st2.srv.turnIdx)];
    assert BoardOf(st2.srv) == BLANK;
    forall x: Side
      ensures EndOk(st2, x)
    {
      assert Pending(st2, x) == Pending(st, x) + turn;
      EndExtended(st, st2, x, turn);
      DrainKeepsSocket(st.At(x).client, Pending(st, x));
      assert Aligned(Consume(Settled(st, x), turn[0].value), []);
    }
  }

  /** Both answers are in, so both clients wait for the verdict and the server holds what they wrote. */
  lemma BothPolled(st: State, x: Side)
    requires Inv(st) && st.srv.pc.Poll? && ServerReady(st)
    ensures var d := Settled(st, x);
      d.reader.AtVerdict? && st.At(x).outbox == [] && st.srv.PollOf(x) == Got(VerdictWord(d.wantsRematch))
  {
  }

  function AnswerOf(srv: Server): int {
    if srv.pollP == Got(APPROVE) && srv.pollS == Got(APPROVE) then APPROVE else DECLINE
  }

  lemma DecideKeepsEnd(st: State, st2: State, x: Side)
    requires st.srv.pc.Poll? && Sockets(st.srv) && st2 == st.(srv := Decide(st.srv))
    requires st.At(x).client.sock == st.srv.Sock(x) && Aligned(st.At(x).client, Pending(st, x))
    requires Settled(st, x).reader.AtVerdict? && st.At(x).outbox == []
    requires st.srv.PollOf(x) == Got(VerdictWord(Settled(st, x).wantsRematch))
    ensures EndOk(st2, x)
  {
    var word := [Packet(Verdict, AnswerOf(st.srv))];
    assert Pending(st, x) == st.At(x).inbox;
    assert Pending(st2, x) == Pending(st, x) + word;
    EndExtended(st, st2, x, word);
    var d := Settled(st, x);
    assert Aligned(d, word) by {
      assert Aligned(Consume(d, word[0].value), []);
    }
    assert Settled(st2, x) == Consume(d, word[0].value);
  }

  lemma DecideKeepsServerOk(srv: Server)
    requires ServerOk(srv) && srv.pc.Poll?
    ensures ServerOk(Decide(srv))
  {
  }

  /** Both answers are in: the common verdict is committed, and it lets both clients go on exactly
      when both wanted to. */
  lemma DecideKeepsInv(st: State, coin: bool)
    requires Inv(st) && st.srv.pc.Poll? && ServerReady(st)
    ensures Inv(ServerApply(st, coin))
  {
    var st2 := ServerApply(st, coin);
    DecideKeepsServerOk(st.srv);
    forall x: Side
      ensures EndOk(st2, x)
    {
      BothPolled(st, x);
      DecideKeepsEnd(st, st2, x);
    }
  }

  /** The grid after the received move: legal, still with at most one owner, and the mover's alone. */
  lemma AcceptedGrid(srv: Server, cell: int)
    requires ServerOk(srv) && srv.pc.AwaitMove? && Vacant(srv.grid, cell)
    ensures ServerOk(Accept(srv, cell))
    ensures Accept(srv, cell).acting == srv.acting.Other()
    ensures BoardOf(Accept(srv, cell)) == Place(BoardOf(srv), cell, MarkOf(srv, srv.acting))
  {
    var mover, other := srv.Sock(srv.acting), srv.Sock(srv.acting.Other());
    var after := Accept(srv, cell);
    VictorMeaning(srv.grid, srv.sockP, srv.sockS);
    OnlyMoverGainsLine(srv.grid, cell, mover, other);
    VictorMeaning(after.grid, srv.sockP, srv.sockS);
    MarksOfPlace(srv.grid, cell, mover, srv.Sock(srv.starter));
  }

  lemma AwaitedMove(st: State)
    requires Inv(st) && st.srv.pc.AwaitMove? && ServerReady(st)
    ensures var e := st.At(st.srv.acting);
      |e.outbox| == 1 && e.outbox[0].kind.Move? && Vacant(st.srv.grid, e.outbox[0].value)
    ensures var d := Settled(st, st.srv.acting);
      d.reader.AtStatus? && d.readerToken && !d.uiToken
  {
  }

  lemma AcceptKeepsMover(st: State, coin: bool)
    requires Inv(st) && st.srv.pc.AwaitMove? && ServerReady(st)
    ensures EndOk(ServerApply(st, coin), st.srv.acting)
  {
    AwaitedMove(st);
    var x, st2 := st.srv.acting, ServerApply(st, coin);
    AcceptedGrid(st.srv, st.At(x).outbox[0].value);
    var word := Packet(Status, StatusNow(st2.srv));
    assert Pending(st2, x) == Pending(st, x) + [word];
    EndExtended(st, st2, x, [word]);
    assert Aligned(Consume(Settled(st, x), word.value), []);
  }

  lemma AcceptKeepsWaiter(st: State, coin: bool)
    requires Inv(st) && st.srv.pc.AwaitMove? && ServerReady(st)
    ensures EndOk(ServerApply(st, coin), st.srv.acting.Other())
  {
    AwaitedMove(st);
    var y, st2 := st.srv.acting.Other(), ServerApply(st, coin);
    var cell := st.At(st.srv.acting).outbox[0].value;
    AcceptedGrid(st.srv, cell);
    MarksVacant(st.srv.grid, st.srv.Sock(st.srv.starter));
    var word := Packet(Status, StatusNow(st2.srv));
    var both := [Packet(Move, cell), word];
    assert Pending(st2, y) == Pending(st, y) + both;
    EndExtended(st, st2, y, both);
    var moved := Consume(Settled(st, y), cell);
    assert both[1..] == [word];
    assert Drain(Settled(st, y), both) == Drain(moved, [word]);
    assert Aligned(moved, [word]) by {
      assert Aligned(Consume(moved, word.value), []);
    }
    assert Drain(moved, [word]) == Consume(moved, word.value);
  }

  lemma AcceptKeepsInv(st: State, coin: bool)
    requires Inv(st) && st.srv.pc.AwaitMove? && ServerReady(st)
    ensures Inv(ServerApply(st, coin))
  {
    AwaitedMove(st);
    AcceptedGrid(st.srv, st.At(st.srv.acting).outbox[0].value);
    AcceptKeepsMover(st, coin);
    AcceptKeepsWaiter(st, coin);
  }

  lemma ServerKeepsInv(st: State, coin: bool)
    requires Inv(st) && ServerReady(st)
    ensures Inv(ServerApply(st, coin))
  {
    match st.srv.pc
    case PickStarter => PickKeepsInv(st, coin);
    case AwaitMove => AcceptKeepsInv(st, coin);
    case Poll => DecideKeepsInv(st, coin);
    case _ => SendKeepsInv(st, coin);
  }

  lemma PollKeepsEnd(st: State, x: Side, z: Side)
    requires ServerOk(st.srv) && EndOk(st, z) && PollReady(st, x)
    ensures EndOk(PollApply(st, x), z)
  {
    assert Pending(PollApply(st, x), z) == Pending(st, z);
  }

  lemma PollKeepsInv(st: State, x: Side)
    requires Inv(st) && PollReady(st, x)
    ensures Inv(PollApply(st, x))
  {
    PollKeepsEnd(st, x, Primary);
    PollKeepsEnd(st, x, Secondary);
  }

  /** An end nobody touches stays as it is. */
  lemma EndUntouched(st: State, x: Side, e: End)
    requires EndOk(st, x.Other())
    ensures EndOk(st.With(x, e), x.Other())
  {
    assert Pending(st.With(x, e), x.Other()) == Pending(st, x.Other());
  }

  lemma InvFromEnds(st: State, x: Side, e: End)
    requires Inv(st) && EndOk(st.With(x, e), x)
    ensures Inv(st.With(x, e))
  {
    EndUntouched(st, x, e);
  }

  lemma ReadKeepsEnd(st: State, x: Side)
    requires EndOk(st, x) && ReadReady(st.At(x))
    ensures EndOk(st.With(x, ReadApply(st.At(x))), x)
  {
    var st2 := st.With(x, ReadApply(st.At(x)));
    assert Pending(st, x)[0] == st.At(x).inbox[0] && Pending(st2, x) == Pending(st, x)[1..];
  }

  /** Reading takes the front of what is on its way, so the settled client does not change. */
  lemma ReadKeepsInv(st: State, x: Side)
    requires Inv(st) && ReadReady(st.At(x))
    ensures Inv(st.With(x, ReadApply(st.At(x))))
  {
    ReadKeepsEnd(st, x);
    InvFromEnds(st, x, ReadApply(st.At(x)));
  }

  lemma ChooseKeepsEnd(st: State, x: Side, wants: bool)
    requires EndOk(st, x) && st.At(x).client.reader.Over?
    ensures EndOk(st.With(x, ChooseApply(st.At(x), wants)), x)
  {
    assert Pending(st, x) == [];
    assert Pending(st.With(x, ChooseApply(st.At(x), wants)), x) == [];
  }

  lemma ChooseKeepsInv(st: State, x: Side, wants: bool)
    requires Inv(st) && st.At(x).client.reader.Over?
    ensures Inv(st.With(x, ChooseApply(st.At(x), wants)))
  {
    ChooseKeepsEnd(st, x, wants);
    InvFromEnds(st, x, ChooseApply(st.At(x), wants));
  }

  // ---------------------------------------------------------------- clicks

  /** Nothing is on its way to a client that may move, except possibly the status of the opponent's
      move, and then its board is already the settled one. */
  lemma ClickContext(st: State, x: Side)
    requires Inv(st) && MayClick(st.At(x).client)
    ensures var c := st.At(x).client;
      && (if c.readerToken then Pending(st, x) == []
          else Pending(st, x) == [Packet(Status, Pending(st, x)[0].value)])
      && Settled(st, x).board == c.board && Settled(st, x).mark == c.mark
      && Settled(st, x).uiToken
      && (StageOf(st.srv).Play? ==> x == st.srv.acting && Pending(st, x) in {[], [Packet(Status, OPEN)]})
      && (StageOf(st.srv).Play? || StageOf(st.srv).Ended?)
      && (StageOf(st.srv).Ended? ==> !c.readerToken)
  {
    var c, ps := st.At(x).client, Pending(st, x);
    if !c.readerToken {
      assert ps != [];
      var after := Consume(c, ps[0].value);
      assert Expects(after) == Nothing;
      assert Aligned(after, ps[1..]);
      assert ps[1..] == [] && ps == [ps[0]];
      assert Settled(st, x) == Drain(after, ps[1..]) == after;
    }
  }

  /** The player's own board tells whether the move it answers ended the game with a line. */
  lemma ClickSeesWin(st: State, x: Side)
    requires Inv(st) && (StageOf(st.srv).Play? || StageOf(st.srv).Ended?)
    requires Settled(st, x).board == BoardOf(st.srv)
    ensures ClientWinner(BoardOf(st.srv)) == 0 <==> StatusNow(st.srv) == OPEN || StatusNow(st.srv) == DRAW
  {
    var a, b := st.srv.Sock(st.srv.starter), st.srv.Sock(st.srv.starter.Other());
    VictorMeaning(st.srv.grid, st.srv.sockP, st.srv.sockS);
    WinnerAlgorithmsAgree(st.srv.grid, a, b);
  }

  lemma ClickInPlay(st: State, x: Side, cell: int)
    requires Inv(st) && ClickReady(st.At(x).client, cell)
    ensures StageOf(st.srv).Play? && x == st.srv.acting
  {
    ClickContext(st, x);
    ClickSeesWin(st, x);
    MarksVacant(st.srv.grid, st.srv.Sock(st.srv.starter));
    VictorMeaning(st.srv.grid, st.srv.sockP, st.srv.sockS);
    assert StageOf(st.srv).Ended? ==> Full(st.srv.grid);
  }

  lemma ClickKeepsEnd(st: State, x: Side, cell: int)
    requires EndOk(st, x) && StageOf(st.srv).Play? && x == st.srv.acting && Sockets(st.srv)
    requires ClickReady(st.At(x).client, cell)
    requires Pending(st, x) in {[], [Packet(Status, OPEN)]}
    requires st.At(x).client.readerToken ==> Pending(st, x) == []
    ensures EndOk(st.With(x, ClickApply(st.At(x), cell)), x)
  {
    var st2 := st.With(x, ClickApply(st.At(x), cell));
    var c := st.At(x).client;
    MarksVacant(st.srv.grid, st.srv.Sock(st.srv.starter));
    assert Pending(st2, x) == Pending(st, x);
    if Pending(st, x) != [] {
      assert Drain(c, [Packet(Status, OPEN)]) == Consume(c, OPEN);
      assert Drain(st2.At(x).client, [Packet(Status, OPEN)]) == Consume(st2.At(x).client, OPEN);
      assert Aligned(Consume(st2.At(x).client, OPEN), []);
    }
  }

  lemma ClickKeepsInv(st: State, x: Side, cell: int)
    requires Inv(st) && ClickReady(st.At(x).client, cell)
    ensures Inv(st.With(x, ClickApply(st.At(x), cell)))
    ensures StageOf(st.srv).Play? && x == st.srv.acting
  {
    ClickInPlay(st, x, cell);
    ClickContext(st, x);
    ClickKeepsEnd(st, x, cell);
    InvFromEnds(st, x, ClickApply(st.At(x), cell));
  }

  lemma StepKeepsInv(st: State, a: Action)
    requires Inv(st) && Enabled(st, a)
    ensures Inv(Apply(st, a))
  {
    match a
    case ServerStep(coin) => ServerKeepsInv(st, coin);
    case PollStep(x) => PollKeepsInv(st, x);
    case ClientRead(x) => ReadKeepsInv(st, x);
    case Click(x, cell) => ClickKeepsInv(st, x, cell);
    case Choose(x, wants) => ChooseKeepsInv(st, x, wants);
  }

  /** Safety over whole runs, any number of rematches included. */
  lemma {:induction false} RunKeepsInv(st: State, acts: seq<Action>)
    requires Inv(st) && Run(st, acts).Reached?
    ensures Inv(Run(st, acts).st)
    decreases |acts|
  {
    if acts != [] {
      StepKeepsInv(st, acts[0]);
      RunKeepsInv(Apply(st, acts[0]), acts[1..]);
    }
  }
}
