/** One match between two clients and the server, as a state machine over single sends, reads,
    clicks and answers. Four FIFO channels join the parties; each statement of the server that
    touches a channel is a step of its own, so every interleaving with the clients is a run.

    A packet's kind is what its writer meant. No party ever looks at it: clients and server
    interpret a value by position alone. The kind exists to state that both sides agree. */
module Protocol {
  import opened Board
  import opened TrisGame

  const APPROVE := 5
  const DECLINE := 6

  datatype Side = Primary | Secondary
  {
    function Other(): Side {
      if this == Primary then Secondary else Primary
    }
  }

  datatype Kind = TurnMarker | Move | Status | Verdict
  datatype Packet = Packet(kind: Kind, value: int)

  // ---------------------------------------------------------------- the client

  /** Where the client's reader stands in its loop. */
  datatype Reader = AtTurn | AtMove | AtStatus | Over | AtVerdict | Gone

  /** `readerToken` belongs to the reader thread, `uiToken` to the window: the window's token goes up
      with the opponent's move, the reader's only with the status that follows it. */
  datatype Client = Client(
    sock: int, reader: Reader, readerToken: bool, uiToken: bool,
    mark: int, board: Grid, finalStatus: int, wantsRematch: bool)

  predicate Reading(c: Client) {
    c.reader.AtTurn? || c.reader.AtMove? || c.reader.AtStatus? || c.reader.AtVerdict?
  }

  /** What the client does with the next value of its input, by position alone. */
  function Consume(c: Client, v: int): Client {
    match c.reader
    case AtTurn =>
      var local := v == c.sock;
      c.(reader := if local then AtStatus else AtMove, readerToken := local, uiToken := local,
         mark := if local then 1 else 2, board := BLANK)
    case AtMove =>
      c.(reader := AtStatus, uiToken := c.uiToken || IsCell(v), board := OpponentApplied(c.board, c.mark, v))
    case AtStatus =>
      if v != OPEN then c.(reader := Over, finalStatus := v)
      else c.(reader := if c.readerToken then AtMove else AtStatus, readerToken := !c.readerToken)
    case AtVerdict =>
      if c.wantsRematch && v == APPROVE then c.(reader := AtTurn, uiToken := false) else c.(reader := Gone)
    case Over => c
    case Gone => c
  }

  /** The window lets the player act: its token is up and the final status has not frozen the grid. */
  predicate MayClick(c: Client) {
    c.uiToken && c.reader.AtStatus?
  }

  function Clicked(c: Client, cell: int): Client
    requires IsCell(cell)
  {
    c.(board := Place(c.board, cell, c.mark), uiToken := false)
  }

  function Answered(c: Client, wants: bool): Client {
    c.(reader := AtVerdict, wantsRematch := wants)
  }

  // ---------------------------------------------------------------- the server

  datatype SessionState = Concluded | InProgress | PendingPlayer | FreshInstance

  /** The next statement of the server's loop that touches a channel or draws the starter.
      `Corrupt` stands for the grid write outside the grid that the server does not guard against. */
  datatype Pc =
    | PickStarter
    | TurnToPrimary | TurnToSecondary
    | AwaitMove
    | RelayMove(cell: int)
    | StatusToPrimary(status: int) | StatusToSecondary(status: int)
    | Poll
    | VerdictToPrimary(answer: int) | VerdictToSecondary(answer: int)
    | Finished
    | Corrupt

  datatype Answer = Unasked | Got(value: int)

  datatype Server = Server(
    pc: Pc, sockP: int, sockS: int, grid: Grid,
    acting: Side, turnIdx: int, state: SessionState,
    starter: Side, pollP: Answer, pollS: Answer)
  {
    function Sock(x: Side): int {
      if x == Primary then sockP else sockS
    }

    function PollOf(x: Side): Answer {
      if x == Primary then pollP else pollS
    }
  }

  function DispatchActiveNode(sockP: int, sockS: int, current: int): Side {
    if current != sockP then Primary else Secondary
  }

  function DispatchTurnMarker(base1: int, base2: int, current: int): int {
    if current != base1 then base1 else base2
  }

  function StatusNow(srv: Server): int {
    Victor(srv.grid, srv.sockP, srv.sockS)
  }

  /** The server's grid write and change of turn for one received coordinate. */
  function Accept(srv: Server, cell: int): Server {
    if !IsCell(cell) then srv.(pc := Corrupt)
    else
      var next := DispatchActiveNode(srv.sockP, srv.sockS, srv.Sock(srv.acting));
      srv.(grid := Place(srv.grid, cell, srv.Sock(srv.acting)), acting := next, turnIdx := srv.Sock(next),
           pc := RelayMove(cell))
  }

  function Decide(srv: Server): Server {
    if srv.pollP != Got(APPROVE) || srv.pollS != Got(APPROVE) then
      srv.(state := Concluded, pc := VerdictToPrimary(DECLINE))
    else
      srv.(state := InProgress, grid := BLANK, pc := VerdictToPrimary(APPROVE))
  }

  // ---------------------------------------------------------------- the whole system

  /** One player's end: the client, the channel towards it and the channel from it. */
  datatype End = End(client: Client, inbox: seq<Packet>, outbox: seq<Packet>)

  datatype State = State(srv: Server, p: End, s: End)
  {
    function At(x: Side): End {
      if x == Primary then p else s
    }

    function With(x: Side, e: End): State {
      if x == Primary then this.(p := e) else this.(s := e)
    }

    function Send(x: Side, kind: Kind, value: int): State {
      With(x, At(x).(inbox := At(x).inbox + [Packet(kind, value)]))
    }

    function Goto(pc: Pc): State {
      this.(srv := srv.(pc := pc))
    }
  }

  datatype Action =
    | ServerStep(coin: bool)
    | PollStep(side: Side)
    | ClientRead(side: Side)
    | Click(side: Side, cell: int)
    | Choose(side: Side, wants: bool)

  predicate ServerReady(st: State) {
    match st.srv.pc
    case AwaitMove => st.At(st.srv.acting).outbox != []
    case Poll => st.srv.pollP.Got? && st.srv.pollS.Got?
    case Finished => false
    case Corrupt => false
    case _ => true
  }

  predicate PollReady(st: State, x: Side) {
    st.srv.pc.Poll? && st.srv.PollOf(x).Unasked? && st.At(x).outbox != []
  }

  predicate ReadReady(e: End) {
    Reading(e.client) && e.inbox != []
  }

  /** A click that the window forwards and the client's board accepts. The last condition is the
      assumption on the player: no click on a board that already shows a completed line. It holds of
      every client that waits for the status of the opponent's move before it offers a move. */
  predicate ClickReady(c: Client, cell: int) {
    MayClick(c) && MoveOutcomeOf(c.board, cell).Accepted? && ClientWinner(c.board) == 0
  }

  predicate Enabled(st: State, a: Action) {
    match a
    case ServerStep(_) => ServerReady(st)
    case PollStep(x) => PollReady(st, x)
    case ClientRead(x) => ReadReady(st.At(x))
    case Click(x, cell) => ClickReady(st.At(x).client, cell)
    case Choose(x, _) => st.At(x).client.reader.Over?
  }

  function ServerApply(st: State, coin: bool): State
    requires ServerReady(st)
  {
    var srv := st.srv;
    match srv.pc
    case PickStarter =>
      var x := if coin then Secondary else Primary;
      st.(srv := srv.(turnIdx := srv.Sock(x), state := InProgress, acting := x, starter := x, pc := TurnToPrimary))
    case TurnToPrimary =>
      st.Send(Primary, TurnMarker, srv.turnIdx).Goto(TurnToSecondary)
    case TurnToSecondary =>
      st.Send(Secondary, TurnMarker, srv.turnIdx).Goto(AwaitMove)
    case AwaitMove =>
      var e := st.At(srv.acting);
      st.With(srv.acting, e.(outbox := e.outbox[1..])).(srv := Accept(srv, e.outbox[0].value))
    case RelayMove(cell) =>
      st.Send(srv.acting, Move, cell).Goto(StatusToPrimary(StatusNow(srv)))
    case StatusToPrimary(status) =>
      st.Send(Primary, Status, status).Goto(StatusToSecondary(status))
    case StatusToSecondary(status) =>
      var sent := st.Send(Secondary, Status, status);
      if status == OPEN then sent.Goto(AwaitMove)
      else sent.(srv := srv.(
        turnIdx := DispatchTurnMarker(srv.sockP, srv.sockS, srv.turnIdx),
        state := Concluded, pollP := Unasked, pollS := Unasked, pc := Poll))
    case Poll =>
      st.(srv := Decide(srv))
    case VerdictToPrimary(answer) =>
      st.Send(Primary, Verdict, answer).Goto(VerdictToSecondary(answer))
    case VerdictToSecondary(answer) =>
      st.Send(Secondary, Verdict, answer).Goto(if answer == APPROVE then PickStarter else Finished)
  }

  function PollApply(st: State, x: Side): State
    requires PollReady(st, x)
  {
    var e := st.At(x);
    var got := Got(e.outbox[0].value);
    st.With(x, e.(outbox := e.outbox[1..]))
      .(srv := if x == Primary then st.srv.(pollP := got) else st.srv.(pollS := got))
  }

  function ReadApply(e: End): End
    requires ReadReady(e)
  {
    e.(client := Consume(e.client, e.inbox[0].value), inbox := e.inbox[1..])
  }

  function ClickApply(e: End, cell: int): End
    requires IsCell(cell)
  {
    e.(client := Clicked(e.client, cell), outbox := e.outbox + [Packet(Move, cell)])
  }

  function ChooseApply(e: End, wants: bool): End {
    e.(client := Answered(e.client, wants),
       outbox := e.outbox + [Packet(Verdict, if wants then APPROVE else DECLINE)])
  }

  function Apply(st: State, a: Action): State
    requires Enabled(st, a)
  {
    match a
    case ServerStep(coin) => ServerApply(st, coin)
    case PollStep(x) => PollApply(st, x)
    case ClientRead(x) => st.With(x, ReadApply(st.At(x)))
    case Click(x, cell) => st.With(x, ClickApply(st.At(x), cell))
    case Choose(x, wants) => st.With(x, ChooseApply(st.At(x), wants))
  }

  /** Both clients have opened their window and wait for the first turn marker. The old contents of
      the boards, marks and tokens are arbitrary apart from the raised token. */
  predicate Init(st: State) {
    && st.srv.sockP > 0 && st.srv.sockS > 0 && st.srv.sockP != st.srv.sockS
    && st.p.client.sock == st.srv.sockP && st.s.client.sock == st.srv.sockS
    && st.srv.pc == PickStarter && st.srv.grid == BLANK
    && st.p.client.reader.AtTurn? && !st.p.client.uiToken && st.p.inbox == [] && st.p.outbox == []
    && st.s.client.reader.AtTurn? && !st.s.client.uiToken && st.s.inbox == [] && st.s.outbox == []
  }

  /** The state after a sequence of actions, if each was enabled in its turn. */
  datatype Outcome = Reached(st: State) | Refused

  function Run(st: State, acts: seq<Action>): Outcome
    decreases |acts|
  {
    if acts == [] then Reached(st)
    else if Enabled(st, acts[0]) then Run(Apply(st, acts[0]), acts[1..])
    else Refused
  }

  lemma {:induction false} RunAppend(st: State, xs: seq<Action>, ys: seq<Action>)
    ensures Run(st, xs + ys) ==
            match Run(st, xs) { case Reached(mid) => Run(mid, ys) case Refused => Refused }
    decreases |xs|
  {
    if xs == [] {
      assert xs + ys == ys;
    } else {
      assert (xs + ys)[1..] == xs[1..] + ys;
      if Enabled(st, xs[0]) {
        RunAppend(Apply(st, xs[0]), xs[1..], ys);
      }
    }
  }
}
