/** The exact condition under which a click that the window would forward is harmless. */
module EarlyClick {
  import opened Board
  import opened TrisGame
  import opened Protocol
  import opened ProtocolInvariant
  import opened ProtocolTheorems
  import opened Bytes
  import opened WireMatch
  import Framing

  /** The window raises its token with the opponent's move, before the status of that move. A click
      it would forward keeps the protocol's invariant exactly when the player's own board shows no
      completed line, a check the client has at hand and the window does not make. */
  lemma ClickSafeIffNoLine(st: State, x: Side, cell: int)
    requires Reachable(st)
    requires MayClick(st.At(x).client) && MoveOutcomeOf(st.At(x).client.board, cell).Accepted?
    ensures Inv(st.With(x, ClickApply(st.At(x), cell))) <==> ClientWinner(st.At(x).client.board) == 0
  {
    ReachableInv(st);
    if ClientWinner(st.At(x).client.board) == 0 {
      ClickKeepsInv(st, x, cell);
    } else {
      ClickContext(st, x);
      ClickSeesWin(st, x);
      VictorMeaning(st.srv.grid, st.srv.sockP, st.srv.sockS);
      var st2 := st.With(x, ClickApply(st.At(x), cell));
      assert st2.srv == st.srv && StageOf(st2.srv).Ended?;
      assert st2.At(x).outbox[|st.At(x).outbox|] == Packet(Move, cell);
    }
  }

  /** A client that offers a move only after the status of the opponent's move never sees a line then,
      so for it the condition costs nothing. */
  lemma PatientClientSeesNoLine(st: State, x: Side)
    requires Reachable(st) && MayClick(st.At(x).client) && st.At(x).client.readerToken
    ensures ClientWinner(st.At(x).client.board) == 0 && st.At(x).inbox == []
  {
    ReachableInv(st);
    ClickContext(st, x);
    ClickSeesWin(st, x);
  }

  // ---------------------------------------------------------------- what the failing click does

  /** The game is over for the server, and nothing the player wrote is waiting to be read. */
  lemma LineContext(st: State, x: Side)
    requires Inv(st) && MayClick(st.At(x).client) && ClientWinner(st.At(x).client.board) != 0
    ensures StageOf(st.srv).Ended? && st.At(x).outbox == []
    ensures st.srv.pc.Poll? ==> st.srv.PollOf(x).Unasked?
  {
    ClickContext(st, x);
    ClickSeesWin(st, x);
    VictorMeaning(st.srv.grid, st.srv.sockP, st.srv.sockS);
    assert StageOf(st.srv).Play? ==> StatusNow(st.srv) == OPEN;
    if Settled(st, x).reader.AtVerdict? {
      SettledAtVerdict(st.At(x).client, Pending(st, x));
    }
  }

  /** The wire after such a click: the stray move's four bytes, of which the rematch question, asking
      for a short, takes the first two. They are zero, and the other two stay. */
  predicate Spoiled(bs: ByteState, x: Side, cell: int) {
    var out := bs.At(x).outbox;
    match bs.srv.pc
    case RelayMove(_) => StatusNow(bs.srv) != OPEN && PutInt(cell) <= out
    case StatusToPrimary(status) => status != OPEN && PutInt(cell) <= out
    case StatusToSecondary(status) => status != OPEN && PutInt(cell) <= out
    case Poll =>
      if bs.srv.PollOf(x).Unasked? then PutInt(cell) <= out
      else bs.srv.PollOf(x) == Got(0) && PutShort(cell) <= out
    case VerdictToPrimary(answer) => answer == DECLINE && PutShort(cell) <= out
    case VerdictToSecondary(answer) => answer == DECLINE && PutShort(cell) <= out
    case Finished => PutShort(cell) <= out
    case _ => false
  }

  lemma CellBytes(cell: int)
    requires IsCell(cell)
    ensures PutInt(cell) == [0, 0, 0, cell] && PutShort(cell) == [0, cell]
  {
  }

  lemma StrayShort(cell: int, out: seq<byte>)
    requires IsCell(cell) && PutInt(cell) <= out
    ensures |out| >= 4 && GetShort(out) == 0 && PutShort(cell) <= out[2..]
  {
    CellBytes(cell);
    assert out[..4] == [0, 0, 0, cell];
    assert out[0] == out[..4][0] && out[1] == out[..4][1];
    assert out[2..][..2] == out[..4][2..] == PutShort(cell);
  }

  lemma ClickSpoils(st: State, x: Side, cell: int)
    requires Inv(st)
    requires MayClick(st.At(x).client) && MoveOutcomeOf(st.At(x).client.board, cell).Accepted?
    requires ClientWinner(st.At(x).client.board) != 0
    ensures Spoiled(StateOnWire(st.With(x, ClickApply(st.At(x), cell))), x, cell)
    ensures StateOnWire(st.With(x, ClickApply(st.At(x), cell))).At(x).outbox == PutInt(cell)
  {
    LineContext(st, x);
    assert ClickApply(st.At(x), cell).outbox == [Packet(Move, cell)];
    assert Words([Packet(Move, cell)]) == PutInt(cell) + Words([]);
  }

  /** Clients only add to what they have written. */
  lemma WritersAppend(bs: ByteState, a: Action, x: Side)
    requires ByteEnabled(bs, a) && !a.PollStep? && !(a.ServerStep? && bs.srv.pc.AwaitMove?)
    ensures bs.At(x).outbox <= ByteApply(bs, a).At(x).outbox
  {
  }

  /** No step of any party undoes it. */
  lemma SpoiledStep(bs: ByteState, a: Action, x: Side, cell: int)
    requires IsCell(cell) && Spoiled(bs, x, cell) && ByteEnabled(bs, a)
    ensures Spoiled(ByteApply(bs, a), x, cell)
  {
    match a
    case ServerStep(coin) => WritersAppend(bs, a, x);
    case PollStep(y) => if y == x { StrayShort(cell, bs.At(x).outbox); }
    case _ => WritersAppend(bs, a, x);
  }

  lemma {:induction false} SpoiledRun(bs: ByteState, acts: seq<Action>, x: Side, cell: int)
    requires IsCell(cell) && Spoiled(bs, x, cell) && ByteRun(bs, acts).ByteReached?
    ensures Spoiled(ByteRun(bs, acts).bs, x, cell)
    decreases |acts|
  {
    if acts != [] {
      SpoiledStep(bs, acts[0], x, cell);
      SpoiledRun(ByteApply(bs, acts[0]), acts[1..], x, cell);
    }
  }

  /** With the line there, the click decides the rest of the match in every run, whatever both players
      want and whatever the schedule: the player's answer to the rematch question is read as 0, the
      verdict is a refusal, and no further game starts. The other half of the move stays in the stream. */
  lemma ClickOnLineSpoilsEveryRun(st: State, x: Side, cell: int, acts: seq<Action>)
    requires Reachable(st)
    requires MayClick(st.At(x).client) && MoveOutcomeOf(st.At(x).client.board, cell).Accepted?
    requires ClientWinner(st.At(x).client.board) != 0
    ensures match ByteRun(StateOnWire(st.With(x, ClickApply(st.At(x), cell))), acts)
      case ByteRefused => true
      case ByteReached(bs) =>
        && !StageOf(bs.srv).Fresh? && !StageOf(bs.srv).Play?
        && (bs.srv.pc.Poll? ==> bs.srv.PollOf(x) == Unasked || bs.srv.PollOf(x) == Got(0))
        && (bs.srv.pc.VerdictToPrimary? || bs.srv.pc.VerdictToSecondary? ==> bs.srv.pc.answer == DECLINE)
        && (bs.srv.pc.Finished? ==> PutShort(cell) <= bs.At(x).outbox)
  {
    var bs := StateOnWire(st.With(x, ClickApply(st.At(x), cell)));
    ReachableInv(st);
    ClickSpoils(st, x, cell);
    if ByteRun(bs, acts).ByteReached? {
      SpoiledRun(bs, acts, x, cell);
    }
  }

  // ---------------------------------------------------------------- exactly what it leaves behind

  /** The server has still to send the status, or has sent the verdict, to `x`. */
  predicate StatusDue(pc: Pc, x: Side) {
    pc.RelayMove? || pc.StatusToPrimary? || (pc.StatusToSecondary? && x == Secondary)
  }

  predicate VerdictSent(pc: Pc, x: Side) {
    pc.Finished? || (pc.VerdictToSecondary? && x == Primary)
  }

  /** What the server has not read of the stray move. */
  function MoveLeft(srv: Server, x: Side, cell: int): seq<byte> {
    if srv.pc.RelayMove? || srv.pc.StatusToPrimary? || srv.pc.StatusToSecondary? ||
       (srv.pc.Poll? && srv.PollOf(x).Unasked?)
    then PutInt(cell) else PutShort(cell)
  }

  predicate ServerOnWay(srv: Server, x: Side, status: int) {
    match srv.pc
    case RelayMove(_) => StatusNow(srv) == status && x != srv.acting
    case StatusToPrimary(s) => s == status
    case StatusToSecondary(s) => s == status
    case Poll => srv.PollOf(x) == Unasked || srv.PollOf(x) == Got(0)
    case VerdictToPrimary(answer) => answer == DECLINE
    case VerdictToSecondary(answer) => answer == DECLINE
    case Finished => true
    case _ => false
  }

  predicate HasAnswered(c: Client) {
    c.reader.AtVerdict? || c.reader.Gone?
  }

  /** The player's end after the stray move, byte for byte. */
  predicate EndOnWay(srv: Server, e: ByteEnd, x: Side, cell: int, status: int) {
    var c := e.client;
    && (c.reader.AtStatus? || c.reader.Over? || HasAnswered(c))
    && (c.reader.AtStatus? ==> !c.uiToken)
    && (StatusDue(srv.pc, x) ==> c.reader.AtStatus?) && (c.reader.Gone? ==> VerdictSent(srv.pc, x))
    && e.inbox == (if c.reader.AtStatus? && !StatusDue(srv.pc, x) then PutInt(status) else []) +
                  (if VerdictSent(srv.pc, x) && !c.reader.Gone? then PutShort(DECLINE) else [])
    && e.outbox == MoveLeft(srv, x, cell) +
                   (if HasAnswered(c) then PutShort(VerdictWord(c.wantsRematch)) else [])
  }

  predicate OnWay(bs: ByteState, x: Side, cell: int, status: int) {
    ServerOnWay(bs.srv, x, status) && EndOnWay(bs.srv, bs.At(x), x, cell, status)
  }

  lemma WordOfOne(p: Packet)
    ensures Words([p]) == Word(p)
  {
    assert Words([p]) == Word(p) + Words([]);
  }

  lemma StatusIsAllThatIsPending(st: State, x: Side)
    requires Inv(st) && MayClick(st.At(x).client) && StageOf(st.srv).Ended?
    ensures StatusNow(st.srv) != OPEN
    ensures st.At(x).inbox ==
            if StatusDue(st.srv.pc, x) then [] else [Packet(Status, StatusNow(st.srv))]
    ensures st.srv.pc.RelayMove? ==> x != st.srv.acting
  {
    ClickContext(st, x);
    var ps := Pending(st, x);
    assert ps == [Packet(Status, ps[0].value)] && ps[1..] == [];
    assert Settled(st, x) == Drain(Consume(st.At(x).client, ps[0].value), ps[1..]);
    assert ps[0].value == StatusNow(st.srv);
    assert |st.At(x).inbox| + |Backlog(st.srv, x)| == 1;
    assert st.At(x).inbox == [] || st.At(x).inbox == ps;
  }

  lemma ClickIsOnWay(st: State, x: Side, cell: int) returns (status: int)
    requires Inv(st) && st.srv.sockP < 0x8000_0000 && st.srv.sockS < 0x8000_0000
    requires MayClick(st.At(x).client) && MoveOutcomeOf(st.At(x).client.board, cell).Accepted?
    requires ClientWinner(st.At(x).client.board) != 0
    ensures IsInt32(status) && status != OPEN
    ensures OnWay(StateOnWire(st.With(x, ClickApply(st.At(x), cell))), x, cell, status)
  {
    LineContext(st, x);
    ClickSpoils(st, x, cell);
    StatusInRange(st.srv);
    StatusIsAllThatIsPending(st, x);
    status := StatusNow(st.srv);
    WordOfOne(Packet(Status, status));
  }

  /** What the server's statement adds to the player's channel. */
  function Added(pc: Pc, x: Side, status: int): seq<byte> {
    match pc
    case StatusToPrimary(_) => if x == Primary then PutInt(status) else []
    case StatusToSecondary(_) => if x == Secondary then PutInt(status) else []
    case VerdictToPrimary(_) => if x == Primary then PutShort(DECLINE) else []
    case VerdictToSecondary(_) => if x == Secondary then PutShort(DECLINE) else []
    case _ => []
  }

  lemma ServerAdds(bs: ByteState, coin: bool, x: Side, status: int)
    requires ServerOnWay(bs.srv, x, status) && ByteEnabled(bs, ServerStep(coin))
    ensures ByteApply(bs, ServerStep(coin)).At(x) ==
            bs.At(x).(inbox := bs.At(x).inbox + Added(bs.srv.pc, x, status))
  {
    var sent := ServerApply(Idle(bs), coin).At(x).inbox;
    var none: seq<Packet> := [];
    assert forall p: Packet :: none + [p] == [p];
    WordOfOne(Packet(Status, status));
    WordOfOne(Packet(Verdict, DECLINE));
    assert Words(sent) == Added(bs.srv.pc, x, status);
  }

  /** How far the server has come with `x`, before and after one of its statements. */
  predicate ServerStepped(before: Server, after: Server, x: Side, cell: int, status: int) {
    var pc, next := before.pc, after.pc;
    && MoveLeft(after, x, cell) == MoveLeft(before, x, cell)
    && (StatusDue(next, x) ==> StatusDue(pc, x)) && (VerdictSent(pc, x) ==> VerdictSent(next, x))
    && !(StatusDue(pc, x) && VerdictSent(next, x))
    && Added(pc, x, status) ==
       (if StatusDue(pc, x) && !StatusDue(next, x) then PutInt(status) else []) +
       (if VerdictSent(next, x) && !VerdictSent(pc, x) then PutShort(DECLINE) else [])
  }

  lemma ServerGoesOn(bs: ByteState, coin: bool, x: Side, cell: int, status: int)
    requires ServerOnWay(bs.srv, x, status) && status != OPEN && ByteEnabled(bs, ServerStep(coin))
    ensures var srv := ByteApply(bs, ServerStep(coin)).srv;
      ServerOnWay(srv, x, status) && ServerStepped(bs.srv, srv, x, cell, status)
  {
  }

  lemma EndGoesOn(before: Server, after: Server, e: ByteEnd, x: Side, cell: int, status: int)
    requires EndOnWay(before, e, x, cell, status) && ServerStepped(before, after, x, cell, status)
    ensures EndOnWay(after, e.(inbox := e.inbox + Added(before.pc, x, status)), x, cell, status)
  {
  }

  lemma ServerStaysOnWay(bs: ByteState, coin: bool, x: Side, cell: int, status: int)
    requires status != OPEN && OnWay(bs, x, cell, status) && ByteEnabled(bs, ServerStep(coin))
    ensures OnWay(ByteApply(bs, ServerStep(coin)), x, cell, status)
  {
    ServerAdds(bs, coin, x, status);
    ServerGoesOn(bs, coin, x, cell, status);
    EndGoesOn(bs.srv, ByteApply(bs, ServerStep(coin)).srv, bs.At(x), x, cell, status);
  }

  lemma PollStaysOnWay(bs: ByteState, y: Side, x: Side, cell: int, status: int)
    requires IsCell(cell) && OnWay(bs, x, cell, status) && ByteEnabled(bs, PollStep(y))
    ensures OnWay(ByteApply(bs, PollStep(y)), x, cell, status)
  {
    if y == x {
      var out := bs.At(x).outbox;
      StrayShort(cell, out);
      CellBytes(cell);
      assert PutInt(cell)[2..] == PutShort(cell);
      assert out[2..] == PutInt(cell)[2..] + out[4..];
    }
  }

  lemma ReadStaysOnWay(bs: ByteState, y: Side, x: Side, cell: int, status: int)
    requires IsInt32(status) && status != OPEN && OnWay(bs, x, cell, status) && ByteEnabled(bs, ClientRead(y))
    ensures OnWay(ByteApply(bs, ClientRead(y)), x, cell, status)
  {
    if y == x {
      var inbox := bs.At(x).inbox;
      if bs.At(x).client.reader.AtStatus? {
        IntRoundTrip(status, inbox[4..]);
      } else {
        ShortRoundTrip(DECLINE, []);
      }
    }
  }

  lemma StepStaysOnWay(bs: ByteState, a: Action, x: Side, cell: int, status: int)
    requires IsCell(cell) && IsInt32(status) && status != OPEN
    requires OnWay(bs, x, cell, status) && ByteEnabled(bs, a)
    ensures OnWay(ByteApply(bs, a), x, cell, status)
  {
    match a
    case ServerStep(coin) => ServerStaysOnWay(bs, coin, x, cell, status);
    case PollStep(y) => PollStaysOnWay(bs, y, x, cell, status);
    case ClientRead(y) => ReadStaysOnWay(bs, y, x, cell, status);
    case Click(y, _) =>
    case Choose(y, _) =>
  }

  lemma {:induction false} RunStaysOnWay(bs: ByteState, acts: seq<Action>, x: Side, cell: int, status: int)
    requires IsCell(cell) && IsInt32(status) && status != OPEN
    requires OnWay(bs, x, cell, status) && ByteRun(bs, acts).ByteReached?
    ensures OnWay(ByteRun(bs, acts).bs, x, cell, status)
    decreases |acts|
  {
    if acts != [] {
      StepStaysOnWay(bs, acts[0], x, cell, status);
      RunStaysOnWay(ByteApply(bs, acts[0]), acts[1..], x, cell, status);
    }
  }

  /** Half a move and an answer are together one unknown opcode. */
  lemma RemainderIsOneOpcode(cell: int, word: int, rest: seq<byte>, bound: bool)
    requires IsCell(cell) && (word == APPROVE || word == DECLINE)
    ensures Framing.ServeOne(bound, PutShort(cell) + PutShort(word) + rest) ==
            Framing.Pass(Framing.Unidentified(cell * HALF + word), rest)
  {
    var bs := PutShort(cell) + PutShort(word) + rest;
    CellBytes(cell);
    assert PutShort(word) == [0, word];
    assert bs[..4] == [0, cell, 0, word];
    assert bs[0] == bs[..4][0] && bs[1] == bs[..4][1] && bs[2] == bs[..4][2] && bs[3] == bs[..4][3];
    assert GetInt(bs) == cell * HALF + word;
    assert bs[4..] == rest;
  }

  /** Each of them, if the lobby finds it there alone, is one too, whatever its opcode variable held. */
  lemma HalfIsNoOpcode(v: int, rest: seq<byte>, stale: seq<byte>, bound: bool)
    requires 1 <= v < 256 && |stale| == 4
    ensures var pass := Framing.ServePiece(bound, PutShort(v) + rest, 2, stale);
      pass.served.Unidentified? && pass.rest == rest
  {
    var bs := PutShort(v) + rest;
    assert PutShort(v) == [0, v];
    assert bs[..2] == [0, v] && bs[2..] == rest;
    assert GetInt(bs[..2] + stale[2..]) >= v * HALF;
  }

  /** The bytes are one unknown opcode, and the request behind them is read whole. */
  ghost predicate LobbyRecovers(out: seq<byte>, opcode: int) {
    forall r: Framing.Request, tail: seq<byte>, bound: bool | Framing.WellFormed(r) ::
      var first := Framing.ServeOne(bound, out + (Framing.Encode(r) + tail));
      && first == Framing.Pass(Framing.Unidentified(opcode), Framing.Encode(r) + tail)
      && Framing.ServeOne(bound, first.rest) == Framing.Pass(Framing.Meaning(r, bound), tail)
  }

  lemma RemainderRecovers(cell: int, word: int)
    requires IsCell(cell) && (word == APPROVE || word == DECLINE)
    ensures LobbyRecovers(PutShort(cell) + PutShort(word), cell * HALF + word)
  {
    forall r: Framing.Request, tail: seq<byte>, bound: bool | Framing.WellFormed(r)
      ensures var first := Framing.ServeOne(bound, PutShort(cell) + PutShort(word) + (Framing.Encode(r) + tail));
        && first == Framing.Pass(Framing.Unidentified(cell * HALF + word), Framing.Encode(r) + tail)
        && Framing.ServeOne(bound, first.rest) == Framing.Pass(Framing.Meaning(r, bound), tail)
    {
      RemainderIsOneOpcode(cell, word, Framing.Encode(r) + tail, bound);
      Framing.FrameRoundTrip(r, bound, tail);
    }
  }

  /** Once the server is done the player's stream holds the low half of the stray move and the answer, if
      the player has given one, and the lobby recovers from them. */
  ghost predicate BorderBehindOneOpcode(bs: ByteState, x: Side, cell: int) {
    var c, out := bs.At(x).client, bs.At(x).outbox;
    bs.srv.pc.Finished? ==>
      && out == PutShort(cell) + (if HasAnswered(c) then PutShort(VerdictWord(c.wantsRematch)) else [])
      && (HasAnswered(c) ==> LobbyRecovers(out, cell * HALF + VerdictWord(c.wantsRematch)))
  }

  lemma OnWayToBorder(bs: ByteState, x: Side, cell: int, status: int)
    requires IsCell(cell) && OnWay(bs, x, cell, status)
    ensures BorderBehindOneOpcode(bs, x, cell)
  {
    var c := bs.At(x).client;
    if bs.srv.pc.Finished? && HasAnswered(c) {
      RemainderRecovers(cell, VerdictWord(c.wantsRematch));
    }
  }

  /** After the refusal of such a match the player's stream holds exactly the low half of the stray move
      and the answer, if the player has given one. The lobby takes the two together for one unknown
      opcode; behind it stands the border of a frame again, so the next request is recovered. */
  lemma BorderIsRestored(st: State, x: Side, cell: int, acts: seq<Action>)
    requires Reachable(st) && st.srv.sockP < 0x8000_0000 && st.srv.sockS < 0x8000_0000
    requires MayClick(st.At(x).client) && MoveOutcomeOf(st.At(x).client.board, cell).Accepted?
    requires ClientWinner(st.At(x).client.board) != 0
    ensures match ByteRun(StateOnWire(st.With(x, ClickApply(st.At(x), cell))), acts)
      case ByteRefused => true
      case ByteReached(bs) => BorderBehindOneOpcode(bs, x, cell)
  {
    var bs := StateOnWire(st.With(x, ClickApply(st.At(x), cell)));
    ReachableInv(st);
    var status := ClickIsOnWay(st, x, cell);
    if ByteRun(bs, acts).ByteReached? {
      RunStaysOnWay(bs, acts, x, cell, status);
      OnWayToBorder(ByteRun(bs, acts).bs, x, cell, status);
    }
  }

  /** The reading itself: the question is answered at once, by a zero, half of the move remains, and
      whatever the opponent answers the server refuses. */
  lemma StrayMoveIsReadAsAnswer(st: State, x: Side, cell: int, other: int)
    requires Reachable(st) && st.srv.pc.Poll?
    requires MayClick(st.At(x).client) && MoveOutcomeOf(st.At(x).client.board, cell).Accepted?
    ensures var bs := StateOnWire(st.With(x, ClickApply(st.At(x), cell)));
      && ByteEnabled(bs, PollStep(x))
      && var after := ByteApply(bs, PollStep(x));
      && after.srv.PollOf(x) == Got(0) && after.At(x).outbox == PutShort(cell)
      && var srv := if x == Primary then after.srv.(pollS := Got(other)) else after.srv.(pollP := Got(other));
      Decide(srv).pc == VerdictToPrimary(DECLINE)
  {
    ReachableInv(st);
    if ClientWinner(st.At(x).client.board) == 0 { ClickInPlay(st, x, cell); }
    LineContext(st, x);
    ClickSpoils(st, x, cell);
    StrayShort(cell, PutInt(cell));
    CellBytes(cell);
  }

  // ---------------------------------------------------------------- the failing click is reachable

  /** Nothing in flight and the acting player due to move. */
  predicate Quiet(st: State) {
    var x, y := st.srv.acting, st.srv.acting.Other();
    var c, d := st.At(x).client, st.At(y).client;
    && st.srv.pc.AwaitMove? && Sockets(st.srv)
    && st.p.inbox == [] && st.p.outbox == [] && st.s.inbox == [] && st.s.outbox == []
    && c.reader.AtStatus? && c.readerToken && c.uiToken
    && d.reader.AtMove? && !d.readerToken && !d.uiToken
    && c.mark == MarkOf(st.srv, x) && d.mark == MarkOf(st.srv, y)
    && c.board == BoardOf(st.srv) && d.board == BoardOf(st.srv)
  }

  /** In a reachable quiet state the game is open, so the mover's board shows no line and it may click
      any free cell. */
  lemma QuietReady(st: State, cell: int)
    requires Reachable(st) && Quiet(st) && Vacant(st.srv.grid, cell)
    ensures Enabled(st, Click(st.srv.acting, cell))
  {
    ReachableInv(st);
    var x := st.srv.acting;
    assert Pending(st, x) == [];
    ClickSeesWin(st, x);
    MarksVacant(st.srv.grid, st.srv.Sock(st.srv.starter));
  }

  /** The click, the server's grid write, and the move relayed to the opponent. */
  lemma Relayed(st: State, cell: int) returns (next: State)
    requires Reachable(st) && Quiet(st) && Vacant(st.srv.grid, cell)
    ensures Reachable(next)
    ensures var x := st.srv.acting; var y := x.Other(); var srv := Accept(st.srv, cell);
      && next.srv == srv.(pc := StatusToPrimary(StatusNow(srv)))
      && next.At(x) == End(Clicked(st.At(x).client, cell), [], [])
      && next.At(y) == End(st.At(y).client, [Packet(Move, cell)], [])
  {
    var x := st.srv.acting;
    QuietReady(st, cell);
    var s1 := Apply(st, Click(x, cell));
    ReachableStep(st, Click(x, cell));
    assert s1.At(x).outbox == [Packet(Move, cell)];
    var s2 := Apply(s1, ServerStep(true));
    ReachableStep(s1, ServerStep(true));
    ReachableStep(s2, ServerStep(true));
    next := Apply(s2, ServerStep(true));
  }

  /** The two status messages of a game that goes on. */
  lemma Announced(st: State) returns (next: State)
    requires Reachable(st) && st.srv.pc == StatusToPrimary(OPEN)
    ensures Reachable(next) && next.srv == st.srv.(pc := AwaitMove)
    ensures forall x: Side ::
      next.At(x) == st.At(x).(inbox := st.At(x).inbox + [Packet(Status, OPEN)])
  {
    ReachableStep(st, ServerStep(true));
    var s1 := Apply(st, ServerStep(true));
    ReachableStep(s1, ServerStep(true));
    next := Apply(s1, ServerStep(true));
  }

  lemma ReadOne(st: State, x: Side) returns (next: State)
    requires Reachable(st) && ReadReady(st.At(x))
    ensures Reachable(next) && next == st.With(x, ReadApply(st.At(x)))
  {
    ReachableStep(st, ClientRead(x));
    next := Apply(st, ClientRead(x));
  }

  /** The three reads that settle an exchange of a game that goes on. */
  lemma ReadsSettle(st: State, x: Side, cell: int) returns (next: State)
    requires Reachable(st) && st.At(x).inbox == [Packet(Status, OPEN)]
    requires st.At(x.Other()).inbox == [Packet(Move, cell), Packet(Status, OPEN)]
    requires st.At(x).client.reader.AtStatus? && st.At(x.Other()).client.reader.AtMove?
    ensures Reachable(next) && next.srv == st.srv
    ensures next.At(x) == st.At(x).(client := Consume(st.At(x).client, OPEN), inbox := [])
    ensures next.At(x.Other()) ==
            st.At(x.Other()).(client := Consume(Consume(st.At(x.Other()).client, cell), OPEN), inbox := [])
  {
    var s1 := ReadOne(st, x);
    var s2 := ReadOne(s1, x.Other());
    assert s2.At(x.Other()).inbox == [Packet(Status, OPEN)];
    next := ReadOne(s2, x.Other());
  }

  /** A whole undisturbed exchange: from quiet to quiet, with the players' parts exchanged. */
  lemma QuietRound(st: State, cell: int) returns (next: State)
    requires Reachable(st) && Quiet(st) && Vacant(st.srv.grid, cell)
    requires StatusNow(Accept(st.srv, cell)) == OPEN
    ensures Reachable(next) && Quiet(next) && next.srv == Accept(st.srv, cell).(pc := AwaitMove)
  {
    var x := st.srv.acting;
    var s1 := Relayed(st, cell);
    var s2 := Announced(s1);
    next := ReadsSettle(s2, x, cell);
    MarksVacant(st.srv.grid, st.srv.Sock(st.srv.starter));
    MarksOfPlace(st.srv.grid, cell, st.srv.Sock(x), st.srv.Sock(st.srv.starter));
    assert BoardOf(next.srv) == Place(BoardOf(st.srv), cell, MarkOf(st.srv, x));
  }

  /** The starter is drawn and both turn markers are sent. */
  lemma TurnsSent(s0: State, first: Side) returns (st: State)
    requires Init(s0)
    ensures Reachable(st)
    ensures var turn := s0.srv.Sock(first);
      && st.srv == s0.srv.(turnIdx := turn, state := InProgress, acting := first, starter := first, pc := AwaitMove)
      && st.p == End(s0.p.client, [Packet(TurnMarker, turn)], [])
      && st.s == End(s0.s.client, [Packet(TurnMarker, turn)], [])
  {
    var coin := first == Secondary;
    assert Run(s0, []) == Reached(s0);
    ReachableStep(s0, ServerStep(coin));
    var s1 := Apply(s0, ServerStep(coin));
    ReachableStep(s1, ServerStep(coin));
    var s2 := Apply(s1, ServerStep(coin));
    ReachableStep(s2, ServerStep(coin));
    st := Apply(s2, ServerStep(coin));
  }

  /** The opening: both clients have read who starts. */
  lemma Opening(first: Side, sockP: int, sockS: int) returns (st: State)
    requires sockP > 0 && sockS > 0 && sockP != sockS
    ensures Reachable(st) && Quiet(st)
    ensures st.srv.grid == BLANK && st.srv.acting == first && st.srv.sockP == sockP && st.srv.sockS == sockS
  {
    var c := Client(sockP, AtTurn, false, false, 1, BLANK, 0, false);
    var srv := Server(PickStarter, sockP, sockS, BLANK, Primary, 0, InProgress, Primary, Unasked, Unasked);
    var s1 := TurnsSent(State(srv, End(c, [], []), End(c.(sock := sockS), [], [])), first);
    var s2 := ReadOne(s1, Primary);
    st := ReadOne(s2, Secondary);
    assert st.p == End(Consume(s1.p.client, st.srv.Sock(first)), [], []);
    assert st.s == End(Consume(s1.s.client, st.srv.Sock(first)), [], []);
    assert BoardOf(st.srv) == BLANK;
  }

  /** Moves in the order they are made. */
  datatype Moves = None | Then(before: Moves, cell: int)

  function MoverOf(ms: Moves, first: Side): Side {
    match ms
    case None => first
    case Then(before, _) => MoverOf(before, first).Other()
  }

  function Played(ms: Moves, first: Side, sockP: int, sockS: int): Grid {
    match ms
    case None => BLANK
    case Then(before, cell) =>
      var g := Played(before, first, sockP, sockS);
      if IsCell(cell) then Place(g, cell, if MoverOf(before, first) == Primary then sockP else sockS) else g
  }

  /** Legal coordinates, none of which ends the game. */
  predicate Playable(ms: Moves, first: Side, sockP: int, sockS: int) {
    ms.None? ||
    (&& Playable(ms.before, first, sockP, sockS)
     && Vacant(Played(ms.before, first, sockP, sockS), ms.cell)
     && Victor(Played(ms, first, sockP, sockS), sockP, sockS) == OPEN)
  }

  lemma QuietExtension(st: State, cell: int, after: Grid) returns (next: State)
    requires Reachable(st) && Quiet(st) && Vacant(st.srv.grid, cell)
    requires after == Place(st.srv.grid, cell, st.srv.Sock(st.srv.acting))
    requires Victor(after, st.srv.sockP, st.srv.sockS) == OPEN
    ensures Reachable(next) && Quiet(next) && next.srv.grid == after && next.srv.acting == st.srv.acting.Other()
    ensures next.srv.sockP == st.srv.sockP && next.srv.sockS == st.srv.sockS
  {
    next := QuietRound(st, cell);
  }

  /** Every open position is reached, quiet, by the protocol. */
  lemma {:induction false} PlayableReachable(ms: Moves, first: Side, sockP: int, sockS: int) returns (st: State)
    requires sockP > 0 && sockS > 0 && sockP != sockS && Playable(ms, first, sockP, sockS)
    ensures Reachable(st) && Quiet(st) && st.srv.acting == MoverOf(ms, first)
    ensures st.srv.sockP == sockP && st.srv.sockS == sockS && st.srv.grid == Played(ms, first, sockP, sockS)
    decreases ms
  {
    match ms
    case None =>
      st := Opening(first, sockP, sockS);
    case Then(before, cell) =>
      var mid := PlayableReachable(before, first, sockP, sockS);
      st := QuietExtension(mid, cell, Played(ms, first, sockP, sockS));
  }

  const FOUR_MOVES := Then(Then(Then(Then(None, 1), 4), 2), 5)

  lemma FourMoves(a: int, b: int)
    requires a > 0 && b > 0 && a != b
    ensures Playable(FOUR_MOVES, Primary, a, b) && Played(FOUR_MOVES, Primary, a, b) == [a, a, 0, b, b, 0, 0, 0, 0]
  {
    var one := Then(None, 1);
    var two := Then(one, 4);
    var three := Then(two, 2);
    assert Played(None, Primary, a, b) == BLANK && Playable(None, Primary, a, b);
    assert Played(one, Primary, a, b) == [a, 0, 0, 0, 0, 0, 0, 0, 0] && Playable(one, Primary, a, b);
    assert Played(two, Primary, a, b) == [a, 0, 0, b, 0, 0, 0, 0, 0] && Playable(two, Primary, a, b);
    assert Played(three, Primary, a, b) == [a, a, 0, b, 0, 0, 0, 0, 0] && Playable(three, Primary, a, b);
  }

  /** The two status messages of a game that is over. */
  lemma Concluding(st: State) returns (next: State)
    requires Reachable(st) && st.srv.pc.StatusToPrimary? && st.srv.pc.status != OPEN
    ensures Reachable(next) && next.srv.pc.Poll?
    ensures forall x: Side ::
      next.At(x) == st.At(x).(inbox := st.At(x).inbox + [Packet(Status, st.srv.pc.status)])
  {
    ReachableStep(st, ServerStep(true));
    var s1 := Apply(st, ServerStep(true));
    ReachableStep(s1, ServerStep(true));
    next := Apply(s1, ServerStep(true));
  }

  /** The condition of `ClickSafeIffNoLine` is not idle: with the moves 1, 4, 2, 5, 3 the first player
      completes the top row, the server has sent everything and asks for the rematch, and the second
      player, having read the move but not its status, is let click. */
  lemma EarlyClickReachable(sockP: int, sockS: int) returns (st: State, cell: int)
    requires sockP > 0 && sockS > 0 && sockP != sockS
    ensures Reachable(st) && st.srv.pc.Poll?
    ensures MayClick(st.s.client) && MoveOutcomeOf(st.s.client.board, cell).Accepted?
    ensures ClientWinner(st.s.client.board) != 0 && !Inv(st.With(Secondary, ClickApply(st.s, cell)))
  {
    FourMoves(sockP, sockS);
    var s4 := PlayableReachable(FOUR_MOVES, Primary, sockP, sockS);
    var s5 := Relayed(s4, 3);
    var s6 := Concluding(s5);
    st := ReadOne(s6, Secondary);
    cell := 9;
    var b := s4.s.client.board;
    var starter := s4.srv.Sock(s4.srv.starter);
    assert b == Marks(s4.srv.grid, starter);
    assert b[0] == b[1] == Mark(sockP, starter) && b[2] == 0 && b[8] == 0;
    assert s6.s.client == s4.s.client && s6.s.inbox[0].value == 3;
    assert st.s.client.board == OpponentApplied(b, s4.s.client.mark, 3);
    assert st.s.client.board[2] == OppMark(s4.s.client.mark) == b[0];
    assert ClientWinner(st.s.client.board) != 0;
    ClickSafeIffNoLine(st, Secondary, cell);
  }
}
