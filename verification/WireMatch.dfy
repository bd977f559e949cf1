/** The match protocol on bare bytes. No kinds and no packet borders travel: every party takes two
    or four bytes off its stream, as its position demands. On every run that the protocol can make
    this machine does exactly what the machine with packets does. */
module WireMatch {
  import opened Board
  import opened TrisGame
  import opened Bytes
  import opened Protocol
  import opened ProtocolInvariant
  import opened ProtocolTheorems

  datatype ByteEnd = ByteEnd(client: Client, inbox: seq<byte>, outbox: seq<byte>)

  datatype ByteState = ByteState(srv: Server, p: ByteEnd, s: ByteEnd)
  {
    function At(x: Side): ByteEnd {
      if x == Primary then p else s
    }

    function With(x: Side, e: ByteEnd): ByteState {
      if x == Primary then this.(p := e) else this.(s := e)
    }
  }

  /** Verdicts and the answers to them travel as shorts, everything else as ints. */
  function Word(p: Packet): seq<byte> {
    if p.kind.Verdict? then PutShort(p.value) else PutInt(p.value)
  }

  function Words(ps: seq<Packet>): seq<byte> {
    if ps == [] then [] else Word(ps[0]) + Words(ps[1..])
  }

  function OnWire(e: End): ByteEnd {
    ByteEnd(e.client, Words(e.inbox), Words(e.outbox))
  }

  function StateOnWire(st: State): ByteState {
    ByteState(st.srv, OnWire(st.p), OnWire(st.s))
  }

  // ---------------------------------------------------------------- the byte machine

  /** How many bytes the client's next read asks for, and what it makes of them. */
  function ReadWidth(c: Client): nat {
    if c.reader.AtVerdict? then 2 else 4
  }

  function ReadValue(c: Client, bs: seq<byte>): int
    requires |bs| >= ReadWidth(c)
  {
    if c.reader.AtVerdict? then GetShort(bs) else GetInt(bs)
  }

  predicate ByteEnabled(bs: ByteState, a: Action) {
    match a
    case ServerStep(_) =>
      (match bs.srv.pc
       case AwaitMove => |bs.At(bs.srv.acting).outbox| >= 4
       case Poll => bs.srv.pollP.Got? && bs.srv.pollS.Got?
       case Finished => false
       case Corrupt => false
       case _ => true)
    case PollStep(x) => bs.srv.pc.Poll? && bs.srv.PollOf(x).Unasked? && |bs.At(x).outbox| >= 2
    case ClientRead(x) => Reading(bs.At(x).client) && |bs.At(x).inbox| >= ReadWidth(bs.At(x).client)
    case Click(x, cell) => ClickReady(bs.At(x).client, cell)
    case Choose(x, _) => bs.At(x).client.reader.Over?
  }

  /** The server's statement on its own variables, with the words it writes. */
  function Idle(bs: ByteState): State {
    State(bs.srv, End(bs.p.client, [], []), End(bs.s.client, [], []))
  }

  function ByteApply(bs: ByteState, a: Action): ByteState
    requires ByteEnabled(bs, a)
  {
    match a
    case ServerStep(coin) =>
      if bs.srv.pc.AwaitMove? then
        var e := bs.At(bs.srv.acting);
        bs.With(bs.srv.acting, e.(outbox := e.outbox[4..])).(srv := Accept(bs.srv, GetInt(e.outbox)))
      else
        var after := ServerApply(Idle(bs), coin);
        ByteState(after.srv, bs.p.(inbox := bs.p.inbox + Words(after.p.inbox)),
                  bs.s.(inbox := bs.s.inbox + Words(after.s.inbox)))
    case PollStep(x) =>
      var e := bs.At(x);
      var got := Got(GetShort(e.outbox));
      bs.With(x, e.(outbox := e.outbox[2..]))
        .(srv := if x == Primary then bs.srv.(pollP := got) else bs.srv.(pollS := got))
    case ClientRead(x) =>
      var e := bs.At(x);
      bs.With(x, e.(client := Consume(e.client, ReadValue(e.client, e.inbox)), inbox := e.inbox[ReadWidth(e.client)..]))
    case Click(x, cell) =>
      var e := bs.At(x);
      bs.With(x, e.(client := Clicked(e.client, cell), outbox := e.outbox + PutInt(cell)))
    case Choose(x, wants) =>
      var e := bs.At(x);
      var word := if wants then APPROVE else DECLINE;
      bs.With(x, e.(client := Answered(e.client, wants), outbox := e.outbox + PutShort(word)))
  }

  datatype ByteOutcome = ByteReached(bs: ByteState) | ByteRefused

  function ByteRun(bs: ByteState, acts: seq<Action>): ByteOutcome
    decreases |acts|
  {
    if acts == [] then ByteReached(bs)
    else if ByteEnabled(bs, acts[0]) then ByteRun(ByteApply(bs, acts[0]), acts[1..])
    else ByteRefused
  }

  // ---------------------------------------------------------------- words and packets

  /** The value fits the width its kind travels in. */
  predicate Fits32(p: Packet) {
    if p.kind.Verdict? then IsUint16(p.value) else IsInt32(p.value)
  }

  lemma {:induction false} WordsAppend(xs: seq<Packet>, p: Packet)
    ensures Words(xs + [p]) == Words(xs) + Word(p)
    decreases |xs|
  {
    if xs == [] {
      assert ([] + [p])[1..] == [];
      assert Words([p]) == Word(p) + [];
    } else {
      assert (xs + [p])[1..] == xs[1..] + [p];
      WordsAppend(xs[1..], p);
    }
  }

  /** Reading by the width of the kind that was written takes exactly the first packet. */
  lemma FirstWord(ps: seq<Packet>)
    requires ps != [] && Fits32(ps[0])
    ensures ps[0].kind.Verdict? ==>
      |Words(ps)| >= 2 && GetShort(Words(ps)) == ps[0].value && Words(ps)[2..] == Words(ps[1..])
    ensures !ps[0].kind.Verdict? ==>
      |Words(ps)| >= 4 && GetInt(Words(ps)) == ps[0].value && Words(ps)[4..] == Words(ps[1..])
  {
    if ps[0].kind.Verdict? {
      ShortRoundTrip(ps[0].value, Words(ps[1..]));
    } else {
      IntRoundTrip(ps[0].value, Words(ps[1..]));
    }
  }

  // ---------------------------------------------------------------- values stay in range

  predicate AllFit(ps: seq<Packet>) {
    forall i | 0 <= i < |ps| :: Fits32(ps[i])
  }

  predicate EndInRange(e: End) {
    AllFit(e.inbox) && AllFit(e.outbox)
  }

  predicate InRange(st: State) {
    st.srv.sockP < 0x8000_0000 && st.srv.sockS < 0x8000_0000 && EndInRange(st.p) && EndInRange(st.s)
  }

  /** A relayed move names a cell: it fits the board of the client it is bound for. */
  lemma RelayedMoveIsCell(st: State)
    requires EndOk(st, st.srv.acting) && st.srv.pc.RelayMove?
    ensures IsCell(st.srv.pc.cell)
  {
    var e, b := st.At(st.srv.acting), Backlog(st.srv, st.srv.acting);
    DrainAppend(e.client, e.inbox, b);
    assert Fits(Drain(e.client, e.inbox), b[0]);
  }

  lemma StatusInRange(srv: Server)
    requires ServerOk(srv) && srv.sockP < 0x8000_0000 && srv.sockS < 0x8000_0000
    ensures IsInt32(StatusNow(srv))
  {
    VictorMeaning(srv.grid, srv.sockP, srv.sockS);
  }

  /** Everything the server is committed to send fits its width. */
  lemma BacklogInRange(st: State, x: Side)
    requires ServerOk(st.srv) && EndOk(st, st.srv.acting) && InRange(st)
    ensures AllFit(Backlog(st.srv, x))
  {
    if st.srv.pc.RelayMove? {
      RelayedMoveIsCell(st);
    }
    StatusInRange(st.srv);
  }

  /** The server's statement only appends at most one word to each channel, the same that it would
      write to an empty one. */
  lemma ServerAppends(st: State, coin: bool, x: Side)
    requires !st.srv.pc.AwaitMove? && ServerReady(st)
    ensures ServerReady(Idle(StateOnWire(st)))
    ensures var idle, after := ServerApply(Idle(StateOnWire(st)), coin), ServerApply(st, coin);
      && idle.srv == after.srv && |idle.At(x).inbox| <= 1
      && after.At(x) == st.At(x).(inbox := st.At(x).inbox + idle.At(x).inbox)
  {
    var none: seq<Packet> := [];
    assert forall p: Packet :: none + [p] == [p];
    assert st.At(x).inbox + none == st.At(x).inbox;
    match st.srv.pc
    case PickStarter =>
    case Poll =>
    case TurnToPrimary =>
    case TurnToSecondary =>
    case RelayMove(cell) =>
    case StatusToPrimary(status) =>
    case StatusToSecondary(status) =>
    case VerdictToPrimary(answer) =>
    case VerdictToSecondary(answer) =>
  }

  /** What it appends is the front of that player's backlog. */
  lemma AppendedIsCommitted(st: State, coin: bool, x: Side)
    requires !st.srv.pc.AwaitMove? && ServerReady(st)
    ensures var idle := ServerApply(Idle(StateOnWire(st)), coin);
      idle.At(x).inbox == [] || (Backlog(st.srv, x) != [] && idle.At(x).inbox == [Backlog(st.srv, x)[0]])
  {
  }

  lemma ServerKeepsEndRange(st: State, coin: bool, x: Side)
    requires EndInRange(st.At(x)) && AllFit(Backlog(st.srv, x)) && ServerReady(st)
    ensures EndInRange(ServerApply(st, coin).At(x))
  {
    if !st.srv.pc.AwaitMove? {
      ServerAppends(st, coin, x);
      AppendedIsCommitted(st, coin, x);
    }
  }

  lemma ServerKeepsSockets(st: State, coin: bool)
    requires ServerReady(st)
    ensures var srv := ServerApply(st, coin).srv; srv.sockP == st.srv.sockP && srv.sockS == st.srv.sockS
  {
  }

  lemma ServerKeepsRange(st: State, coin: bool)
    requires Inv(st) && InRange(st) && ServerReady(st)
    ensures InRange(ServerApply(st, coin))
  {
    BacklogInRange(st, Primary);
    BacklogInRange(st, Secondary);
    ServerKeepsEndRange(st, coin, Primary);
    ServerKeepsEndRange(st, coin, Secondary);
    ServerKeepsSockets(st, coin);
  }

  /** What a player takes or writes fits too. */
  lemma EndKeepsRange(e: End, cell: int, wants: bool)
    requires EndInRange(e)
    ensures ReadReady(e) ==> EndInRange(ReadApply(e))
    ensures IsCell(cell) ==> EndInRange(ClickApply(e, cell))
    ensures EndInRange(ChooseApply(e, wants))
    ensures e.outbox != [] ==> EndInRange(e.(outbox := e.outbox[1..]))
  {
  }

  lemma StepKeepsRange(st: State, a: Action)
    requires Inv(st) && InRange(st) && Enabled(st, a)
    ensures InRange(Apply(st, a))
  {
    match a
    case ServerStep(coin) => ServerKeepsRange(st, coin);
    case PollStep(x) => EndKeepsRange(st.At(x), 1, true);
    case ClientRead(x) => EndKeepsRange(st.At(x), 1, true);
    case Click(x, cell) => EndKeepsRange(st.At(x), cell, true);
    case Choose(x, wants) => EndKeepsRange(st.At(x), 1, wants);
  }

  // ---------------------------------------------------------------- simulation, action by action

  lemma WordsOfOne(xs: seq<Packet>, ys: seq<Packet>)
    requires |ys| <= 1
    ensures Words(xs + ys) == Words(xs) + Words(ys)
  {
    if ys == [] {
      assert xs + ys == xs;
    } else {
      assert ys == [ys[0]] && Words(ys) == Word(ys[0]) + Words([]);
      WordsAppend(xs, ys[0]);
    }
  }

  lemma SendOnWire(st: State, coin: bool)
    requires !st.srv.pc.AwaitMove? && ServerReady(st)
    ensures ByteEnabled(StateOnWire(st), ServerStep(coin))
    ensures ByteApply(StateOnWire(st), ServerStep(coin)) == StateOnWire(ServerApply(st, coin))
  {
    ServerAppends(st, coin, Primary);
    ServerAppends(st, coin, Secondary);
    var idle := ServerApply(Idle(StateOnWire(st)), coin);
    WordsOfOne(st.p.inbox, idle.p.inbox);
    WordsOfOne(st.s.inbox, idle.s.inbox);
  }

  lemma AcceptOnWire(st: State, coin: bool)
    requires Inv(st) && InRange(st) && st.srv.pc.AwaitMove?
    ensures ByteEnabled(StateOnWire(st), ServerStep(coin)) <==> ServerReady(st)
    ensures ServerReady(st) ==>
      ByteApply(StateOnWire(st), ServerStep(coin)) == StateOnWire(ServerApply(st, coin))
  {
    if ServerReady(st) {
      AwaitedMove(st);
      FirstWord(st.At(st.srv.acting).outbox);
    }
  }

  lemma PollOnWire(st: State, x: Side)
    requires Inv(st) && InRange(st)
    ensures ByteEnabled(StateOnWire(st), PollStep(x)) <==> PollReady(st, x)
    ensures PollReady(st, x) ==> ByteApply(StateOnWire(st), PollStep(x)) == StateOnWire(PollApply(st, x))
  {
    if PollReady(st, x) {
      assert st.At(x).outbox[0].kind.Verdict?;
      FirstWord(st.At(x).outbox);
    }
  }

  lemma ReadOnWire(st: State, x: Side)
    requires EndOk(st, x) && InRange(st)
    ensures ByteEnabled(StateOnWire(st), ClientRead(x)) <==> ReadReady(st.At(x))
    ensures ReadReady(st.At(x)) ==>
      ByteApply(StateOnWire(st), ClientRead(x)) == StateOnWire(st.With(x, ReadApply(st.At(x))))
  {
    if ReadReady(st.At(x)) {
      assert Pending(st, x)[0] == st.At(x).inbox[0];
      FirstWord(st.At(x).inbox);
    }
  }

  lemma ClickOnWire(st: State, x: Side, cell: int)
    ensures ByteEnabled(StateOnWire(st), Click(x, cell)) <==> Enabled(st, Click(x, cell))
    ensures Enabled(st, Click(x, cell)) ==>
      ByteApply(StateOnWire(st), Click(x, cell)) == StateOnWire(st.With(x, ClickApply(st.At(x), cell)))
  {
    WordsAppend(st.At(x).outbox, Packet(Move, cell));
  }

  lemma ChooseOnWire(st: State, x: Side, wants: bool)
    ensures ByteEnabled(StateOnWire(st), Choose(x, wants)) <==> Enabled(st, Choose(x, wants))
    ensures Enabled(st, Choose(x, wants)) ==>
      ByteApply(StateOnWire(st), Choose(x, wants)) == StateOnWire(st.With(x, ChooseApply(st.At(x), wants)))
  {
    WordsAppend(st.At(x).outbox, Packet(Verdict, if wants then APPROVE else DECLINE));
  }

  lemma ServerOnWire(st: State, coin: bool)
    requires Inv(st) && InRange(st)
    ensures ByteEnabled(StateOnWire(st), ServerStep(coin)) <==> ServerReady(st)
    ensures ServerReady(st) ==>
      ByteApply(StateOnWire(st), ServerStep(coin)) == StateOnWire(ServerApply(st, coin))
  {
    if st.srv.pc.AwaitMove? {
      AcceptOnWire(st, coin);
    } else if ServerReady(st) {
      SendOnWire(st, coin);
    }
  }

  /** The two machines can do the same things, and doing them leads to the same place. */
  lemma StepOnWire(st: State, a: Action)
    requires Inv(st) && InRange(st)
    ensures ByteEnabled(StateOnWire(st), a) <==> Enabled(st, a)
    ensures Enabled(st, a) ==> ByteApply(StateOnWire(st), a) == StateOnWire(Apply(st, a))
  {
    match a
    case ServerStep(coin) => ServerOnWire(st, coin);
    case PollStep(x) => PollOnWire(st, x);
    case ClientRead(x) => ReadOnWire(st, x);
    case Click(x, cell) => ClickOnWire(st, x, cell);
    case Choose(x, wants) => ChooseOnWire(st, x, wants);
  }

  /** The untagged byte streams carry the whole protocol: from two freshly opened windows, a sequence
      of actions is possible on bytes exactly when it is possible on packets, and it leads to the
      image of the same state. Every theorem about reachable states therefore holds on the wire. */
  lemma {:induction false} RunsOnWire(st: State, acts: seq<Action>)
    requires Inv(st) && InRange(st)
    ensures ByteRun(StateOnWire(st), acts) ==
            match Run(st, acts) { case Reached(after) => ByteReached(StateOnWire(after)) case Refused => ByteRefused }
    decreases |acts|
  {
    if acts != [] {
      StepOnWire(st, acts[0]);
      if Enabled(st, acts[0]) {
        StepKeepsInv(st, acts[0]);
        StepKeepsRange(st, acts[0]);
        RunsOnWire(Apply(st, acts[0]), acts[1..]);
      }
    }
  }

  lemma RunIsSafe(st: State, acts: seq<Action>)
    requires Inv(st) && Run(st, acts).Reached?
    ensures var srv := Run(st, acts).st.srv; !srv.pc.Corrupt? && AtMostOneOwner(srv.grid, srv.sockP, srv.sockS)
  {
    RunKeepsInv(st, acts);
  }

  /** In particular no byte run from an initial state writes the server's grid out of place. */
  lemma WireRunsAreSafe(st: State, acts: seq<Action>)
    requires Init(st) && st.srv.sockP < 0x8000_0000 && st.srv.sockS < 0x8000_0000
    ensures match ByteRun(StateOnWire(st), acts)
      case ByteReached(bs) => !bs.srv.pc.Corrupt? && AtMostOneOwner(bs.srv.grid, bs.srv.sockP, bs.srv.sockS)
      case ByteRefused => Run(st, acts).Refused?
  {
    InitEstablishesInv(st);
    RunsOnWire(st, acts);
    if Run(st, acts).Reached? {
      RunIsSafe(st, acts);
    }
  }
}
