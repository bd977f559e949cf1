/** Progress and termination of the match protocol. */
module ProtocolProgress {
  import opened Board
  import opened TrisGame
  import opened Protocol
  import opened ProtocolInvariant
  import opened ProtocolTheorems

  // ---------------------------------------------------------------- no deadlock

  predicate AllGone(st: State) {
    st.srv.pc.Finished? && st.p.client.reader.Gone? && st.s.client.reader.Gone?
  }

  function FirstVacant(g: Grid, from: nat): int
    requires from <= 9
    decreases 9 - from
  {
    if from == 9 then 0 else if g[from] == 0 then from + 1 else FirstVacant(g, from + 1)
  }

  lemma {:induction false} FirstVacantFinds(g: Grid, from: nat)
    requires from <= 9 && exists i :: from <= i < 9 && g[i] == 0
    ensures Vacant(g, FirstVacant(g, from))
    decreases 9 - from
  {
    if g[from] != 0 {
      FirstVacantFinds(g, from + 1);
    }
  }

  /** Something that can happen next at `x`, given that the server itself is not ready. */
  function NextAt(st: State, x: Side): Action {
    var c := st.At(x).client;
    if ReadReady(st.At(x)) then ClientRead(x)
    else if PollReady(st, x) then PollStep(x)
    else if c.reader.Over? then Choose(x, true)
    else Click(x, FirstVacant(c.board, 0))
  }

  /** The player everybody is waiting for. */
  function Awaited(st: State): Side {
    match st.srv.pc
    case AwaitMove => st.srv.acting
    case Poll => if st.srv.pollP.Got? then Secondary else Primary
    case _ => if st.p.client.reader.Gone? then Secondary else Primary
  }

  function NextAction(st: State): Action {
    if ServerReady(st) then ServerStep(true) else NextAt(st, Awaited(st))
  }

  lemma OpenBoardOffersClick(st: State)
    requires Inv(st) && st.srv.pc.AwaitMove? && !ServerReady(st) && st.At(st.srv.acting).inbox == []
    ensures Enabled(st, Click(st.srv.acting, FirstVacant(st.At(st.srv.acting).client.board, 0)))
  {
    var x, starter := st.srv.acting, st.srv.Sock(st.srv.starter);
    assert Pending(st, x) == [];
    VictorMeaning(st.srv.grid, st.srv.sockP, st.srv.sockS);
    MarksVacant(st.srv.grid, starter);
    ClickSeesWin(st, x);
    FirstVacantFinds(st.At(x).client.board, 0);
  }

  /** No reachable state is stuck before both clients have left and the server is done. */
  lemma NoDeadlock(st: State)
    requires Reachable(st) && !AllGone(st)
    ensures Enabled(st, NextAction(st))
  {
    ReachableInv(st);
    var x := Awaited(st);
    if !ServerReady(st) && st.At(x).inbox == [] {
      assert Pending(st, x) == [];
      if st.srv.pc.AwaitMove? {
        OpenBoardOffersClick(st);
      }
    } else if !ServerReady(st) {
      assert Pending(st, x)[0] == st.At(x).inbox[0];
    }
  }

  // ---------------------------------------------------------------- every game ends

  function ChoiceWork(d: Client): nat {
    if d.reader.Over? then 11 else 3
  }

  /** Work left in the current game that is not yet a message. */
  function StageWork(st: State): int {
    match StageOf(st.srv)
    case Play => 22 + 8 * (Vacancies(st.srv.grid) - |st.At(st.srv.acting).outbox|)
    case Ended => ChoiceWork(Settled(st, Primary)) + ChoiceWork(Settled(st, Secondary))
    case Fresh => if st.srv.pc.PickStarter? then 100 else 0
    case Closed => 0
    case Broken => 0
  }

  function MessageWork(st: State, x: Side): int {
    |st.At(x).inbox| + 2 * |Backlog(st.srv, x)| + 7 * |st.At(x).outbox|
  }

  function Work(st: State): int {
    StageWork(st) + MessageWork(st, Primary) + MessageWork(st, Secondary)
  }

  /** The one step that starts another game. */
  predicate Restarts(st: State, a: Action) {
    st.srv.pc == VerdictToSecondary(APPROVE) && a.ServerStep?
  }

  lemma MessageBounds(st: State, x: Side)
    requires Inv(st)
    ensures 0 <= MessageWork(st, x) <= 15
    ensures st.srv.pc.PickStarter? ==> MessageWork(st, x) <= 4
  {
    AlignedFitsRoom(st.At(x).client, Pending(st, x));
    assert |Pending(st, x)| == |st.At(x).inbox| + |Backlog(st.srv, x)|;
    assert |st.At(x).outbox| <= 1;
  }

  lemma StageBounds(st: State)
    requires Inv(st)
    ensures 0 <= StageWork(st) <= if st.srv.pc.PickStarter? then 100 else 94
  {
    VacanciesBound(st.srv.grid);
    if StageOf(st.srv).Play? && |st.At(st.srv.acting).outbox| == 1 {
      var m := st.At(st.srv.acting).outbox[0].value;
      assert Vacant(st.srv.grid, m) && st.srv.grid[m - 1] == 0;
    }
    assert StageOf(st.srv).Play? ==> |st.At(st.srv.acting).outbox| <= Vacancies(st.srv.grid);
  }

  lemma WorkBounds(st: State)
    requires Inv(st)
    ensures 0 <= Work(st) <= 124
    ensures st.srv.pc.PickStarter? ==> Work(st) <= 108
  {
    MessageBounds(st, Primary);
    MessageBounds(st, Secondary);
    StageBounds(st);
  }

  /** Work at one end, apart from the stage, depends on lengths only. */
  lemma SameStageWork(st: State, st2: State)
    requires StageOf(st2.srv) == StageOf(st.srv) && (st2.srv.pc.PickStarter? ==> st.srv.pc.PickStarter?)
    requires st2.srv.grid == st.srv.grid && st2.srv.acting == st.srv.acting
    requires StageOf(st.srv).Play? ==> |st2.At(st.srv.acting).outbox| == |st.At(st.srv.acting).outbox|
    requires forall x: Side :: Settled(st2, x) == Settled(st, x)
    ensures StageWork(st2) <= StageWork(st)
  {
  }

  lemma SendMovesOnePacket(st: State, coin: bool)
    requires Sending(st.srv.pc)
    ensures var st2 := ServerApply(st, coin);
      |st2.p.inbox| + |st2.s.inbox| == |st.p.inbox| + |st.s.inbox| + 1
  {
  }

  lemma SendEndWork(st: State, coin: bool, x: Side)
    requires Sending(st.srv.pc)
    ensures var st2 := ServerApply(st, coin);
      && Settled(st2, x) == Settled(st, x) && st2.At(x).outbox == st.At(x).outbox
      && MessageWork(st2, x) == MessageWork(st, x) + |st.At(x).inbox| - |st2.At(x).inbox|
  {
    SendKeepsPending(st, coin, x);
    assert |Pending(ServerApply(st, coin), x)| == |Pending(st, x)|;
  }

  lemma SendWorks(st: State, coin: bool)
    requires ServerOk(st.srv) && Sending(st.srv.pc) && !Restarts(st, ServerStep(coin))
    ensures Work(ServerApply(st, coin)) < Work(st)
  {
    var st2 := ServerApply(st, coin);
    forall x: Side
      ensures Settled(st2, x) == Settled(st, x) && st2.At(x).outbox == st.At(x).outbox
    {
      SendEndWork(st, coin, x);
    }
    SendEndWork(st, coin, Primary);
    SendEndWork(st, coin, Secondary);
    SendMovesOnePacket(st, coin);
    SendKeepsServerOk(st, coin);
    SameStageWork(st, st2);
  }

  lemma AcceptMessages(st: State, coin: bool)
    requires Inv(st) && st.srv.pc.AwaitMove? && ServerReady(st)
    ensures var st2, x, y := ServerApply(st, coin), st.srv.acting, st.srv.acting.Other();
      && MessageWork(st2, x) == MessageWork(st, x) - 5 && MessageWork(st2, y) == MessageWork(st, y) + 4
      && st2.At(x).outbox == [] && st2.At(y).outbox == [] && |st.At(x).outbox| == 1
  {
    AwaitedMove(st);
    var x, y := st.srv.acting, st.srv.acting.Other();
    AcceptedGrid(st.srv, st.At(x).outbox[0].value);
    assert st.At(y).outbox == [];
    assert Backlog(st.srv, x) == [] && Backlog(st.srv, y) == [];
  }

  lemma AcceptWorks(st: State, coin: bool)
    requires Inv(st) && st.srv.pc.AwaitMove? && ServerReady(st)
    ensures Work(ServerApply(st, coin)) < Work(st)
  {
    var st2 := ServerApply(st, coin);
    AcceptMessages(st, coin);
    AwaitedMove(st);
    var x := st.srv.acting;
    var cell := st.At(x).outbox[0].value;
    PlaceFillsVacancy(st.srv.grid, cell - 1, st.srv.Sock(x));
    assert Vacancies(st2.srv.grid) == Vacancies(st.srv.grid) - 1;
    assert StageWork(st2) <= StageWork(st);
  }

  lemma DecideWorks(st: State, coin: bool)
    requires Inv(st) && st.srv.pc.Poll? && ServerReady(st)
    ensures Work(ServerApply(st, coin)) < Work(st)
  {
    BothPolled(st, Primary);
    BothPolled(st, Secondary);
  }

  lemma ReadEndWork(st: State, x: Side, z: Side)
    requires ReadReady(st.At(x))
    ensures var st2 := st.With(x, ReadApply(st.At(x)));
      && Settled(st2, z) == Settled(st, z) && st2.At(z).outbox == st.At(z).outbox
      && MessageWork(st2, z) == MessageWork(st, z) - (if x == z then 1 else 0)
  {
    var st2 := st.With(x, ReadApply(st.At(x)));
    if x == z {
      assert Pending(st2, x) == Pending(st, x)[1..] && Pending(st, x)[0] == st.At(x).inbox[0];
    } else {
      assert Pending(st2, z) == Pending(st, z);
    }
  }

  lemma ReadWorks(st: State, x: Side)
    requires ReadReady(st.At(x))
    ensures Work(st.With(x, ReadApply(st.At(x)))) < Work(st)
  {
    var st2 := st.With(x, ReadApply(st.At(x)));
    forall z: Side
      ensures Settled(st2, z) == Settled(st, z) && st2.At(z).outbox == st.At(z).outbox
    {
      ReadEndWork(st, x, z);
    }
    ReadEndWork(st, x, Primary);
    ReadEndWork(st, x, Secondary);
    SameStageWork(st, st2);
  }

  lemma ChooseWorks(st: State, x: Side, wants: bool)
    requires Inv(st) && st.At(x).client.reader.Over?
    ensures Work(st.With(x, ChooseApply(st.At(x), wants))) < Work(st)
  {
    var st2 := st.With(x, ChooseApply(st.At(x), wants));
    assert Pending(st, x) == [] && Pending(st2, x) == [];
    assert Pending(st2, x.Other()) == Pending(st, x.Other());
    assert StageOf(st.srv).Ended?;
  }

  lemma PollWorks(st: State, x: Side)
    requires Inv(st) && PollReady(st, x)
    ensures Work(PollApply(st, x)) < Work(st)
  {
    var st2 := PollApply(st, x);
    assert forall z: Side :: Pending(st2, z) == Pending(st, z);
    assert forall z: Side :: Settled(st2, z) == Settled(st, z);
  }

  lemma PickWorks(st: State, coin: bool)
    requires Inv(st) && st.srv.pc.PickStarter?
    ensures Work(ServerApply(st, coin)) < Work(st)
  {
    VacanciesBound(BLANK);
  }

  lemma ClickWorks(st: State, x: Side, cell: int)
    requires Inv(st) && ClickReady(st.At(x).client, cell)
    ensures Work(st.With(x, ClickApply(st.At(x), cell))) < Work(st)
  {
    ClickInPlay(st, x, cell);
  }

  lemma StepWorks(st: State, a: Action)
    requires Inv(st) && Enabled(st, a) && !Restarts(st, a)
    ensures Work(Apply(st, a)) < Work(st)
  {
    match a
    case ServerStep(coin) =>
      match st.srv.pc {
        case PickStarter => PickWorks(st, coin);
        case AwaitMove => AcceptWorks(st, coin);
        case Poll => DecideWorks(st, coin);
        case _ => SendWorks(st, coin);
      }
    case PollStep(x) => PollWorks(st, x);
    case ClientRead(x) => ReadWorks(st, x);
    case Click(x, cell) => ClickWorks(st, x, cell);
    case Choose(x, wants) => ChooseWorks(st, x, wants);
  }

  predicate NoRestart(st: State, acts: seq<Action>)
    requires Run(st, acts).Reached?
    decreases |acts|
  {
    acts == [] || (!Restarts(st, acts[0]) && NoRestart(Apply(st, acts[0]), acts[1..]))
  }

  /** Without the start of another game a run ends: no schedule of sends, reads, clicks and answers
      can go on for more than 124 steps from any reachable state, or 108 from the draw of a starter. */
  lemma {:induction false} GamesEnd(st: State, acts: seq<Action>)
    requires Inv(st) && Run(st, acts).Reached? && NoRestart(st, acts)
    ensures |acts| <= Work(st) <= 124
    ensures st.srv.pc.PickStarter? ==> |acts| <= 108
    decreases |acts|
  {
    WorkBounds(st);
    if acts != [] {
      StepWorks(st, acts[0]);
      StepKeepsInv(st, acts[0]);
      GamesEnd(Apply(st, acts[0]), acts[1..]);
    }
  }
}
