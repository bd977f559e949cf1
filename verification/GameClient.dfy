/** The client as it is written: a reader loop that tells values apart by position, callbacks that
    change the window's token and replace or update the board, the click handler, and the rematch
    dialogue. Each is proved to act on the client's abstract state as the protocol says. */
module GameClient {
  import opened Board
  import opened TrisGame
  import opened Protocol

  /** A client that takes a whole list of values by position. */
  function ConsumeAll(c: Client, vs: seq<int>): Client
    decreases |vs|
  {
    if vs == [] then c else ConsumeAll(Consume(c, vs[0]), vs[1..])
  }

  lemma {:induction false} ConsumeAllAppend(c: Client, vs: seq<int>, v: int)
    ensures ConsumeAll(c, vs + [v]) == Consume(ConsumeAll(c, vs), v)
    decreases |vs|
  {
    if vs == [] {
      assert ConsumeAll(Consume(c, v), []) == Consume(c, v);
      assert ([] + [v])[1..] == [];
    } else {
      assert (vs + [v])[1..] == vs[1..] + [v];
      ConsumeAllAppend(Consume(c, vs[0]), vs[1..], v);
    }
  }

  lemma ConsumeNext(c: Client, vs: seq<int>, n: nat)
    requires n < |vs|
    ensures ConsumeAll(c, vs[..n + 1]) == Consume(ConsumeAll(c, vs[..n]), vs[n])
    ensures n == 0 ==> ConsumeAll(c, vs[..n]) == c
  {
    assert vs[..n + 1] == vs[..n] + [vs[n]];
    ConsumeAllAppend(c, vs[..n], vs[n]);
  }

  datatype Sent = Nothing | Word(value: int)

  class GameClient {
    const sessionIdentifier: int
    var simulationEngine: TrisGame
    /** The window's token. */
    var hasTokenControl: bool
    /** The reader thread's own token and the read it is blocked on. */
    var readerToken: bool
    var reader: Reader
    var finalStatus: int
    var wantsRematch: bool

    ghost function Repr(): set<object>
      reads this, simulationEngine
    {
      {this, simulationEngine, simulationEngine.gridMatrix}
    }

    ghost predicate Valid()
      reads this, simulationEngine
    {
      simulationEngine.Valid()
    }

    ghost function View(): Client
      requires Valid()
      reads this, simulationEngine, simulationEngine.gridMatrix
    {
      Client(sessionIdentifier, reader, readerToken, hasTokenControl, simulationEngine.localSignature,
             simulationEngine.Board(), finalStatus, wantsRematch)
    }

    constructor (id: int)
      ensures Valid() && fresh(Repr()) && sessionIdentifier == id
      ensures View().reader.AtTurn? && !View().uiToken && View().board == BLANK
    {
      sessionIdentifier := id;
      simulationEngine := new TrisGame();
      hasTokenControl, readerToken, reader, finalStatus, wantsRematch := false, false, AtTurn, 0, false;
    }

    /** The turn marker: a new board, mark 1 and the token for the starter. */
    method OnFirstTurn(tokenHolder: int)
      requires Valid() && reader.AtTurn?
      modifies this
      ensures Valid() && fresh(Repr() - {this})
      ensures View() == Consume(old(View()), tokenHolder)
      ensures hasTokenControl == readerToken == (tokenHolder == sessionIdentifier)
      ensures simulationEngine.Board() == BLANK
      ensures simulationEngine.localSignature == if tokenHolder == sessionIdentifier then 1 else 2
    {
      var localPriority := tokenHolder == sessionIdentifier;
      hasTokenControl := localPriority;
      simulationEngine := new TrisGame();
      var ok := simulationEngine.SetMyMark(if localPriority then 1 else 2);
      readerToken := tokenHolder == sessionIdentifier;
      reader := if readerToken then AtStatus else AtMove;
    }

    /** The opponent's move raises the window's token, unless its coordinate is out of range. */
    method OnOpponentMove(delta: int)
      requires Valid() && reader.AtMove?
      modifies this`hasTokenControl, this`reader, simulationEngine.gridMatrix
      ensures Valid() && Repr() == old(Repr())
      ensures View() == Consume(old(View()), delta)
      ensures hasTokenControl == (old(hasTokenControl) || 1 <= delta <= 9)
    {
      var outcome := simulationEngine.ApplyOpponentMove(delta);
      if !outcome.OutOfRange? {
        hasTokenControl := true;
      }
      reader := AtStatus;
    }

    /** A status: anything but -2 ends the reader, otherwise its token changes hands. */
    method OnGameStatus(flag: int)
      requires Valid() && reader.AtStatus?
      modifies this`readerToken, this`reader, this`finalStatus
      ensures Valid() && Repr() == old(Repr())
      ensures View() == Consume(old(View()), flag)
      ensures reader.Over? <==> flag != -2
      ensures if flag == -2 then readerToken == !old(readerToken) else finalStatus == flag
    {
      if flag != OPEN {
        reader, finalStatus := Over, flag;
      } else {
        readerToken := !readerToken;
        reader := if readerToken then AtStatus else AtMove;
      }
    }

    /** One pass of the reader's loop: the opponent's move if the token is away, then the status. */
    method ReadRound(inbox: seq<int>, from: nat, ghost before: Client) returns (consumed: nat)
      requires Valid() && from <= |inbox| && View() == ConsumeAll(before, inbox[..from])
      requires reader == if readerToken then AtStatus else AtMove
      modifies this`hasTokenControl, this`readerToken, this`reader, this`finalStatus, simulationEngine.gridMatrix
      ensures Valid() && Repr() == old(Repr())
      ensures from <= consumed <= |inbox| && View() == ConsumeAll(before, inbox[..consumed])
      ensures consumed == |inbox| || reader.Over? ||
              (from < consumed && reader == if readerToken then AtStatus else AtMove)
      ensures reader.Over? ==> from < consumed && inbox[consumed - 1] != -2
      ensures forall k | from <= k < consumed :: !ConsumeAll(before, inbox[..k]).reader.Over?
    {
      consumed := from;
      if !readerToken {
        if consumed == |inbox| {
          return;
        }
        ConsumeNext(before, inbox, consumed);
        OnOpponentMove(inbox[consumed]);
        consumed := consumed + 1;
      }
      if consumed == |inbox| {
        return;
      }
      ConsumeNext(before, inbox, consumed);
      OnGameStatus(inbox[consumed]);
      consumed := consumed + 1;
    }

    /** The reader thread of one game on the values that have arrived: it stops at the final status,
        or waits when the values run out. */
    method StartReader(inbox: seq<int>) returns (consumed: nat, over: bool)
      requires Valid() && reader.AtTurn?
      modifies this
      ensures Valid() && fresh(Repr() - old(Repr()))
      ensures consumed <= |inbox| && View() == ConsumeAll(old(View()), inbox[..consumed])
      ensures over <==> reader.Over?
      ensures !over ==> consumed == |inbox|
      ensures over ==> consumed > 0 && inbox[consumed - 1] != -2
      ensures forall k | 0 <= k < consumed :: !ConsumeAll(old(View()), inbox[..k]).reader.Over?
    {
      consumed, over := 0, false;
      if inbox == [] {
        return;
      }
      ghost var before := View();
      OnFirstTurn(inbox[0]);
      consumed := 1;
      ConsumeNext(before, inbox, 0);
      while consumed < |inbox| && !reader.Over?
        invariant Valid() && fresh(Repr() - {this}) && 1 <= consumed <= |inbox|
        invariant View() == ConsumeAll(before, inbox[..consumed])
        invariant reader.Over? || consumed == |inbox| || reader == if readerToken then AtStatus else AtMove
        invariant reader.Over? ==> inbox[consumed - 1] != -2
        invariant forall k | 0 <= k < consumed :: !ConsumeAll(before, inbox[..k]).reader.Over?
        decreases |inbox| - consumed
      {
        consumed := ReadRound(inbox, consumed, before);
      }
      over := reader.Over?;
    }

    /** A click. Without the token, or on a cell the board refuses, nothing is sent or changed. */
    method DispatchDelta(physicalIndex: int) returns (sent: Sent)
      requires Valid()
      modifies this`hasTokenControl, simulationEngine.gridMatrix
      ensures Valid() && Repr() == old(Repr())
      ensures sent.Word? <==> old(hasTokenControl) && Vacant(old(View()).board, physicalIndex)
      ensures sent.Word? ==> sent.value == physicalIndex && View() == Clicked(old(View()), physicalIndex)
      ensures sent.Nothing? ==> View() == old(View())
    {
      sent := Nothing;
      if hasTokenControl {
        var outcome := simulationEngine.MakeMoveUI(physicalIndex);
        if outcome.Accepted? {
          sent := Word(outcome.cell);
          hasTokenControl := false;
        }
      }
    }

    /** The rematch question: the answer that is written, and what the server's word then makes of it.
        The window goes on to another game only if this player wanted one and the word is approval. */
    method PromptForSessionRefresh(consensus: bool, response: int) returns (written: int, again: bool)
      requires Valid() && reader.Over?
      modifies this`reader, this`wantsRematch, this`hasTokenControl
      ensures Valid() && Repr() == old(Repr())
      ensures written == (if consensus then 5 else 6)
      ensures View() == Consume(Answered(old(View()), consensus), response)
      ensures again <==> consensus && response == 5
      ensures if again then reader.AtTurn? && !hasTokenControl
              else reader.Gone? && hasTokenControl == old(hasTokenControl)
    {
      wantsRematch := consensus;
      written := if consensus then APPROVE else DECLINE;
      var granted := response == APPROVE;
      if consensus && granted {
        hasTokenControl := false;
        reader := AtTurn;
        again := true;
      } else {
        reader := Gone;
        again := false;
      }
    }
  }
}
