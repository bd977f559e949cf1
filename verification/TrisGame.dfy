/** The client's own board: nine cells and the local mark, changed in place. */
module TrisGame {
  import opened Board

  datatype MoveOutcome = Accepted(cell: int) | Occupied | OutOfRange

  function OppMark(mark: int): (r: int)
    ensures (mark == 1 || mark == 2) ==> {mark, r} == {1, 2}
  {
    if mark != 1 then 1 else 2
  }

  /** A coordinate that the local player picks: accepted iff it is a free cell of the board. */
  function MoveOutcomeOf(g: Grid, cell: int): MoveOutcome {
    if !IsCell(cell) then OutOfRange
    else if g[cell - 1] != 0 then Occupied
    else Accepted(cell)
  }

  /** An opponent's coordinate; `Occupied` leaves the board alone without an error. */
  function OpponentApplied(g: Grid, mark: int, cell: int): Grid {
    if Vacant(g, cell) then Place(g, cell, OppMark(mark)) else g
  }

  class TrisGame {
    var gridMatrix: array<int>
    var localSignature: int

    ghost predicate Valid()
      reads this
    {
      gridMatrix.Length == 9
    }

    function Board(): Grid
      requires Valid()
      reads this, gridMatrix
    {
      gridMatrix[..]
    }

    constructor ()
      ensures Valid() && fresh(gridMatrix)
      ensures Board() == BLANK && localSignature == 1
    {
      gridMatrix := new int[9](_ => 0);
      localSignature := 1;
    }

    /** Only 1 and 2 are marks; anything else is refused and changes nothing. */
    method SetMyMark(signature: int) returns (ok: bool)
      modifies this`localSignature
      ensures ok <==> signature == 1 || signature == 2
      ensures localSignature == if ok then signature else old(localSignature)
    {
      ok := signature == 1 || signature == 2;
      if ok {
        localSignature := signature;
      }
    }

    method MakeMoveUI(coordinate: int) returns (outcome: MoveOutcome)
      requires Valid()
      modifies gridMatrix
      ensures outcome == MoveOutcomeOf(old(Board()), coordinate)
      ensures outcome.Accepted? <==> Vacant(old(Board()), coordinate)
      ensures outcome.Occupied? <==> 1 <= coordinate <= 9 && old(Board())[coordinate - 1] != 0
      ensures Board() == if outcome.Accepted? then Place(old(Board()), coordinate, localSignature) else old(Board())
    {
      var mapped := coordinate - 1;
      if mapped >= 0 && mapped < gridMatrix.Length {
        if gridMatrix[mapped] == 0 {
          gridMatrix[mapped] := localSignature;
          return Accepted(coordinate);
        } else {
          return Occupied;
        }
      } else {
        return OutOfRange;
      }
    }

    method ApplyOpponentMove(coordinate: int) returns (outcome: MoveOutcome)
      requires Valid()
      modifies gridMatrix
      ensures outcome == MoveOutcomeOf(old(Board()), coordinate)
      ensures Board() == OpponentApplied(old(Board()), localSignature, coordinate)
      ensures Board() == if Vacant(old(Board()), coordinate)
                         then old(Board())[coordinate - 1 := if localSignature == 1 then 2 else 1] else old(Board())
      ensures outcome.OutOfRange? <==> coordinate < 1 || coordinate > 9
    {
      var mapped := coordinate - 1;
      if mapped >= 0 && mapped < gridMatrix.Length {
        if gridMatrix[mapped] == 0 {
          gridMatrix[mapped] := OppMark(localSignature);
          return Accepted(coordinate);
        } else {
          return Occupied;
        }
      } else {
        return OutOfRange;
      }
    }

    method IsBoardFull() returns (full: bool)
      requires Valid()
      ensures full <==> Full(Board())
    {
      var flag := true;
      for i := 0 to gridMatrix.Length
        invariant flag
        invariant forall k | 0 <= k < i :: gridMatrix[k] != 0
      {
        if gridMatrix[i] == 0 {
          assert Board()[i] == 0;
          flag := false;
          break;
        }
      }
      return flag;
    }

    /** Walks the table of eight lines and reports the first monochrome one. */
    method CheckWinner() returns (winner: int)
      requires Valid()
      ensures winner == ClientWinner(Board())
    {
      var table := LINE_TABLE;
      var k := 0;
      while k < |table|
        invariant 0 <= k <= |table|
        invariant forall l | 0 <= l < k :: !Monochrome(Board(), LINE_TABLE[l])
      {
        var line := table[k];
        var mark := gridMatrix[line.0];
        if mark != 0 && mark == gridMatrix[line.1] && mark == gridMatrix[line.2] {
          FirstLineWins(Board(), k);
          return gridMatrix[line.0];
        }
        k := k + 1;
      }
      NoLineNoWinner(Board());
      return 0;
    }
  }

  const LINE_TABLE: seq<(int, int, int)> :=
    [(0, 1, 2), (3, 4, 5), (6, 7, 8), (0, 3, 6), (1, 4, 7), (2, 5, 8), (0, 4, 8), (2, 4, 6)]

  predicate Monochrome(g: Grid, line: (int, int, int)) {
    && 0 <= line.0 < 9 && 0 <= line.1 < 9 && 0 <= line.2 < 9
    && g[line.0] != 0 && g[line.0] == g[line.1] && g[line.0] == g[line.2]
  }

  lemma FirstLineWins(g: Grid, k: nat)
    requires k < 8 && Monochrome(g, LINE_TABLE[k])
    requires forall l | 0 <= l < k :: !Monochrome(g, LINE_TABLE[l])
    ensures ClientWinner(g) == g[LINE_TABLE[k].0]
  {
    assert 0 < k ==> !Monochrome(g, LINE_TABLE[0]);
    assert 1 < k ==> !Monochrome(g, LINE_TABLE[1]);
    assert 2 < k ==> !Monochrome(g, LINE_TABLE[2]);
    assert 3 < k ==> !Monochrome(g, LINE_TABLE[3]);
    assert 4 < k ==> !Monochrome(g, LINE_TABLE[4]);
    assert 5 < k ==> !Monochrome(g, LINE_TABLE[5]);
    assert 6 < k ==> !Monochrome(g, LINE_TABLE[6]);
  }

  lemma NoLineNoWinner(g: Grid)
    requires forall l | 0 <= l < 8 :: !Monochrome(g, LINE_TABLE[l])
    ensures ClientWinner(g) == 0
  {
    assert !Monochrome(g, LINE_TABLE[0]) && !Monochrome(g, LINE_TABLE[1]) && !Monochrome(g, LINE_TABLE[2])
        && !Monochrome(g, LINE_TABLE[3]) && !Monochrome(g, LINE_TABLE[4]) && !Monochrome(g, LINE_TABLE[5])
        && !Monochrome(g, LINE_TABLE[6]) && !Monochrome(g, LINE_TABLE[7]);
  }
}
