/** The 3x3 board both programs keep, as a sequence of nine cells read row by row.
    The server stores socket numbers in it, the client the marks 1 and 2; 0 is a free cell. */
module Board {
  type Grid = g: seq<int> | |g| == 9 witness [0, 0, 0, 0, 0, 0, 0, 0, 0]

  /** Status words the server sends besides a winner's socket number. */
  const DRAW := -1
  const OPEN := -2

  const BLANK: Grid := [0, 0, 0, 0, 0, 0, 0, 0, 0]

  predicate Owns(g: Grid, i: nat, j: nat, k: nat, v: int)
    requires i < 9 && j < 9 && k < 9
  {
    g[i] == v && g[j] == v && g[k] == v
  }

  predicate HasRow(g: Grid, v: int) {
    Owns(g, 0, 1, 2, v) || Owns(g, 3, 4, 5, v) || Owns(g, 6, 7, 8, v)
  }

  predicate HasColumn(g: Grid, v: int) {
    Owns(g, 0, 3, 6, v) || Owns(g, 1, 4, 7, v) || Owns(g, 2, 5, 8, v)
  }

  predicate HasDiagonal(g: Grid, v: int) {
    Owns(g, 0, 4, 8, v) || Owns(g, 2, 4, 6, v)
  }

  predicate HasLine(g: Grid, v: int) {
    HasRow(g, v) || HasColumn(g, v) || HasDiagonal(g, v)
  }

  predicate Full(g: Grid) {
    forall i | 0 <= i < 9 :: g[i] != 0
  }

  /** Cells are numbered 1..9 on the wire. */
  predicate IsCell(cell: int) {
    1 <= cell <= 9
  }

  predicate Vacant(g: Grid, cell: int) {
    IsCell(cell) && g[cell - 1] == 0
  }

  function Place(g: Grid, cell: int, v: int): Grid
    requires IsCell(cell)
  {
    g[cell - 1 := v]
  }

  /** The server's verdict, with its order of checks: rows, columns, then diagonals, `a` before `b`. */
  function Victor(g: Grid, a: int, b: int): int {
    if HasRow(g, a) then a
    else if HasRow(g, b) then b
    else if HasColumn(g, a) then a
    else if HasColumn(g, b) then b
    else if HasDiagonal(g, a) then a
    else if HasDiagonal(g, b) then b
    else if Full(g) then DRAW
    else OPEN
  }

  /** The client's winner check: the first monochrome line in the order of its table, 0 if none. */
  function ClientWinner(g: Grid): int {
    if g[0] != 0 && Owns(g, 0, 1, 2, g[0]) then g[0]
    else if g[3] != 0 && Owns(g, 3, 4, 5, g[3]) then g[3]
    else if g[6] != 0 && Owns(g, 6, 7, 8, g[6]) then g[6]
    else if g[0] != 0 && Owns(g, 0, 3, 6, g[0]) then g[0]
    else if g[1] != 0 && Owns(g, 1, 4, 7, g[1]) then g[1]
    else if g[2] != 0 && Owns(g, 2, 5, 8, g[2]) then g[2]
    else if g[0] != 0 && Owns(g, 0, 4, 8, g[0]) then g[0]
    else if g[2] != 0 && Owns(g, 2, 4, 6, g[2]) then g[2]
    else 0
  }

  /** Every cell is free or belongs to one of two players. */
  predicate Between(g: Grid, a: int, b: int) {
    forall i | 0 <= i < 9 :: g[i] == 0 || g[i] == a || g[i] == b
  }

  predicate AtMostOneOwner(g: Grid, a: int, b: int) {
    !(HasLine(g, a) && HasLine(g, b))
  }

  /** The mark map: the starter's socket becomes 1, the other socket 2, a free cell stays 0. */
  function Mark(v: int, starter: int): int {
    if v == 0 then 0 else if v == starter then 1 else 2
  }

  function Marks(g: Grid, starter: int): Grid {
    seq(9, i requires 0 <= i < 9 => Mark(g[i], starter))
  }

  function Vacancies(s: seq<int>): nat {
    if s == [] then 0 else (if s[0] == 0 then 1 else 0) + Vacancies(s[1..])
  }

  /** With at most one owner of a line neither the order of the checks nor the order of the
      two players matters, and the four answers mean what the status words promise. */
  lemma VictorMeaning(g: Grid, a: int, b: int)
    requires a > 0 && b > 0 && a != b
    requires AtMostOneOwner(g, a, b)
    ensures Victor(g, a, b) == Victor(g, b, a)
    ensures Victor(g, a, b) == a <==> HasLine(g, a)
    ensures Victor(g, a, b) == b <==> HasLine(g, b)
    ensures Victor(g, a, b) == -1 <==> Full(g) && !HasLine(g, a) && !HasLine(g, b)
    ensures Victor(g, a, b) == -2 <==> !Full(g) && !HasLine(g, a) && !HasLine(g, b)
  {
    assert HasLine(g, a) ==> Victor(g, a, b) == a && Victor(g, b, a) == a;
    assert HasLine(g, b) ==> Victor(g, a, b) == b && Victor(g, b, a) == b;
  }

  /** A move only changes lines of the player who made it: from a board without a line, the only
      player who can own one afterwards is the mover. */
  lemma OnlyMoverGainsLine(g: Grid, cell: int, mover: int, other: int)
    requires mover > 0 && other > 0 && mover != other
    requires Vacant(g, cell)
    requires !HasLine(g, mover) && !HasLine(g, other)
    ensures !HasLine(Place(g, cell, mover), other)
    ensures AtMostOneOwner(Place(g, cell, mover), mover, other)
  {
    var h := Place(g, cell, mover);
    assert forall i | 0 <= i < 9 :: h[i] == other ==> g[i] == other;
  }

  lemma MarksOfPlace(g: Grid, cell: int, v: int, starter: int)
    requires IsCell(cell)
    ensures Marks(Place(g, cell, v), starter) == Place(Marks(g, starter), cell, Mark(v, starter))
  {
    var left, right := Marks(Place(g, cell, v), starter), Place(Marks(g, starter), cell, Mark(v, starter));
    assert forall i | 0 <= i < 9 :: left[i] == right[i];
  }

  lemma MarksVacant(g: Grid, starter: int)
    requires starter != 0
    ensures forall cell: int :: Vacant(Marks(g, starter), cell) <==> Vacant(g, cell)
    ensures Full(Marks(g, starter)) <==> Full(g)
  {
    assert forall i | 0 <= i < 9 :: Marks(g, starter)[i] == Mark(g[i], starter);
  }

  lemma MarksOfOwns(g: Grid, starter: int, other: int, i: nat, j: nat, k: nat)
    requires starter > 0 && other > 0 && starter != other
    requires Between(g, starter, other) && i < 9 && j < 9 && k < 9
    ensures Owns(Marks(g, starter), i, j, k, 1) <==> Owns(g, i, j, k, starter)
    ensures Owns(Marks(g, starter), i, j, k, 2) <==> Owns(g, i, j, k, other)
  {
  }

  /** The mark map preserves and reflects lines. */
  lemma MarksOfLines(g: Grid, starter: int, other: int)
    requires starter > 0 && other > 0 && starter != other
    requires Between(g, starter, other)
    ensures HasLine(Marks(g, starter), 1) <==> HasLine(g, starter)
    ensures HasLine(Marks(g, starter), 2) <==> HasLine(g, other)
  {
    MarksOfOwns(g, starter, other, 0, 1, 2);
    MarksOfOwns(g, starter, other, 3, 4, 5);
    MarksOfOwns(g, starter, other, 6, 7, 8);
    MarksOfOwns(g, starter, other, 0, 3, 6);
    MarksOfOwns(g, starter, other, 1, 4, 7);
    MarksOfOwns(g, starter, other, 2, 5, 8);
    MarksOfOwns(g, starter, other, 0, 4, 8);
    MarksOfOwns(g, starter, other, 2, 4, 6);
  }

  lemma ClientWinnerMeaning(g: Grid)
    requires Between(g, 1, 2) && AtMostOneOwner(g, 1, 2)
    ensures ClientWinner(g) == 1 <==> HasLine(g, 1)
    ensures ClientWinner(g) == 2 <==> HasLine(g, 2)
    ensures ClientWinner(g) == 0 <==> !HasLine(g, 1) && !HasLine(g, 2)
  {
    assert ClientWinner(g) != 0 ==> HasLine(g, ClientWinner(g));
  }

  /** The two independent winner algorithms agree under the mark map. */
  lemma WinnerAlgorithmsAgree(g: Grid, starter: int, other: int)
    requires starter > 0 && other > 0 && starter != other
    requires Between(g, starter, other) && AtMostOneOwner(g, starter, other)
    ensures var m := Marks(g, starter);
      && (ClientWinner(m) == 1 <==> Victor(g, starter, other) == starter)
      && (ClientWinner(m) == 2 <==> Victor(g, starter, other) == other)
      && (ClientWinner(m) == 0 && Full(m) <==> Victor(g, starter, other) == DRAW)
      && (ClientWinner(m) == 0 && !Full(m) <==> Victor(g, starter, other) == OPEN)
  {
    var m := Marks(g, starter);
    MarksOfLines(g, starter, other);
    MarksVacant(g, starter);
    assert forall i | 0 <= i < 9 :: m[i] == 0 || m[i] == 1 || m[i] == 2;
    ClientWinnerMeaning(m);
    VictorMeaning(g, starter, other);
  }

  /** Filling a free cell uses up exactly one vacancy. */
  lemma {:induction false} PlaceFillsVacancy(s: seq<int>, i: nat, v: int)
    requires i < |s| && s[i] == 0 && v != 0
    ensures Vacancies(s[i := v]) == Vacancies(s) - 1
  {
    if i == 0 {
      assert s[i := v][1..] == s[1..];
    } else {
      PlaceFillsVacancy(s[1..], i - 1, v);
      assert s[i := v][1..] == s[1..][i - 1 := v];
    }
  }

  lemma {:induction false} VacanciesBound(s: seq<int>)
    ensures Vacancies(s) <= |s|
    ensures Vacancies(s) > 0 <==> exists i | 0 <= i < |s| :: s[i] == 0
  {
    if s != [] {
      VacanciesBound(s[1..]);
      if i: nat :| i < |s| && s[i] == 0 {
        assert i == 0 || s[1..][i - 1] == 0;
      }
      if s[0] != 0 && Vacancies(s[1..]) > 0 {
        var i :| 0 <= i < |s[1..]| && s[1..][i] == 0;
        assert s[i + 1] == 0;
      }
    }
  }
}
