/** The server's grid of socket numbers and the checks it runs on it in place. */
module ServerGrid {
  import opened Board

  predicate Is3x3(grid: array2<int>) {
    grid.Length0 == 3 && grid.Length1 == 3
  }

  /** The nine cells in wire order: cell n sits at row (n-1)/3, column (n-1)%3. */
  function Cells(grid: array2<int>): (g: Grid)
    requires Is3x3(grid)
    reads grid
  {
    [grid[0, 0], grid[0, 1], grid[0, 2], grid[1, 0], grid[1, 1], grid[1, 2], grid[2, 0], grid[2, 1], grid[2, 2]]
  }

  predicate UniformRow(grid: array2<int>, row: nat, v: int)
    requires Is3x3(grid) && row < 3
    reads grid
  {
    grid[row, 0] == v && grid[row, 1] == v && grid[row, 2] == v
  }

  predicate UniformColumn(grid: array2<int>, column: nat, v: int)
    requires Is3x3(grid) && column < 3
    reads grid
  {
    grid[0, column] == v && grid[1, column] == v && grid[2, column] == v
  }

  /** The three line checks and the victor calculation all answer from the grid as it stands. */
  method ValidateHorizontal(grid: array2<int>, target: int) returns (r: int)
    requires Is3x3(grid)
    ensures r == if HasRow(Cells(grid), target) then 1 else 0
  {
    var valid := 1;
    for row := 0 to 3
      invariant valid == 1
      invariant forall k | 0 <= k < row :: !UniformRow(grid, k, target)
    {
      for col := 0 to 3
        invariant valid == 0 || valid == 1
        invariant valid == 1 <==> forall c | 0 <= c < col :: grid[row, c] == target
        invariant col == 3 ==> valid == 0
      {
        if valid != 0 && grid[row, col] != target {
          valid := 0;
        }
        if valid != 0 && col == 2 {
          return 1;
        }
      }
      assert !UniformRow(grid, row, target);
      valid := 1;
    }
    assert !UniformRow(grid, 0, target) && !UniformRow(grid, 1, target) && !UniformRow(grid, 2, target);
    return 0;
  }

  method ValidateVertical(grid: array2<int>, target: int) returns (r: int)
    requires Is3x3(grid)
    ensures r == if HasColumn(Cells(grid), target) then 1 else 0
  {
    var valid := 1;
    for row := 0 to 3
      invariant valid == 1
      invariant forall k | 0 <= k < row :: !UniformColumn(grid, k, target)
    {
      for col := 0 to 3
        invariant valid == 0 || valid == 1
        invariant valid == 1 <==> forall c | 0 <= c < col :: grid[c, row] == target
        invariant col == 3 ==> valid == 0
      {
        if valid != 0 && grid[col, row] != target {
          valid := 0;
        }
        if valid != 0 && col == 2 {
          return 1;
        }
      }
      assert !UniformColumn(grid, row, target);
      valid := 1;
    }
    assert !UniformColumn(grid, 0, target) && !UniformColumn(grid, 1, target) && !UniformColumn(grid, 2, target);
    return 0;
  }

  method ValidateDiagonal(grid: array2<int>, target: int) returns (r: int)
    requires Is3x3(grid)
    ensures r == if HasDiagonal(Cells(grid), target) then 1 else 0
  {
    var valid := 1;
    for p := 0 to 3
      invariant valid == 0 || valid == 1
      invariant valid == 1 <==> forall c | 0 <= c < p :: grid[c, c] == target
    {
      if valid != 0 && grid[p, p] != target {
        valid := 0;
      }
    }
    if valid == 0 {
      valid := 1;
      for p := 0 to 3
        invariant valid == 0 || valid == 1
        invariant valid == 1 <==>
          (p > 0 ==> grid[0, 2] == target) && (p > 1 ==> grid[1, 1] == target) && (p > 2 ==> grid[2, 0] == target)
      {
        if valid != 0 && grid[p, 2 - p] != target {
          valid := 0;
        }
      }
      return valid;
    } else {
      return 1;
    }
  }

  method CalculateSessionVictor(grid: array2<int>, val1: int, val2: int) returns (r: int)
    requires Is3x3(grid)
    ensures r == Victor(Cells(grid), val1, val2)
  {
    var hit := ValidateHorizontal(grid, val1);
    if hit != 0 { return val1; }
    hit := ValidateHorizontal(grid, val2);
    if hit != 0 { return val2; }
    hit := ValidateVertical(grid, val1);
    if hit != 0 { return val1; }
    hit := ValidateVertical(grid, val2);
    if hit != 0 { return val2; }
    hit := ValidateDiagonal(grid, val1);
    if hit != 0 { return val1; }
    hit := ValidateDiagonal(grid, val2);
    if hit != 0 { return val2; }
    for row := 0 to 3
      invariant forall k, c | 0 <= k < row && 0 <= c < 3 :: grid[k, c] != 0
    {
      for col := 0 to 3
        invariant forall k, c | 0 <= k < row && 0 <= c < 3 :: grid[k, c] != 0
        invariant forall c | 0 <= c < col :: grid[row, c] != 0
      {
        if grid[row, col] == 0 {
          assert Cells(grid)[3 * row + col] == 0;
          return OPEN;
        }
      }
    }
    return DRAW;
  }

  method WipeTopologicalGrid(grid: array2<int>)
    requires Is3x3(grid)
    modifies grid
    ensures Cells(grid) == BLANK
  {
    for row := 0 to 3
      invariant forall k, c | 0 <= k < row && 0 <= c < 3 :: grid[k, c] == 0
    {
      for col := 0 to 3
        invariant forall k, c | 0 <= k < row && 0 <= c < 3 :: grid[k, c] == 0
        invariant forall c | 0 <= c < col :: grid[row, c] == 0
      {
        grid[row, col] := 0;
      }
    }
  }

  /** One accepted coordinate: the C index arithmetic hits exactly wire cell `cell`. */
  method WriteCell(grid: array2<int>, cell: int, v: int)
    requires Is3x3(grid) && IsCell(cell)
    modifies grid
    ensures Cells(grid) == Place(old(Cells(grid)), cell, v)
    ensures forall r, c | 0 <= r < 3 && 0 <= c < 3 :: grid[r, c] == if 3 * r + c + 1 == cell then v else old(grid[r, c])
  {
    grid[(cell - 1) / 3, (cell - 1) % 3] := v;
  }
}
