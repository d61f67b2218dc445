/** A square grid of lights driven by rectangle instructions. Part one switches lights
    on, off or over; part two raises and lowers a brightness per light. Both walk the
    rectangle cell by cell over a mutable grid, then total the grid. */
module Day06 {

  datatype Action = TurnOn | TurnOff | Toggle

  /** An action on the inclusive rectangle from (xMin, yMin) to (xMax, yMax). */
  datatype Instruction = Instruction(action: Action, xMin: nat, yMin: nat, xMax: nat, yMax: nat)

  predicate Covers(i: Instruction, x: int, y: int)
  {
    i.xMin <= x <= i.xMax && i.yMin <= y <= i.yMax
  }

  /** The rectangle covers at least one cell. An empty one (a minimum above its
      maximum) runs an empty range and never touches the grid. */
  predicate NonEmpty(i: Instruction)
  {
    i.xMin <= i.xMax && i.yMin <= i.yMax
  }

  /** A non-empty rectangle lies inside a grid of `rows` by `columns` (the source
      panics on an index past the grid); an empty one may lie anywhere. */
  predicate InGrid(i: Instruction, rows: nat, columns: nat)
  {
    NonEmpty(i) ==> i.yMax < rows && i.xMax < columns
  }

  /** Every instruction can be applied to an `n` by `n` grid. */
  predicate Fits(ins: seq<Instruction>, n: nat)
  {
    forall k :: 0 <= k < |ins| ==> InGrid(ins[k], n, n)
  }

  /** Part one: on, off, or the opposite of what it was. */
  function Switch(a: Action, lit: bool): (r: bool)
    ensures a == TurnOn ==> r
    ensures a == TurnOff ==> !r
    ensures a == Toggle ==> r == !lit
  {
    match a
    case TurnOn => true
    case TurnOff => false
    case Toggle => !lit
  }

  /** Part two: one brighter, one dimmer but never below zero, or two brighter. */
  function Dim(a: Action, v: int): (r: int)
    ensures a == TurnOn ==> r == v + 1
    ensures a == TurnOff ==> r == if v >= 1 then v - 1 else 0
    ensures a == Toggle ==> r == v + 2
    ensures v >= 0 ==> r >= 0
  {
    match a
    case TurnOn => v + 1
    case TurnOff => if v - 1 > 0 then v - 1 else 0
    case Toggle => v + 2
  }

  /** The value of cell (x, y) after the instructions, from `init`, under `update`. */
  function Cell<T>(ins: seq<Instruction>, update: (Action, T) -> T, init: T, x: int, y: int): T
  {
    if ins == [] then init
    else
      var prev := Cell(ins[..|ins| - 1], update, init, x, y);
      var i := ins[|ins| - 1];
      if Covers(i, x, y) then update(i.action, prev) else prev
  }

  /** The weighted sum of cells (0, y) to (k - 1, y). */
  function RowTotal<T>(ins: seq<Instruction>, update: (Action, T) -> T, init: T, weight: T -> int, y: nat, k: nat): int
  {
    if k == 0 then 0 else RowTotal(ins, update, init, weight, y, k - 1) + weight(Cell(ins, update, init, k - 1, y))
  }

  /** The weighted sum over rows 0 to m - 1 of `n` cells each. */
  function GridTotal<T>(ins: seq<Instruction>, update: (Action, T) -> T, init: T, weight: T -> int, n: nat, m: nat): int
  {
    if m == 0 then 0 else GridTotal(ins, update, init, weight, n, m - 1) + RowTotal(ins, update, init, weight, m - 1, n)
  }

  function LitWeight(b: bool): int { if b then 1 else 0 }

  function Brightness(v: int): int { v }

  /** Applies one instruction, column by column and then row by row within the
      rectangle: covered cells are updated from their old value, the rest are kept. */
  method Apply<T>(grid: array2<T>, i: Instruction, update: (Action, T) -> T)
    requires InGrid(i, grid.Length0, grid.Length1)
    modifies grid
    ensures forall y, x :: 0 <= y < grid.Length0 && 0 <= x < grid.Length1 ==>
      grid[y, x] == if Covers(i, x, y) then update(i.action, old(grid[y, x])) else old(grid[y, x])
  {
    var x := i.xMin;
    while x <= i.xMax
      invariant i.xMin <= x && (x <= i.xMax + 1 || x == i.xMin)
      invariant forall y', x' :: 0 <= y' < grid.Length0 && 0 <= x' < grid.Length1 ==>
        grid[y', x'] == if Covers(i, x', y') && x' < x then update(i.action, old(grid[y', x'])) else old(grid[y', x'])
    {
      var y := i.yMin;
      while y <= i.yMax
        invariant i.yMin <= y && (y <= i.yMax + 1 || y == i.yMin)
        invariant forall y', x' :: 0 <= y' < grid.Length0 && 0 <= x' < grid.Length1 ==>
          grid[y', x'] ==
            if Covers(i, x', y') && (x' < x || (x' == x && y' < y)) then update(i.action, old(grid[y', x']))
            else old(grid[y', x'])
      {
        grid[y, x] := update(i.action, grid[y, x]);
        y := y + 1;
      }
      x := x + 1;
    }
  }

  /** Applies every instruction in order to a grid whose cells all hold `init`. */
  method Run<T>(grid: array2<T>, ins: seq<Instruction>, update: (Action, T) -> T, ghost init: T)
    requires grid.Length0 == grid.Length1 && Fits(ins, grid.Length0)
    requires forall y, x :: 0 <= y < grid.Length0 && 0 <= x < grid.Length1 ==> grid[y, x] == init
    modifies grid
    ensures forall y, x :: 0 <= y < grid.Length0 && 0 <= x < grid.Length1 ==> grid[y, x] == Cell(ins, update, init, x, y)
  {
    var k := 0;
    while k < |ins|
      invariant k <= |ins|
      invariant forall y, x :: 0 <= y < grid.Length0 && 0 <= x < grid.Length1 ==>
        grid[y, x] == Cell(ins[..k], update, init, x, y)
    {
      Apply(grid, ins[k], update);
      assert ins[..k + 1][..k] == ins[..k];
      k := k + 1;
    }
    assert ins[..k] == ins;
  }

  /** Sums the weights of all cells, row by row. */
  method Tally<T>(grid: array2<T>, weight: T -> int, ghost ins: seq<Instruction>, ghost update: (Action, T) -> T, ghost init: T)
    returns (t: int)
    requires grid.Length0 == grid.Length1
    requires forall y, x :: 0 <= y < grid.Length0 && 0 <= x < grid.Length1 ==> grid[y, x] == Cell(ins, update, init, x, y)
    ensures t == GridTotal(ins, update, init, weight, grid.Length1, grid.Length0)
  {
    t := 0;
    var y := 0;
    while y < grid.Length0
      invariant y <= grid.Length0
      invariant t == GridTotal(ins, update, init, weight, grid.Length1, y)
    {
      var row := 0;
      var x := 0;
      while x < grid.Length1
        invariant x <= grid.Length1
        invariant row == RowTotal(ins, update, init, weight, y, x)
      {
        row := row + weight(grid[y, x]);
        x := x + 1;
      }
      t := t + row;
      y := y + 1;
    }
  }

  /** Part one: the number of lights on after all instructions, on an `n` by `n` grid. */
  method Solve1(ins: seq<Instruction>, n: nat) returns (r: int)
    requires Fits(ins, n)
    ensures r == GridTotal(ins, Switch, false, LitWeight, n, n)
    ensures 0 <= r <= n * n
  {
    var grid := new bool[n, n]((y, x) => false);
    Run(grid, ins, Switch, false);
    r := Tally(grid, LitWeight, ins, Switch, false);
    CountBounds(ins, n, n);
  }

  /** Part two: the total brightness after all instructions, on an `n` by `n` grid. */
  method Solve2(ins: seq<Instruction>, n: nat) returns (r: int)
    requires Fits(ins, n)
    ensures r == GridTotal(ins, Dim, 0, Brightness, n, n)
    ensures r >= 0
  {
    var grid := new int[n, n]((y, x) => 0);
    Run(grid, ins, Dim, 0);
    r := Tally(grid, Brightness, ins, Dim, 0);
    BrightnessNonNegative(ins, n, n);
  }

  /** A brightness never drops below zero. */
  lemma {:induction false} CellBrightness(ins: seq<Instruction>, x: int, y: int)
    ensures Cell(ins, Dim, 0, x, y) >= 0
  {
    if ins != [] {
      CellBrightness(ins[..|ins| - 1], x, y);
    }
  }

  lemma {:induction false} BrightnessNonNegative(ins: seq<Instruction>, n: nat, m: nat)
    ensures GridTotal(ins, Dim, 0, Brightness, n, m) >= 0
  {
    if m > 0 {
      BrightnessNonNegative(ins, n, m - 1);
      RowBrightness(ins, m - 1, n);
    }
  }

  lemma {:induction false} RowBrightness(ins: seq<Instruction>, y: nat, k: nat)
    ensures RowTotal(ins, Dim, 0, Brightness, y, k) >= 0
  {
    if k > 0 {
      RowBrightness(ins, y, k - 1);
      CellBrightness(ins, k - 1, y);
    }
  }

  /** At most every light of the grid is on. */
  lemma {:induction false} CountBounds(ins: seq<Instruction>, n: nat, m: nat)
    ensures 0 <= GridTotal(ins, Switch, false, LitWeight, n, m) <= n * m
  {
    if m > 0 {
      CountBounds(ins, n, m - 1);
      RowBounds(ins, m - 1, n);
      assert n * m == n * (m - 1) + n;
    }
  }

  lemma {:induction false} RowBounds(ins: seq<Instruction>, y: nat, k: nat)
    ensures 0 <= RowTotal(ins, Switch, false, LitWeight, y, k) <= k
  {
    if k > 0 {
      RowBounds(ins, y, k - 1);
    }
  }

  /** Everything on, the first row toggled off, then the middle four lights off. */
  function Sample1(): seq<Instruction>
  {
    [Instruction(TurnOn, 0, 0, 999, 999), Instruction(Toggle, 0, 0, 999, 0), Instruction(TurnOff, 499, 499, 500, 500)]
  }

  lemma Sample1Cell(x: int, y: int)
    requires 0 <= x < 1000 && 0 <= y < 1000
    ensures Cell(Sample1(), Switch, false, x, y) == (y != 0 && !(499 <= x <= 500 && 499 <= y <= 500))
  {
    var s := Sample1();
    assert s[..2][..1] == [s[0]] && [s[0]][..0] == [];
    var c1 := Cell([s[0]], Switch, false, x, y);
    assert c1 == true;
    var c2 := Cell(s[..2], Switch, false, x, y);
    assert c2 == (y != 0);
  }

  /** A row's count over its first `k` lights. */
  lemma {:induction false} Sample1Row(y: nat, k: nat)
    requires y < 1000 && k <= 1000
    ensures RowTotal(Sample1(), Switch, false, LitWeight, y, k) ==
      if y == 0 then 0
      else if y != 499 && y != 500 then k
      else if k <= 499 then k
      else if k == 500 then 499
      else k - 2
  {
    if k > 0 {
      Sample1Row(y, k - 1);
      Sample1Cell(k - 1, y);
    }
  }

  lemma {:induction false} Sample1Rows(m: nat)
    requires m <= 1000
    ensures GridTotal(Sample1(), Switch, false, LitWeight, 1000, m) ==
      if m == 0 then 0
      else 1000 * (m - 1) - (if m > 499 then 2 else 0) - (if m > 500 then 2 else 0)
  {
    if m > 0 {
      Sample1Rows(m - 1);
      Sample1Row(m - 1, 1000);
    }
  }

  /** On the 1000 by 1000 grid the first sample leaves 998996 lights on. */
  lemma Sample1Count()
    ensures Fits(Sample1(), 1000)
    ensures GridTotal(Sample1(), Switch, false, LitWeight, 1000, 1000) == 998996
  {
    Sample1Rows(1000);
  }

  /** The top-left light on, then every light toggled. */
  function Sample2(): seq<Instruction>
  {
    [Instruction(TurnOn, 0, 0, 0, 0), Instruction(Toggle, 0, 0, 999, 999)]
  }

  lemma Sample2Cell(x: int, y: int)
    requires 0 <= x < 1000 && 0 <= y < 1000
    ensures Cell(Sample2(), Dim, 0, x, y) == if x == 0 && y == 0 then 3 else 2
  {
    var s := Sample2();
    assert s[..1] == [s[0]] && [s[0]][..0] == [];
    assert Cell([], Dim, 0, x, y) == 0;
    var c1 := Cell([s[0]], Dim, 0, x, y);
    assert c1 == if Covers(s[0], x, y) then Dim(TurnOn, 0) else 0;
    assert c1 == if x == 0 && y == 0 then 1 else 0;
  }

  lemma {:induction false} Sample2Row(y: nat, k: nat)
    requires y < 1000 && k <= 1000
    ensures RowTotal(Sample2(), Dim, 0, Brightness, y, k) == 2 * k + (if y == 0 && k > 0 then 1 else 0)
  {
    if k > 0 {
      Sample2Row(y, k - 1);
      Sample2Cell(k - 1, y);
    }
  }

  lemma {:induction false} Sample2Rows(m: nat)
    requires m <= 1000
    ensures GridTotal(Sample2(), Dim, 0, Brightness, 1000, m) == 2000 * m + (if m > 0 then 1 else 0)
  {
    if m > 0 {
      Sample2Rows(m - 1);
      Sample2Row(m - 1, 1000);
    }
  }

  /** On the 1000 by 1000 grid the second sample has a total brightness of 2000001. */
  lemma Sample2Total()
    ensures Fits(Sample2(), 1000)
    ensures GridTotal(Sample2(), Dim, 0, Brightness, 1000, 1000) == 2000001
  {
    Sample2Rows(1000);
  }
}
