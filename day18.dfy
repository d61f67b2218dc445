/** A grid of lights animated like the Game of Life: every light looks at its eight
    neighbours, positions off the grid count as off, and all lights change at once. */
module Day18 {
  import opened Common

  datatype Coordinate = Coordinate(x: int, y: int)

  datatype State = On | Off

  /** The grid, keyed by coordinate, with its width and height. */
  datatype Lights = Lights(grid: map<Coordinate, State>, xMax: int, yMax: int)

  /** The eight neighbour offsets, clockwise from straight up. */
  const Neighbours: seq<Coordinate> := [
    Coordinate(0, -1), Coordinate(1, -1), Coordinate(1, 0), Coordinate(1, 1),
    Coordinate(0, 1), Coordinate(-1, 1), Coordinate(-1, 0), Coordinate(-1, -1)
  ]

  function Shift(c: Coordinate, d: Coordinate): Coordinate
  {
    Coordinate(c.x + d.x, c.y + d.y)
  }

  /** A position holds a light that is on; a position off the grid does not. */
  predicate Lit(grid: map<Coordinate, State>, c: Coordinate)
  {
    c in grid && grid[c] == On
  }

  /** How many of the first `k` neighbours of `c` are lit. */
  function CountLit(grid: map<Coordinate, State>, c: Coordinate, k: nat): (n: nat)
    requires k <= |Neighbours|
    ensures n <= k
    ensures n == |set i | 0 <= i < k && Lit(grid, Shift(c, Neighbours[i]))|
  {
    if k == 0 then 0
    else
      var prev := set i | 0 <= i < k - 1 && Lit(grid, Shift(c, Neighbours[i]));
      var now := set i | 0 <= i < k && Lit(grid, Shift(c, Neighbours[i]));
      assert now == if Lit(grid, Shift(c, Neighbours[k - 1])) then prev + {k - 1} else prev;
      CountLit(grid, c, k - 1) + if Lit(grid, Shift(c, Neighbours[k - 1])) then 1 else 0
  }

  /** The number of lit neighbours, between 0 and 8. */
  function LitNeighbours(grid: map<Coordinate, State>, c: Coordinate): (n: nat)
    ensures n <= 8
    ensures n == |set i | 0 <= i < 8 && Lit(grid, Shift(c, Neighbours[i]))|
  {
    CountLit(grid, c, |Neighbours|)
  }

  /** The next state of one light: an On light stays on with two or three lit
      neighbours, an Off light turns on with exactly three. */
  function Next(s: State, lit: nat): (s': State)
    ensures s' == On <==> (s == On && (lit == 2 || lit == 3)) || (s == Off && lit == 3)
  {
    match s
    case On => if lit == 2 || lit == 3 then On else Off
    case Off => if lit == 3 then On else Off
  }

  /** One animation step: every light computes its next state from the old grid only. */
  function Step(l: Lights): (l': Lights)
    ensures l'.grid.Keys == l.grid.Keys && l'.xMax == l.xMax && l'.yMax == l.yMax
    ensures forall c :: c in l.grid ==>
      (l'.grid[c] == On <==>
        (l.grid[c] == On && LitNeighbours(l.grid, c) in {2, 3}) || (l.grid[c] == Off && LitNeighbours(l.grid, c) == 3))
  {
    Lights(map c | c in l.grid :: Next(l.grid[c], LitNeighbours(l.grid, c)), l.xMax, l.yMax)
  }

  /** The update is simultaneous: a light's next state depends only on the old states
      of the light and its neighbours, so two grids that agree there step alike. */
  lemma StepIsLocal(l1: Lights, l2: Lights, c: Coordinate)
    requires c in l1.grid && c in l2.grid && l1.grid[c] == l2.grid[c]
    requires forall i :: 0 <= i < 8 ==> (Lit(l1.grid, Shift(c, Neighbours[i])) <==> Lit(l2.grid, Shift(c, Neighbours[i])))
    ensures Step(l1).grid[c] == Step(l2).grid[c]
  {
    var s1 := set i | 0 <= i < 8 && Lit(l1.grid, Shift(c, Neighbours[i]));
    var s2 := set i | 0 <= i < 8 && Lit(l2.grid, Shift(c, Neighbours[i]));
    assert s1 == s2;
  }

  /** `n` animation steps. */
  function Iterate(l: Lights, n: nat): Lights
    decreases n
  {
    if n == 0 then l else Iterate(Step(l), n - 1)
  }

  /** Animating never adds or removes a light and keeps the dimensions. */
  lemma {:induction false} IterateKeepsShape(l: Lights, n: nat)
    ensures Iterate(l, n).grid.Keys == l.grid.Keys
    ensures Iterate(l, n).xMax == l.xMax && Iterate(l, n).yMax == l.yMax
    decreases n
  {
    if n > 0 {
      IterateKeepsShape(Step(l), n - 1);
    }
  }

  /** The lights that are on. */
  function CountOn(grid: map<Coordinate, State>): (n: nat)
    ensures n <= |grid.Keys|
  {
    var on := set c | c in grid && grid[c] == On;
    assert on <= grid.Keys;
    SubsetCard(on, grid.Keys);
    |on|
  }

  /** A rectangle of rows, each at least as wide as the first, made of `#` and `.`. */
  predicate WellFormed(rows: seq<string>)
  {
    |rows| > 0 &&
    forall y :: 0 <= y < |rows| ==>
      (|rows[y]| >= |rows[0]| && forall x :: 0 <= x < |rows[0]| ==> rows[y][x] in {'#', '.'})
  }

  /** The positions of a `width` by `height` rectangle. */
  function Cells(width: nat, height: nat): set<Coordinate>
  {
    set x: nat, y: nat | x < width && y < height :: Coordinate(x, y)
  }

  function Parse(rows: seq<string>): (l: Lights)
    requires WellFormed(rows)
    ensures l.xMax == |rows[0]| && l.yMax == |rows|
    ensures forall c :: c in l.grid <==> 0 <= c.x < |rows[0]| && 0 <= c.y < |rows|
    ensures forall c :: c in l.grid ==> (l.grid[c] == On <==> rows[c.y][c.x] == '#')
  {
    var cells := Cells(|rows[0]|, |rows|);
    assert forall c :: c in cells <==> 0 <= c.x < |rows[0]| && 0 <= c.y < |rows| by {
      forall c: Coordinate | 0 <= c.x < |rows[0]| && 0 <= c.y < |rows| ensures c in cells {
        var x: nat, y: nat := c.x, c.y;
        assert c == Coordinate(x, y);
      }
    }
    Lights(map c | c in cells :: if rows[c.y][c.x] == '#' then On else Off, |rows[0]|, |rows|)
  }

  /** Reads the grid row by row: `#` is a light that is on, `.` one that is off. */
  method New(rows: seq<string>) returns (l: Lights)
    requires WellFormed(rows)
    ensures l == Parse(rows)
  {
    var width := |rows[0]|;
    var grid: map<Coordinate, State> := map[];
    var y := 0;
    while y < |rows|
      invariant y <= |rows|
      invariant forall c :: c in grid <==> 0 <= c.x < width && 0 <= c.y < y
      invariant forall c :: c in grid ==> grid[c] == if rows[c.y][c.x] == '#' then On else Off
    {
      var x := 0;
      while x < width
        invariant x <= width
        invariant forall c :: c in grid <==> (0 <= c.x < width && 0 <= c.y < y) || (c.y == y && 0 <= c.x < x)
        invariant forall c :: c in grid ==> grid[c] == if rows[c.y][c.x] == '#' then On else Off
      {
        var state := if rows[y][x] == '#' then On else Off;
        grid := grid[Coordinate(x, y) := state];
        x := x + 1;
      }
      y := y + 1;
    }
    l := Lights(grid, width, |rows|);
    var p := Parse(rows);
    assert grid.Keys == p.grid.Keys;
  }

  /** The number of lights on after `steps` animation steps of the parsed grid. */
  method Solve1(rows: seq<string>, steps: nat) returns (r: nat)
    requires WellFormed(rows)
    ensures r == CountOn(Iterate(Parse(rows), steps).grid)
    ensures r <= |Parse(rows).grid.Keys|
  {
    var lights := New(rows);
    var i := 0;
    while i < steps
      invariant i <= steps
      invariant Iterate(Parse(rows), steps) == Iterate(lights, steps - i)
    {
      lights := Step(lights);
      i := i + 1;
    }
    IterateKeepsShape(Parse(rows), steps);
    r := CountOn(lights.grid);
  }
}
