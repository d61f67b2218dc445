/** Santa delivering presents on an infinite grid: every move goes one house north,
    east, south or west, and every house he stands on gets a present. */
module Day03 {
  datatype Coordinate = Coordinate(x: int, y: int)

  const Origin: Coordinate := Coordinate(0, 0)

  predicate IsMove(c: char)
  {
    c == '^' || c == '>' || c == 'v' || c == '<'
  }

  predicate Moves(directions: string)
  {
    forall i :: 0 <= i < |directions| ==> IsMove(directions[i])
  }

  /** One move: `^` and `v` change y by one up or down, `>` and `<` change x. */
  function Move(c: Coordinate, d: char): (c': Coordinate)
    requires IsMove(d)
    ensures d == '^' ==> c' == Coordinate(c.x, c.y + 1)
    ensures d == '>' ==> c' == Coordinate(c.x + 1, c.y)
    ensures d == 'v' ==> c' == Coordinate(c.x, c.y - 1)
    ensures d == '<' ==> c' == Coordinate(c.x - 1, c.y)
  {
    match d
    case '^' => c.(y := c.y + 1)
    case '>' => c.(x := c.x + 1)
    case 'v' => c.(y := c.y - 1)
    case '<' => c.(x := c.x - 1)
  }

  /** Where Santa stands after all the moves, starting from the origin. */
  function Position(directions: string): Coordinate
    requires Moves(directions)
  {
    if directions == [] then Origin
    else Move(Position(directions[..|directions| - 1]), directions[|directions| - 1])
  }

  /** The houses visited: the origin and the position after every move. */
  function Visited(directions: string): (v: set<Coordinate>)
    requires Moves(directions)
    ensures Origin in v
  {
    if directions == [] then {Origin}
    else Visited(directions[..|directions| - 1]) + {Position(directions)}
  }

  /** The visited houses are exactly the positions after each prefix of the moves. */
  lemma {:induction false} VisitedPrefixes(directions: string, c: Coordinate)
    requires Moves(directions)
    ensures c in Visited(directions) <==> exists k :: 0 <= k <= |directions| && c == Position(directions[..k])
  {
    if directions == [] {
      assert directions[..0] == directions;
    } else {
      var n := |directions|;
      var init := directions[..n - 1];
      VisitedPrefixes(init, c);
      assert forall k :: 0 <= k <= n - 1 ==> init[..k] == directions[..k];
      assert directions[..n] == directions;
    }
  }

  /** Santa visits at most one new house a move. */
  lemma {:induction false} VisitedBound(directions: string)
    requires Moves(directions)
    ensures |Visited(directions)| <= |directions| + 1
  {
    if directions != [] {
      VisitedBound(directions[..|directions| - 1]);
    }
  }

  /** The walk, inserting every house into a growing set. */
  method Houses(directions: string) returns (visited: set<Coordinate>)
    requires Moves(directions)
    ensures visited == Visited(directions)
  {
    var current := Origin;
    visited := {current};
    var i := 0;
    while i < |directions|
      invariant i <= |directions|
      invariant current == Position(directions[..i]) && visited == Visited(directions[..i])
    {
      assert directions[..i + 1][..i] == directions[..i];
      match directions[i] {
        case '^' => current := current.(y := current.y + 1);
        case '>' => current := current.(x := current.x + 1);
        case 'v' => current := current.(y := current.y - 1);
        case '<' => current := current.(x := current.x - 1);
      }
      visited := visited + {current};
      i := i + 1;
    }
    assert directions[..i] == directions;
  }

  /** Part one: the number of houses that get at least one present. */
  method Solve1(directions: string) returns (r: nat)
    requires Moves(directions)
    ensures r == |Visited(directions)|
    ensures 1 <= r <= |directions| + 1
  {
    var visited := Houses(directions);
    VisitedBound(directions);
    assert Origin in visited;
    r := |visited|;
  }

  /** The moves at even indices (Santa's) or at odd indices (the robot's), in order. */
  function Alternate(directions: string, parity: nat): (s: string)
    requires parity < 2
    ensures |s| == (|directions| + 1 - parity) / 2
    ensures forall i :: 0 <= i < |s| ==> 2 * i + parity < |directions| && s[i] == directions[2 * i + parity]
    ensures Moves(directions) ==> Moves(s)
  {
    var n := (|directions| + 1 - parity) / 2;
    assert forall i :: 0 <= i < n ==> 2 * i + parity < |directions|;
    seq(n, i requires 0 <= i < n => directions[2 * i + parity])
  }

  /** Part two: Santa takes the even-indexed moves and the robot the odd ones; the
      houses either of them visits are counted once. */
  method Solve2(directions: string) returns (r: nat)
    requires Moves(directions)
    ensures r == |Visited(Alternate(directions, 0)) + Visited(Alternate(directions, 1))|
    ensures 1 <= r <= |directions| + 1
  {
    var santa := Alternate(directions, 0);
    var robot := Alternate(directions, 1);
    var a := Houses(santa);
    var b := Houses(robot);
    VisitedBound(santa);
    VisitedBound(robot);
    UnionShared(a, b, Origin);
    r := |a + b|;
  }

  /** Two sets that share an element have a union at least one smaller than their sizes
      together. */
  lemma UnionShared<T>(a: set<T>, b: set<T>, x: T)
    requires x in a && x in b
    ensures 1 <= |a + b| <= |a| + |b| - 1
  {
    assert a + b == a + (b - {x});
    assert |a + (b - {x})| <= |a| + |b - {x}|;
  }

  /** Two sets that share exactly one element have a union one smaller than their sizes
      together. */
  lemma UnionOne<T>(a: set<T>, b: set<T>, x: T)
    requires a * b == {x}
    ensures |a + b| == |a| + |b| - 1
  {
    assert a + b == a + (b - {x});
    assert a * (b - {x}) == {};
    assert |b - {x}| == |b| - 1;
  }

  /** One more move adds the house it reaches. */
  lemma VisitedStep(d: string, k: nat)
    requires Moves(d) && k < |d|
    ensures Position(d[..k + 1]) == Move(Position(d[..k]), d[k])
    ensures Visited(d[..k + 1]) == Visited(d[..k]) + {Position(d[..k + 1])}
  {
    assert d[..k + 1][..k] == d[..k];
  }

  /** `>` visits two houses. */
  lemma SampleEast(d: string)
    requires d == ">"
    ensures |Visited(d)| == 2
  {
    Line(d, 1, 0);
    assert (set k | 0 <= k <= 1 :: Coordinate(k * 1, k * 0)) == {Origin, Coordinate(1, 0)};
  }

  /** `^>v<` visits four houses, going round a square back to the start. */
  lemma SampleSquare(d: string)
    requires d == "^>v<"
    ensures |Visited(d)| == 4
  {
    var up, corner, right := Coordinate(0, 1), Coordinate(1, 1), Coordinate(1, 0);
    assert d[..0] == [];
    VisitedFrom(d, 0, Origin, {Origin}, up);
    VisitedFrom(d, 1, up, {Origin} + {up}, corner);
    VisitedFrom(d, 2, corner, {Origin} + {up} + {corner}, right);
    VisitedFrom(d, 3, right, {Origin} + {up} + {corner} + {right}, Origin);
    assert d[..4] == d;
    SquareCard(up, corner, right);
  }

  /** With the house and the houses reached after `k` moves known, the next move adds
      the house it leads to. */
  lemma VisitedFrom(d: string, k: nat, here: Coordinate, seen: set<Coordinate>, there: Coordinate)
    requires Moves(d) && k < |d|
    requires Position(d[..k]) == here && Visited(d[..k]) == seen && Move(here, d[k]) == there
    ensures Position(d[..k + 1]) == there && Visited(d[..k + 1]) == seen + {there}
  {
    VisitedStep(d, k);
  }

  /** The four corners of the unit square are four houses. */
  lemma SquareCard(up: Coordinate, corner: Coordinate, right: Coordinate)
    requires up == Coordinate(0, 1) && corner == Coordinate(1, 1) && right == Coordinate(1, 0)
    ensures |{Origin} + {up} + {corner} + {right} + {Origin}| == 4
  {
    assert {Origin} + {up} + {corner} + {right} + {Origin} == {Origin, up, corner, right};
  }

  /** Moving up on even steps and down on odd ones. */
  predicate UpDown(d: string)
  {
    forall i :: 0 <= i < |d| ==> d[i] == if i % 2 == 0 then '^' else 'v'
  }

  /** Going up and down only ever visits the origin and the house above it. */
  lemma {:induction false} UpDownVisits(d: string)
    requires UpDown(d) && d != []
    ensures Moves(d)
    ensures Position(d) == if |d| % 2 == 0 then Origin else Coordinate(0, 1)
    ensures Visited(d) == {Origin, Coordinate(0, 1)}
    decreases |d|
  {
    var n := |d|;
    var init := d[..n - 1];
    if n == 1 {
      assert init == [];
    } else {
      assert UpDown(init);
      UpDownVisits(init);
    }
  }

  /** Going up and down five times visits only two houses. */
  lemma SampleUpDown(d: string)
    requires d == "^v^v^v^v^v"
    ensures |Visited(d)| == 2
  {
    assert UpDown(d);
    UpDownVisits(d);
  }

  /** The houses `k` steps of `(dx, dy)` from the origin, for `k` from 0 to `n`. */
  function Ray(n: nat, dx: int, dy: int): set<Coordinate>
  {
    set k | 0 <= k <= n :: Coordinate(k * dx, k * dy)
  }

  /** A walk that keeps moving one way never comes back: its houses are all different. */
  lemma {:induction false} RayCard(n: nat, dx: int, dy: int)
    requires dx != 0 || dy != 0
    ensures |Ray(n, dx, dy)| == n + 1
  {
    if n == 0 {
      assert Ray(0, dx, dy) == {Coordinate(0 * dx, 0 * dy)};
    } else {
      RayCard(n - 1, dx, dy);
      assert Ray(n, dx, dy) == Ray(n - 1, dx, dy) + {Coordinate(n * dx, n * dy)};
      RayFresh(n, dx, dy);
    }
  }

  lemma RayFresh(n: nat, dx: int, dy: int)
    requires n > 0 && (dx != 0 || dy != 0)
    ensures Coordinate(n * dx, n * dy) !in Ray(n - 1, dx, dy)
  {
  }

  /** Walking `n` times in a straight line passes the houses of a ray from the origin. */
  lemma {:induction false} Line(d: string, dx: int, dy: int)
    requires Moves(d) && forall i :: 0 <= i < |d| ==> Move(Origin, d[i]) == Coordinate(dx, dy)
    ensures Position(d) == Coordinate(|d| * dx, |d| * dy)
    ensures Visited(d) == Ray(|d|, dx, dy)
    decreases |d|
  {
    var n := |d|;
    if n == 0 {
      assert Ray(0, dx, dy) == {Coordinate(0 * dx, 0 * dy)};
    } else {
      var init := d[..n - 1];
      Line(init, dx, dy);
      assert (n - 1) * dx + dx == n * dx && (n - 1) * dy + dy == n * dy;
      assert Ray(n, dx, dy) == Ray(n - 1, dx, dy) + {Coordinate(n * dx, n * dy)};
    }
  }

  /** Walking `n` times in a straight line visits `n + 1` different houses. */
  lemma LineCard(d: string, dx: int, dy: int)
    requires d != [] && Moves(d) && forall i :: 0 <= i < |d| ==> Move(Origin, d[i]) == Coordinate(dx, dy)
    ensures |Visited(d)| == |d| + 1
  {
    Line(d, dx, dy);
    assert Move(Origin, d[0]) == Coordinate(dx, dy);
    RayCard(|d|, dx, dy);
  }

  /** Split, `^v` sends Santa one house up and the robot one down: three houses. */
  lemma SampleSplitTwo(d: string)
    requires d == "^v"
    ensures |Visited(Alternate(d, 0)) + Visited(Alternate(d, 1))| == 3
  {
    var santa, robot := Alternate(d, 0), Alternate(d, 1);
    assert santa == "^" && robot == "v";
    Line(santa, 0, 1);
    Line(robot, 0, -1);
    var a, b := Visited(santa), Visited(robot);
    assert a * b == {Origin} by {
      forall x | x in a * b ensures x == Origin {
        var k :| 0 <= k <= 1 && x == Coordinate(k * 0, k * 1);
        var j :| 0 <= j <= 1 && x == Coordinate(j * 0, j * -1);
      }
      assert Origin == Coordinate(0 * 0, 0 * 1) == Coordinate(0 * 0, 0 * -1);
    }
    LineCard(santa, 0, 1);
    LineCard(robot, 0, -1);
    UnionOne(a, b, Origin);
  }

  /** Split, `^>v<` sends Santa up and back and the robot right and back: three houses. */
  lemma SampleSplitSquare(d: string)
    requires d == "^>v<"
    ensures |Visited(Alternate(d, 0)) + Visited(Alternate(d, 1))| == 3
  {
    SquareHalves(d);
    SplitSquareHouses(Alternate(d, 0), Alternate(d, 1));
  }

  /** Santa's `^v` and the robot's `><` share only the origin. */
  lemma SplitSquareHouses(santa: string, robot: string)
    requires santa == "^v" && robot == "><" && UpDown(santa)
    ensures Moves(santa) && Moves(robot) && |Visited(santa) + Visited(robot)| == 3
  {
    UpDownVisits(santa);
    RightAndBack(robot);
    var a, b := Visited(santa), Visited(robot);
    UpMeetsRight();
    PairCard(Origin, Coordinate(0, 1));
    PairCard(Origin, Coordinate(1, 0));
    UnionOne(a, b, Origin);
  }

  /** Two different houses are two houses. */
  lemma PairCard(x: Coordinate, y: Coordinate)
    requires x != y
    ensures |{x, y}| == 2
  {
  }

  /** Split, `^>v<` gives Santa `^v` and the robot `><`. */
  lemma SquareHalves(d: string)
    requires d == "^>v<"
    ensures Alternate(d, 0) == "^v" && Alternate(d, 1) == "><" && UpDown(Alternate(d, 0))
  {
    var santa, robot := Alternate(d, 0), Alternate(d, 1);
    assert santa == "^v";
    assert robot == "><";
  }

  /** Up and back meets right and back only at the origin. */
  lemma UpMeetsRight()
    ensures {Origin, Coordinate(0, 1)} * {Origin, Coordinate(1, 0)} == {Origin}
  {
  }

  lemma RightAndBack(r: string)
    requires r == "><"
    ensures Moves(r) && Visited(r) == {Origin, Coordinate(1, 0)}
  {
    assert r[..1] == ">" && r[..0] == [];
    VisitedStep(r, 0);
    VisitedStep(r, 1);
    assert r[..2] == r;
  }

  /** Split, the up-and-down sample sends Santa five houses up and the robot five down:
      eleven houses in all. */
  lemma SampleSplitUpDown(d: string)
    requires d == "^v^v^v^v^v"
    ensures |Visited(Alternate(d, 0)) + Visited(Alternate(d, 1))| == 11
  {
    var santa, robot := Alternate(d, 0), Alternate(d, 1);
    assert santa == "^^^^^" && robot == "vvvvv";
    Line(santa, 0, 1);
    Line(robot, 0, -1);
    var a, b := Visited(santa), Visited(robot);
    assert a * b == {Origin} by {
      forall x | x in a * b ensures x == Origin {
        var k :| 0 <= k <= 5 && x == Coordinate(k * 0, k * 1);
        var j :| 0 <= j <= 5 && x == Coordinate(j * 0, j * -1);
      }
      assert Origin == Coordinate(0 * 0, 0 * 1) == Coordinate(0 * 0, 0 * -1);
    }
    LineCard(santa, 0, 1);
    LineCard(robot, 0, -1);
    UnionOne(a, b, Origin);
  }
}
