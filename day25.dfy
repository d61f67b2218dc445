/** Let It Snow: the codes fill an infinite grid diagonal by diagonal, each one derived
    from the previous by a multiplication and a remainder. The answer is the code at a
    given row and column. */
module Day25 {

  const First: nat := 20_151_125
  const Multiplier: nat := 252_533
  const Modulus: nat := 33_554_393

  /** The largest value an unsigned 64-bit integer holds, plus one. */
  const U64: nat := 0x1_0000_0000_0000_0000

  /** A grid position, counted from 1. */
  datatype Cell = Cell(row: nat, col: nat)

  predicate OnGrid(c: Cell)
  {
    c.row >= 1 && c.col >= 1
  }

  /** The 1-based position of `c` in the filling order, by the closed form. */
  function IndexOf(c: Cell): (n: int)
    requires OnGrid(c)
  {
    (c.row - 1) * c.row / 2 + (c.col - 1) * c.col / 2 + (c.col - 1) * c.row + 1
  }

  /** The cell filled after `c`: up and to the right along the diagonal, or, from the
      top row, the bottom of the next diagonal. */
  function Next(c: Cell): (d: Cell)
    requires OnGrid(c)
    ensures OnGrid(d)
    ensures d.row + d.col == c.row + c.col + (if c.row == 1 then 1 else 0)
  {
    if c.row == 1 then Cell(c.col + 1, 1) else Cell(c.row - 1, c.col + 1)
  }

  /** `k (k + 1) / 2`: the number of cells on the first `k` diagonals. */
  function Triangle(k: nat): nat
  {
    if k == 0 then 0 else Triangle(k - 1) + k
  }

  lemma {:induction false} TriangleClosed(k: nat)
    ensures 2 * Triangle(k) == k * (k + 1)
  {
    if k > 0 {
      TriangleClosed(k - 1);
    }
  }

  /** `(k - 1) k / 2` divides exactly, so the closed form is the triangle number. */
  lemma HalfProduct(k: nat)
    requires k >= 1
    ensures (k - 1) * k / 2 == Triangle(k - 1)
  {
    TriangleClosed(k - 1);
  }

  /** The cells of the first `a + b` diagonals: those of the first `a`, those of the
      first `b`, and an `a` by `b` rectangle. */
  lemma {:induction false} TriangleSum(a: nat, b: nat)
    ensures Triangle(a + b) == Triangle(a) + Triangle(b) + a * b
  {
    if b > 0 {
      TriangleSum(a, b - 1);
      assert a * (b - 1) + a == a * b;
    }
  }

  /** The closed form counts the cells on the earlier diagonals and adds the column:
      `c` is the `col`-th cell of diagonal `row + col - 1`. */
  lemma IndexIsDiagonal(c: Cell)
    requires OnGrid(c)
    ensures IndexOf(c) == Triangle(c.row + c.col - 2) + c.col
  {
    var a, b := c.row - 1, c.col - 1;
    HalfProduct(c.row);
    HalfProduct(c.col);
    assert b * c.row == b * a + b;
    TriangleSum(a, b);
  }

  /** The first cell is number one. */
  lemma FirstCell()
    ensures IndexOf(Cell(1, 1)) == 1
  {
  }

  /** Each cell's successor gets the next number: with the first cell numbered one,
      the closed form numbers the cells in diagonal filling order. */
  lemma FillingOrder(c: Cell)
    requires OnGrid(c)
    ensures IndexOf(Next(c)) == IndexOf(c) + 1
  {
    var d := Next(c);
    var t := c.row + c.col - 2;
    IndexIsDiagonal(c);
    IndexIsDiagonal(d);
    if c.row == 1 {
      assert d.row + d.col - 2 == t + 1 && d.col == 1 && c.col == t + 1;
      assert Triangle(t + 1) == Triangle(t) + t + 1;
    } else {
      assert d.row + d.col - 2 == t && d.col == c.col + 1;
    }
  }

  /** The `n`th code of the sequence (the first for `n` below 2). */
  function Code(n: nat): (r: nat)
    ensures r < Modulus
  {
    if n <= 1 then First else Code(n - 1) * Multiplier % Modulus
  }

  /** A code times the multiplier stays below 2^64: the source's `u64` never
      overflows. */
  lemma ProductFits(x: nat)
    requires x < Modulus
    ensures x * Multiplier < U64
  {
    assert x * Multiplier <= Modulus * Multiplier;
  }

  /** Runs the recurrence `n - 1` times from the first code. */
  method CalculateNth(n: nat) returns (result: nat)
    ensures result == Code(n)
    ensures result < Modulus
  {
    result := First;
    var i := 1;
    if n == 0 {
      return;
    }
    while i < n
      invariant 1 <= i <= n
      invariant result == Code(i)
    {
      ProductFits(result);
      result := result * Multiplier;
      result := result % Modulus;
      i := i + 1;
    }
  }

  /** The code at row `row`, column `col`. */
  method Solve1(row: nat, col: nat) returns (r: nat)
    requires OnGrid(Cell(row, col))
    ensures r == Code(Triangle(row + col - 2) + col)
    ensures r < Modulus
  {
    var n := IndexOf(Cell(row, col));
    IndexIsDiagonal(Cell(row, col));
    r := CalculateNth(n);
  }

  /** Row 4, column 2 is the twelfth cell, holding 32451966. */
  lemma Sample()
    ensures IndexOf(Cell(4, 2)) == 12
    ensures Code(12) == 32_451_966
  {
    assert Code(2) == 31_916_031;
    assert Code(3) == 18_749_137;
    assert Code(4) == 16_080_970;
    assert Code(5) == 21_629_792;
    assert Code(6) == 17_289_845;
    assert Code(7) == 24_592_653;
    assert Code(8) == 8_057_251;
    assert Code(9) == 16_929_656;
    assert Code(10) == 30_943_339;
    assert Code(11) == 77_061;
  }
}
