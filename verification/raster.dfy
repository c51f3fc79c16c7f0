/** Shared vocabulary of the rasterizers: point sequences without repeats
    and straight runs of cells. */
module Rasters {
  import opened Points

  function Abs(n: int): nat
  {
    if n < 0 then -n else n
  }

  /** a * n as repeated addition. The rasterizers' loop invariants are stated
      with it so that they stay linear for the solver; `MulIsProduct` links
      it back to `*` where a proof needs the algebra. */
  function Mul(a: int, n: nat): (r: int)
    ensures a >= 0 ==> r >= 0
    ensures a <= 0 ==> r <= 0
  {
    if n == 0 then 0 else Mul(a, n - 1) + a
  }

  lemma {:induction false} MulIsProduct(a: int, n: nat)
    ensures Mul(a, n) == a * n
  {
    if n > 0 {
      MulIsProduct(a, n - 1);
    }
  }

  /** n * n, as repeated addition. */
  function Square(n: nat): (r: nat)
  {
    Mul(n, n)
  }

  lemma SquareIsProduct(n: nat)
    ensures Square(n) == n * n
  {
    MulIsProduct(n, n);
  }

  lemma {:induction false} MulAdd(a: int, b: int, n: nat)
    ensures Mul(a, n) + Mul(b, n) == Mul(a + b, n)
  {
    if n > 0 {
      MulAdd(a, b, n - 1);
    }
  }

  lemma MulByOne(a: int)
    ensures Mul(a, 1) == a
  {
  }

  lemma {:induction false} MulOne(n: nat)
    ensures Mul(1, n) == n
  {
    if n > 0 {
      MulOne(n - 1);
    }
  }

  /** (a + 1) * (n + 1) == a * n + a + n + 1 */
  lemma MulNext(a: int, n: nat)
    ensures Mul(a + 1, n + 1) == Mul(a, n) + a + n + 1
  {
    MulAdd(a, 1, n);
    MulOne(n);
  }

  lemma {:induction false} MulMono(a: int, b: int, n: nat)
    requires a <= b
    ensures Mul(a, n) <= Mul(b, n)
  {
    if n > 0 {
      MulMono(a, b, n - 1);
    }
  }

  lemma {:induction false} MulNeg(a: int, n: nat)
    ensures Mul(-a, n) == -Mul(a, n)
  {
    if n > 0 {
      MulNeg(a, n - 1);
    }
  }

  lemma MulComm(a: nat, b: nat)
    ensures Mul(a, b) == Mul(b, a)
  {
    MulIsProduct(a, b);
    MulIsProduct(b, a);
  }

  /** 2^64, the number of `usize` values. */
  const UsizeModulus: int := 0x1_0000_0000_0000_0000

  /** Whether an inclusive `usize` range `lo..=hi` of the fills reaches the
      grid. Coordinates are `usize` and their arithmetic wraps, so a negative
      `lo` stands for a value above every grid coordinate: the range is then
      empty when `hi` is non-negative, and runs over off-grid values only when
      it is not. Either way it paints nothing, and the model drops it. */
  predicate RangeReachesGrid(lo: int)
  {
    lo >= 0
  }

  /** The upper bound of an inclusive `usize` range as the loop reads it. A
      negative `hi` has wrapped round to the top of the `usize` values, so
      with a non-negative `lo` the range runs from `lo` to 2^64 + `hi`: every
      grid row from `lo` on, and then nearly 2^64 off-grid ones. */
  function UsizeBound(hi: int): int
  {
    if hi < 0 then UsizeModulus + hi else hi
  }

  /** No cell occurs twice. */
  predicate Distinct(s: seq<Point>)
  {
    forall i, j :: 0 <= i < j < |s| ==> s[i] != s[j]
  }

  lemma DistinctConcat(a: seq<Point>, b: seq<Point>)
    requires Distinct(a) && Distinct(b)
    requires forall p :: p in a ==> p !in b
    ensures Distinct(a + b)
  {
    forall i, j | 0 <= i < j < |a + b|
      ensures (a + b)[i] != (a + b)[j]
    {
      if j < |a| {
        assert (a + b)[i] == a[i] && (a + b)[j] == a[j];
      } else if i >= |a| {
        assert (a + b)[i] == b[i - |a|] && (a + b)[j] == b[j - |a|];
      } else {
        assert (a + b)[i] == a[i] && (a + b)[j] == b[j - |a|];
        assert a[i] in a && b[j - |a|] in b;
      }
    }
  }

  /** `n` cells from `start`, each one step `d` further than the one before. */
  function Run(start: Point, n: nat, d: Point): (r: seq<Point>)
    ensures |r| == n
    decreases n
  {
    if n == 0 then [] else [start] + Run(Add(start, d), n - 1, d)
  }

  /** The cells of a run along the x axis: one row, a half-open span of columns. */
  lemma {:induction false} RunAlongX(start: Point, n: nat, sx: int, p: Point)
    requires sx == 1 || sx == -1
    ensures p in Run(start, n, Point(sx, 0)) <==>
      p.y == start.y && (if sx == 1 then start.x <= p.x < start.x + n else start.x - n < p.x <= start.x)
    decreases n
  {
    if n > 0 {
      RunAlongX(Add(start, Point(sx, 0)), n - 1, sx, p);
    }
  }

  /** The cells of a run along the y axis: one column, a half-open span of rows. */
  lemma {:induction false} RunAlongY(start: Point, n: nat, sy: int, p: Point)
    requires sy == 1 || sy == -1
    ensures p in Run(start, n, Point(0, sy)) <==>
      p.x == start.x && (if sy == 1 then start.y <= p.y < start.y + n else start.y - n < p.y <= start.y)
    decreases n
  {
    if n > 0 {
      RunAlongY(Add(start, Point(0, sy)), n - 1, sy, p);
    }
  }

  lemma {:induction false} RunAlongXDistinct(start: Point, n: nat, sx: int)
    requires sx == 1 || sx == -1
    ensures Distinct(Run(start, n, Point(sx, 0)))
    decreases n
  {
    if n > 0 {
      var next := Add(start, Point(sx, 0));
      RunAlongXDistinct(next, n - 1, sx);
      RunAlongX(next, n - 1, sx, start);
      DistinctConcat([start], Run(next, n - 1, Point(sx, 0)));
    }
  }

  lemma {:induction false} RunAlongYDistinct(start: Point, n: nat, sy: int)
    requires sy == 1 || sy == -1
    ensures Distinct(Run(start, n, Point(0, sy)))
    decreases n
  {
    if n > 0 {
      var next := Add(start, Point(0, sy));
      RunAlongYDistinct(next, n - 1, sy);
      RunAlongY(next, n - 1, sy, start);
      DistinctConcat([start], Run(next, n - 1, Point(0, sy)));
    }
  }
}
