/**
  The channel line fit (contextcols/channels.go, fitLine): one pass of running sums, proved to
  give the line with the least sum of squared residuals through pivots at integer bar indexes.
*/
module LeastSquares {
  datatype Point = Point(idx: int, price: real)

  datatype Line = Line(slope: real, intercept: real)

  function LinePrice(line: Line, x: real): real {
    line.intercept + line.slope * x
  }

  // ----- sums over the points

  function Sx(p: seq<Point>): int {
    if p == [] then 0 else Sx(p[..|p| - 1]) + p[|p| - 1].idx
  }

  function Sxx(p: seq<Point>): int {
    if p == [] then 0 else Sxx(p[..|p| - 1]) + p[|p| - 1].idx * p[|p| - 1].idx
  }

  function Sy(p: seq<Point>): real {
    if p == [] then 0.0 else Sy(p[..|p| - 1]) + p[|p| - 1].price
  }

  function Sxy(p: seq<Point>): real {
    if p == [] then 0.0 else Sxy(p[..|p| - 1]) + p[|p| - 1].idx as real * p[|p| - 1].price
  }

  function Denominator(p: seq<Point>): int {
    |p| * Sxx(p) - Sx(p) * Sx(p)
  }

  function SlopeOf(n: real, sx: real, sy: real, sxx: real, sxy: real): real {
    var denom := n * sxx - sx * sx;
    if denom > 0.000000001 || -denom > 0.000000001 then (n * sxy - sx * sy) / denom else 0.0
  }

  function InterceptOf(n: real, sx: real, sy: real, slope: real): real
    requires n > 0.0
  {
    (sy - slope * sx) / n
  }

  function FitOf(p: seq<Point>): Line
    requires p != []
  {
    var slope := SlopeOf(|p| as real, Sx(p) as real, Sy(p), Sxx(p) as real, Sxy(p));
    Line(slope, InterceptOf(|p| as real, Sx(p) as real, Sy(p), slope))
  }

  lemma TakeNext(p: seq<Point>, i: nat)
    requires i < |p|
    ensures p[..i + 1][..i] == p[..i]
  {
  }

  /** fitLine: the pass over the pivots. An empty list would divide by zero there. */
  method FitLine(points: seq<Point>) returns (line: Line)
    requires points != []
    ensures line == FitOf(points)
  {
    hide SlopeOf, InterceptOf;
    var n := |points| as real;
    var sx, sy, sxx, sxy := 0.0, 0.0, 0.0, 0.0;
    for i := 0 to |points|
      invariant sx == Sx(points[..i]) as real && sxx == Sxx(points[..i]) as real
      invariant sy == Sy(points[..i]) && sxy == Sxy(points[..i])
    {
      var x := points[i].idx as real;
      TakeNext(points, i);
      sx := sx + x;
      sy := sy + points[i].price;
      sxx := sxx + x * x;
      sxy := sxy + x * points[i].price;
    }
    assert points[..|points|] == points;
    var slope := SlopeOf(n, sx, sy, sxx, sxy);
    line := Line(slope, InterceptOf(n, sx, sy, slope));
  }

  // ----- the denominator

  /** The squared distances from x to the indexes of the points. */
  function Spread(p: seq<Point>, x: int): nat {
    if p == [] then 0
    else
      var d := p[|p| - 1].idx - x;
      assert d * d >= 0;
      Spread(p[..|p| - 1], x) + d * d
  }

  lemma SpreadStep(n: int, a: int, b: int, k: int, x: int)
    ensures (a - 2 * (x * b) + n * (x * x)) + (k - x) * (k - x) == (a + k * k) - 2 * (x * (b + k)) + (n + 1) * (x * x)
  {
  }

  lemma {:induction false} SpreadIs(p: seq<Point>, x: int)
    ensures Spread(p, x) == Sxx(p) - 2 * (x * Sx(p)) + |p| * (x * x)
  {
    if p != [] {
      var q := p[..|p| - 1];
      SpreadIs(q, x);
      SpreadStep(|q|, Sxx(q), Sx(q), p[|p| - 1].idx, x);
    }
  }

  lemma DenominatorStep(n: int, a: int, b: int, k: int)
    ensures (n + 1) * (a + k * k) - (b + k) * (b + k) == (n * a - b * b) + (a - 2 * (k * b) + n * (k * k))
  {
  }

  /** Each new point adds its squared distances to all earlier ones. */
  lemma DenominatorGrows(q: seq<Point>, last: Point)
    ensures Denominator(q + [last]) == Denominator(q) + Spread(q, last.idx)
  {
    var p := q + [last];
    assert p[..|p| - 1] == q;
    SpreadIs(q, last.idx);
    DenominatorStep(|q|, Sxx(q), Sx(q), last.idx);
  }

  ghost predicate Spaced(p: seq<Point>) {
    exists i, j :: 0 <= i < j < |p| && p[i].idx != p[j].idx
  }

  lemma {:induction false} SpreadPositive(p: seq<Point>, x: int)
    ensures Spread(p, x) >= 1 <==> exists i :: 0 <= i < |p| && p[i].idx != x
  {
    if p != [] {
      var q := p[..|p| - 1];
      SpreadPositive(q, x);
      var d := p[|p| - 1].idx - x;
      if d != 0 {
        SquarePositive(d);
        assert p[|p| - 1].idx != x;
      }
      forall i | 0 <= i < |q|
        ensures p[i] == q[i]
      {
      }
    }
  }

  lemma SquarePositive(d: int)
    requires d != 0
    ensures d * d >= 1
  {
    if d > 0 {
      assert d * d >= d;
    } else {
      assert d * d == -d * -d >= -d;
    }
  }

  /** n*Sxx - Sx^2 is a natural number: zero for a single index, at least one for two distinct indexes. */
  lemma {:induction false} DenominatorIsPositive(p: seq<Point>)
    ensures Denominator(p) >= 0
    ensures Denominator(p) >= 1 <==> Spaced(p)
  {
    if p != [] {
      var q, last := p[..|p| - 1], p[|p| - 1];
      assert p == q + [last];
      DenominatorGrows(q, last);
      DenominatorIsPositive(q);
      SpreadPositive(q, last.idx);
      if Spread(q, last.idx) >= 1 {
        var i :| 0 <= i < |q| && q[i].idx != last.idx;
        assert p[i].idx != p[|p| - 1].idx;
      }
      if Spaced(q) {
        var i, j :| 0 <= i < j < |q| && q[i].idx != q[j].idx;
        assert p[i].idx != p[j].idx;
      }
      if Spaced(p) {
        var i, j :| 0 <= i < j < |p| && p[i].idx != p[j].idx;
        if j < |q| {
          assert q[i].idx != q[j].idx;
        } else {
          assert q[i].idx != last.idx;
        }
      }
    }
  }

  /** The threshold of the slope branch only rejects pivots that all share one index. */
  lemma SlopeBranch(p: seq<Point>)
    requires p != []
    ensures var denom := |p| as real * Sxx(p) as real - Sx(p) as real * Sx(p) as real;
            && denom == Denominator(p) as real
            && (denom > 0.000000001 || -denom > 0.000000001 <==> Spaced(p))
  {
    hide Sx, Sxx, Spaced;
    DenominatorIsPositive(p);
    DenominatorCast(|p|, Sxx(p), Sx(p));
  }

  lemma DenominatorCast(n: int, a: int, b: int)
    ensures n as real * a as real - b as real * b as real == (n * a - b * b) as real
  {
    Casts(n, a);
    Casts(b, b);
  }

  lemma Casts(a: int, b: int)
    ensures (a * b) as real == a as real * b as real
  {
  }

  // ----- residuals

  function Square(x: real): real {
    x * x
  }

  function Residual(p: Point, line: Line): real {
    p.price - LinePrice(line, p.idx as real)
  }

  /** The sum of squared residuals. */
  function Sse(p: seq<Point>, line: Line): real {
    if p == [] then 0.0
    else Sse(p[..|p| - 1], line) + Square(Residual(p[|p| - 1], line))
  }

  /** Residual sums that vanish at the fit: plain and weighted by the index. */
  function R0(p: seq<Point>, line: Line): real {
    if p == [] then 0.0 else R0(p[..|p| - 1], line) + Residual(p[|p| - 1], line)
  }

  function R1(p: seq<Point>, line: Line): real {
    if p == [] then 0.0 else R1(p[..|p| - 1], line) + p[|p| - 1].idx as real * Residual(p[|p| - 1], line)
  }

  /** The squared distances between two lines at the points' indexes. */
  function Gap(p: seq<Point>, a: Line, b: Line): real {
    if p == [] then 0.0
    else
      var x := p[|p| - 1].idx as real;
      Gap(p[..|p| - 1], a, b) + Square(LinePrice(b, x) - LinePrice(a, x))
  }

  lemma SseStep(s: real, t: real, r0: real, r1: real, g: real, e: real, x: real, dm: real, dc: real, d: real,
                r0b: real, r1b: real)
    requires t == s - 2.0 * (dm * r1) - 2.0 * (dc * r0) + g
    requires r0b == r0 + e && r1b == r1 + x * e && d == dc + dm * x
    ensures t + Square(e - d) == (s + Square(e)) - 2.0 * (dm * r1b) - 2.0 * (dc * r0b) + (g + Square(d))
  {
    assert (e - d) * (e - d) == e * e - 2.0 * (e * d) + d * d;
    assert e * d == dc * e + dm * (x * e);
    assert dm * r1b == dm * r1 + dm * (x * e);
    assert dc * r0b == dc * r0 + dc * e;
  }

  lemma LinesApart(a: Line, b: Line, last: Point)
    ensures var x := last.idx as real;
            var d := (b.intercept - a.intercept) + (b.slope - a.slope) * x;
            LinePrice(b, x) - LinePrice(a, x) == d && Residual(last, b) == Residual(last, a) - d
  {
    var x := last.idx as real;
    assert (b.slope - a.slope) * x == b.slope * x - a.slope * x;
  }

  lemma SseUnfold(p: seq<Point>, line: Line)
    requires p != []
    ensures var q, e := p[..|p| - 1], Residual(p[|p| - 1], line);
            && Sse(p, line) == Sse(q, line) + Square(e)
            && R0(p, line) == R0(q, line) + e
            && R1(p, line) == R1(q, line) + p[|p| - 1].idx as real * e
  {
    hide Square, Residual;
  }

  lemma GapUnfold(p: seq<Point>, a: Line, b: Line)
    requires p != []
    ensures var d := LinePrice(b, p[|p| - 1].idx as real) - LinePrice(a, p[|p| - 1].idx as real);
            Gap(p, a, b) == Gap(p[..|p| - 1], a, b) + Square(d)
  {
    hide Square, LinePrice;
  }

  /** Moving from line a to line b changes the squared residuals by cross terms and their distance. */
  lemma {:induction false} SseMoves(p: seq<Point>, a: Line, b: Line)
    ensures Sse(p, b) == Sse(p, a) - 2.0 * ((b.slope - a.slope) * R1(p, a))
            - 2.0 * ((b.intercept - a.intercept) * R0(p, a)) + Gap(p, a, b)
    decreases |p|, 1
  {
    if p == [] {
      assert (b.slope - a.slope) * R1(p, a) == 0.0 == (b.intercept - a.intercept) * R0(p, a);
    } else {
      SseMovesStep(p, a, b);
    }
  }

  lemma SseMovesStep(p: seq<Point>, a: Line, b: Line)
    requires p != []
    ensures Sse(p, b) == Sse(p, a) - 2.0 * ((b.slope - a.slope) * R1(p, a))
            - 2.0 * ((b.intercept - a.intercept) * R0(p, a)) + Gap(p, a, b)
    decreases |p|, 0
  {
    hide Sse, R0, R1, Gap, LinePrice, Residual, Square;
    var q, last := p[..|p| - 1], p[|p| - 1];
    SseMoves(q, a, b);
    LinesApart(a, b, last);
    GapUnfold(p, a, b);
    SseUnfold(p, a);
    SseUnfold(p, b);
    var x, e := last.idx as real, Residual(last, a);
    var d := LinePrice(b, x) - LinePrice(a, x);
    assert Residual(last, b) == e - d;
    assert Sse(p, b) == Sse(q, b) + Square(e - d);
    assert Gap(p, a, b) == Gap(q, a, b) + Square(d);
    SseStep(Sse(q, a), Sse(q, b), R0(q, a), R1(q, a), Gap(q, a, b), e, x, b.slope - a.slope,
            b.intercept - a.intercept, d, R0(p, a), R1(p, a));
  }

  lemma {:induction false} GapNonNegative(p: seq<Point>, a: Line, b: Line)
    ensures Gap(p, a, b) >= 0.0
    ensures Gap(p, a, b) == 0.0 ==>
              forall i :: 0 <= i < |p| ==> LinePrice(a, p[i].idx as real) == LinePrice(b, p[i].idx as real)
  {
    hide LinePrice, Square;
    if p != [] {
      GapNonNegative(p[..|p| - 1], a, b);
      var x := p[|p| - 1].idx as real;
      RealSquare(LinePrice(b, x) - LinePrice(a, x));
      assert forall i :: 0 <= i < |p| - 1 ==> p[i] == p[..|p| - 1][i];
    }
  }

  lemma RealSquare(d: real)
    ensures Square(d) >= 0.0
    ensures Square(d) == 0.0 ==> d == 0.0
  {
    if d < 0.0 {
      BothPositive(-d, -d, Square(d));
    } else if d > 0.0 {
      BothPositive(d, d, Square(d));
    }
  }

  lemma BothPositive(a: real, b: real, product: real)
    requires a > 0.0 && b > 0.0 && product == a * b
    ensures product > 0.0
  {
  }

  lemma SumsUnfold(p: seq<Point>)
    requires p != []
    ensures var q, x, y := p[..|p| - 1], p[|p| - 1].idx as real, p[|p| - 1].price;
            && Sx(p) as real == Sx(q) as real + x && Sxx(p) as real == Sxx(q) as real + x * x
            && Sy(p) == Sy(q) + y && Sxy(p) == Sxy(q) + x * y && |p| as real == |q| as real + 1.0
  {
    Casts(p[|p| - 1].idx, p[|p| - 1].idx);
  }

  lemma {:induction false} ResidualSums(p: seq<Point>, line: Line)
    ensures R0(p, line) == Sy(p) - line.slope * Sx(p) as real - line.intercept * |p| as real
    ensures R1(p, line) == Sxy(p) - line.slope * Sxx(p) as real - line.intercept * Sx(p) as real
    decreases |p|, 1
  {
    if p != [] {
      ResidualSumsStep(p, line);
    }
  }

  lemma ResidualSumsStep(p: seq<Point>, line: Line)
    requires p != []
    ensures R0(p, line) == Sy(p) - line.slope * Sx(p) as real - line.intercept * |p| as real
    ensures R1(p, line) == Sxy(p) - line.slope * Sxx(p) as real - line.intercept * Sx(p) as real
    decreases |p|, 0
  {
    hide Sse, R0, R1, Sx, Sxx, Sy, Sxy;
    var q, last := p[..|p| - 1], p[|p| - 1];
    ResidualSums(q, line);
    SseUnfold(p, line);
    SumsUnfold(p);
    ResidualStep(line.slope, line.intercept, Sx(q) as real, |q| as real, Sxx(q) as real, last.idx as real, last.price,
                 Sx(p) as real, |p| as real, Sxx(p) as real);
  }

  lemma ResidualStep(m: real, c: real, sx: real, n: real, sxx: real, x: real, y: real, sxp: real, np: real, sxxp: real)
    requires sxp == sx + x && np == n + 1.0 && sxxp == sxx + x * x
    ensures m * sxp + c * np == m * sx + c * n + (c + m * x)
    ensures x * (y - (c + m * x)) == x * y - m * (x * x) - c * x
    ensures m * sxxp + c * sxp == m * sxx + c * sx + (m * (x * x) + c * x)
  {
  }

  // ----- the fit is the least-squares line

  lemma {:induction false} SameIndex(p: seq<Point>, x: int)
    requires forall i :: 0 <= i < |p| ==> p[i].idx == x
    ensures Sx(p) as real == |p| as real * x as real && Sxy(p) == x as real * Sy(p)
  {
    if p != [] {
      SameIndex(p[..|p| - 1], x);
    }
  }

  lemma SolvesNormal(n: real, sx: real, sy: real, sxx: real, sxy: real, m: real, c: real)
    requires n > 0.0 && c == (sy - m * sx) / n
    requires m * (n * sxx - sx * sx) == n * sxy - sx * sy
    ensures sy - m * sx - c * n == 0.0
    ensures sxy - m * sxx - c * sx == 0.0
  {
    assert c * n == sy - m * sx;
    var r := sxy - m * sxx - c * sx;
    calc {
      n * r;
      n * sxy - n * (m * sxx) - (c * n) * sx;
      { assert (c * n) * sx == sy * sx - m * (sx * sx); assert n * (m * sxx) == m * (n * sxx); }
      n * sxy - m * (n * sxx) - sy * sx + m * (sx * sx);
      { assert m * (n * sxx - sx * sx) == m * (n * sxx) - m * (sx * sx); }
      0.0;
    }
  }

  lemma Quotient(a: real, d: real)
    requires d != 0.0
    ensures (a / d) * d == a
  {
  }

  /** The slope meets its equation, also when all pivots share one index and it is zero. */
  lemma SlopeSolves(p: seq<Point>)
    requires p != []
    ensures var n, sx := |p| as real, Sx(p) as real;
            FitOf(p).slope * (n * Sxx(p) as real - sx * sx) == n * Sxy(p) - sx * Sy(p)
  {
    hide Sx, Sxx, Sy, Sxy, SlopeOf, Spaced;
    var n, sx, sy, sxx, sxy := |p| as real, Sx(p) as real, Sy(p), Sxx(p) as real, Sxy(p);
    SlopeBranch(p);
    if Spaced(p) {
      SlopeWhenSpaced(n, sx, sy, sxx, sxy, n * sxx - sx * sx);
    } else {
      OneIndex(p);
      SlopeWhenFlat(n, sx, sy, sxx, sxy, n * sxx - sx * sx, p[0].idx as real);
    }
  }

  lemma OneIndex(p: seq<Point>)
    requires p != [] && !Spaced(p)
    ensures Sx(p) as real == |p| as real * p[0].idx as real && Sxy(p) == p[0].idx as real * Sy(p)
  {
    hide Sx, Sxy, Sy;
    assert forall i :: 0 < i < |p| ==> p[0].idx == p[i].idx;
    SameIndex(p, p[0].idx);
  }

  lemma SlopeWhenSpaced(n: real, sx: real, sy: real, sxx: real, sxy: real, denom: real)
    requires denom == n * sxx - sx * sx && (denom > 0.000000001 || -denom > 0.000000001)
    ensures SlopeOf(n, sx, sy, sxx, sxy) * denom == n * sxy - sx * sy
  {
    Quotient(n * sxy - sx * sy, denom);
  }

  lemma SlopeWhenFlat(n: real, sx: real, sy: real, sxx: real, sxy: real, denom: real, x: real)
    requires denom == n * sxx - sx * sx && !(denom > 0.000000001 || -denom > 0.000000001)
    requires sx == n * x && sxy == x * sy
    ensures SlopeOf(n, sx, sy, sxx, sxy) * denom == n * sxy - sx * sy
  {
    assert SlopeOf(n, sx, sy, sxx, sxy) == 0.0;
    Commuted(n, x, sy);
  }

  lemma Commuted(n: real, x: real, y: real)
    ensures n * (x * y) == (n * x) * y
  {
  }

  /** The residuals of the fit cancel, plainly and weighted by the index. */
  lemma FitCancels(p: seq<Point>)
    requires p != []
    ensures R0(p, FitOf(p)) == 0.0 && R1(p, FitOf(p)) == 0.0
  {
    hide Sx, Sxx, Sy, Sxy, R0, R1, SlopeOf;
    var line := FitOf(p);
    SlopeSolves(p);
    ResidualSums(p, line);
    SolvesNormal(|p| as real, Sx(p) as real, Sy(p), Sxx(p) as real, Sxy(p), line.slope, line.intercept);
  }

  /**
    No other line has a smaller sum of squared residuals; and when two pivots have distinct
    indexes, no other line has the same one.
  */
  lemma FitIsLeastSquares(p: seq<Point>, other: Line)
    requires p != []
    ensures Sse(p, FitOf(p)) <= Sse(p, other)
    ensures Spaced(p) && Sse(p, FitOf(p)) == Sse(p, other) ==> other == FitOf(p)
  {
    hide FitOf, Sse, R0, R1, Gap;
    var fit := FitOf(p);
    FitCancels(p);
    SseMoves(p, fit, other);
    GapNonNegative(p, fit, other);
    assert (other.slope - fit.slope) * R1(p, fit) == 0.0 && (other.intercept - fit.intercept) * R0(p, fit) == 0.0;
    if Spaced(p) && Sse(p, fit) == Sse(p, other) {
      var i, j :| 0 <= i < j < |p| && p[i].idx != p[j].idx;
      TwoPoints(fit, other, p[i].idx as real, p[j].idx as real);
    }
  }

  lemma TwoPoints(a: Line, b: Line, x: real, y: real)
    requires x != y && LinePrice(a, x) == LinePrice(b, x) && LinePrice(a, y) == LinePrice(b, y)
    ensures a == b
  {
    assert (a.slope - b.slope) * (x - y) == 0.0;
  }

  /** Pivots that lie on one line are fitted exactly. */
  lemma FitRecoversLine(p: seq<Point>, line: Line)
    requires Spaced(p) && forall i :: 0 <= i < |p| ==> p[i].price == LinePrice(line, p[i].idx as real)
    ensures FitOf(p) == line
  {
    hide FitOf, Spaced;
    assert p != [] by {
      SpacedHasPoints(p);
    }
    NoResiduals(p, line);
    SseNonNegative(p, FitOf(p));
    FitIsLeastSquares(p, line);
  }

  lemma SpacedHasPoints(p: seq<Point>)
    requires Spaced(p)
    ensures p != []
  {
  }

  lemma {:induction false} NoResiduals(p: seq<Point>, line: Line)
    requires forall i :: 0 <= i < |p| ==> p[i].price == LinePrice(line, p[i].idx as real)
    ensures Sse(p, line) == 0.0
  {
    hide LinePrice;
    if p != [] {
      assert forall i :: 0 <= i < |p| - 1 ==> p[..|p| - 1][i] == p[i];
      NoResiduals(p[..|p| - 1], line);
      assert Residual(p[|p| - 1], line) == 0.0;
    }
  }

  lemma {:induction false} SseNonNegative(p: seq<Point>, line: Line)
    ensures Sse(p, line) >= 0.0
  {
    hide LinePrice, Square;
    if p != [] {
      SseNonNegative(p[..|p| - 1], line);
      RealSquare(Residual(p[|p| - 1], line));
    }
  }
}
