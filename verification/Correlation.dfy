/**
 The closer check of a reshare: the correlation coefficient of two rows of pixels.

 The arithmetic is exact. The square root enters as the number it is, so that what is said of the result is said
 of the formula and not of its rounding.
 */
module Correlation {

  function Sum(a: seq<real>): real {
    if a == [] then 0.0 else a[0] + Sum(a[1..])
  }

  function Dot(a: seq<real>, b: seq<real>): real
    requires |a| == |b|
  {
    if a == [] then 0.0 else a[0] * b[0] + Dot(a[1..], b[1..])
  }

  function Mean(a: seq<real>): real
    requires a != []
  {
    Sum(a) / |a| as real
  }

  function Together(a: seq<real>, b: seq<real>): real
    requires a != [] && |a| == |b|
  {
    Dot(a, b) - |a| as real * Mean(a) * Mean(b)
  }

  function Spread(a: seq<real>): real
    requires a != []
  {
    Together(a, a)
  }

  ghost predicate IsRoot(root: real, s: real) {
    root > 0.0 && root * root == s
  }

  /** `r` is `t` divided by the square root of `s`. */
  ghost predicate OverRoot(t: real, s: real, r: real) {
    exists root :: IsRoot(root, s) && r == t / root
  }

  ghost predicate Formula(t: real, p: real, q: real, r: real) {
    if p <= 0.0 || q <= 0.0 then r == 0.0 else OverRoot(t, p * q, r)
  }

  /** `r` is what the formula gives: nothing for a run with no spread. */
  ghost predicate IsCorrelation(a: seq<real>, b: seq<real>, r: real)
    requires a != [] && |a| == |b|
  {
    Formula(Together(a, b), Spread(a), Spread(b), r)
  }

  /** Every level moved by the same amount. */
  function Shift(a: seq<real>, d: real): (s: seq<real>)
    ensures |s| == |a|
  {
    if a == [] then [] else [a[0] + d] + Shift(a[1..], d)
  }

  lemma {:induction false} ShiftedSum(a: seq<real>, d: real)
    ensures Sum(Shift(a, d)) == Sum(a) + |a| as real * d
  {
    if a != [] {
      ShiftedSum(a[1..], d);
      assert Shift(a, d)[1..] == Shift(a[1..], d);
      assert |a| as real * d == d + (|a| - 1) as real * d;
    }
  }

  lemma {:induction false} ShiftedDot(a: seq<real>, b: seq<real>, p: real, q: real)
    requires |a| == |b|
    ensures Dot(Shift(a, p), Shift(b, q)) == Dot(a, b) + q * Sum(a) + p * Sum(b) + |a| as real * (p * q)
  {
    if a != [] {
      ShiftedDot(a[1..], b[1..], p, q);
      assert Shift(a, p)[1..] == Shift(a[1..], p) && Shift(b, q)[1..] == Shift(b[1..], q);
      assert (a[0] + p) * (b[0] + q) == a[0] * b[0] + q * a[0] + p * b[0] + p * q;
      assert |a| as real * (p * q) == p * q + (|a| - 1) as real * (p * q);
      assert q * Sum(a) == q * a[0] + q * Sum(a[1..]);
      assert p * Sum(b) == p * b[0] + p * Sum(b[1..]);
    }
  }

  /** The run about its mean. */
  function Centred(a: seq<real>): (c: seq<real>)
    requires a != []
    ensures |c| == |a|
  {
    Shift(a, -Mean(a))
  }

  /** The formula is the sum of products about the means. */
  lemma {:induction false} TogetherIsCentred(a: seq<real>, b: seq<real>)
    requires a != [] && |a| == |b|
    ensures Together(a, b) == Dot(Centred(a), Centred(b))
  {
    var m, l := Mean(a), Mean(b);
    ShiftedDot(a, b, -m, -l);
    CancelMeans(|a| as real, Sum(a), Sum(b), m, l);
  }

  lemma {:induction false} CancelMeans(n: real, p: real, q: real, m: real, l: real)
    requires n > 0.0 && m == p / n && l == q / n
    ensures -l * p + -m * q + n * (-m * -l) == -(n * m * l)
  {
    assert p == n * m && q == n * l;
    assert l * (n * m) == n * m * l;
    assert m * (n * l) == n * m * l;
    assert n * (-m * -l) == n * m * l;
  }

  /** The step of the Cauchy-Schwarz inequality. */
  lemma {:induction false} CauchyStep(x: real, y: real, p: real, u: real, v: real)
    requires x >= 0.0 && y >= 0.0 && p * p <= x * y
    ensures (p + u * v) * (p + u * v) <= (x + u * u) * (y + v * v)
  {
    var m := x * (v * v) + y * (u * u);
    CrossTerm(x, y, p, u, v);
    assert (x + u * u) * (y + v * v) == x * y + m + (u * u) * (v * v);
    assert (p + u * v) * (p + u * v) == p * p + 2.0 * (p * (u * v)) + (u * v) * (u * v);
    assert (u * v) * (u * v) == (u * u) * (v * v);
  }

  /** Twice p(uv) is at most x(vv) + y(uu): its square is at most 4xyuuvv, and (s + t)(s + t) at least 4st. */
  lemma {:induction false} CrossTerm(x: real, y: real, p: real, u: real, v: real)
    requires x >= 0.0 && y >= 0.0 && p * p <= x * y
    ensures 2.0 * (p * (u * v)) <= x * (v * v) + y * (u * u)
  {
    var s, t := x * (v * v), y * (u * u);
    var w := (u * v) * (u * v);
    assert s >= 0.0 && t >= 0.0 && w >= 0.0;
    assert s * t == (x * y) * w;
    var z := p * (u * v);
    assert z * z == (p * p) * w;
    assert (p * p) * w <= (x * y) * w;
    TwiceAtMostSum(z, s, t);
  }

  lemma {:induction false} TwiceAtMostSum(z: real, s: real, t: real)
    requires s >= 0.0 && t >= 0.0 && z * z <= s * t
    ensures 2.0 * z <= s + t
  {
    assert (s - t) * (s - t) >= 0.0;
    assert (s + t) * (s + t) == (s - t) * (s - t) + 4.0 * (s * t);
    assert (2.0 * z) * (2.0 * z) == 4.0 * (z * z);
    SquareBound(2.0 * z, s + t);
  }

  lemma {:induction false} SquareBound(t: real, c: real)
    requires c >= 0.0 && t * t <= c * c
    ensures -c <= t <= c
  {
    assert (c - t) * (c + t) == c * c - t * t;
    SameSign(c - t, c + t);
  }

  lemma {:induction false} SameSign(x: real, y: real)
    requires x * y >= 0.0 && x + y >= 0.0
    ensures x >= 0.0 && y >= 0.0
  {
    if x < 0.0 {
      Product(-x, y, -x * y);
    }
    if y < 0.0 {
      Product(-y, x, -y * x);
    }
  }

  lemma {:induction false} Product(x: real, y: real, q: real)
    requires x > 0.0 && y > 0.0 && q == x * y
    ensures q > 0.0
  {
  }

  lemma {:induction false} CauchySchwarz(a: seq<real>, b: seq<real>)
    requires |a| == |b|
    ensures Dot(a, a) >= 0.0 && Dot(b, b) >= 0.0
    ensures Dot(a, b) * Dot(a, b) <= Dot(a, a) * Dot(b, b)
  {
    if a != [] {
      CauchySchwarz(a[1..], b[1..]);
      CauchyStep(Dot(a[1..], a[1..]), Dot(b[1..], b[1..]), Dot(a[1..], b[1..]), a[0], b[0]);
      assert a[0] * a[0] >= 0.0 && b[0] * b[0] >= 0.0;
    }
  }

  lemma {:induction false} SquareIsZero(x: real, q: real)
    requires q == x * x
    ensures q >= 0.0 && (q == 0.0 <==> x == 0.0)
  {
    if x > 0.0 {
      Product(x, x, q);
    } else if x < 0.0 {
      var y := -x;
      NegatedSquare(x, y);
      Product(y, y, q);
    }
  }

  lemma {:induction false} NegatedSquare(x: real, y: real)
    requires y == -x
    ensures y * y == x * x
  {
  }

  /** Only the zero run has no square. */
  lemma {:induction false} ZeroSquare(a: seq<real>)
    ensures Dot(a, a) >= 0.0
    ensures Dot(a, a) == 0.0 <==> forall i | 0 <= i < |a| :: a[i] == 0.0
  {
    if a != [] {
      assert forall i | 1 <= i < |a| :: a[i] == a[1..][i - 1];
      var rest := a[1..];
      ZeroSquare(rest);
      assert (forall i | 0 <= i < |a| :: a[i] == 0.0) ==> forall i | 0 <= i < |rest| :: rest[i] == 0.0;
      SquareIsZero(a[0], a[0] * a[0]);
      if a[0] == 0.0 && Dot(rest, rest) == 0.0 {
        assert forall i | 0 <= i < |a| :: a[i] == 0.0;
      }
    }
  }

  lemma {:induction false} ShiftAt(a: seq<real>, d: real, i: nat)
    requires i < |a|
    ensures Shift(a, d)[i] == a[i] + d
  {
    if i > 0 {
      ShiftAt(a[1..], d, i - 1);
    }
  }

  lemma {:induction false} ConstantSum(a: seq<real>, c: real)
    requires forall i | 0 <= i < |a| :: a[i] == c
    ensures Sum(a) == |a| as real * c
  {
    if a != [] {
      ConstantSum(a[1..], c);
      assert |a| as real * c == c + (|a| - 1) as real * c;
    }
  }

  /** A spread is never negative, and zero for constant runs alone. */
  lemma {:induction false} SpreadSaysConstant(a: seq<real>)
    requires a != []
    ensures Spread(a) >= 0.0
    ensures Spread(a) == 0.0 <==> forall i | 0 <= i < |a| :: a[i] == a[0]
  {
    hide Together, Centred, Mean;
    TogetherIsCentred(a, a);
    ZeroSquare(Centred(a));
    CentredSaysConstant(a);
  }

  lemma {:induction false} CentredSaysConstant(a: seq<real>)
    requires a != []
    ensures (forall i | 0 <= i < |a| :: Centred(a)[i] == 0.0) <==> forall i | 0 <= i < |a| :: a[i] == a[0]
  {
    forall i: nat | i < |a|
      ensures Centred(a)[i] == a[i] - Mean(a)
    {
      ShiftAt(a, -Mean(a), i);
    }
    if forall i | 0 <= i < |a| :: a[i] == a[0] {
      ConstantSum(a, a[0]);
      assert Mean(a) == a[0];
    }
    if forall i | 0 <= i < |a| :: Centred(a)[i] == 0.0 {
      assert Centred(a)[0] == 0.0;
    }
  }

  /** A correlation lies between -1 and 1, whatever the runs. */
  lemma {:induction false} CorrelationIsBounded(a: seq<real>, b: seq<real>, r: real)
    requires a != [] && |a| == |b| && IsCorrelation(a, b, r)
    ensures -1.0 <= r <= 1.0
  {
    hide Together, Dot, Centred;
    var t, p, q := Together(a, b), Spread(a), Spread(b);
    if p > 0.0 && q > 0.0 {
      TogetherIsCentred(a, b);
      TogetherIsCentred(a, a);
      TogetherIsCentred(b, b);
      CauchySchwarz(Centred(a), Centred(b));
      BoundedFormula(t, p, q, r);
    }
  }

  lemma {:induction false} BoundedFormula(t: real, p: real, q: real, r: real)
    requires p > 0.0 && q > 0.0 && t * t <= p * q && Formula(t, p, q, r)
    ensures -1.0 <= r <= 1.0
  {
    var root :| IsRoot(root, p * q) && r == t / root;
    BoundedQuotient(t, root);
  }

  lemma {:induction false} BoundedQuotient(t: real, root: real)
    requires root > 0.0 && t * t <= root * root
    ensures -1.0 <= t / root <= 1.0
  {
    SquareBound(t, root);
    assert t / root * root == t;
    assert (t / root) * root <= 1.0 * root && -1.0 * root <= (t / root) * root;
  }

  /** A run that is not constant goes with itself, and nothing goes better. */
  lemma {:induction false} SelfCorrelation(a: seq<real>, r: real)
    requires a != [] && IsCorrelation(a, a, r)
    ensures r == if forall i | 0 <= i < |a| :: a[i] == a[0] then 0.0 else 1.0
  {
    SpreadSaysConstant(a);
    if Spread(a) > 0.0 {
      var root :| IsRoot(root, Spread(a) * Spread(a)) && r == Spread(a) / root;
      SameRoot(root, Spread(a));
    }
  }

  lemma {:induction false} SameRoot(x: real, y: real)
    requires x > 0.0 && y > 0.0 && x * x == y * y
    ensures x == y
  {
    assert (x - y) * (x + y) == 0.0;
  }

  /** There is one correlation, and it does not depend on the order of the runs. */
  lemma {:induction false} OneCorrelation(a: seq<real>, b: seq<real>, r: real, s: real)
    requires a != [] && |a| == |b| && IsCorrelation(a, b, r) && (IsCorrelation(a, b, s) || IsCorrelation(b, a, s))
    ensures r == s
  {
    DotCommutes(a, b);
    assert Together(a, b) == Together(b, a);
    OneFormula(Together(a, b), Spread(a), Spread(b), r, s);
  }

  lemma {:induction false} OneFormula(t: real, p: real, q: real, r: real, s: real)
    requires Formula(t, p, q, r) && (Formula(t, p, q, s) || Formula(t, q, p, s))
    ensures r == s
  {
    if p > 0.0 && q > 0.0 {
      var x :| IsRoot(x, p * q) && r == t / x;
      assert p * q == q * p;
      var y :| IsRoot(y, p * q) && s == t / y;
      SameRoot(x, y);
    }
  }

  lemma {:induction false} DotCommutes(a: seq<real>, b: seq<real>)
    requires |a| == |b|
    ensures Dot(a, b) == Dot(b, a)
  {
    if a != [] {
      DotCommutes(a[1..], b[1..]);
    }
  }

  lemma {:induction false} ShiftedMean(a: seq<real>, d: real)
    requires a != []
    ensures Mean(Shift(a, d)) == Mean(a) + d
  {
    ShiftedSum(a, d);
    Share(Sum(a), |a| as real, d);
  }

  lemma {:induction false} Share(s: real, n: real, d: real)
    requires n > 0.0
    ensures (s + n * d) / n == s / n + d
  {
    assert (s / n + d) * n == s + n * d;
  }

  lemma {:induction false} ShiftTwice(a: seq<real>, d: real, e: real)
    ensures Shift(Shift(a, d), e) == Shift(a, d + e)
  {
    if a != [] {
      ShiftTwice(a[1..], d, e);
      assert Shift(a, d)[1..] == Shift(a[1..], d);
    }
  }

  lemma {:induction false} ShiftedCentred(a: seq<real>, d: real)
    requires a != []
    ensures Centred(Shift(a, d)) == Centred(a)
  {
    ShiftedMean(a, d);
    ShiftTwice(a, d, -Mean(a) - d);
    assert d + (-Mean(a) - d) == -Mean(a);
  }

  /** A frame brighter or darker all over correlates with the post just as well. */
  lemma {:induction false} BrightnessDoesNotMatter(a: seq<real>, b: seq<real>, d: real, e: real, r: real)
    requires a != [] && |a| == |b|
    ensures IsCorrelation(Shift(a, d), Shift(b, e), r) <==> IsCorrelation(a, b, r)
  {
    hide Formula, Together, Shift;
    ShiftedFormula(a, b, d, e);
    ShiftedFormula(a, a, d, d);
    ShiftedFormula(b, b, e, e);
  }

  lemma {:induction false} ShiftedFormula(a: seq<real>, b: seq<real>, d: real, e: real)
    requires a != [] && |a| == |b|
    ensures Together(Shift(a, d), Shift(b, e)) == Together(a, b)
  {
    hide Together, Centred;
    ShiftedCentred(a, d);
    ShiftedCentred(b, e);
    TogetherIsCentred(a, b);
    TogetherIsCentred(Shift(a, d), Shift(b, e));
  }
}
