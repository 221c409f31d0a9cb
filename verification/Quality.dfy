/**
  The release gate's arithmetic over exact reals: when the Wilson lower bound meets a mark, and what
  one more graded pair does to the gate.
 */
module Quality {
  import opened Wrappers

  /** Z_95, the lower end point of the two-sided 95% interval. */
  const Z_95: real := 1.959963984540054

  datatype CountError = InvalidCounts

  function Square(x: real): real {
    x * x
  }

  /** What stands under the square root. */
  function Radicand(z: real, successes: int, scored: int): real
    requires scored > 0
  {
    var (n, p) := (scored as real, successes as real / scored as real);
    p * (1.0 - p) / n + z * z / (4.0 * n * n)
  }

  predicate IsRoot(root: real, x: real) {
    root >= 0.0 && Square(root) == x
  }

  function Bound(z: real, successes: int, scored: int, root: real): real
    requires scored > 0
  {
    var (n, p) := (scored as real, successes as real / scored as real);
    var bound := (p + z * z / (2.0 * n) - z * root) / (1.0 + z * z / n);
    if bound < 0.0 then 0.0 else bound
  }

  /**
    The Wilson score equation: b is at z standard deviations below p, where the deviation is that of b
    itself. Of its two solutions this is the one that is not above p.
   */
  predicate IsScoreEndpoint(z: real, successes: int, scored: int, b: real)
    requires scored > 0
  {
    var (n, p) := (scored as real, successes as real / scored as real);
    0.0 <= b <= p && b < 1.0 && Square(p - b) == z * z / n * (b * (1.0 - b))
  }

  /** The mark t is met, in terms of the counts alone: no root and no division. */
  predicate Meets(z: real, successes: int, scored: int, t: real) {
    Exceeds(Square(z) * t * (1.0 - t), t, successes as real, scored as real)
  }

  /** s is at least t*n, and by so much that the square of the excess is at least spread*n. */
  predicate Exceeds(spread: real, t: real, s: real, n: real) {
    s - t * n >= 0.0 && Square(s - t * n) >= spread * n
  }

  // ---------------------------------------------------------------- the bound against a mark

  lemma ProductKeepsOrder(x: real, y: real, k: real)
    requires k > 0.0
    ensures x >= y <==> x * k >= y * k
  {
    assert x * k - y * k == (x - y) * k;
    if x >= y {
      assert (x - y) * k >= 0.0;
    } else {
      assert (y - x) * k > 0.0;
    }
  }

  lemma NonNegative(x: real, y: real)
    requires x >= 0.0 && y >= 0.0
    ensures x * y >= 0.0
  {
  }

  lemma SquareKeepsOrder(x: real, y: real)
    requires x >= 0.0 && y >= 0.0
    ensures x >= y <==> Square(x) >= Square(y)
  {
    assert Square(x) - Square(y) == (x - y) * (x + y);
    if x < y {
      var (d, sum) := (y - x, x + y);
      assert d > 0.0 && sum > 0.0;
      assert d * sum > 0.0;
    } else {
      assert (x - y) * (x + y) >= 0.0;
    }
  }

  /** The distance of the bound from the mark, squared against the squared root term. */
  lemma Gap(p: real, w: real, t: real, q: real)
    requires Square(q) == w * p * (1.0 - p) + w * w / 4.0
    ensures Square(p + w / 2.0 - t - t * w) - Square(q) == (1.0 + w) * (Square(p - t) - w * t * (1.0 - t))
  {
    var d := p - t;
    var e := w / 2.0 - t * w;
    assert Square(d + e) == d * d + 2.0 * d * e + e * e;
    assert e == w * (0.5 - t);
    assert e * e == w * w * ((0.5 - t) * (0.5 - t));
    assert (0.5 - t) * (0.5 - t) == 0.25 - t + t * t;
    assert w * w * (0.25 - t + t * t) == w * w / 4.0 - w * w * (t * (1.0 - t));
    assert 2.0 * d * e == w * (d - 2.0 * d * t);
    assert d - 2.0 * d * t - p * (1.0 - p) == d * d - t * (1.0 - t);
    assert w * (d - 2.0 * d * t) - w * (p * (1.0 - p)) == w * (d * d - t * (1.0 - t));
    assert w * p * (1.0 - p) == w * (p * (1.0 - p));
    assert w * t * (1.0 - t) == w * (t * (1.0 - t));
  }

  /** Above the mark the sign condition on p alone is enough; below it the gap cannot be closed. */
  lemma SideOfTheMark(p: real, w: real, t: real)
    requires 0.0 <= p <= 1.0 && w > 0.0 && 0.0 < t < 1.0
    requires Square(p - t) >= w * t * (1.0 - t)
    ensures p + w / 2.0 - t - t * w >= 0.0 <==> p >= t
  {
    if p >= t {
      var d := p - t;
      NonNegative(d, 1.0 - p);
      assert d * (1.0 - t) - d * d == d * (1.0 - p);
      ProductKeepsOrder(d, w * t, 1.0 - t);
      assert w * t <= d;
      assert t * w == w * t;
    } else {
      var d := t - p;
      assert Square(p - t) == d * d;
      NonNegative(d, p);
      assert d * t - d * d == d * p;
      assert (w * (1.0 - t)) * t == w * t * (1.0 - t);
      ProductKeepsOrder(d, w * (1.0 - t), t);
      assert w * (1.0 - t) <= d;
      assert w * (1.0 - t) == w - t * w;
      assert w / 2.0 - t * w == w * (1.0 - t) - w / 2.0;
      if w / 2.0 - t * w >= d {
        assert false;
      }
    }
  }

  lemma RatioMeetsIff(p: real, w: real, t: real, q: real)
    requires 0.0 <= p <= 1.0 && w > 0.0 && 0.0 < t < 1.0 && q >= 0.0
    requires Square(q) == w * p * (1.0 - p) + w * w / 4.0
    ensures (p + w / 2.0 - q) / (1.0 + w) >= t <==> p >= t && Square(p - t) >= w * t * (1.0 - t)
  {
    hide Square;
    var c := p + w / 2.0 - t - t * w;
    var bound := (p + w / 2.0 - q) / (1.0 + w);
    assert bound * (1.0 + w) == p + w / 2.0 - q;
    ProductKeepsOrder(bound, t, 1.0 + w);
    assert t * (1.0 + w) == t + t * w;
    assert bound >= t <==> c >= q;
    Gap(p, w, t, q);
    var gap := Square(p - t) - w * t * (1.0 - t);
    ProductKeepsOrder(gap, 0.0, 1.0 + w);
    assert (1.0 + w) * gap == gap * (1.0 + w);
    if c >= 0.0 {
      SquareKeepsOrder(c, q);
    }
    if gap >= 0.0 {
      SideOfTheMark(p, w, t);
    }
  }

  /** An order of x and y is that of n * n times each. */
  lemma ScaledTwice(x: real, y: real, n: real)
    requires n > 0.0
    ensures x >= y <==> x * n * n >= y * n * n
  {
    ProductKeepsOrder(x, y, n);
    ProductKeepsOrder(x * n, y * n, n);
  }

  lemma SquareScaled(d: real, n: real)
    ensures Square(d) * n * n == Square(d * n)
  {
    assert Square(d) * n * n == (d * n) * (d * n);
  }

  lemma SpreadScaled(zz: real, n: real, t: real)
    requires n > 0.0
    ensures zz / n * t * (1.0 - t) * n * n == zz * t * (1.0 - t) * n
  {
    var (w, u) := (zz / n, t * (1.0 - t));
    assert w * n == zz;
    assert w * t * (1.0 - t) == w * u;
    assert w * u * n * n == (w * n) * u * n;
    assert zz * t * (1.0 - t) == zz * u;
  }

  /** The same condition on p = s/n and w = z^2/n, multiplied out. */
  lemma Unscale(z: real, successes: int, scored: int, t: real)
    requires scored > 0
    ensures var (n, p) := (scored as real, successes as real / scored as real);
      (p >= t && Square(p - t) >= z * z / n * t * (1.0 - t)) <==> Meets(z, successes, scored, t)
  {
    var (s, n) := (successes as real, scored as real);
    var (p, spread) := (s / n, z * z / n * t * (1.0 - t));
    assert Square(z) == z * z;
    hide Square;
    assert p * n == s;
    ProductKeepsOrder(p, t, n);
    assert (p - t) * n == s - t * n;
    SquareScaled(p - t, n);
    SpreadScaled(z * z, n, t);
    ScaledTwice(Square(p - t), spread, n);
  }

  lemma SplitFraction(zz: real, n: real, v: real)
    requires n > 0.0
    ensures zz * (v / n + zz / (4.0 * n * n)) == zz / n * v + zz / n * (zz / n) / 4.0
  {
    var (w, a, b) := (zz / n, v / n, zz / (4.0 * n * n));
    assert w * n == zz && a * n == v && b * (4.0 * n * n) == zz;
    assert (4.0 * (b * n) - w) * n == 0.0;
    NoZeroDivisor(4.0 * (b * n) - w, n);
    assert zz * a == w * (a * n);
    assert zz * b == w * (b * n);
    assert zz * (a + b) == zz * a + zz * b;
  }

  lemma NoZeroDivisor(x: real, n: real)
    requires n > 0.0 && x * n == 0.0
    ensures x == 0.0
  {
    if x > 0.0 {
      PositiveProduct(x, n);
    } else if x < 0.0 {
      PositiveProduct(-x, n);
    }
  }

  lemma RootTerm(z: real, successes: int, scored: int, root: real)
    requires scored > 0 && IsRoot(root, Radicand(z, successes, scored))
    ensures var (n, p) := (scored as real, successes as real / scored as real);
      var w := z * z / n;
      Square(z * root) == w * p * (1.0 - p) + w * w / 4.0
  {
    var (n, p) := (scored as real, successes as real / scored as real);
    var (w, v) := (z * z / n, p * (1.0 - p));
    assert Square(z * root) == z * z * Square(root);
    SplitFraction(z * z, n, v);
    assert w * p * (1.0 - p) == w * v;
  }

  lemma PositiveQuotient(x: real, n: real)
    requires x > 0.0 && n > 0.0
    ensures x / n > 0.0
  {
    var q := x / n;
    assert q * n == x;
    if q <= 0.0 {
      NonNegative(-q, n);
    }
  }

  lemma HalfTerm(x: real, n: real)
    requires n > 0.0
    ensures x / (2.0 * n) == x / n / 2.0
  {
    assert x / n / 2.0 * (2.0 * n) == x;
  }

  lemma RelativeWidth(z: real, n: real)
    requires z > 0.0 && n > 0.0
    ensures z * z / n > 0.0
  {
    var u := z / n;
    PositiveQuotient(z, n);
    assert u * n == z;
    PositiveProduct(z, u);
    assert z * z / n == z * u;
  }

  lemma Proportion(s: real, n: real)
    requires 0.0 <= s <= n && n > 0.0
    ensures 0.0 <= s / n <= 1.0
  {
    var p := s / n;
    assert p * n == s;
    ProductKeepsOrder(p, 0.0, n);
    ProductKeepsOrder(1.0, p, n);
  }

  /** The bound's ingredients: the ratio p, the relative width w and the root term q. */
  lemma Ingredients(z: real, successes: int, scored: int, root: real)
    requires z > 0.0 && 0 <= successes <= scored && scored > 0 && IsRoot(root, Radicand(z, successes, scored))
    ensures var (n, p) := (scored as real, successes as real / scored as real);
      var (w, q) := (z * z / n, z * root);
      && 0.0 <= p <= 1.0 && w > 0.0 && q >= 0.0
      && Square(q) == w * p * (1.0 - p) + w * w / 4.0
      && z * z / (2.0 * n) == w / 2.0
  {
    hide Square, Radicand;
    var n := scored as real;
    Proportion(successes as real, n);
    RelativeWidth(z, n);
    RootTerm(z, successes, scored, root);
    HalfTerm(z * z, n);
    NonNegative(z, root);
  }

  /**
    For every mark t strictly between 0 and 1 and every count of scored pairs: the Wilson lower bound
    is at least t if and only if s >= t*n and (s - t*n)^2 >= z^2 * t * (1 - t) * n.
   */
  lemma BoundMeetsMarkIff(z: real, successes: int, scored: int, root: real, t: real)
    requires z > 0.0 && 0 <= successes <= scored && scored > 0 && 0.0 < t < 1.0
    requires IsRoot(root, Radicand(z, successes, scored))
    ensures Bound(z, successes, scored, root) >= t <==> Meets(z, successes, scored, t)
  {
    hide Meets, Square, Radicand, IsRoot;
    var (n, p) := (scored as real, successes as real / scored as real);
    Ingredients(z, successes, scored, root);
    RatioMeetsIff(p, z * z / n, t, z * root);
    Unscale(z, successes, scored, t);
  }

  lemma PositiveProduct(x: real, y: real)
    requires x > 0.0 && y > 0.0
    ensures x * y > 0.0
  {
  }

  // ---------------------------------------------------------------- what follows

  /** The root term is at least what the numerator adds to p. */
  lemma RootCovers(p: real, w: real, q: real, e: real)
    requires 0.0 <= p <= 1.0 && w > 0.0 && q >= 0.0 && e == w * (0.5 - p)
    requires Square(q) == w * p * (1.0 - p) + w * w / 4.0
    ensures e <= q
  {
    if e >= 0.0 {
      NonNegative(w, p);
      NonNegative(w * p, 1.0 - p);
      var v := p * (1.0 - p);
      NonNegative(w * w, v);
      assert (0.5 - p) * (0.5 - p) == 0.25 - v;
      assert Square(e) == w * w * ((0.5 - p) * (0.5 - p));
      assert w * w * (0.25 - v) == w * w / 4.0 - w * w * v;
      SquareKeepsOrder(q, e);
    }
  }

  lemma RatioBelow(p: real, w: real, q: real)
    requires 0.0 <= p <= 1.0 && w > 0.0 && q >= 0.0
    requires Square(q) == w * p * (1.0 - p) + w * w / 4.0
    ensures (p + w / 2.0 - q) / (1.0 + w) <= p
  {
    hide Square;
    var e := w * (0.5 - p);
    var bound := (p + w / 2.0 - q) / (1.0 + w);
    RootCovers(p, w, q, e);
    assert bound * (1.0 + w) == p + w / 2.0 - q;
    assert p * (1.0 + w) == p + w / 2.0 - e;
    ProductKeepsOrder(p, bound, 1.0 + w);
  }

  /** The bound is a proportion and never above the observed precision. */
  lemma BoundIsConservative(z: real, successes: int, scored: int, root: real)
    requires z > 0.0 && 0 <= successes <= scored && scored > 0 && IsRoot(root, Radicand(z, successes, scored))
    ensures 0.0 <= Bound(z, successes, scored, root) <= successes as real / scored as real
  {
    hide Square, Radicand, IsRoot;
    Ingredients(z, successes, scored, root);
    RatioBelow(successes as real / scored as real, z * z / scored as real, z * root);
  }

  /** The left side of the score equation, multiplied out. */
  lemma ExpandSquare(p: real, w: real, q: real)
    requires Square(q) == w * p * (1.0 - p) + w * w / 4.0
    ensures Square(q + w * (p - 0.5)) ==
      w * (p * (1.0 - p)) + w * w / 2.0 - w * w * (p * (1.0 - p)) + 2.0 * (q * (w * (p - 0.5)))
  {
    var (e, v) := (w * (p - 0.5), p * (1.0 - p));
    assert Square(q + e) == Square(q) + 2.0 * (q * e) + Square(e);
    HalfSpread(p, w);
    hide Square;
    assert w * p * (1.0 - p) == w * v;
    assert w * w * (0.25 - v) == w * w / 4.0 - w * w * v;
  }

  lemma HalfSpread(p: real, w: real)
    ensures Square(w * (p - 0.5)) == w * w * (0.25 - p * (1.0 - p))
  {
    var d := p - 0.5;
    assert d * d == 0.25 - p * (1.0 - p);
    assert (w * d) * (w * d) == w * w * (d * d);
  }

  /** The product on the right side, multiplied out. */
  lemma ExpandProduct(p: real, w: real, q: real)
    ensures var u := p + w / 2.0 - q;
      u * (1.0 + w - u) == p * (1.0 - p) + w / 2.0 + w * w / 4.0 + q * (2.0 * p - 1.0) - Square(q)
  {
    var (a, c) := (p + w / 2.0, 1.0 - p + w / 2.0);
    assert a - q == p + w / 2.0 - q && 1.0 + w - (a - q) == c + q;
    assert (a - q) * (c + q) == a * c + q * (a - c) - q * q;
    assert a * c == p * (1.0 - p) + w / 2.0 + w * w / 4.0;
    assert a - c == 2.0 * p - 1.0;
  }

  lemma ScaleProduct(w: real, v: real, q: real, p: real, r: real)
    requires r == w * v + w * w / 4.0
    ensures w * (v + w / 2.0 + w * w / 4.0 + q * (2.0 * p - 1.0) - r) ==
      w * v + w * w / 2.0 - w * w * v + 2.0 * (q * (w * (p - 0.5)))
  {
    assert w * r == w * w * v + w * w * w / 4.0;
    assert w * (q * (2.0 * p - 1.0)) == 2.0 * (q * (w * (p - 0.5)));
    assert w * (w * w / 4.0) == w * w * w / 4.0;
  }

  lemma Expand(p: real, w: real, q: real)
    requires Square(q) == w * p * (1.0 - p) + w * w / 4.0
    ensures var u := p + w / 2.0 - q;
      Square(p + p * w - u) == w * (u * (1.0 + w - u))
  {
    hide Square;
    ExpandSquare(p, w, q);
    ExpandProduct(p, w, q);
    assert w * p * (1.0 - p) == w * (p * (1.0 - p));
    ScaleProduct(w, p * (1.0 - p), q, p, Square(q));
    assert p + p * w - (p + w / 2.0 - q) == q + w * (p - 0.5);
  }

  /** Multiplied out by (1 + w)^2, both sides are those of Expand. */
  lemma Contract(p: real, w: real, b: real, u: real)
    requires w > 0.0 && b * (1.0 + w) == u
    requires Square(p + p * w - u) == w * (u * (1.0 + w - u))
    ensures Square(p - b) == w * (b * (1.0 - b))
  {
    var k := 1.0 + w;
    assert (p - b) * k == p + p * w - u;
    assert Square(p - b) * (k * k) == Square((p - b) * k);
    assert b * (1.0 - b) * (k * k) == (b * k) * (k - b * k);
    assert w * (b * (1.0 - b)) * (k * k) == w * (b * (1.0 - b) * (k * k));
    PositiveProduct(k, k);
    var gap := Square(p - b) - w * (b * (1.0 - b));
    assert gap * (k * k) == 0.0;
    NoZeroDivisor(gap, k * k);
  }

  /** The quotient is a number from 0 to p, and below 1. */
  lemma EndpointRange(p: real, w: real, q: real, b: real)
    requires 0.0 <= p <= 1.0 && w > 0.0 && q >= 0.0 && b * (1.0 + w) == p + w / 2.0 - q
    requires Square(q) == w * p * (1.0 - p) + w * w / 4.0
    ensures 0.0 <= b <= p && b < 1.0
  {
    RootCovers(p, w, q, w * (0.5 - p));
    RootIsCovered(p, w, q);
    hide Square;
    ProductKeepsOrder(b, 0.0, 1.0 + w);
    ProductKeepsOrder(p, b, 1.0 + w);
    assert p * (1.0 + w) == p + w * p && w * (0.5 - p) == w / 2.0 - w * p;
    if b >= 1.0 {
      ProductKeepsOrder(b, 1.0, 1.0 + w);
    }
  }

  lemma RootIsCovered(p: real, w: real, q: real)
    requires 0.0 <= p <= 1.0 && w > 0.0 && q >= 0.0
    requires Square(q) == w * p * (1.0 - p) + w * w / 4.0
    ensures q <= p + w / 2.0
  {
    var a := p + w / 2.0;
    assert Square(a) == p * p + w * p + w * w / 4.0;
    assert w * p * (1.0 - p) == w * p - w * (p * p);
    NonNegative(p, p);
    NonNegative(w, p * p);
    SquareKeepsOrder(a, q);
  }

  lemma QuotientSolvesScore(p: real, w: real, q: real)
    requires 0.0 <= p <= 1.0 && w > 0.0 && q >= 0.0
    requires Square(q) == w * p * (1.0 - p) + w * w / 4.0
    ensures var b := (p + w / 2.0 - q) / (1.0 + w);
      0.0 <= b <= p && b < 1.0 && Square(p - b) == w * (b * (1.0 - b))
  {
    var u := p + w / 2.0 - q;
    var b := u / (1.0 + w);
    assert b * (1.0 + w) == u;
    hide Square;
    EndpointRange(p, w, q, b);
    Expand(p, w, q);
    Contract(p, w, b, u);
  }

  lemma BoundSolvesScore(z: real, successes: int, scored: int, root: real)
    requires z > 0.0 && 0 <= successes <= scored && scored > 0
    ensures IsRoot(root, Radicand(z, successes, scored)) ==>
      IsScoreEndpoint(z, successes, scored, Bound(z, successes, scored, root))
  {
    hide Square, Radicand, IsRoot;
    if IsRoot(root, Radicand(z, successes, scored)) {
      Ingredients(z, successes, scored, root);
      QuotientSolvesScore(successes as real / scored as real, z * z / scored as real, z * root);
    }
  }

  /**
    wilson_lower, where `root` is the square root of the radicand: raises, is undefined, or solves the score
    equation.
   */
  function WilsonLower(successes: int, scored: int, root: real): (r: Result<Option<real>, CountError>)
    ensures r == Err(InvalidCounts) <==> !(0 <= successes <= scored)
    ensures r == Ok(None) <==> scored == 0 && successes == 0
    ensures r.Ok? && r.value.Some? ==> 0 <= successes <= scored && scored > 0
    ensures r.Ok? && r.value.Some? && IsRoot(root, Radicand(1.959963984540054, successes, scored)) ==>
      IsScoreEndpoint(1.959963984540054, successes, scored, r.value.value)
  {
    if scored < 0 || successes < 0 || successes > scored then Err(InvalidCounts)
    else if scored == 0 then Ok(None)
    else
      BoundSolvesScore(Z_95, successes, scored, root);
      Ok(Some(Bound(Z_95, successes, scored, root)))
  }

  lemma ExcessGrows(d: real, u: real, k: real, n: real)
    requires d >= 0.0 && u > 0.0 && n > 0.0 && d <= u * n && Square(d) >= k * u * n
    ensures Square(d + u) >= k * u * (n + 1.0)
  {
    PositiveProduct(u, n);
    NonNegative(d, u * n - d);
    assert d * (u * n - d) == d * (u * n) - Square(d);
    assert k * u * n == k * (u * n);
    ProductKeepsOrder(d, k, u * n);
    ProductKeepsOrder(d, k, u);
    NonNegative(d, u);
    assert Square(d + u) == Square(d) + 2.0 * (d * u) + u * u;
    assert k * u * (n + 1.0) == k * u * n + k * u;
  }

  /** One more pair graded the same never turns a met mark into a missed one. */
  lemma OneMoreSameKeepsMet(z: real, successes: int, scored: int, t: real)
    requires 0 <= successes <= scored && scored > 0 && 0.0 < t < 1.0
    requires Meets(z, successes, scored, t)
    ensures Meets(z, successes + 1, scored + 1, t)
  {
    var (s, n) := (successes as real, scored as real);
    assert s - t * n <= (1.0 - t) * n;
    assert (successes + 1) as real == s + 1.0 && (scored + 1) as real == n + 1.0;
    assert s + 1.0 - t * (n + 1.0) == s - t * n + (1.0 - t);
    hide Square;
    ExcessGrows(s - t * n, 1.0 - t, z * z * t, n);
  }

  lemma ExcessShrinks(d: real, e: real, k: real, n: real)
    requires d >= e >= 0.0 && k >= 0.0 && Square(e) >= k * (n + 1.0)
    ensures Square(d) >= k * n
  {
    SquareKeepsOrder(d, e);
    assert k * (n + 1.0) == k * n + k;
  }

  lemma ExceedsBy(spread: real, t: real, s: real, n: real, d: real)
    requires d == s - t * n
    ensures Exceeds(spread, t, s, n) <==> d >= 0.0 && Square(d) >= spread * n
  {
  }

  lemma MissStays(spread: real, t: real, s: real, n: real)
    requires t > 0.0 && spread >= 0.0 && !Exceeds(spread, t, s, n)
    ensures !Exceeds(spread, t, s, n + 1.0)
  {
    hide Square, Exceeds;
    var d := s - t * n;
    var e := d - t;
    assert e == s - t * (n + 1.0);
    ExceedsBy(spread, t, s, n, d);
    ExceedsBy(spread, t, s, n + 1.0, e);
    if e >= 0.0 && Square(e) >= spread * (n + 1.0) {
      ExcessShrinks(d, e, spread, n);
    }
  }

  lemma SpreadIsPositive(zz: real, t: real)
    requires zz > 0.0 && 0.0 < t < 1.0
    ensures zz * t * (1.0 - t) > 0.0
  {
    PositiveProduct(zz, t);
    PositiveProduct(zz * t, 1.0 - t);
  }

  lemma SquareIsPositive(z: real)
    requires z > 0.0
    ensures Square(z) > 0.0
  {
    SquareKeepsOrder(0.0, z);
    assert Square(0.0) == 0.0;
    hide Square;
  }

  /** One more pair graded different never turns a missed mark into a met one. */
  lemma OneMoreDifferentKeepsMissed(z: real, successes: int, scored: int, t: real)
    requires z > 0.0 && 0 <= successes <= scored && scored > 0 && 0.0 < t < 1.0
    requires !Meets(z, successes, scored, t)
    ensures !Meets(z, successes, scored + 1, t)
  {
    hide Exceeds, Square;
    SquareIsPositive(z);
    SpreadIsPositive(Square(z), t);
    MissStays(Square(z) * t * (1.0 - t), t, successes as real, scored as real);
    assert (scored + 1) as real == scored as real + 1.0;
  }

  // ---------------------------------------------------------------- the gate

  datatype Counts = Counts(same: nat, different: nat, unknown: nat)
  {
    function Scored(): nat { same + different }
  }

  datatype Verdict = MeasurementPending | Fail | Pass

  /** The root of every checked row, as the square-root function would give it. */
  ghost predicate RootsOf(rows: seq<Counts>, roots: seq<real>) {
    |roots| == |rows| && forall i :: 0 <= i < |rows| && rows[i].Scored() > 0 ==>
      IsRoot(roots[i], Radicand(Z_95, rows[i].same, rows[i].Scored()))
  }

  /** The end of evaluate: too few scored pairs, a bound below the mark, or a pass. */
  method Gate(rows: seq<Counts>, roots: seq<real>, threshold: real, minimum: nat) returns (verdict: Verdict)
    requires RootsOf(rows, roots) && 0.0 < threshold < 1.0 && minimum > 0
    ensures verdict == Pass <==>
      forall i :: 0 <= i < |rows| ==>
        && rows[i].same + rows[i].different >= minimum
        && Meets(1.959963984540054, rows[i].same, rows[i].same + rows[i].different, threshold)
    ensures verdict == MeasurementPending <==> exists i ::
      0 <= i < |rows| && rows[i].same + rows[i].different < minimum
  {
    hide Meets, Radicand, IsRoot, Bound;
    for i := 0 to |rows|
      invariant forall j :: 0 <= j < i ==> rows[j].Scored() >= minimum
    {
      if rows[i].Scored() < minimum {
        return MeasurementPending;
      }
    }
    for i := 0 to |rows|
      invariant forall j :: 0 <= j < i ==> Meets(Z_95, rows[j].same, rows[j].Scored(), threshold)
    {
      var bound := WilsonLower(rows[i].same, rows[i].Scored(), roots[i]);
      BoundMeetsMarkIff(Z_95, rows[i].same, rows[i].Scored(), roots[i], threshold);
      if bound.value.value < threshold {
        return Fail;
      }
    }
    verdict := Pass;
  }

  /**
    What the auto_merge mark of POLICY_ID demands: with the 400 scored pairs it asks for, not one may be graded
    different.
   */
  lemma AutoMergeToleratesNoErrorAtMinimum(counts: Counts)
    requires counts.same + counts.different == 400
    ensures Meets(1.959963984540054, counts.same, 400, 0.99) <==> counts.different == 0
  {
    assert counts.same as real == 400.0 - counts.different as real;
    var excess := counts.same as real - 0.99 * 400.0;
    assert excess == 4.0 - counts.different as real;
    assert 15.21 < Z_95 * Z_95 * 0.99 * (1.0 - 0.99) * 400.0 < 15.22;
    if counts.different == 0 {
      assert Square(4.0) == 16.0;
    } else if excess >= 0.0 {
      SquareKeepsOrder(3.0, excess);
      assert Square(3.0) == 9.0;
    }
  }
}
