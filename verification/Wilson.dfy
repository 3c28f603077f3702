/** The lower end of the Wilson score interval, over the reals. */
module Wilson {
  import opened Domain

  // `q` stands for the square of `z` throughout.

  /** What the source takes the square root of. */
  function Radicand(p: real, n: real, q: real): real
    requires n > 0.0
  {
    p * (1.0 - p) / n + q / (4.0 * (n * n))
  }

  function Center(p: real, n: real, q: real): real
    requires n > 0.0 && 1.0 + q / n > 0.0
  {
    (p + q / (2.0 * n)) / (1.0 + q / n)
  }

  function Margin(n: real, z: real, q: real, root: real): real
    requires n > 0.0 && 1.0 + q / n > 0.0
  {
    z * root / (1.0 + q / n)
  }

  function Rate(successes: int, total: int): real
    requires total > 0
  {
    successes as real / total as real
  }

  /** `root` is the square root the source asks its math library for. */
  function WilsonLower(successes: int, total: int, z: real, root: real): Result<real> {
    if total <= 0 || !(0 <= successes <= total) then Err("ValueError")
    else
      var n, q := total as real, z * z;
      Quotient(n, q);
      var low := Center(Rate(successes, total), n, q) - Margin(n, z, q, root);
      Ok(if low > 0.0 then low else 0.0)
  }

  // ---------------------------------------------------------------- arithmetic

  lemma Product(a: real, b: real)
    requires a >= 0.0 && b >= 0.0
    ensures a * b >= 0.0
  {
  }

  lemma Positive(a: real, b: real)
    requires a > 0.0 && b > 0.0
    ensures a * b > 0.0
  {
  }

  lemma ProductOf(a: real, b: real) returns (product: real)
    requires a > 0.0 && b > 0.0
    ensures product == a * b && product > 0.0
  {
    product := a * b;
  }

  lemma Squared(a: real) returns (square: real)
    requires a > 0.0
    ensures square == a * a && square > 0.0
  {
    square := ProductOf(a, a);
  }

  lemma MultiplyBack(a: real, x: real)
    requires a > 0.0
    ensures a * (x / a) == x
  {
  }

  lemma Divide(a: real, x: real, y: real)
    requires a > 0.0 && a * x <= a * y
    ensures x <= y
  {
    if x > y { Positive(a, x - y); }
  }

  lemma Quotient(n: real, q: real)
    requires n > 0.0 && q >= 0.0
    ensures 1.0 + q / n >= 1.0
  {
    MultiplyBack(n, q);
    Divide(n, 0.0, q / n);
  }

  lemma SquareLe(a: real, b: real)
    requires a * a <= b * b && b >= 0.0
    ensures a <= b
  {
    assert (a - b) * (a + b) == a * a - b * b;
    if a > b { Positive(a - b, a + b); }
  }

  lemma SquareOrder(a: real, b: real)
    requires a * a <= b * b && b >= 0.0
    ensures a <= b && -a <= b
  {
    SquareLe(a, b);
    var negated := -a;
    assert negated * negated == a * a;
    SquareLe(negated, b);
  }

  lemma ZeroProduct(a: real, x: real, y: real)
    requires a > 0.0 && a * x * y == 0.0
    ensures x == 0.0 || y == 0.0
  {
    var product := x * y;
    assert a * x * y == a * product;
    if product > 0.0 {
      Positive(a, product);
    } else if product < 0.0 {
      Positive(a, -product);
    }
  }

  // ---------------------------------------------------------------- the quadratic behind the bound

  /** Zero exactly where the distance to `p` is `z` standard errors of a true rate `x`. */
  function Gap(n: real, q: real, p: real, x: real): real {
    n * (p - x) * (p - x) - q * x * (1.0 - x)
  }

  ghost predicate Width(n: real, q: real, p: real, w: real) {
    w >= 0.0 && w * w == q * (4.0 * n * p * (1.0 - p) + q)
  }

  /** `low` and `high` are the two solutions, written without division. */
  ghost predicate Solutions(n: real, q: real, p: real, w: real, low: real, high: real) {
    && 2.0 * (n + q) * low == 2.0 * n * p + q - w
    && 2.0 * (n + q) * high == 2.0 * n * p + q + w
    && Width(n, q, p, w)
  }

  /** The gap is the quadratic with these two zeros. */
  lemma GapFactors(n: real, q: real, p: real, w: real, low: real, high: real, x: real)
    requires n > 0.0 && q > 0.0 && Solutions(n, q, p, w, low, high)
    ensures Gap(n, q, p, x) == (n + q) * (x - low) * (x - high)
  {
    var a, b := n + q, 2.0 * n * p + q;
    assert a * (low + high) == b by {
      assert 2.0 * a * low + 2.0 * a * high == 2.0 * b;
      assert 2.0 * a * low + 2.0 * a * high == 2.0 * (a * (low + high));
    }
    assert a * (a * low * high) == a * (n * p * p) by {
      assert (2.0 * a * low) * (2.0 * a * high) == (b - w) * (b + w) == b * b - w * w;
      assert b * b - w * w == 4.0 * a * (n * p * p);
      assert (2.0 * a * low) * (2.0 * a * high) == 4.0 * (a * (a * low * high));
    }
    assert a * low * high == n * p * p;
    assert a * (x - low) * (x - high) == a * x * x - (a * (low + high)) * x + a * low * high;
    assert Gap(n, q, p, x) == a * x * x - b * x + n * p * p;
  }

  lemma WidthAndTilt(n: real, q: real, p: real)
    ensures q * (4.0 * n * p * (1.0 - p) + q) - (q * (1.0 - 2.0 * p)) * (q * (1.0 - 2.0 * p)) == 4.0 * (q * (n + q)) * (p * (1.0 - p))
  {
  }

  lemma WidthAndMiddle(n: real, q: real, p: real)
    ensures (2.0 * n * p + q) * (2.0 * n * p + q) - q * (4.0 * n * p * (1.0 - p) + q) == 4.0 * ((n + q) * n) * (p * p)
  {
  }

  lemma TiltWithinWidth(n: real, q: real, p: real, w: real)
    requires n > 0.0 && q > 0.0 && 0.0 <= p <= 1.0 && Width(n, q, p, w)
    ensures q * (1.0 - 2.0 * p) <= w && -(q * (1.0 - 2.0 * p)) <= w
  {
    WidthAndTilt(n, q, p);
    Product(p, 1.0 - p);
    Positive(q, n + q);
    Product(q * (n + q), p * (1.0 - p));
    SquareOrder(q * (1.0 - 2.0 * p), w);
  }

  lemma WidthWithinMiddle(n: real, q: real, p: real, w: real)
    requires n > 0.0 && q > 0.0 && 0.0 <= p <= 1.0 && Width(n, q, p, w)
    ensures w <= 2.0 * n * p + q
  {
    WidthAndMiddle(n, q, p);
    Product(p, p);
    Positive(n + q, n);
    Product((n + q) * n, p * p);
    Product(n, p);
    SquareOrder(w, 2.0 * n * p + q);
  }

  lemma Between(a: real, low: real, p: real, high: real)
    requires a > 0.0 && 0.0 <= a * low <= a * p <= a * high
    ensures 0.0 <= low <= p <= high
  {
    Divide(a, 0.0, low);
    Divide(a, low, p);
    Divide(a, p, high);
  }

  /** The solutions lie on the two sides of `p`, the lower one not below zero. */
  lemma SolutionsBracket(n: real, q: real, p: real, w: real, low: real, high: real)
    requires n > 0.0 && q > 0.0 && 0.0 <= p <= 1.0 && Solutions(n, q, p, w, low, high)
    ensures 0.0 <= low <= p <= high
  {
    TiltWithinWidth(n, q, p, w);
    WidthWithinMiddle(n, q, p, w);
    assert 2.0 * (n + q) * p == 2.0 * n * p + q - q * (1.0 - 2.0 * p);
    Between(2.0 * (n + q), low, p, high);
  }

  /** The lower solution is the least zero, and the only one up to `p` unless `p` is one itself. */
  lemma LeastSolution(n: real, q: real, p: real, w: real, low: real, high: real, x: real)
    requires n > 0.0 && q > 0.0 && Solutions(n, q, p, w, low, high) && low <= p <= high
    ensures Gap(n, q, p, low) == 0.0
    ensures Gap(n, q, p, x) == 0.0 ==> low <= x && (x <= p && Gap(n, q, p, p) != 0.0 ==> x == low)
  {
    GapFactors(n, q, p, w, low, high, low);
    GapFactors(n, q, p, w, low, high, x);
    if Gap(n, q, p, x) == 0.0 {
      ZeroProduct(n + q, x - low, x - high);
    }
  }

  // ---------------------------------------------------------------- the bound as the lower solution

  ghost predicate IsRoot(root: real, x: real) {
    root >= 0.0 && root * root == x
  }

  lemma RadicandCleared(p: real, n: real, q: real)
    requires n > 0.0
    ensures 4.0 * (n * n) * Radicand(p, n, q) == 4.0 * n * p * (1.0 - p) + q
  {
    var nn := Squared(n);
    var share := p * (1.0 - p) / n;
    MultiplyBack(n, p * (1.0 - p));
    MultiplyBack(4.0 * nn, q);
    assert 4.0 * nn * share == 4.0 * n * (n * share);
  }

  /** Twice the sample size times `z` times the root is the width between the solutions. */
  lemma WidthOfRoot(p: real, n: real, z: real, q: real, root: real)
    requires n > 0.0 && z > 0.0 && q == z * z && IsRoot(root, Radicand(p, n, q))
    ensures Width(n, q, p, 2.0 * n * z * root)
  {
    var w := 2.0 * n * z * root;
    RadicandCleared(p, n, q);
    assert w * w == q * (4.0 * (n * n) * (root * root));
    Positive(n, z);
    Product(2.0 * (n * z), root);
  }

  lemma Cancel(n: real, d: real, x: real)
    requires d > 0.0
    ensures 2.0 * (n * d) * (x / d) == 2.0 * n * x
  {
    MultiplyBack(d, x);
    assert 2.0 * (n * d) * (x / d) == 2.0 * n * (d * (x / d));
  }

  lemma CenterAndMargin(p: real, n: real, z: real, q: real, root: real)
    requires n > 0.0 && 1.0 + q / n > 0.0
    ensures 2.0 * (n + q) * Center(p, n, q) == 2.0 * n * p + q
    ensures 2.0 * (n + q) * Margin(n, z, q, root) == 2.0 * n * z * root
  {
    var d, half := 1.0 + q / n, q / (2.0 * n);
    MultiplyBack(n, q);
    MultiplyBack(2.0 * n, q);
    assert n * d == n + q;
    assert 2.0 * n * (p + half) == 2.0 * n * p + q;
    Cancel(n, d, p + half);
    Cancel(n, d, z * root);
  }

  lemma Spread(a: real, c: real, m: real)
    ensures a * (c - m) == a * c - a * m && a * (c + m) == a * c + a * m
  {
  }

  lemma SolutionsFromMargin(p: real, n: real, z: real, q: real, root: real)
    requires n > 0.0 && z > 0.0 && q == z * z && 1.0 + q / n > 0.0 && IsRoot(root, Radicand(p, n, q))
    ensures Solutions(n, q, p, 2.0 * n * z * root, Center(p, n, q) - Margin(n, z, q, root), Center(p, n, q) + Margin(n, z, q, root))
  {
    WidthOfRoot(p, n, z, q, root);
    CenterAndMargin(p, n, z, q, root);
    Spread(2.0 * (n + q), Center(p, n, q), Margin(n, z, q, root));
  }

  ghost predicate Asked(successes: int, total: int, z: real, root: real) {
    0 <= successes <= total && total > 0 && z > 0.0 && IsRoot(root, Radicand(Rate(successes, total), total as real, z * z))
  }

  lemma RateBounds(successes: int, total: int)
    requires 0 <= successes <= total && total > 0
    ensures 0.0 <= Rate(successes, total) <= 1.0 && total as real * Rate(successes, total) == successes as real
  {
    var n, p := total as real, Rate(successes, total);
    MultiplyBack(n, successes as real);
    Divide(n, 0.0, p);
    Divide(n, p, 1.0);
  }

  lemma ClampIdle(successes: int, total: int, z: real, q: real, root: real, low: real)
    requires 0 <= successes <= total && total > 0 && low >= 0.0 && q == z * z && 1.0 + q / total as real > 0.0
    requires low == Center(Rate(successes, total), total as real, q) - Margin(total as real, z, q, root)
    ensures WilsonLower(successes, total, z, root) == Ok(low)
  {
  }

  /** The returned bound is the lower solution; taking the larger of it and zero changes nothing. */
  lemma BoundIsSolution(successes: int, total: int, z: real, q: real, root: real) returns (low: real, high: real)
    requires Asked(successes, total, z, root) && q == z * z && q > 0.0
    ensures WilsonLower(successes, total, z, root) == Ok(low)
    ensures 1.0 + q / total as real >= 1.0
    ensures low == Center(Rate(successes, total), total as real, q) - Margin(total as real, z, q, root)
    ensures Solutions(total as real, q, Rate(successes, total), 2.0 * total as real * z * root, low, high)
    ensures 0.0 <= Rate(successes, total) <= 1.0 && 0.0 <= low <= Rate(successes, total) <= high
  {
    Quotient(total as real, q);
    RateBounds(successes, total);
    low, high := MarginBrackets(Rate(successes, total), total as real, z, q, root);
    ClampIdle(successes, total, z, q, root, low);
  }

  lemma MarginBrackets(p: real, n: real, z: real, q: real, root: real) returns (low: real, high: real)
    requires n > 0.0 && z > 0.0 && q == z * z && q > 0.0 && 1.0 + q / n > 0.0 && IsRoot(root, Radicand(p, n, q)) && 0.0 <= p <= 1.0
    ensures low == Center(p, n, q) - Margin(n, z, q, root) && Solutions(n, q, p, 2.0 * n * z * root, low, high)
    ensures 0.0 <= low <= p <= high
  {
    low, high := Center(p, n, q) - Margin(n, z, q, root), Center(p, n, q) + Margin(n, z, q, root);
    SolutionsFromMargin(p, n, z, q, root);
    SolutionsBracket(n, q, p, 2.0 * n * z * root, low, high);
  }

  /** The rate itself is a zero of the gap only when all trials agree. */
  lemma OnlyAtTheEnds(successes: int, total: int, q: real)
    requires 0 <= successes <= total && total > 0 && q > 0.0
    ensures Gap(total as real, q, Rate(successes, total), Rate(successes, total)) == 0.0 ==> successes == 0 || successes == total
  {
    var n, p := total as real, Rate(successes, total);
    RateBounds(successes, total);
    assert Gap(n, q, p, p) == -(q * p * (1.0 - p));
    if q * p * (1.0 - p) == 0.0 {
      ZeroProduct(q, p, 1.0 - p);
    }
  }

  lemma RootFacts(successes: int, total: int, z: real, q: real, root: real, x: real)
    requires Asked(successes, total, z, root) && q == z * z && q > 0.0
    ensures
      var n, p, bound := total as real, Rate(successes, total), WilsonLower(successes, total, z, root);
      && bound.Ok? && 0.0 <= bound.value <= p && Gap(n, q, p, bound.value) == 0.0
      && (Gap(n, q, p, x) == 0.0 ==> bound.value <= x)
      && (Gap(n, q, p, x) == 0.0 && 0.0 <= x <= p && successes < total ==> x == bound.value)
  {
    var low, high := BoundIsSolution(successes, total, z, q, root);
    LeastSolution(total as real, q, Rate(successes, total), 2.0 * total as real * z * root, low, high, x);
    OnlyAtTheEnds(successes, total, q);
    RateBounds(successes, total);
  }

  /** The bound is the point at most `p` whose distance to `p` is `z` standard errors at that point,
      and the only one while some trials failed; it never exceeds another such point. */
  lemma WilsonIsRoot(successes: int, total: int, z: real, root: real, x: real)
    requires Asked(successes, total, z, root)
    ensures
      var n, p, bound := total as real, Rate(successes, total), WilsonLower(successes, total, z, root);
      && bound.Ok? && 0.0 <= bound.value <= p && Gap(n, z * z, p, bound.value) == 0.0
      && (Gap(n, z * z, p, x) == 0.0 ==> bound.value <= x)
      && (Gap(n, z * z, p, x) == 0.0 && 0.0 <= x <= p && successes < total ==> x == bound.value)
  {
    var q := Squared(z);
    RootFacts(successes, total, z, q, root, x);
  }

  // ---------------------------------------------------------------- comparing two counts

  /** Left of both solutions the gap is positive, and moving the rate up raises it. */
  lemma GapRises(n: real, q: real, p: real, rate: real, x: real)
    requires n > 0.0 && x <= p < rate
    ensures Gap(n, q, p, x) < Gap(n, q, rate, x)
  {
    var apart, reach := rate - p, rate - x + (p - x);
    Positive(apart, reach);
    var rise := apart * reach;
    Positive(n, rise);
    assert Gap(n, q, rate, x) - Gap(n, q, p, x) == n * rise;
  }

  lemma GapLeftOfSolutions(n: real, q: real, p: real, w: real, low: real, high: real, x: real)
    requires n > 0.0 && q > 0.0 && Solutions(n, q, p, w, low, high) && x <= low <= high
    ensures Gap(n, q, p, x) >= 0.0
  {
    GapFactors(n, q, p, w, low, high, x);
    Product(low - x, high - x);
    Product(n + q, (low - x) * (high - x));
    assert (n + q) * (x - low) * (x - high) == (n + q) * ((low - x) * (high - x));
  }

  lemma RateRises(a: int, b: int, total: int)
    requires 0 <= a < b <= total && total > 0
    ensures Rate(a, total) < Rate(b, total)
  {
    RateBounds(a, total);
    RateBounds(b, total);
    if Rate(a, total) >= Rate(b, total) {
      Product(total as real, Rate(a, total) - Rate(b, total));
    }
  }

  lemma LowRises(n: real, q: real, p: real, w: real, low: real, high: real, rate: real, x: real)
    requires n > 0.0 && q > 0.0 && Solutions(n, q, p, w, low, high) && low <= p <= high && p < rate
    requires Gap(n, q, rate, x) == 0.0
    ensures low < x
  {
    if x <= low {
      GapRises(n, q, p, rate, x);
      GapLeftOfSolutions(n, q, p, w, low, high, x);
    }
  }

  lemma BoundRises(a: int, b: int, total: int, z: real, q: real, rootA: real, rootB: real)
    requires a < b && Asked(a, total, z, rootA) && Asked(b, total, z, rootB) && q == z * z && q > 0.0
    ensures WilsonLower(a, total, z, rootA).Ok? && WilsonLower(b, total, z, rootB).Ok?
    ensures WilsonLower(a, total, z, rootA).value < WilsonLower(b, total, z, rootB).value
  {
    var low, high := BoundIsSolution(a, total, z, q, rootA);
    RootFacts(b, total, z, q, rootB, 0.0);
    RateRises(a, b, total);
    LowRises(total as real, q, Rate(a, total), 2.0 * total as real * z * rootA, low, high,
             Rate(b, total), WilsonLower(b, total, z, rootB).value);
  }

  /** One more success always raises the bound. */
  lemma WilsonRises(a: int, b: int, total: int, z: real, rootA: real, rootB: real)
    requires a < b && Asked(a, total, z, rootA) && Asked(b, total, z, rootB)
    ensures WilsonLower(a, total, z, rootA).Ok? && WilsonLower(b, total, z, rootB).Ok?
    ensures WilsonLower(a, total, z, rootA).value < WilsonLower(b, total, z, rootB).value
  {
    var q := Squared(z);
    BoundRises(a, b, total, z, q, rootA, rootB);
  }

  // ---------------------------------------------------------------- the two ends

  lemma RootsOfEnds(n: real, q: real, x: real)
    requires n > 0.0 && q > 0.0
    ensures Gap(n, q, 1.0, n / (n + q)) == 0.0 && n / (n + q) < 1.0
    ensures Gap(n, q, 1.0, x) == 0.0 && x != 1.0 ==> x == n / (n + q)
  {
    var y := n / (n + q);
    MultiplyBack(n + q, n);
    assert Gap(n, q, 1.0, y) == (1.0 - y) * (n - (n + q) * y);
    if y >= 1.0 { Product(n + q, y - 1.0); }
    assert Gap(n, q, 1.0, x) == (1.0 - x) * (n - (n + q) * x);
    if Gap(n, q, 1.0, x) == 0.0 && x != 1.0 {
      ZeroProduct(1.0, 1.0 - x, n - (n + q) * x);
      Divide(n + q, x, y);
      Divide(n + q, y, x);
    }
  }

  lemma AllSucceeded(total: int, z: real, q: real, root: real)
    requires Asked(total, total, z, root) && q == z * z && q > 0.0
    ensures WilsonLower(total, total, z, root) == Ok(total as real / (total as real + q))
  {
    var n := total as real;
    MultiplyBack(n, n);
    RateBounds(total, total);
    Divide(n, 1.0, Rate(total, total));
    RootsOfEnds(n, q, WilsonLower(total, total, z, root).value);
    RootFacts(total, total, z, q, root, n / (n + q));
  }

  lemma NoneSucceeded(total: int, z: real, q: real, root: real)
    requires Asked(0, total, z, root) && q == z * z && q > 0.0
    ensures WilsonLower(0, total, z, root) == Ok(0.0)
  {
    RateBounds(0, total);
    RootFacts(0, total, z, q, root, 0.0);
  }

  /** With no failure the bound is total / (total + z squared); with no success it is zero. */
  lemma WilsonAtTheEnds(total: int, z: real, root: real)
    ensures Asked(total, total, z, root) ==>
      total as real + z * z > 0.0 && WilsonLower(total, total, z, root) == Ok(total as real / (total as real + z * z))
    ensures Asked(0, total, z, root) ==> WilsonLower(0, total, z, root) == Ok(0.0)
  {
    if Asked(total, total, z, root) {
      var q := Squared(z);
      AllSucceeded(total, z, q, root);
    }
    if Asked(0, total, z, root) {
      var q := Squared(z);
      NoneSucceeded(total, z, q, root);
    }
  }
}
