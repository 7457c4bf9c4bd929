/** Integer facts behind the preset sizes: Euclid's algorithm, ratios in lowest terms, square roots. */
module Numbers {

  function Max(a: int, b: int): int { if a >= b then a else b }

  function Min(a: int, b: int): int { if a <= b then a else b }

  function Gcd(a: nat, b: nat): (g: nat)
    ensures a + b > 0 ==> g > 0
    decreases b
  {
    if b == 0 then a else Gcd(b, a % b)
  }

  /** The greatest common divisor divides both arguments. */
  lemma {:induction false} GcdDivides(a: nat, b: nat) returns (p: int, q: int)
    ensures a == Gcd(a, b) * p && b == Gcd(a, b) * q
    decreases b
  {
    if b == 0 {
      p, q := 1, 0;
    } else {
      var u, v := GcdDivides(b, a % b);
      p, q := (a / b) * u + v, u;
      CombineMultiples(a / b, b, a % b, Gcd(a, b), u, v);
    }
  }

  lemma CombineMultiples(q: int, b: int, r: int, g: int, u: int, v: int)
    requires b == g * u && r == g * v
    ensures q * b + r == g * (q * u + v)
  {
    assert q * (g * u) == g * (q * u);
  }

  /** Bezout's identity. */
  lemma {:induction false} Bezout(a: nat, b: nat) returns (x: int, y: int)
    ensures a * x + b * y == Gcd(a, b)
    decreases b
  {
    if b == 0 {
      x, y := 1, 0;
    } else {
      var u, v := Bezout(b, a % b);
      x, y := v, u - (a / b) * v;
      EuclidStep(a / b, b, a % b, u, v);
    }
  }

  lemma EuclidStep(q: int, b: int, r: int, u: int, v: int)
    ensures (q * b + r) * v + b * (u - q * v) == b * u + r * v
  {
    assert (q * b) * v == b * (q * v);
  }

  lemma {:induction false} GcdSymmetric(a: nat, b: nat)
    ensures Gcd(a, b) == Gcd(b, a)
  {
    if a < b {
      DivModUnique(a, b, 0, a);
    } else if b < a {
      DivModUnique(b, a, 0, b);
    }
  }

  lemma ModScale(a: nat, b: nat, c: nat)
    requires b > 0 && c > 0
    ensures b * c > 0 && (a * c) % (b * c) == (a % b) * c
  {
    var q, r := a / b, a % b;
    assert a * c == q * (b * c) + r * c by {
      assert a == q * b + r;
      assert (q * b + r) * c == q * (b * c) + r * c;
    }
    assert 0 <= r * c < b * c by {
      assert (b - r) * c > 0;
      assert (b - r) * c == b * c - r * c;
    }
    DivModUnique(a * c, b * c, q, r * c);
  }

  lemma NonzeroMultiple(k: int, d: int)
    requires d > 0
    ensures k > 0 ==> k * d >= d
    ensures k < 0 ==> k * d <= -d
  {
    if k > 0 {
      assert (k - 1) * d >= 0;
    } else if k < 0 {
      assert (-1 - k) * d >= 0;
    }
  }

  lemma DivModUnique(n: int, d: int, q: int, r: int)
    requires 0 <= r < d && n == q * d + r
    ensures n / d == q && n % d == r
  {
    var q', r' := n / d, n % d;
    assert n == q' * d + r';
    assert (q' - q) * d == q' * d - q * d;
    NonzeroMultiple(q' - q, d);
  }

  /** Scaling both arguments scales the greatest common divisor. */
  lemma {:induction false} GcdScale(a: nat, b: nat, c: nat)
    requires c > 0
    ensures Gcd(a * c, b * c) == Gcd(a, b) * c
    decreases b
  {
    if b > 0 {
      ModScale(a, b, c);
      GcdScale(b, a % b, c);
    }
  }

  /** Lowest terms, certified by Bezout coefficients. */
  ghost predicate Coprime(w: nat, h: nat) {
    exists x: int, y: int :: w * x + h * y == 1
  }

  /** Dividing both terms by their gcd keeps the ratio and leaves it in lowest terms. */
  lemma Reduce(w: nat, h: nat)
    requires w > 0 && h > 0
    ensures var g := Gcd(w, h);
            w == g * (w / g) && h == g * (h / g) && w / g > 0 && h / g > 0 && Coprime(w / g, h / g)
  {
    var g := Gcd(w, h);
    var p, q := GcdDivides(w, h);
    DivModUnique(w, g, p, 0);
    DivModUnique(h, g, q, 0);
    var x, y := Bezout(w, h);
    PositiveFactor(g, p);
    PositiveFactor(g, q);
    BezoutOfQuotients(g, p, q, x, y);
  }

  lemma BezoutOfQuotients(g: nat, p: int, q: int, x: int, y: int)
    requires g > 0 && (g * p) * x + (g * q) * y == g
    ensures p * x + q * y == 1
  {
    assert (g * p) * x == g * (p * x);
    assert (g * q) * y == g * (q * y);
    assert g * (p * x + q * y) == g * (p * x) + g * (q * y);
    CancelFactor(g, 1, p * x + q * y);
  }

  lemma CancelFactor(g: int, a: int, b: int)
    requires g > 0 && g * a == g * b
    ensures a == b
  {
    assert g * (a - b) == 0;
  }

  /** One of the two halves of Euclid's lemma: a*h = b*w with w*x + h*y = 1 makes a a multiple of w. */
  lemma BezoutMultiple(w: int, h: int, x: int, y: int, a: int, b: int)
    requires w * x + h * y == 1 && a * h == b * w
    ensures a == w * (a * x + b * y)
  {
    calc {
      w * (a * x + b * y);
      w * (a * x) + w * (b * y);
      { assert w * (a * x) == a * (w * x); assert w * (b * y) == (b * w) * y; }
      a * (w * x) + (a * h) * y;
      { assert (a * h) * y == a * (h * y); }
      a * (w * x) + a * (h * y);
      a * (w * x + h * y);
      a;
    }
  }

  /** Euclid's lemma in the form needed here: two edges in the exact ratio w:h, in lowest terms and
      both divisible by m, are the same multiple of m*w and m*h. */
  lemma CommonMultiple(w: nat, h: nat, W: int, H: int, m: int) returns (s: int)
    requires w > 0 && h > 0 && m > 0 && Coprime(w, h)
    requires W * h == H * w && W % m == 0 && H % m == 0
    ensures W == w * m * s && H == h * m * s
  {
    var x: int, y: int :| w * x + h * y == 1;
    var a, b := W / m, H / m;
    RatioOfQuotients(w, h, m, a, b);
    s := a * x + b * y;
    BezoutMultiple(w, h, x, y, a, b);
    assert b == h * s by {
      BezoutMultiple(h, w, y, x, b, a);
      assert b * y + a * x == s;
    }
    ScaleBoth(w, m, s);
    ScaleBoth(h, m, s);
  }

  lemma RatioOfQuotients(w: int, h: int, m: int, a: int, b: int)
    requires m > 0 && (m * a) * h == (m * b) * w
    ensures a * h == b * w
  {
    assert m * (a * h) == m * (b * w);
    CancelFactor(m, a * h, b * w);
  }

  lemma ScaleBoth(w: int, m: int, s: int)
    ensures m * (w * s) == w * m * s
  {
  }

  /** The integer part of the square root. */
  function FloorSqrt(n: nat): (r: nat)
    ensures r * r <= n < (r + 1) * (r + 1)
  {
    if n == 0 then 0
    else
      var r := FloorSqrt(n - 1);
      if (r + 1) * (r + 1) <= n then r + 1 else r
  }

  lemma SquareMonotone(a: nat, b: nat)
    ensures a <= b <==> a * a <= b * b
  {
    if a <= b { assert a * a <= a * b <= b * b; } else { assert a * a > a * b >= b * b; }
  }

  lemma QuotientBound(n: nat, d: nat, k: nat)
    requires d > 0
    ensures k <= n / d <==> d * k <= n
  {
    var q, r := n / d, n % d;
    assert n == d * q + r;
    if k <= q {
      ProductOrder(d, q, d, k);
    } else {
      ProductOrder(d, k, d, q + 1);
    }
  }

  /** s is within the square root of the quotient n/q exactly when q times its square is within n. */
  lemma SqrtBound(n: nat, q: nat, s: nat)
    requires q > 0
    ensures s <= FloorSqrt(n / q) <==> q * (s * s) <= n
  {
    var root := FloorSqrt(n / q);
    QuotientBound(n, q, s * s);
    SquareMonotone(s, root);
    SquareMonotone(root + 1, s);
  }

  lemma ScaleOrder(a: int, b: int, c: int)
    requires c > 0
    ensures a <= b <==> a * c <= b * c
  {
    if a <= b { assert (b - a) * c >= 0; } else { assert (a - b) * c > 0; }
  }

  lemma ProductOrder(a: nat, b: nat, a': nat, b': nat)
    requires a' <= a && b' <= b
    ensures a' * b' <= a * b
  {
    assert a' * b' <= a * b' <= a * b;
  }

  lemma PositiveFactor(a: nat, s: int)
    requires a * s > 0
    ensures s > 0
  {
  }

  lemma PositiveProduct(a: int, b: int)
    requires a > 0 && b > 0
    ensures a * b > 0
  {
  }

  lemma ProductNonNegative(a: nat, b: nat)
    ensures a * b >= 0
  {
  }

  lemma QuotientNonNegative(n: nat, d: int)
    requires d > 0
    ensures n / d >= 0
  {
  }

  lemma CancelRatio(g: int, w: int, h: int, W: int, H: int)
    requires g > 0
    ensures W * (g * h) == H * (g * w) <==> W * h == H * w
  {
    assert W * (g * h) == g * (W * h);
    assert H * (g * w) == g * (H * w);
    if g * (W * h) == g * (H * w) { CancelFactor(g, W * h, H * w); }
  }

  /** The s-th multiple of a base size keeps its ratio and is positive and divisible by 16. */
  lemma StepMultiple(w: nat, h: nat, s: nat)
    requires w > 0 && h > 0 && s > 0
    ensures (w * 16 * s) * h == (h * 16 * s) * w
    ensures w * 16 * s > 0 && (w * 16 * s) % 16 == 0
  {
    assert (w * 16 * s) * h == ((w * h) * 16) * s;
    assert (h * 16 * s) * w == ((w * h) * 16) * s;
    PositiveProduct(w, s);
    DivModUnique(w * 16 * s, 16, w * s, 0);
  }

  /** Scaling a pair keeps its order, its aspect bound and whether it is square. */
  lemma ScalePair(w: nat, h: nat, c: nat)
    requires c > 0
    ensures Max(w * c, h * c) == Max(w, h) * c
    ensures Max(w * c, h * c) > 3 * Min(w * c, h * c) <==> Max(w, h) > 3 * Min(w, h)
    ensures w * c == h * c <==> w == h
  {
    ScaleOrder(w, h, c);
    ScaleOrder(h, w, c);
    ScaleOrder(w, 3 * h, c);
    ScaleOrder(h, 3 * w, c);
  }

  /** Lowest terms do not see a common factor. */
  lemma LowestTermsScale(w: nat, h: nat, c: nat)
    requires w > 0 && h > 0 && c > 0
    ensures w * c > 0 && h * c > 0
    ensures (w * c) / Gcd(w * c, h * c) == w / Gcd(w, h)
    ensures (h * c) / Gcd(w * c, h * c) == h / Gcd(w, h)
  {
    GcdScale(w, h, c);
    Reduce(w, h);
    PositiveProduct(w, c);
    PositiveProduct(h, c);
    var g := Gcd(w, h);
    PositiveProduct(g, c);
    QuotientOfScaled(w, g, c);
    QuotientOfScaled(h, g, c);
  }

  lemma QuotientOfScaled(w: nat, g: nat, c: nat)
    requires g > 0 && g * c > 0 && w == g * (w / g)
    ensures (w * c) / (g * c) == w / g
  {
    var p := w / g;
    assert w * c == p * (g * c) by { assert (g * p) * c == p * (g * c); }
    DivModUnique(w * c, g * c, p, 0);
  }

  /** The aspect bound carries over to any pair in the same ratio. */
  lemma RatioBound(W: int, H: int, w: int, h: int)
    requires W > 0 && H > 0 && h > 0 && h <= w <= 3 * h && W * h == H * w
    ensures H <= W <= 3 * H
  {
    assert H * h <= H * w by { assert H * (w - h) >= 0; }
    ScaleOrder(H, W, h);
    assert H * w <= (3 * H) * h by { assert H * (3 * h - w) >= 0; }
    ScaleOrder(W, 3 * H, h);
  }
}
