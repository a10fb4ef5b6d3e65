/**
 * The least common multiple behind `math.lcm` in day_8/solution.py, stated
 * through Euclid's greatest common divisor on natural numbers.
 */
module LeastCommonMultiple {

  /** `d` divides `n`; only 0 is a multiple of 0. */
  predicate Divides(d: nat, n: nat) {
    if d == 0 then n == 0 else n % d == 0
  }

  /** Quotient and remainder are the only ones with `x == q * m + r` and `0 <= r < m`. */
  lemma ModUnique(x: int, m: int, q: int, r: int)
    requires m > 0 && x == q * m + r && 0 <= r < m
    ensures x % m == r && x / m == q
  {
    var q', r' := x / m, x % m;
    assert (q - q') * m == r' - r;
    if q > q' {
      MulAtLeast(q - q', m);
    } else if q < q' {
      MulAtLeast(q' - q, m);
    }
  }

  lemma MulAtLeast(a: int, m: int)
    requires a >= 1 && m > 0
    ensures a * m >= m
  {
  }

  lemma MulNat(a: nat, b: nat)
    ensures a * b >= 0
  {
  }

  lemma MulAssoc(x: int, y: int, z: int)
    ensures (x * y) * z == x * (y * z)
  {
  }

  lemma MulCancel(g: int, x: int, y: int)
    requires g > 0 && g * x == g * y
    ensures x == y
  {
    if x < y {
      MulAtLeast(y - x, g);
    } else if y < x {
      MulAtLeast(x - y, g);
    }
  }

  /** Every multiple of `d` is divisible by `d`. */
  lemma MultipleDivides(d: nat, k: nat)
    ensures Divides(d, d * k)
  {
    if d > 0 {
      ModUnique(d * k, d, k, 0);
    }
  }

  /** A number divisible by `d` is `d` times its quotient. */
  lemma DividesQuotient(d: nat, n: nat)
    requires Divides(d, n)
    ensures d > 0 ==> n == d * (n / d)
  {
  }

  /** A common divisor of `x` and `y` divides `q * x + y`. */
  lemma DividesLinear(d: nat, x: nat, y: nat, q: nat)
    requires Divides(d, x) && Divides(d, y)
    ensures Divides(d, q * x + y)
  {
    if d > 0 {
      var i, j := x / d, y / d;
      DividesQuotient(d, x);
      DividesQuotient(d, y);
      assert q * x + y == d * (q * i + j);
      MultipleDivides(d, q * i + j);
    }
  }

  /** A divisor of `x` and of `q * x + y` divides `y`. */
  lemma DividesDifference(d: nat, x: nat, y: nat, q: nat)
    requires Divides(d, x) && Divides(d, q * x + y)
    ensures Divides(d, y)
  {
    if d > 0 {
      var i, k := x / d, (q * x + y) / d;
      DividesQuotient(d, x);
      DividesQuotient(d, q * x + y);
      assert y == (k - q * i) * d + 0;
      ModUnique(y, d, k - q * i, 0);
    }
  }

  /** Divisibility is transitive. */
  lemma DividesTransitive(a: nat, b: nat, c: nat)
    requires Divides(a, b) && Divides(b, c)
    ensures Divides(a, c)
  {
    if b == 0 {
      assert c == 0;
    } else if a > 0 {
      DividesQuotient(a, b);
      DividesQuotient(b, c);
      var i, j := b / a, c / b;
      assert c == a * (i * j);
      MultipleDivides(a, i * j);
    }
  }

  /** Two numbers dividing each other are equal. */
  lemma DividesAntisymmetric(a: nat, b: nat)
    requires Divides(a, b) && Divides(b, a)
    ensures a == b
  {
    if a > 0 && b > 0 {
      DividesQuotient(a, b);
      DividesQuotient(b, a);
      var i, j := b / a, a / b;
      assert a == a * (i * j);
      assert i * j == 1;
      OneProduct(i, j);
    }
  }

  lemma OneProduct(i: int, j: int)
    requires i >= 0 && j >= 0 && i * j == 1
    ensures i == 1 && j == 1
  {
    assert i != 0 && j != 0;
    MulAtLeast(i, j);
    MulAtLeast(j, i);
  }

  /** Euclid's algorithm. */
  function Gcd(a: nat, b: nat): (g: nat)
    ensures a > 0 || b > 0 ==> g > 0
    decreases b
  {
    if b == 0 then a else Gcd(b, a % b)
  }

  /** The greatest common divisor divides both numbers. */
  lemma {:induction false} GcdDivides(a: nat, b: nat)
    ensures Divides(Gcd(a, b), a) && Divides(Gcd(a, b), b)
    decreases b
  {
    if b == 0 {
      if a > 0 {
        ModUnique(a, a, 1, 0);
      }
    } else {
      var g := Gcd(b, a % b);
      GcdDivides(b, a % b);
      assert a == (a / b) * b + a % b;
      DividesLinear(g, b, a % b, a / b);
    }
  }

  /** Every common divisor divides the greatest common divisor. */
  lemma {:induction false} GcdGreatest(a: nat, b: nat, d: nat)
    requires Divides(d, a) && Divides(d, b)
    ensures Divides(d, Gcd(a, b))
    decreases b
  {
    if b > 0 {
      assert a == (a / b) * b + a % b;
      DividesDifference(d, b, a % b, a / b);
      GcdGreatest(b, a % b, d);
    }
  }

  /** Scaling both numbers scales their greatest common divisor. */
  lemma {:induction false} GcdScale(k: nat, a: nat, b: nat)
    ensures Gcd(k * a, k * b) == k * Gcd(a, b)
    decreases b
  {
    if b > 0 && k > 0 {
      var q, r := a / b, a % b;
      assert k * a == q * (k * b) + k * r;
      assert k * r < k * b;
      ModUnique(k * a, k * b, q, k * r);
      GcdScale(k, b, r);
    } else if b > 0 {
      assert k * a == 0 && k * b == 0;
    }
  }

  /** The least common multiple: `a * b / Gcd(a, b)`, and 0 when either is 0. */
  function Lcm(a: nat, b: nat): nat {
    if a == 0 || b == 0 then 0
    else
      var q: nat := b / Gcd(a, b);
      MulNat(a, q);
      a * q
  }

  /** `Lcm(a, b)` is a multiple of both. */
  lemma LcmMultiple(a: nat, b: nat)
    ensures Divides(a, Lcm(a, b)) && Divides(b, Lcm(a, b))
  {
    if a > 0 && b > 0 {
      var g := Gcd(a, b);
      GcdDivides(a, b);
      DividesQuotient(g, a);
      DividesQuotient(g, b);
      var i, j := a / g, b / g;
      MultipleDivides(a, j);
      assert Lcm(a, b) == b * i;
      MultipleDivides(b, i);
    } else {
      MultipleDivides(a, 0);
      MultipleDivides(b, 0);
    }
  }

  /** Divided by their greatest common divisor, two positive numbers have no common factor left. */
  lemma CoprimeQuotients(a: nat, b: nat)
    requires a > 0 && b > 0
    ensures a == Gcd(a, b) * (a / Gcd(a, b)) && b == Gcd(a, b) * (b / Gcd(a, b))
    ensures Gcd(a / Gcd(a, b), b / Gcd(a, b)) == 1
  {
    var g := Gcd(a, b);
    GcdDivides(a, b);
    DividesQuotient(g, a);
    DividesQuotient(g, b);
    var i, j := a / g, b / g;
    assert g * i == a && g * j == b;
    GcdScale(g, i, j);
    assert g * Gcd(i, j) == g * 1;
    MulCancel(g, Gcd(i, j), 1);
  }

  /** A divisor of `i * s` with no factor in common with `i` divides `s`. */
  lemma CoprimeDividesFactor(i: nat, j: nat, s: nat)
    requires Gcd(i, j) == 1 && Divides(j, i * s)
    ensures Divides(j, s)
  {
    GcdScale(s, i, j);
    assert s * i == i * s;
    MultipleDivides(j, s);
    assert j * s == s * j;
    GcdGreatest(s * i, s * j, j);
  }

  /** Every common multiple of `a` and `b` is a multiple of `Lcm(a, b)`. */
  lemma LcmLeast(a: nat, b: nat, m: nat)
    requires Divides(a, m) && Divides(b, m)
    ensures Divides(Lcm(a, b), m)
  {
    if a > 0 && b > 0 {
      var g := Gcd(a, b);
      CoprimeQuotients(a, b);
      var i, j := a / g, b / g;
      DividesQuotient(a, m);
      DividesQuotient(b, m);
      var s, t := m / a, m / b;
      MulAssoc(g, i, s);
      MulAssoc(g, j, t);
      MulCancel(g, i * s, j * t);
      MultipleDivides(j, t);
      CoprimeDividesFactor(i, j, s);
      DividesQuotient(j, s);
      var u := s / j;
      MulAssoc(a, j, u);
      assert m == Lcm(a, b) * u;
      MultipleDivides(Lcm(a, b), u);
    } else {
      assert m == 0;
      MultipleDivides(Lcm(a, b), 0);
    }
  }

  /** `v` is the least common multiple of the numbers in `xs`. */
  ghost predicate IsLcm(xs: set<nat>, v: nat) {
    && (forall x | x in xs :: Divides(x, v))
    && forall m: nat :: (forall x | x in xs :: Divides(x, m)) ==> Divides(v, m)
  }

  /** There is only one least common multiple. */
  lemma IsLcmUnique(xs: set<nat>, v: nat, w: nat)
    requires IsLcm(xs, v) && IsLcm(xs, w)
    ensures v == w
  {
    assert Divides(v, w) && Divides(w, v);
    DividesAntisymmetric(v, w);
  }

  /** The least common multiple of no numbers is 1, as `math.lcm()` returns. */
  lemma LcmOfNone()
    ensures IsLcm({}, 1)
  {
    forall m: nat ensures Divides(1, m) {
      ModUnique(m, 1, m, 0);
    }
  }

  /** Folding one more number in with `Lcm` keeps the least common multiple. */
  lemma LcmInsert(xs: set<nat>, v: nat, x: nat)
    requires IsLcm(xs, v)
    ensures IsLcm(xs + {x}, Lcm(v, x))
  {
    LcmMultiple(v, x);
    forall y | y in xs + {x} ensures Divides(y, Lcm(v, x)) {
      if y in xs {
        DividesTransitive(y, v, Lcm(v, x));
      }
    }
    forall m: nat | forall y | y in xs + {x} :: Divides(y, m)
      ensures Divides(Lcm(v, x), m)
    {
      assert forall y | y in xs :: Divides(y, m);
      LcmLeast(v, x, m);
    }
  }
}
