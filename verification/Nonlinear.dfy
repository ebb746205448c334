/** Facts about products and quotients that the solver does not find by itself. */
module Nonlinear {

  lemma Monotone(a: nat, b: nat, c: nat, d: nat)
    requires a <= c && b <= d
    ensures a * b <= c * d
  {
    assert a * b <= a * d;
    assert a * d <= c * d;
  }

  lemma Grows(q: nat, b: nat)
    requires b > 0
    ensures q <= q * b
    ensures b >= 2 && q > 0 ==> q < q * b
  {
    Monotone(q, 1, q, b);
    if b >= 2 {
      Monotone(q, 2, q, b);
    }
  }

  lemma Negations(a: int, b: int)
    ensures a * -b == -(a * b)
    ensures -a * b == -(a * b)
    ensures -a * -b == a * b
  {
  }

  /** `q` and `r` are quotient and remainder of `a` by `b`. */
  predicate Divides(a: int, b: int, q: int, r: int) {
    a == q * b + r && 0 <= r < b
  }

  lemma DivMod(a: int, b: int)
    requires b > 0
    ensures Divides(a, b, a / b, a % b)
  {
  }

  /** Quotients are unique. */
  lemma DivUnique(a: int, b: int, q: int, r: int)
    requires Divides(a, b, q, r)
    ensures a / b == q && a % b == r
  {
    DivMod(a, b);
    var d := a / b - q;
    assert d * b == (a / b) * b - q * b;
    if d >= 1 {
      Monotone(1, b, d, b);
    } else if d <= -1 {
      Negations(d, b);
      Monotone(1, b, -d, b);
    }
  }

  /** A floored quotient lies between the dividend and zero or minus one. */
  lemma FloorBounds(a: int, b: int)
    requires b > 0
    ensures a >= 0 ==> 0 <= a / b <= a
    ensures a < 0 ==> a <= a / b < 0
    ensures a > 0 && a / b == a ==> b == 1
  {
    DivMod(a, b);
    FloorAux(a, b, a / b, a % b);
  }

  lemma FloorAux(a: int, b: int, q: int, r: int)
    requires Divides(a, b, q, r)
    ensures a >= 0 ==> 0 <= q <= a
    ensures a < 0 ==> a <= q < 0
    ensures a > 0 && q == a ==> b == 1
  {
    if q >= 0 {
      Grows(q, b);
    } else {
      var k := -(q + 1);
      Grows(k, b);
      Negations(k, b);
      assert q * b == -(k * b) - b;
    }
  }

  /** Multiplying below a quotient stays below the dividend. */
  lemma ProductFits(a: nat, b: nat, limit: nat)
    requires a == 0 || b <= limit / a
    ensures a * b <= limit
  {
    if a != 0 {
      DivMod(limit, a);
      Monotone(a, b, a, limit / a);
    }
  }

  /** Multiples of the modulus do not matter. */
  lemma ModMultiple(x: int, k: int, m: int)
    requires m > 0
    ensures (x + k * m) % m == x % m
  {
    DivMod(x, m);
    assert (x / m + k) * m == x / m * m + k * m;
    DivUnique(x + k * m, m, x / m + k, x % m);
  }

  lemma ModSum(a: int, b: int, m: int)
    requires m > 0
    ensures (a % m + b % m) % m == (a + b) % m
    ensures (a % m - b % m) % m == (a - b) % m
  {
    DivMod(a, m);
    DivMod(b, m);
    Residues(a, b, m, a / m, a % m, b / m, b % m);
  }

  lemma Distribute(i: int, j: int, m: int)
    ensures (i + j) * m == i * m + j * m
    ensures (i - j) * m == i * m - j * m
  {
  }

  lemma Residues(a: int, b: int, m: int, i: int, p: int, j: int, q: int)
    requires m > 0 && a == i * m + p && b == j * m + q
    ensures (p + q) % m == (a + b) % m
    ensures (p - q) % m == (a - b) % m
  {
    Distribute(i, j, m);
    ModMultiple(p + q, i + j, m);
    ModMultiple(p - q, i - j, m);
  }

  /** Reducing the factors first does not change a product's residue. */
  lemma ModProduct(a: int, b: int, m: int)
    requires m > 0
    ensures ((a % m) * (b % m)) % m == (a * b) % m
    ensures ((a % m) * b) % m == (a * b) % m
  {
    DivMod(a, m);
    DivMod(b, m);
    var i, p, j, q := a / m, a % m, b / m, b % m;
    calc {
      a * b;
      (i * m + p) * b;
      p * b + (i * b) * m;
    }
    calc {
      p * b;
      p * (j * m + q);
      p * q + (p * j) * m;
    }
    ModMultiple(p * b, i * b, m);
    ModMultiple(p * q, p * j, m);
  }

  /** Reducing by a multiple of the modulus first does not change the residue. */
  lemma ModMod(n: int, m: int, k: int)
    requires m > 0 && k > 0
    ensures m * k > 0 && n % (m * k) % m == n % m
  {
    Grows(m, k);
    DivMod(n, m * k);
    var q, r := n / (m * k), n % (m * k);
    assert n == r + (q * k) * m;
    ModMultiple(r, q * k, m);
  }
}
