/** Products and quotients. */
module Arithmetic {
  lemma AtLeast(c: int, n: nat)
    requires c >= 1
    ensures c * n >= n
  {
  }

  lemma Spread(a: int, b: int, n: nat)
    requires a < b
    ensures b * n >= a * n + n
  {
    var c := b - a;
    AtLeast(c, n);
    assert b * n == a * n + c * n;
  }

  lemma Quotient(n: nat, d: nat, q: nat, r: nat)
    requires d > 0 && r < d && n == q * d + r
    ensures n / d == q && n % d == r
  {
    var p := n / d;
    assert n == p * d + n % d;
    if p < q {
      Spread(p, q, d);
    } else if q < p {
      Spread(q, p, d);
    }
  }

  /** The greatest common divisor, by Euclid's algorithm. */
  function Gcd(a: nat, b: nat): (g: nat)
    requires a > 0
    ensures g > 0
    decreases b
  {
    if b == 0 then a else Gcd(b, a % b)
  }

  /** Both numbers are multiples of it, and it is a combination of them. */
  lemma {:induction false} GcdParts(a: nat, b: nat) returns (p: nat, n: nat, u: int, w: int)
    requires a > 0
    ensures a == Gcd(a, b) * p && b == Gcd(a, b) * n && p > 0
    ensures n * u + p * w == 1
    decreases b
  {
    if b == 0 {
      p, n, u, w := 1, 0, 0, 1;
    } else {
      var p1, n1, u1, w1 := GcdParts(b, a % b);
      var q, g := a / b, Gcd(a, b);
      p, n, u, w := q * p1 + n1, p1, w1 - q * u1, u1;
      EuclidStep(a, b, q, g, p1, n1);
      BezoutStep(q, p1, n1, u1, w1);
      PositivePart(g, p);
    }
  }

  lemma PositivePart(g: nat, p: nat)
    requires g * p > 0
    ensures p > 0
  {
  }

  lemma EuclidStep(a: nat, b: nat, q: nat, g: nat, p: nat, n: nat)
    requires b > 0 && q == a / b && b == g * p && a % b == g * n
    ensures a == g * (q * p + n)
  {
    assert a == q * b + a % b;
    assert q * (g * p) == g * (q * p);
  }

  lemma BezoutStep(q: nat, p: nat, n: nat, u: int, w: int)
    requires n * u + p * w == 1
    ensures p * (w - q * u) + (q * p + n) * u == 1
  {
    assert p * (q * u) == (q * p) * u;
    assert p * (w - q * u) == p * w - p * (q * u);
    assert (q * p + n) * u == (q * p) * u + n * u;
  }

  /** With p and n as parts of a combination that is 1, some multiple of n below p leaves any given number modulo p. */
  lemma Reach(p: nat, n: nat, u: int, w: int, y: int) returns (i: nat, k: int)
    requires p > 0 && n * u + p * w == 1
    ensures i < p && n * i - p * k == y
  {
    var t := (u * y) / p;
    i := (u * y) % p;
    k := -(w * y) - n * t;
    assert u * y == p * t + i;
    Expand(p, n, u, w, y, t, i);
  }

  lemma Expand(p: nat, n: nat, u: int, w: int, y: int, t: int, i: int)
    requires n * u + p * w == 1 && u * y == p * t + i
    ensures n * i - p * (-(w * y) - n * t) == y
  {
    assert (n * u + p * w) * y == y;
    assert (n * u + p * w) * y == n * (u * y) + p * (w * y);
    assert n * (p * t + i) == n * (p * t) + n * i;
    assert n * (p * t) == p * (n * t);
    assert p * (-(w * y) - n * t) == -(p * (w * y)) - p * (n * t);
  }
}
