/** Greatest common divisors: the `gcd_ll` helper of the fraction calculator
    and the facts about divisibility that the canonical form of a fraction rests on. */
module Euclid {

  /** `std::llabs` on unbounded integers. */
  function Abs(x: int): (r: nat)
    ensures r == x || r == -x
  {
    if x < 0 then -x else x
  }

  /** `k` divides `x`; zero divides only zero. */
  predicate Divides(k: nat, x: nat) {
    if k == 0 then x == 0 else x % k == 0
  }

  /** Euclid's algorithm on naturals, the specification of `gcd_ll`. */
  function Gcd(a: nat, b: nat): nat
    decreases b
  {
    if b == 0 then a else Gcd(b, a % b)
  }

  lemma {:induction false} MulBounds(d: int, m: int)
    requires m > 0
    ensures d >= 1 ==> d * m >= m
    ensures d <= -1 ==> d * m <= -m
  {
  }

  /** The quotient and remainder of Euclidean division are unique. */
  lemma {:induction false} DivModUnique(x: int, m: int, q: int, r: int)
    requires m > 0 && 0 <= r < m && x == q * m + r
    ensures x / m == q && x % m == r
  {
    var q', r' := x / m, x % m;
    assert x == q' * m + r';
    assert (q - q') * m == r' - r;
    MulBounds(q - q', m);
  }

  lemma {:induction false} DividesIntro(k: nat, x: nat, q: int)
    requires x == k * q
    ensures Divides(k, x)
  {
    if k != 0 {
      DivModUnique(x, k, q, 0);
    }
  }

  lemma {:induction false} DividesElim(k: nat, x: nat)
    requires k > 0 && Divides(k, x)
    ensures x == k * (x / k)
  {
  }

  /** A positive multiple is at least as large as its divisor. */
  lemma {:induction false} DividesBound(k: nat, x: nat)
    requires Divides(k, x) && x > 0
    ensures 0 < k <= x
  {
    assert k != 0;
    DividesElim(k, x);
    var q := x / k;
    assert q >= 1;
    assert k * q >= k * 1;
  }

  lemma {:induction false} DividesAntisymmetric(x: nat, y: nat)
    requires Divides(x, y) && Divides(y, x)
    ensures x == y
  {
    if x > 0 && y > 0 {
      DividesBound(x, y);
      DividesBound(y, x);
    }
  }

  /** `Gcd` is zero exactly when both arguments are. */
  lemma {:induction false} GcdZero(a: nat, b: nat)
    ensures Gcd(a, b) == 0 <==> a == 0 && b == 0
    decreases b
  {
    if b != 0 {
      GcdZero(b, a % b);
    }
  }

  /** `Gcd(a, b)` is a common divisor of `a` and `b`. */
  lemma {:induction false} GcdDivides(a: nat, b: nat)
    ensures Divides(Gcd(a, b), a) && Divides(Gcd(a, b), b)
    decreases b
  {
    if b == 0 {
      DividesIntro(a, a, 1);
      DividesIntro(a, 0, 0);
    } else {
      var g := Gcd(b, a % b);
      GcdDivides(b, a % b);
      GcdZero(b, a % b);
      DividesElim(g, b);
      DividesElim(g, a % b);
      var p, r := b / g, (a % b) / g;
      assert a == b * (a / b) + a % b;
      assert a == g * (p * (a / b) + r) by {
        calc {
          a;
          b * (a / b) + a % b;
          (g * p) * (a / b) + g * r;
          g * (p * (a / b) + r);
        }
      }
      DividesIntro(g, a, p * (a / b) + r);
    }
  }

  /** Every common divisor of `a` and `b` divides `Gcd(a, b)`. */
  lemma {:induction false} GcdGreatest(a: nat, b: nat, k: nat)
    requires Divides(k, a) && Divides(k, b)
    ensures Divides(k, Gcd(a, b))
    decreases b
  {
    if b != 0 {
      DividesElim(k, a);
      DividesElim(k, b);
      var p, q := a / k, b / k;
      assert a % b == k * (p - q * (a / b)) by {
        calc {
          a % b;
          a - b * (a / b);
          k * p - (k * q) * (a / b);
          k * (p - q * (a / b));
        }
      }
      DividesIntro(k, a % b, p - q * (a / b));
      GcdGreatest(b, a % b, k);
    }
  }

  lemma {:induction false} GcdCommutes(a: nat, b: nat)
    ensures Gcd(a, b) == Gcd(b, a)
  {
    GcdDivides(a, b);
    GcdDivides(b, a);
    GcdGreatest(a, b, Gcd(b, a));
    GcdGreatest(b, a, Gcd(a, b));
    DividesAntisymmetric(Gcd(a, b), Gcd(b, a));
  }

  lemma {:induction false} GcdZeroLeft(d: nat)
    ensures Gcd(0, d) == d
  {
    if d != 0 {
      assert 0 % d == 0;
      assert Gcd(0, d) == Gcd(d, 0);
    }
  }

  lemma {:induction false} GcdOneRight(a: nat)
    ensures Gcd(a, 1) == 1
  {
    assert a % 1 == 0;
    assert Gcd(a, 1) == Gcd(1, 0);
  }

  /** Scaling both arguments by `k` scales the gcd by `k`. */
  lemma {:induction false} GcdScale(k: nat, a: nat, b: nat)
    ensures Gcd(k * a, k * b) == k * Gcd(a, b)
    decreases b
  {
    if b == 0 {
      assert k * b == 0;
    } else if k == 0 {
      assert k * a == 0 && k * b == 0;
    } else {
      assert k * b > 0;
      assert (k * a) % (k * b) == k * (a % b) by {
        assert a == (a / b) * b + a % b;
        assert k * a == (a / b) * (k * b) + k * (a % b);
        assert 0 <= k * (a % b) < k * b;
        DivModUnique(k * a, k * b, a / b, k * (a % b));
      }
      GcdScale(k, b, a % b);
    }
  }

  /** Euclid's lemma: a divisor of `b * c` that is coprime to `b` divides `c`. */
  lemma {:induction false} CoprimeDivides(a: nat, b: nat, c: nat)
    requires Gcd(a, b) == 1 && Divides(a, b * c)
    ensures Divides(a, c)
  {
    var ca: nat, cb: nat := c * a, c * b;
    assert Gcd(ca, cb) == c by {
      GcdScale(c, a, b);
    }
    assert Divides(a, ca) by {
      DividesIntro(a, ca, c);
    }
    assert Divides(a, cb) by {
      assert cb == b * c;
    }
    GcdGreatestOf(ca, cb, a, c);
  }

  lemma {:induction false} GcdGreatestOf(x: nat, y: nat, k: nat, g: nat)
    requires Gcd(x, y) == g && Divides(k, x) && Divides(k, y)
    ensures Divides(k, g)
  {
    GcdGreatest(x, y, k);
  }

  /** `gcd_ll`: Euclid's loop on the absolute values of its arguments. */
  method GcdLL(a: int, b: int) returns (r: int)
    ensures r == Gcd(Abs(a), Abs(b))
    ensures r >= 0 && Divides(r, Abs(a)) && Divides(r, Abs(b))
    ensures forall k: nat :: Divides(k, Abs(a)) && Divides(k, Abs(b)) ==> Divides(k, r)
    ensures r == 0 <==> a == 0 && b == 0
  {
    var x: int, y: int := Abs(a), Abs(b);
    while y != 0
      invariant x >= 0 && y >= 0
      invariant Gcd(x, y) == Gcd(Abs(a), Abs(b))
      decreases y
    {
      var t := x % y;
      x := y;
      y := t;
    }
    r := x;
    GcdDivides(Abs(a), Abs(b));
    GcdZero(Abs(a), Abs(b));
    forall k: nat | Divides(k, Abs(a)) && Divides(k, Abs(b))
      ensures Divides(k, r)
    {
      GcdGreatest(Abs(a), Abs(b), k);
    }
  }
}
