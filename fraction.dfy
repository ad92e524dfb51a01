/** The `Fraction` value type of the calculator: its constructor, which always
    normalizes, and the four arithmetic operations, each of which builds its
    result through the constructor. */
module Fractions {
  import opened Euclid

  /** The C++ struct: two integer fields, copied by value everywhere. */
  datatype Fraction = Fraction(num: int, den: int)

  /** The canonical form `normalize` establishes: a positive denominator
      and no common factor left between numerator and denominator. */
  predicate Canonical(f: Fraction) {
    f.den > 0 && Gcd(Abs(f.num), f.den) == 1
  }

  /** The rational number a fraction with a nonzero denominator stands for. */
  ghost function Value(f: Fraction): real
    requires f.den != 0
  {
    f.num as real / f.den as real
  }

  /** C++ integer division, which truncates toward zero. */
  function TruncDiv(a: int, b: int): (q: int)
    requires b != 0
    ensures Abs(q) == Abs(a) / Abs(b)
    ensures (a < 0) == (b < 0) ==> q >= 0
    ensures (a < 0) != (b < 0) ==> q <= 0
  {
    var m := Abs(a) / Abs(b);
    QuotientNonnegative(Abs(a), Abs(b));
    if (a < 0) == (b < 0) then m else -m
  }

  lemma {:induction false} QuotientNonnegative(x: nat, y: nat)
    requires y > 0
    ensures x / y >= 0
  {
    MulBounds(x / y, y);
  }

  /** Truncating division by an exact positive divisor loses nothing. */
  lemma {:induction false} TruncDivExact(a: int, g: nat)
    requires g > 0 && Divides(g, Abs(a))
    ensures TruncDiv(a, g) * g == a
  {
    DividesElim(g, Abs(a));
  }

  /** The constructor `Fraction(n, d)`, which runs `normalize` on `{n, d}`:
      a zero denominator becomes 1, a negative one moves its sign to the
      numerator, and both fields are divided by their gcd. */
  function Make(n: int, d: int): (f: Fraction)
    ensures Canonical(f)
    ensures f.num == 0 ==> f.den == 1
    ensures d != 0 ==> f.num * d == n * f.den
    ensures d == 0 ==> f == Fraction(n, 1)
  {
    var d1 := if d == 0 then 1 else d;
    var n2, d2 := if d1 < 0 then -n else n, if d1 < 0 then -d1 else d1;
    var g := Gcd(Abs(n2), d2);
    MakeFacts(n, d, n2, d2, g);
    if g != 0 then Fraction(TruncDiv(n2, g), TruncDiv(d2, g)) else Fraction(n2, d2)
  }

  /** Dividing both parts by their gcd leaves coprime parts. */
  lemma {:induction false} QuotientsCoprime(x: nat, y: nat)
    requires y > 0
    ensures Gcd(x, y) > 0 && Gcd(x / Gcd(x, y), y / Gcd(x, y)) == 1
  {
    var g := Gcd(x, y);
    GcdZero(x, y);
    GcdDivides(x, y);
    QuotientNonnegative(x, g);
    QuotientNonnegative(y, g);
    var p: nat, q: nat := x / g, y / g;
    DividesElim(g, x);
    DividesElim(g, y);
    GcdScale(g, p, q);
    assert g * Gcd(p, q) == g * 1;
    MulCancel(Gcd(p, q), 1, g);
  }

  /** The third step of `normalize` on a positive denominator `d2`. */
  lemma {:induction false} ReduceFacts(n2: int, d2: int)
    requires d2 > 0
    ensures Gcd(Abs(n2), d2) > 0
    ensures var g := Gcd(Abs(n2), d2);
      TruncDiv(n2, g) * g == n2 && TruncDiv(d2, g) * g == d2 &&
      Canonical(Fraction(TruncDiv(n2, g), TruncDiv(d2, g)))
  {
    var g := Gcd(Abs(n2), d2);
    QuotientsCoprime(Abs(n2), d2);
    GcdDivides(Abs(n2), d2);
    TruncDivExact(n2, g);
    TruncDivExact(d2, g);
    var den := TruncDiv(d2, g);
    assert den > 0 by {
      MulBounds(den, g);
    }
  }

  /** What the three steps of `normalize` establish together. */
  lemma {:induction false} MakeFacts(n: int, d: int, n2: int, d2: int, g: nat)
    requires d2 > 0 && g == Gcd(Abs(n2), d2)
    requires d == 0 ==> n2 == n && d2 == 1
    requires d != 0 ==> n2 * d == n * d2
    ensures g > 0
    ensures Canonical(Fraction(TruncDiv(n2, g), TruncDiv(d2, g)))
    ensures TruncDiv(n2, g) == 0 ==> TruncDiv(d2, g) == 1
    ensures d != 0 ==> TruncDiv(n2, g) * d == n * TruncDiv(d2, g)
    ensures d == 0 ==> TruncDiv(n2, g) == n && TruncDiv(d2, g) == 1
  {
    ReduceFacts(n2, d2);
    var num, den := TruncDiv(n2, g), TruncDiv(d2, g);
    if num == 0 {
      GcdZeroLeft(den);
    }
    if d != 0 {
      RatioKept(n, d, n2, d2, num, den, g);
    } else {
      GcdOneRight(Abs(n));
      assert g == 1;
    }
  }

  /** Cancelling a common factor keeps the ratio. */
  lemma {:induction false} RatioKept(n: int, d: int, n2: int, d2: int, num: int, den: int, g: int)
    requires g != 0 && n2 * d == n * d2 && num * g == n2 && den * g == d2
    ensures num * d == n * den
  {
    assert (num * d) * g == (n * den) * g by {
      calc {
        (num * d) * g;
        (num * g) * d;
        n2 * d;
        n * d2;
        n * (den * g);
        (n * den) * g;
      }
    }
    MulCancel(num * d, n * den, g);
  }

  /** A nonzero factor cancels. */
  lemma {:induction false} MulCancel(x: int, y: int, g: int)
    requires g != 0 && x * g == y * g
    ensures x == y
  {
    assert (x - y) * g == 0;
  }

  /** The struct as an object in memory: its constructor and `normalize`
      update the two fields in place. */
  class FractionObject {
    var num: int
    var den: int

    /** The value the object currently holds. */
    function Get(): Fraction
      reads this
    {
      Fraction(num, den)
    }

    /** `Fraction(long long n = 0, long long d = 1)`: stores both fields,
        then normalizes them. */
    constructor (n: int := 0, d: int := 1)
      ensures Get() == Make(n, d)
    {
      num, den := n, d;
      new;
      Normalize();
    }

    /** `Fraction::normalize`, step by step on the two fields. */
    method Normalize()
      modifies this
      ensures Get() == Make(old(num), old(den))
      ensures Canonical(Get())
      ensures old(den) != 0 ==> num * old(den) == old(num) * den
    {
      if den == 0 {
        den := 1;
      }
      if den < 0 {
        den := -den;
        num := -num;
      }
      var g := GcdLL(num, den);
      if g != 0 {
        num := TruncDiv(num, g);
        den := TruncDiv(den, g);
      }
    }
  }

  /** Normalizing a canonical fraction changes neither field. */
  lemma {:induction false} MakeCanonical(f: Fraction)
    requires Canonical(f)
    ensures Make(f.num, f.den) == f
  {
    var m := Make(f.num, f.den);
    assert m.num * f.den == f.num * m.den;
    CanonicalUnique(m, f);
  }

  /** Normalizing twice is normalizing once. */
  lemma {:induction false} NormalizeIdempotent(n: int, d: int)
    ensures Make(Make(n, d).num, Make(n, d).den) == Make(n, d)
  {
    MakeCanonical(Make(n, d));
  }

  /** Two canonical fractions that stand for the same rational are equal. */
  lemma {:induction false} CanonicalUnique(f: Fraction, g: Fraction)
    requires Canonical(f) && Canonical(g)
    requires f.num * g.den == g.num * f.den
    ensures f == g
  {
    var p, q, r, s := Abs(f.num), f.den, Abs(g.num), g.den;
    assert p * s == r * q by {
      AbsMul(f.num, g.den);
      AbsMul(g.num, f.den);
    }
    assert Divides(q, p * s) by {
      DividesIntro(q, p * s, r);
    }
    assert Divides(s, r * q) by {
      DividesIntro(s, r * q, p);
    }
    GcdCommutes(p, q);
    GcdCommutes(r, s);
    CoprimeDivides(q, p, s);
    CoprimeDivides(s, r, q);
    DividesAntisymmetric(q, s);
    MulCancel(f.num, g.num, q);
  }

  lemma {:induction false} AbsMul(x: int, y: int)
    ensures Abs(x * y) == Abs(x) * Abs(y)
  {
    if x < 0 && y < 0 {
      assert x * y == (-x) * (-y);
    } else if x < 0 {
      assert -(x * y) == (-x) * y;
    } else if y < 0 {
      assert -(x * y) == x * (-y);
    }
  }

  /** Equal values mean equal cross products. */
  lemma {:induction false} ValueCross(f: Fraction, g: Fraction)
    requires f.den != 0 && g.den != 0
    ensures Value(f) == Value(g) <==> f.num * g.den == g.num * f.den
  {
    var a, b, c, d := f.num as real, f.den as real, g.num as real, g.den as real;
    assert (f.num * g.den) as real == a * d;
    assert (g.num * f.den) as real == c * b;
    assert a / b == c / d <==> a * d == c * b;
  }

  /** A canonical fraction is determined by its value. */
  lemma {:induction false} CanonicalByValue(f: Fraction, g: Fraction)
    requires Canonical(f) && Canonical(g) && Value(f) == Value(g)
    ensures f == g
  {
    ValueCross(f, g);
    CanonicalUnique(f, g);
  }

  /** The constructor keeps the value of `n / d` when `d` is not zero. */
  lemma {:induction false} ValueOfMake(n: int, d: int)
    requires d != 0
    ensures Value(Make(n, d)) == n as real / d as real
  {
    ValueCross(Make(n, d), Fraction(n, d));
  }

  /** `add`: a/b + c/d = (ad + cb) / bd. */
  function Add(a: Fraction, b: Fraction): (r: Fraction)
    ensures Canonical(r)
  {
    Make(a.num * b.den + b.num * a.den, a.den * b.den)
  }

  /** `sub`: a/b - c/d = (ad - cb) / bd. */
  function Sub(a: Fraction, b: Fraction): (r: Fraction)
    ensures Canonical(r)
  {
    Make(a.num * b.den - b.num * a.den, a.den * b.den)
  }

  /** `mul`: (a/b) * (c/d) = ac / bd. */
  function Mul(a: Fraction, b: Fraction): (r: Fraction)
    ensures Canonical(r)
  {
    Make(a.num * b.num, a.den * b.den)
  }

  /** `isZero`: on a fraction with a nonzero denominator, it holds exactly
      when the value is zero. */
  predicate IsZero(a: Fraction): (r: bool)
    ensures a.den != 0 ==> (r <==> Value(a) == 0.0)
  {
    if a.den != 0 then
      ValueCross(a, Fraction(0, 1));
      a.num == 0
    else
      a.num == 0
  }

  /** `divf`: (a/b) / (c/d) = ad / bc. */
  function Divf(a: Fraction, b: Fraction): (r: Fraction)
    ensures Canonical(r)
  {
    Make(a.num * b.den, a.den * b.num)
  }

  /** `add` gives the exact sum. */
  lemma {:induction false} AddValue(a: Fraction, b: Fraction)
    requires a.den != 0 && b.den != 0
    ensures Value(Add(a, b)) == Value(a) + Value(b)
  {
    ValueOfMake(a.num * b.den + b.num * a.den, a.den * b.den);
    SumValue(a.num, a.den, b.num, b.den);
  }

  /** `sub` gives the exact difference. */
  lemma {:induction false} SubValue(a: Fraction, b: Fraction)
    requires a.den != 0 && b.den != 0
    ensures Value(Sub(a, b)) == Value(a) - Value(b)
  {
    ValueOfMake(a.num * b.den - b.num * a.den, a.den * b.den);
    DifferenceValue(a.num, a.den, b.num, b.den);
  }

  /** `mul` gives the exact product. */
  lemma {:induction false} MulValue(a: Fraction, b: Fraction)
    requires a.den != 0 && b.den != 0
    ensures Value(Mul(a, b)) == Value(a) * Value(b)
  {
    ValueOfMake(a.num * b.num, a.den * b.den);
    ProductValue(a.num, a.den, b.num, b.den);
  }

  /** `divf` gives the exact quotient when the divisor is not zero. */
  lemma {:induction false} DivfValue(a: Fraction, b: Fraction)
    requires a.den != 0 && b.den != 0 && !IsZero(b)
    ensures Value(Divf(a, b)) == Value(a) / Value(b)
  {
    ValueOfMake(a.num * b.den, a.den * b.num);
    QuotientValue(a.num, a.den, b.num, b.den);
  }

  /** With a zero divisor, the zero denominator is replaced by 1. */
  lemma {:induction false} DivfByZero(a: Fraction, b: Fraction)
    requires IsZero(b)
    ensures Divf(a, b) == Fraction(a.num * b.den, 1)
  {
    assert a.den * b.num == 0;
  }

  lemma {:induction false} SumValue(x: int, p: int, y: int, q: int)
    requires p != 0 && q != 0
    ensures (x * q + y * p) as real / (p * q) as real == x as real / p as real + y as real / q as real
  {
    var X, P, Y, Q := x as real, p as real, y as real, q as real;
    assert (x * q + y * p) as real == X * Q + Y * P;
    assert (p * q) as real == P * Q;
    assert (X * Q + Y * P) / (P * Q) == X / P + Y / Q;
  }

  lemma {:induction false} DifferenceValue(x: int, p: int, y: int, q: int)
    requires p != 0 && q != 0
    ensures (x * q - y * p) as real / (p * q) as real == x as real / p as real - y as real / q as real
  {
    var X, P, Y, Q := x as real, p as real, y as real, q as real;
    assert (x * q - y * p) as real == X * Q - Y * P;
    assert (p * q) as real == P * Q;
    assert (X * Q - Y * P) / (P * Q) == X / P - Y / Q;
  }

  lemma {:induction false} ProductValue(x: int, p: int, y: int, q: int)
    requires p != 0 && q != 0
    ensures (x * y) as real / (p * q) as real == (x as real / p as real) * (y as real / q as real)
  {
    var X, P, Y, Q := x as real, p as real, y as real, q as real;
    assert (x * y) as real == X * Y;
    assert (p * q) as real == P * Q;
  }

  lemma {:induction false} QuotientValue(x: int, p: int, y: int, q: int)
    requires p != 0 && q != 0 && y != 0
    ensures (x * q) as real / (p * y) as real == (x as real / p as real) / (y as real / q as real)
  {
    var X, P, Y, Q := x as real, p as real, y as real, q as real;
    assert (x * q) as real == X * Q;
    assert (p * y) as real == P * Y;
  }

  /** `add` is commutative. */
  lemma {:induction false} AddCommutes(a: Fraction, b: Fraction)
    ensures Add(a, b) == Add(b, a)
  {
    assert a.num * b.den + b.num * a.den == b.num * a.den + a.num * b.den;
    assert a.den * b.den == b.den * a.den;
  }

  /** `mul` is commutative. */
  lemma {:induction false} MulCommutes(a: Fraction, b: Fraction)
    ensures Mul(a, b) == Mul(b, a)
  {
    assert a.num * b.num == b.num * a.num;
    assert a.den * b.den == b.den * a.den;
  }

  /** A fraction minus itself is `0/1`, whatever its fields. */
  lemma {:induction false} SubSelf(a: Fraction)
    ensures Sub(a, a) == Fraction(0, 1)
  {
    assert a.num * a.den - a.num * a.den == 0;
  }

  /** `sub` undoes `add`. */
  lemma {:induction false} AddSubInverse(a: Fraction, b: Fraction)
    requires Canonical(a) && b.den != 0
    ensures Add(Sub(a, b), b) == a
  {
    var d := Sub(a, b);
    SubValue(a, b);
    AddValue(d, b);
    SubAddChain(a, b, d, Add(d, b));
    CanonicalByValue(Add(d, b), a);
  }

  /** `divf` undoes `mul` by a nonzero fraction. */
  lemma {:induction false} MulDivfInverse(a: Fraction, b: Fraction)
    requires Canonical(a) && b.den != 0 && !IsZero(b)
    ensures Divf(Mul(a, b), b) == a
  {
    var m := Mul(a, b);
    MulValue(a, b);
    DivfValue(m, b);
    MulDivChain(a, b, m, Divf(m, b));
    CanonicalByValue(Divf(m, b), a);
  }

  /** `mul` undoes `divf` by a nonzero fraction. */
  lemma {:induction false} DivfMulInverse(a: Fraction, b: Fraction)
    requires Canonical(a) && b.den != 0 && !IsZero(b)
    ensures Mul(Divf(a, b), b) == a
  {
    var q := Divf(a, b);
    DivfValue(a, b);
    MulValue(q, b);
    DivMulChain(a, b, q, Mul(q, b));
    CanonicalByValue(Mul(q, b), a);
  }

  /** `add` is associative. */
  lemma {:induction false} AddAssociative(a: Fraction, b: Fraction, c: Fraction)
    requires a.den != 0 && b.den != 0 && c.den != 0
    ensures Add(Add(a, b), c) == Add(a, Add(b, c))
  {
    var ab, bc := Add(a, b), Add(b, c);
    AddValue(a, b);
    AddValue(ab, c);
    AddValue(b, c);
    AddValue(a, bc);
    AddAssociativeChain(a, b, c, ab, bc, Add(ab, c), Add(a, bc));
    CanonicalByValue(Add(ab, c), Add(a, bc));
  }

  /** `mul` is associative. */
  lemma {:induction false} MulAssociative(a: Fraction, b: Fraction, c: Fraction)
    requires a.den != 0 && b.den != 0 && c.den != 0
    ensures Mul(Mul(a, b), c) == Mul(a, Mul(b, c))
  {
    var ab, bc := Mul(a, b), Mul(b, c);
    MulValue(a, b);
    MulValue(ab, c);
    MulValue(b, c);
    MulValue(a, bc);
    MulAssociativeChain(a, b, c, ab, bc, Mul(ab, c), Mul(a, bc));
    CanonicalByValue(Mul(ab, c), Mul(a, bc));
  }

  /** `mul` distributes over `add`. */
  lemma {:induction false} MulDistributes(a: Fraction, b: Fraction, c: Fraction)
    requires a.den != 0 && b.den != 0 && c.den != 0
    ensures Mul(a, Add(b, c)) == Add(Mul(a, b), Mul(a, c))
  {
    var bc, ab, ac := Add(b, c), Mul(a, b), Mul(a, c);
    AddValue(b, c);
    MulValue(a, bc);
    MulValue(a, b);
    MulValue(a, c);
    AddValue(ab, ac);
    DistributesChain(a, b, c, bc, ab, ac, Mul(a, bc), Add(ab, ac));
    CanonicalByValue(Mul(a, bc), Add(ab, ac));
  }

  /* The value reasoning of the laws above, stated over arbitrary fractions so
     that the bodies of `Add`, `Sub`, `Mul` and `Divf` stay out of it. */

  lemma {:induction false} SubAddChain(a: Fraction, b: Fraction, d: Fraction, r: Fraction)
    requires a.den != 0 && b.den != 0 && d.den != 0 && r.den != 0
    requires Value(d) == Value(a) - Value(b) && Value(r) == Value(d) + Value(b)
    ensures Value(r) == Value(a)
  {
  }

  lemma {:induction false} MulDivChain(a: Fraction, b: Fraction, m: Fraction, q: Fraction)
    requires a.den != 0 && b.den != 0 && m.den != 0 && q.den != 0 && Value(b) != 0.0
    requires Value(m) == Value(a) * Value(b) && Value(q) == Value(m) / Value(b)
    ensures Value(q) == Value(a)
  {
    RealCancel(Value(a), Value(b));
  }

  lemma {:induction false} DivMulChain(a: Fraction, b: Fraction, q: Fraction, m: Fraction)
    requires a.den != 0 && b.den != 0 && q.den != 0 && m.den != 0 && Value(b) != 0.0
    requires Value(q) == Value(a) / Value(b) && Value(m) == Value(q) * Value(b)
    ensures Value(m) == Value(a)
  {
    RealCancel(Value(a), Value(b));
  }

  lemma {:induction false} AddAssociativeChain(a: Fraction, b: Fraction, c: Fraction,
                                               ab: Fraction, bc: Fraction, l: Fraction, r: Fraction)
    requires a.den != 0 && b.den != 0 && c.den != 0 && ab.den != 0 && bc.den != 0 && l.den != 0 && r.den != 0
    requires Value(ab) == Value(a) + Value(b) && Value(l) == Value(ab) + Value(c)
    requires Value(bc) == Value(b) + Value(c) && Value(r) == Value(a) + Value(bc)
    ensures Value(l) == Value(r)
  {
  }

  lemma {:induction false} MulAssociativeChain(a: Fraction, b: Fraction, c: Fraction,
                                               ab: Fraction, bc: Fraction, l: Fraction, r: Fraction)
    requires a.den != 0 && b.den != 0 && c.den != 0 && ab.den != 0 && bc.den != 0 && l.den != 0 && r.den != 0
    requires Value(ab) == Value(a) * Value(b) && Value(l) == Value(ab) * Value(c)
    requires Value(bc) == Value(b) * Value(c) && Value(r) == Value(a) * Value(bc)
    ensures Value(l) == Value(r)
  {
    RealMulAssociative(Value(a), Value(b), Value(c));
  }

  lemma {:induction false} DistributesChain(a: Fraction, b: Fraction, c: Fraction,
                                            bc: Fraction, ab: Fraction, ac: Fraction, l: Fraction, r: Fraction)
    requires a.den != 0 && b.den != 0 && c.den != 0 && bc.den != 0 && ab.den != 0 && ac.den != 0
    requires l.den != 0 && r.den != 0
    requires Value(bc) == Value(b) + Value(c) && Value(l) == Value(a) * Value(bc)
    requires Value(ab) == Value(a) * Value(b) && Value(ac) == Value(a) * Value(c)
    requires Value(r) == Value(ab) + Value(ac)
    ensures Value(l) == Value(r)
  {
    RealDistributes(Value(a), Value(b), Value(c));
  }

  /** Multiplying and dividing by the same nonzero real cancel. */
  lemma {:induction false} RealCancel(x: real, y: real)
    requires y != 0.0
    ensures (x * y) / y == x && (x / y) * y == x
  {
  }

  lemma {:induction false} RealMulAssociative(x: real, y: real, z: real)
    ensures (x * y) * z == x * (y * z)
  {
  }

  lemma {:induction false} RealDistributes(x: real, y: real, z: real)
    ensures x * (y + z) == x * y + x * z
  {
  }
}
