/** Reading a fraction from the user's text (`parseFraction`) and writing it
    back (`printFraction`). */
module FractionText {
  import opened Euclid
  import opened Fractions
  import opened IntText

  /** `s.find(c)`; `|s|` stands for `npos`. */
  function FindChar(s: string, c: char): (i: nat)
    ensures i <= |s|
    ensures i < |s| ==> s[i] == c
  {
    FindCharFrom(s, c, 0)
  }

  /** The first position at or after `i` holding `c`, or `|s|`. */
  function FindCharFrom(s: string, c: char, i: nat): (r: nat)
    requires i <= |s|
    ensures i <= r <= |s|
    ensures r < |s| ==> s[r] == c
    decreases |s| - i
  {
    if i == |s| || s[i] == c then i else FindCharFrom(s, c, i + 1)
  }

  /** `FindCharFrom` finds the first `c`: every position it steps over holds
      another character, and a position with no `c` before it from `i` on,
      holding `c` or at the end, is the one it finds. */
  lemma {:induction false} FindCharFirst(s: string, c: char, i: nat, j: nat)
    requires i <= j <= |s|
    ensures forall k :: i <= k < FindCharFrom(s, c, i) ==> s[k] != c
    ensures (j == |s| || s[j] == c) && (forall k :: i <= k < j ==> s[k] != c) ==>
      FindCharFrom(s, c, i) == j
    decreases |s| - i
  {
    if i < |s| && s[i] != c {
      if i < j {
        FindCharFirst(s, c, i + 1, j);
      } else {
        FindCharFirst(s, c, i + 1, i + 1);
      }
    }
  }

  /** The numerator and denominator `parseFraction` reads from its input,
      before the constructor reduces them, or `None` when it returns `false`. */
  function ParseTerms(input: string): (r: Option<(int, int)>)
    ensures r.Some? ==> r.value.1 != 0
    ensures (forall k :: 0 <= k < |input| ==> IsTrimSpace(input[k])) ==> r == None
  {
    var s := Trim(input);
    if s == [] then None
    else
      var slash := FindChar(s, '/');
      if slash == |s| then
        match ParseInt(s)
        case None => None
        case Some(n) => Some((n, 1))
      else
        var left, right := Trim(s[..slash]), Trim(s[slash + 1..]);
        match ParseInt(left)
        case None => None
        case Some(n) =>
          match ParseInt(right)
          case None => None
          case Some(d) => if d == 0 then None else Some((n, d))
  }

  /** What `parseFraction` stores in `out` when it returns `true`, or `None`
      when it returns `false`: the fraction built from the terms read. */
  function Parse(input: string): (r: Option<Fraction>)
    ensures r.Some? <==> ParseTerms(input).Some?
    ensures r.Some? ==> Canonical(r.value)
    ensures (forall k :: 0 <= k < |input| ==> IsTrimSpace(input[k])) ==> r == None
  {
    match ParseTerms(input)
    case None => None
    case Some((n, d)) => Some(Make(n, d))
  }

  /** `parseFraction(input, out)`: on `false`, `out` keeps its old value. */
  method ParseFraction(input: string, out0: Fraction) returns (ok: bool, out: Fraction)
    ensures ok <==> Parse(input).Some?
    ensures out == if ok then Parse(input).value else out0
  {
    var s := Trim(input);
    if s == [] {
      return false, out0;
    }
    var slashPos := FindChar(s, '/');
    if slashPos == |s| {
      var isInt, n := TryParseInt(s, 0);
      if !isInt {
        return false, out0;
      }
      return true, Make(n, 1);
    }
    var left := Trim(s[..slashPos]);
    var right := Trim(s[slashPos + 1..]);
    var okN, n := TryParseInt(left, 0);
    if !okN {
      return false, out0;
    }
    var okD, d := TryParseInt(right, 0);
    if !okD {
      return false, out0;
    }
    if d == 0 {
      return false, out0;
    }
    return true, Make(n, d);
  }

  /** The rule of `printFraction`: a denominator of 1 prints the bare
      numerator, any other prints `num/den`. */
  function Format(f: Fraction): (s: string)
    ensures s != []
    ensures (FindChar(s, '/') < |s|) <==> f.den != 1
  {
    NoSlash(IntToString(f.num));
    SlashAt(IntToString(f.num), IntToString(f.den));
    if f.den == 1 then IntToString(f.num) else IntToString(f.num) + "/" + IntToString(f.den)
  }

  lemma {:induction false} NoSlash(t: string)
    requires forall k :: 0 <= k < |t| ==> IsDigit(t[k]) || t[k] == '-'
    ensures FindChar(t, '/') == |t|
  {
    FindCharFirst(t, '/', 0, |t|);
  }

  lemma {:induction false} SlashAt(l: string, r: string)
    requires forall k :: 0 <= k < |l| ==> IsDigit(l[k]) || l[k] == '-'
    ensures FindChar(l + "/" + r, '/') == |l|
  {
    var s := l + "/" + r;
    assert s[|l|] == '/';
    assert forall k :: 0 <= k < |l| ==> s[k] == l[k];
    FindCharFirst(s, '/', 0, |l|);
  }

  /** Reading back printed integers `n` and `d` as `n/d`: the parser rejects a
      zero denominator and otherwise yields `Fraction(n, d)`. */
  lemma {:induction false} ParseRendered(n: int, d: int)
    requires LongMin <= n <= LongMax && LongMin <= d <= LongMax
    ensures Parse(IntToString(n) + "/" + IntToString(d)) == if d == 0 then None else Some(Make(n, d))
  {
    var l, r := IntToString(n), IntToString(d);
    var s := l + "/" + r;
    assert Trim(s) == s by { TrimUnchanged(s); }
    assert FindChar(s, '/') == |l| by { SlashAt(l, r); }
    assert ParseInt(Trim(s[..|l|])) == Some(n) by {
      assert s[..|l|] == l;
      TrimUnchanged(l);
      ParseIntRoundTrip(n);
    }
    assert ParseInt(Trim(s[|l| + 1..])) == Some(d) by {
      assert s[|l| + 1..] == r;
      TrimUnchanged(r);
      ParseIntRoundTrip(d);
    }
    ParseParts(s, s, |l|, n, d);
  }

  /** The parse of a trimmed text whose first `/` separates two integers. */
  lemma {:induction false} ParseParts(input: string, s: string, slash: nat, n: int, d: int)
    requires s == Trim(input) && slash == FindChar(s, '/') && slash < |s|
    requires ParseInt(Trim(s[..slash])) == Some(n) && ParseInt(Trim(s[slash + 1..])) == Some(d)
    ensures ParseTerms(input) == if d == 0 then None else Some((n, d))
  {
  }

  /** Reading back a printed integer `n` yields `Fraction(n, 1)`. */
  lemma {:induction false} ParseRenderedInt(n: int)
    requires LongMin <= n <= LongMax
    ensures Parse(IntToString(n)) == Some(Make(n, 1))
  {
    var s := IntToString(n);
    assert Trim(s) == s by { TrimUnchanged(s); }
    assert FindChar(s, '/') == |s| by { NoSlash(s); }
    assert ParseInt(s) == Some(n) by { ParseIntRoundTrip(n); }
    WholeTerm(s, s, n);
  }

  /** The parse of a trimmed text without `/` that is an integer. */
  lemma {:induction false} WholeTerm(input: string, s: string, n: int)
    requires s == Trim(input) && s != [] && FindChar(s, '/') == |s| && ParseInt(s) == Some(n)
    ensures ParseTerms(input) == Some((n, 1))
  {
  }

  /** What `printFraction` prints, `parseFraction` reads back as the same
      canonical fraction. */
  lemma {:induction false} FormatParseRoundTrip(f: Fraction)
    requires Canonical(f) && LongMin <= f.num <= LongMax && f.den <= LongMax
    ensures Parse(Format(f)) == Some(f)
  {
    MakeCanonical(f);
    if f.den == 1 {
      ParseRenderedInt(f.num);
    } else {
      ParseRendered(f.num, f.den);
    }
  }

  /** A `/` anywhere in a text makes `tryParseInt` fail on it. */
  lemma {:induction false} SlashFailsParseInt(t: string, k: nat)
    requires k < |t| && t[k] == '/'
    ensures ParseInt(t) == None
  {
    if ParseInt(t).Some? {
      ParseIntAlphabet(t);
    }
  }

  /** A second `/` makes the text after the first one fail `tryParseInt`. */
  lemma {:induction false} ParseRejectsSecondSlash(input: string, i: nat, j: nat)
    requires i < j < |Trim(input)| && Trim(input)[i] == '/' && Trim(input)[j] == '/'
    ensures Parse(input) == None
  {
    var s := Trim(input);
    var slash := FindChar(s, '/');
    assert slash < j by {
      FindCharFirst(s, '/', 0, 0);
    }
    SlashAfterFirst(s, slash, j);
    DenominatorTextFails(input, s, slash);
  }

  lemma {:induction false} SlashAfterFirst(s: string, slash: nat, j: nat)
    requires slash < j < |s| && s[j] == '/'
    ensures ParseInt(Trim(s[slash + 1..])) == None
  {
    var rest := s[slash + 1..];
    assert rest[j - slash - 1] == '/';
    SlashInTrimFails(rest, j - slash - 1);
  }

  /** A `/` in a text is still there after `trim`, and makes `tryParseInt` fail. */
  lemma {:induction false} SlashInTrimFails(t: string, p: nat)
    requires p < |t| && t[p] == '/'
    ensures ParseInt(Trim(t)) == None
  {
    TrimKeeps(t, p);
    SlashFailsParseInt(Trim(t), p - FindFirstNotSpace(t));
  }

  /** When the text after the first `/` fails `tryParseInt`, so does the parse. */
  lemma {:induction false} DenominatorTextFails(input: string, s: string, slash: nat)
    requires s == Trim(input) && slash == FindChar(s, '/') && slash < |s|
    requires ParseInt(Trim(s[slash + 1..])) == None
    ensures ParseTerms(input) == None
  {
  }

  /** When the text before the first `/` fails `tryParseInt`, so does the parse. */
  lemma {:induction false} NumeratorTextFails(input: string, s: string, slash: nat)
    requires s == Trim(input) && slash == FindChar(s, '/') && slash < |s|
    requires ParseInt(Trim(s[..slash])) == None
    ensures ParseTerms(input) == None
  {
  }

  /** Without a `/`, a trimmed text that fails `tryParseInt` fails the parse. */
  lemma {:induction false} WholeTextFails(input: string, s: string)
    requires s == Trim(input) && FindChar(s, '/') == |s| && ParseInt(s) == None
    ensures ParseTerms(input) == None
  {
  }

  /** An input that is empty once trimmed fails the parse. */
  lemma {:induction false} BlankFails(input: string)
    requires Trim(input) == []
    ensures ParseTerms(input) == None
  {
  }

  /** The scenarios the calculator is expected to reproduce: `3/4` is read
      and printed back unchanged. */
  lemma {:induction false} ScenarioThreeQuarters()
    ensures Parse("3/4") == Some(Fraction(3, 4)) && Format(Fraction(3, 4)) == "3/4"
  {
    assert Canonical(Fraction(3, 4)) by {
      assert Gcd(3, 4) == Gcd(4, 3) == Gcd(3, 1) == Gcd(1, 0) == 1;
    }
    MakeCanonical(Fraction(3, 4));
    assert "3/4" == IntToString(3) + "/" + IntToString(4);
    ParseRendered(3, 4);
  }

  /** `6/8` is read as `3/4`. */
  lemma {:induction false} ScenarioSixEighths()
    ensures Parse("6/8") == Some(Fraction(3, 4))
  {
    assert Canonical(Fraction(3, 4)) by {
      assert Gcd(3, 4) == Gcd(4, 3) == Gcd(3, 1) == Gcd(1, 0) == 1;
    }
    assert "6/8" == IntToString(6) + "/" + IntToString(8);
    ParseRendered(6, 8);
    CanonicalUnique(Make(6, 8), Fraction(3, 4));
  }

  /** `3/0` is rejected. */
  lemma {:induction false} ScenarioZeroDenominator()
    ensures Parse("3/0") == None
  {
    assert "3/0" == IntToString(3) + "/" + IntToString(0);
    ParseRendered(3, 0);
  }

  /** `0` is read as the zero fraction `0/1`. */
  lemma {:induction false} ScenarioZero()
    ensures Parse("0") == Some(Fraction(0, 1)) && IsZero(Fraction(0, 1))
  {
    assert "0" == IntToString(0);
    ParseRenderedInt(0);
  }

  /** A canonical fraction with one-digit terms, written as `n/d`, reads
      back as itself. */
  lemma {:induction false} ScenarioOperand(text: string, n: int, d: nat)
    requires -10 < n < 10 && 0 < d < 10 && Canonical(Fraction(n, d))
    requires text == (if n < 0 then "-" else "") + [DigitChar(Abs(n)), '/', DigitChar(d)]
    ensures Parse(text) == Some(Fraction(n, d))
  {
    assert IntToString(n) == (if n < 0 then "-" else "") + [DigitChar(Abs(n))];
    assert text == IntToString(n) + "/" + IntToString(d);
    MakeCanonical(Fraction(n, d));
    ParseRendered(n, d);
  }

  /** `1/2`, an operand of the arithmetic scenarios, is read as `1/2`. */
  lemma {:induction false} ScenarioOneHalf()
    ensures Parse("1/2") == Some(Fraction(1, 2))
  {
    assert Gcd(1, 2) == Gcd(2, 1) == Gcd(1, 0) == 1;
    ScenarioOperand("1/2", 1, 2);
  }

  /** `1/3` is read as `1/3`. */
  lemma {:induction false} ScenarioOneThird()
    ensures Parse("1/3") == Some(Fraction(1, 3))
  {
    assert Gcd(1, 3) == Gcd(3, 1) == Gcd(1, 0) == 1;
    ScenarioOperand("1/3", 1, 3);
  }

  /** `7/2` is read as `7/2`. */
  lemma {:induction false} ScenarioSevenHalves()
    ensures Parse("7/2") == Some(Fraction(7, 2))
  {
    assert Gcd(7, 2) == Gcd(2, 1) == Gcd(1, 0) == 1;
    ScenarioOperand("7/2", 7, 2);
  }

  /** `-2/7` is read as `-2/7`: the sign stays on the numerator. */
  lemma {:induction false} ScenarioNegativeOperand()
    ensures Parse("-2/7") == Some(Fraction(-2, 7))
  {
    assert Gcd(2, 7) == Gcd(7, 2) == Gcd(2, 1) == Gcd(1, 0) == 1;
    ScenarioOperand("-2/7", -2, 7);
  }

  /** `1/2 + 1/3` prints `5/6`, `1/2 - 1/2` prints `0` and `-2/7 * 7/2`
      prints `-1`; `divf` by the zero fraction does not fail by itself but
      yields `1/1`, which is why its caller tests `isZero` first. The
      operands are the fractions `parseFraction` reads from `1/2`, `1/3`,
      `-2/7`, `7/2` and `0` (`ScenarioOneHalf`, `ScenarioOneThird`,
      `ScenarioNegativeOperand`, `ScenarioSevenHalves`, `ScenarioZero`). */
  lemma {:induction false} ScenarioArithmetic()
    ensures Format(Add(Fraction(1, 2), Fraction(1, 3))) == "5/6"
    ensures Format(Sub(Fraction(1, 2), Fraction(1, 2))) == "0"
    ensures Format(Mul(Fraction(-2, 7), Fraction(7, 2))) == "-1"
    ensures IsZero(Fraction(0, 1)) && Divf(Fraction(1, 2), Fraction(0, 1)) == Fraction(1, 1)
  {
    DivfByZero(Fraction(1, 2), Fraction(0, 1));
    assert Canonical(Fraction(5, 6)) by {
      assert Gcd(5, 6) == Gcd(6, 5) == Gcd(5, 1) == Gcd(1, 0) == 1;
    }
    CanonicalUnique(Add(Fraction(1, 2), Fraction(1, 3)), Fraction(5, 6));
    SubSelf(Fraction(1, 2));
    assert Canonical(Fraction(-1, 1)) by {
      GcdOneRight(1);
    }
    CanonicalUnique(Mul(Fraction(-2, 7), Fraction(7, 2)), Fraction(-1, 1));
  }
}
