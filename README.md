# Fraction calculator, modelled and proved in Dafny

The program is a console calculator for rational numbers. It reads two operands
typed as `5` or `3/4` (a sign is allowed), applies one of `+ - * /`, and prints
the reduced result as `n` or `n/d`. Its core, all in `main.cpp`, is as follows:

- `gcd_ll` is Euclid's loop on absolute values.
- The `Fraction` struct has a constructor that always runs `normalize`. A zero
  denominator becomes 1, the sign moves to the numerator, and both fields are
  divided by their gcd.
- The four operations `add`, `sub`, `mul` and `divf`, plus the test `isZero`.
- The text helpers `trim` and `tryParseInt`. The second is built on `std::stoll`.
- The parser `parseFraction`.
- The printing rule of `printFraction`.

The model has four modules:

- `Euclid` (`euclid.dfy`) contains the `Gcd` specification function, the facts
  about divisibility that the canonical form rests on (Euclid's lemma among
  them), and `GcdLL`, the loop of `gcd_ll`.
- `Fractions` (`fraction.dfy`) models the fraction itself:
  - `Fraction` is a value datatype, because the struct is copied by value
    everywhere.
  - `Make` is the normalizing constructor as a function.
  - `FractionObject` is a class whose constructor and `Normalize` update the
    two fields in place.
  - `Add`, `Sub`, `Mul`, `Divf` and `IsZero` are the operations.
  - The ghost `Value` gives the rational number a fraction stands for.
  - Canonical fractions are unique: two canonical fractions with the same value
    are equal. Every algebraic law (inverses, associativity, distributivity)
    follows from this and the exact `Value` of each operation.
- `IntText` (`int_text.dfy`) covers the integer text:
  - `Trim`.
  - `StoLL`, which follows the contract of `std::stoll` in base 10. It skips C
    white space, reads an optional sign and the longest run of digits, reports a
    value and the count of characters used, and fails with invalid argument or
    out of range.
  - `TryParseInt`, which gets `tryParseInt`'s early returns and out-parameter.
  - `ParseInt`, the whole-text grammar `TryParseInt` is proved to implement.
  - `IntToString`, the decimal text `std::cout` prints for an integer.
- `FractionText` (`fraction_text.dfy`) covers fraction text:
  - `ParseTerms` gives the two integers `parseFraction` reads.
  - `Parse` is the fraction it stores.
  - `ParseFraction` is the procedure itself, with its early returns.
  - `Format` is the printing rule.
  - The round trip from printing to parsing, every rejection case of the
    parser, and the scenarios the calculator is meant to reproduce.

Integers are unbounded `int`, and strings are `seq<char>`.

Two points where the code does less than the program's behaviour suggests,
and the model follows the code:

- The calculator reports a division by zero as an error (main.cpp:201-202), but `divf` itself does
  not fail: for a zero `b` it builds `Fraction(a.num * b.den, 0)`, which normalizes
  to `a.num * b.den / 1`. Only the caller's `isZero` test prevents this. The
  model keeps `Divf` total and proves this behaviour (`DivfByZero`).
- The program's prompt (main.cpp:149) asks for numbers like `5` or `3/4`. `tryParseInt` in
  fact accepts what `std::stoll` accepts followed by nothing. That includes leading vertical
  tabs and form feeds, which `trim` does not remove. `ParseInt` has this
  grammar.

## Model

| member | source | states |
|---|---|---|
| Euclid.GcdLL | main.cpp:15-25 | the loop returns `Gcd(|a|, |b|)`: non-negative, divides both absolute values, divided by every common divisor, and zero exactly when both arguments are zero |
| Euclid.GcdDivides | main.cpp:15-25 | Euclid's recursion yields a common divisor of both arguments |
| Euclid.GcdGreatest | main.cpp:15-25 | every common divisor of the arguments divides their gcd |
| Euclid.GcdZero | main.cpp:15-25 | the gcd is zero exactly when both arguments are zero, so `gcd_ll(0, 0) == 0` |
| Euclid.Abs | main.cpp:17-18 | `std::llabs`: the result is non-negative and equals `x` or `-x` |
| Fractions.TruncDiv | main.cpp:50-51 | C++ `/` truncates toward zero: the magnitude of the quotient is the quotient of the magnitudes, and the quotient is non-negative when the operands have the same sign and non-positive otherwise |
| Fractions.Make | main.cpp:31-53 | the constructor's result is canonical (positive denominator, coprime parts); a zero numerator comes with denominator 1; a nonzero denominator keeps the ratio (`num' * d == n * den'`); a zero denominator becomes 1 with the numerator unchanged |
| Fractions.FractionObject.constructor | main.cpp:31-33 | the object built from `n` and `d` (defaults 0 and 1) holds `Make(n, d)` |
| Fractions.FractionObject.Normalize | main.cpp:35-53 | after the three in-place steps the fields hold `Make` of their old values, are canonical, and keep the old ratio when the old denominator was not zero |
| Fractions.MakeCanonical | main.cpp:35-53 | re-normalizing a canonical fraction changes neither field |
| Fractions.NormalizeIdempotent | main.cpp:35-53 | normalizing the result of a normalization gives it back |
| Fractions.CanonicalUnique | main.cpp:47-52 | two canonical fractions with equal cross products are the same fraction, so the reduced form is unique |
| Fractions.ValueOfMake | main.cpp:31-53 | for a nonzero denominator the constructor keeps the rational value `n / d` |
| Fractions.Add | main.cpp:56-59 | `add` returns a canonical fraction |
| Fractions.Sub | main.cpp:61-64 | `sub` returns a canonical fraction |
| Fractions.Mul | main.cpp:66-69 | `mul` returns a canonical fraction |
| Fractions.Divf | main.cpp:75-78 | `divf` returns a canonical fraction, whatever the divisor |
| Fractions.AddValue | main.cpp:56-59 | `add` yields exactly the rational sum |
| Fractions.SubValue | main.cpp:61-64 | `sub` yields exactly the rational difference |
| Fractions.MulValue | main.cpp:66-69 | `mul` yields exactly the rational product |
| Fractions.IsZero | main.cpp:71-73 | `isZero` holds exactly when `num == 0`, which for a nonzero denominator is exactly when the value is zero |
| Fractions.DivfValue | main.cpp:75-78 | when `isZero(b)` is false, `divf` yields exactly the rational quotient |
| Fractions.DivfByZero | main.cpp:75-78 | when `isZero(b)` holds, `divf` does not fail but yields `a.num * b.den / 1` |
| Fractions.AddCommutes | main.cpp:56-59 | `add(a, b) == add(b, a)` for all fields |
| Fractions.MulCommutes | main.cpp:66-69 | `mul(a, b) == mul(b, a)` for all fields |
| Fractions.SubSelf | main.cpp:61-64 | `sub(a, a)` is `0/1` for every fraction, even one with a zero denominator |
| Fractions.AddSubInverse | main.cpp:56-64 | adding back what was subtracted returns the canonical fraction one started from |
| Fractions.MulDivfInverse | main.cpp:66-78 | dividing by a nonzero fraction undoes multiplying by it |
| Fractions.DivfMulInverse | main.cpp:66-78 | multiplying by a nonzero fraction undoes dividing by it |
| Fractions.AddAssociative | main.cpp:56-59 | `add` is associative |
| Fractions.MulAssociative | main.cpp:66-69 | `mul` is associative |
| Fractions.MulDistributes | main.cpp:56-69 | `mul` distributes over `add` |
| IntText.FindFirstNotSpace | main.cpp:82 | the position found is `npos` or a character outside `" \t\r\n"` |
| IntText.FindLastNotSpace | main.cpp:84 | the position found is `npos` or a character outside `" \t\r\n"` |
| IntText.Trim | main.cpp:80-86 | the result is the slice of the input starting at its first non-space character; it contains every character that is not white space and neither starts nor ends with white space |
| IntText.TrimKeeps | main.cpp:80-86 | a character that is not white space keeps its place in the trimmed text |
| IntText.TrimUnchanged | main.cpp:80-86 | a text without surrounding white space is its own trim |
| IntText.TrimIdempotent | main.cpp:80-86 | trimming twice is trimming once |
| IntText.StoLL | main.cpp:92 | a conversion consumes at least one and at most all characters and yields a value inside the `long long` range |
| IntText.TryParseInt | main.cpp:88-99 | the result is `true` exactly when the whole text is an integer in range (`ParseInt`), the out-parameter then holds its value, and it is untouched otherwise |
| IntText.ParseIntAlphabet | main.cpp:88-99 | an accepted text holds only white space, signs and digits, so a `/` or any other character outside white space, signs and digits makes `tryParseInt` fail |
| IntText.NatToString | main.cpp:135 | the digits printed for `n` are a non-empty digit run denoting `n`, with no leading zero |
| IntText.IntToString | main.cpp:135 | a printed integer is non-empty, holds only digits and `-`, and neither starts nor ends with white space |
| IntText.ParseIntRoundTrip | main.cpp:88-99 | every printed `long long` is read back by `tryParseInt` as the same integer |
| FractionText.FindChar | main.cpp:110 | the position found is `npos` or holds the character sought |
| FractionText.FindCharFirst | main.cpp:110 | `find` stops at the first occurrence: every position before it holds another character |
| FractionText.ParseTerms | main.cpp:101-130 | a successful read has a nonzero denominator, and an input made only of white space is rejected |
| FractionText.Parse | main.cpp:101-130 | the fraction stored is canonical and exists exactly when the terms are read; blank input is rejected |
| FractionText.ParseFraction | main.cpp:101-130 | the result is `true` exactly when `Parse` succeeds, `out` then holds `Parse`'s fraction, and `out` is left untouched on every failure path |
| FractionText.BlankFails | main.cpp:107-108 | an input that is empty once trimmed is rejected; one branch of `ParseTerms`, listed as a rejection case and proved by unfolding it |
| FractionText.WholeTerm | main.cpp:110-117 | a text without `/` that is an integer `n` reads as `n/1`; one branch of `ParseTerms`, listed as a rejection case and proved by unfolding it |
| FractionText.WholeTextFails | main.cpp:110-117 | a text without `/` that is not an integer is rejected; one branch of `ParseTerms`, listed as a rejection case and proved by unfolding it |
| FractionText.NumeratorTextFails | main.cpp:119-124 | a text before the first `/` that is not an integer makes the parse fail; one branch of `ParseTerms`, listed as a rejection case and proved by unfolding it |
| FractionText.DenominatorTextFails | main.cpp:119-125 | a text after the first `/` that is not an integer makes the parse fail; one branch of `ParseTerms`, listed as a rejection case and proved by unfolding it |
| FractionText.ParseParts | main.cpp:119-129 | integers `n` and `d` on either side of the first `/` read as `n/d`, except that a zero `d` is rejected; one branch of `ParseTerms`, listed as a rejection case and proved by unfolding it |
| FractionText.SlashFailsParseInt | main.cpp:88-99 | a `/` anywhere in a text makes `tryParseInt` fail |
| FractionText.SlashInTrimFails | main.cpp:120-125 | a `/` in a side survives `trim` and makes that side fail |
| FractionText.ParseRejectsSecondSlash | main.cpp:110-125 | an input with a second `/` is rejected |
| FractionText.Format | main.cpp:132-139 | the printed text is non-empty and contains a `/` exactly when the denominator is not 1 |
| FractionText.ParseRendered | main.cpp:119-129 | the text `n/d` of two printed integers in range reads as `Fraction(n, d)`, or is rejected when `d` is 0 |
| FractionText.ParseRenderedInt | main.cpp:110-117 | the printed integer `n` reads as `n/1` |
| FractionText.FormatParseRoundTrip | main.cpp:101-139 | what `printFraction` prints for a canonical fraction in the `long long` range, `parseFraction` reads back as the same fraction |
| FractionText.ScenarioThreeQuarters | main.cpp:101-139 | `3/4` reads as `3/4` and prints as `3/4` |
| FractionText.ScenarioSixEighths | main.cpp:101-130 | `6/8` reads as `3/4` |
| FractionText.ScenarioZeroDenominator | main.cpp:126 | `3/0` is rejected |
| FractionText.ScenarioZero | main.cpp:110-117 | `0` reads as the zero fraction `0/1` |
| FractionText.ScenarioOneHalf | main.cpp:101-130 | `1/2` reads as `1/2` |
| FractionText.ScenarioOneThird | main.cpp:101-130 | `1/3` reads as `1/3` |
| FractionText.ScenarioSevenHalves | main.cpp:101-130 | `7/2` reads as `7/2` |
| FractionText.ScenarioNegativeOperand | main.cpp:101-130 | `-2/7` reads as `-2/7`, the sign on the numerator |
| FractionText.ScenarioArithmetic | main.cpp:56-78 | `1/2 + 1/3` prints `5/6`, `1/2 - 1/2` prints `0`, `-2/7 * 7/2` prints `-1`, and `divf` by zero yields `1/1` without failing; the operands are the fractions the four operand scenarios and `ScenarioZero` read |

## Left out

- The `main` menu loop, all console input and output, and the Windows console
  code page calls (main.cpp:140-217) are interactive glue. This includes the
  `isZero` test by which `main` keeps `divf` away from a zero divisor.
  `DivfValue` assumes that test has passed, and `DivfByZero` states what
  happens without it.
- `long long` overflow of the cross products in `add`, `sub`, `mul` and
  `divf`, and `std::llabs(LLONG_MIN)`, are not modelled: integers are
  unbounded. The one place where the 64-bit range is modelled is `std::stoll`,
  which rejects numbers outside it.
- `std::stoll` is modelled by its documented base-10 contract, not by its code:
  C white space, optional sign, longest digit run, position, and its two
  exceptions. Locale-dependent white space and characters beyond ASCII are not
  modelled; the text is a sequence of characters, not of bytes.
- `printFraction` writes to `std::cout`; `Format` returns the text instead.
  The decimal rendering of an integer is the standard one and is not locale
  dependent here.
- The arithmetic operations build their results through `Make`, the function
  form of the constructor. The in-place constructor and `normalize`
  (`FractionObject`) are proved to produce the same value, but the
  operations themselves do not allocate objects.
- FractionText.FormatParseRoundTrip: it requires the numerator and denominator
  to lie in the `long long` range, because `std::stoll` rejects larger
  numbers when the text is read back.
