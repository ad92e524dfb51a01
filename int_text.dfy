/** Text helpers of the calculator: `trim`, `tryParseInt` over `std::stoll`,
    and the decimal rendering `std::cout` gives an integer. */
module IntText {

  datatype Option<T> = None | Some(value: T)

  /** The characters `trim` strips: `" \t\r\n"`. */
  predicate IsTrimSpace(c: char) {
    c == ' ' || c == '\t' || c == '\r' || c == '\n'
  }

  /** `s.find_first_not_of(" \t\r\n")`; `|s|` stands for `npos`. */
  function FindFirstNotSpace(s: string): (i: nat)
    ensures i <= |s|
    ensures i < |s| ==> !IsTrimSpace(s[i])
  {
    FirstNotSpaceFrom(s, 0)
  }

  /** The first position at or after `i` that is not one of `" \t\r\n"`. */
  function FirstNotSpaceFrom(s: string, i: nat): (r: nat)
    requires i <= |s|
    ensures i <= r <= |s|
    ensures r < |s| ==> !IsTrimSpace(s[r])
    decreases |s| - i
  {
    if i == |s| || !IsTrimSpace(s[i]) then i else FirstNotSpaceFrom(s, i + 1)
  }

  /** Everything `FirstNotSpaceFrom` steps over is white space. */
  lemma {:induction false} FirstNotSpaceSkips(s: string, i: nat)
    requires i <= |s|
    ensures forall k :: i <= k < FirstNotSpaceFrom(s, i) ==> IsTrimSpace(s[k])
    decreases |s| - i
  {
    if i < |s| && IsTrimSpace(s[i]) {
      FirstNotSpaceSkips(s, i + 1);
    }
  }

  /** `s.find_last_not_of(" \t\r\n")`; `-1` stands for `npos`. */
  function FindLastNotSpace(s: string): (j: int)
    ensures -1 <= j < |s|
    ensures j >= 0 ==> !IsTrimSpace(s[j])
  {
    LastNotSpaceBefore(s, |s|)
  }

  /** The last position before `j` that is not one of `" \t\r\n"`, or `-1`. */
  function LastNotSpaceBefore(s: string, j: nat): (r: int)
    requires j <= |s|
    ensures -1 <= r < j
    ensures r >= 0 ==> !IsTrimSpace(s[r])
    decreases j
  {
    if j == 0 then -1
    else if IsTrimSpace(s[j - 1]) then LastNotSpaceBefore(s, j - 1)
    else j - 1
  }

  /** Everything `LastNotSpaceBefore` steps over is white space. */
  lemma {:induction false} LastNotSpaceSkips(s: string, j: nat)
    requires j <= |s|
    ensures forall k :: LastNotSpaceBefore(s, j) < k < j ==> IsTrimSpace(s[k])
    decreases j
  {
    if j > 0 && IsTrimSpace(s[j - 1]) {
      LastNotSpaceSkips(s, j - 1);
    }
  }

  /** `trim`: the stretch of `s` from its first to its last character that is
      not one of `" \t\r\n"`, or `""` when there is none. */
  function Trim(s: string): (r: string)
    ensures FindFirstNotSpace(s) + |r| <= |s|
    ensures r == s[FindFirstNotSpace(s)..FindFirstNotSpace(s) + |r|]
    ensures forall k :: 0 <= k < |s| && !IsTrimSpace(s[k]) ==>
      FindFirstNotSpace(s) <= k < FindFirstNotSpace(s) + |r|
    ensures r != [] ==> !IsTrimSpace(r[0]) && !IsTrimSpace(r[|r| - 1])
  {
    FirstNotSpaceSkips(s, 0);
    LastNotSpaceSkips(s, |s|);
    var start := FindFirstNotSpace(s);
    if start == |s| then ""
    else
      var end := FindLastNotSpace(s);
      s[start..end + 1]
  }

  /** A text that neither starts nor ends with white space is its own trim. */
  lemma {:induction false} TrimUnchanged(s: string)
    requires s == [] || (!IsTrimSpace(s[0]) && !IsTrimSpace(s[|s| - 1]))
    ensures Trim(s) == s
  {
    if s != [] {
      assert FindFirstNotSpace(s) == 0;
      assert FindLastNotSpace(s) == |s| - 1;
    }
  }

  /** Trimming twice is trimming once. */
  lemma {:induction false} TrimIdempotent(s: string)
    ensures Trim(Trim(s)) == Trim(s)
  {
    TrimUnchanged(Trim(s));
  }

  /** A character that is not white space keeps its place in the trimmed text. */
  lemma {:induction false} TrimKeeps(s: string, p: nat)
    requires p < |s| && !IsTrimSpace(s[p])
    ensures FindFirstNotSpace(s) <= p < FindFirstNotSpace(s) + |Trim(s)|
    ensures Trim(s)[p - FindFirstNotSpace(s)] == s[p]
  {
    var f, r := FindFirstNotSpace(s), Trim(s);
    assert f <= p < f + |r|;
    assert r[p - f] == s[f..f + |r|][p - f];
  }

  /** White space as `std::stoll` skips it (C `isspace`). */
  predicate IsCSpace(c: char) {
    c == ' ' || c == '\t' || c == '\n' || c == '\U{000B}' || c == '\U{000C}' || c == '\r'
  }

  predicate IsDigit(c: char) {
    '0' <= c <= '9'
  }

  /** Every character of `s` from `lo` up to `hi` is a decimal digit. */
  predicate DigitsBetween(s: string, lo: nat, hi: nat)
    requires lo <= hi <= |s|
  {
    forall k :: lo <= k < hi ==> IsDigit(s[k])
  }

  predicate AllDigits(s: string) {
    DigitsBetween(s, 0, |s|)
  }

  function DigitValue(c: char): (v: nat)
    requires IsDigit(c)
    ensures v < 10
  {
    (c as int) - ('0' as int)
  }

  function DigitChar(v: nat): (c: char)
    requires v < 10
    ensures IsDigit(c) && DigitValue(c) == v
  {
    (('0' as int) + v) as char
  }

  /** The number the digits of `s` from `lo` up to `hi` denote. */
  function DigitsIn(s: string, lo: nat, hi: nat): nat
    requires lo <= hi <= |s| && DigitsBetween(s, lo, hi)
    decreases hi - lo
  {
    if hi == lo then 0 else DigitsIn(s, lo, hi - 1) * 10 + DigitValue(s[hi - 1])
  }

  /** The number a run of decimal digits denotes. */
  function DigitsValue(s: string): nat
    requires AllDigits(s)
  {
    DigitsIn(s, 0, |s|)
  }

  /** Equal runs of digits denote equal numbers, wherever they sit. */
  lemma {:induction false} DigitsInAgree(s: string, a: nat, t: string, b: nat, len: nat)
    requires a + len <= |s| && b + len <= |t|
    requires DigitsBetween(s, a, a + len)
    requires forall k :: a <= k < a + len ==> s[k] == t[k - a + b]
    ensures DigitsBetween(t, b, b + len)
    ensures DigitsIn(s, a, a + len) == DigitsIn(t, b, b + len)
    decreases len
  {
    forall k | b <= k < b + len
      ensures IsDigit(t[k])
    {
      var j := k - b + a;
      assert s[j] == t[k];
    }
    if len > 0 {
      DigitsInAgree(s, a, t, b, len - 1);
      var j := a + len - 1;
      assert s[j] == t[b + len - 1];
    }
  }

  /** The length of the leading run of `isspace` characters. */
  function SpaceRun(s: string): (n: nat)
    ensures n <= |s|
    ensures n < |s| ==> !IsCSpace(s[n])
  {
    SpaceRunFrom(s, 0)
  }

  /** The first position at or after `i` that is not an `isspace` character. */
  function SpaceRunFrom(s: string, i: nat): (r: nat)
    requires i <= |s|
    ensures i <= r <= |s|
    ensures r < |s| ==> !IsCSpace(s[r])
    decreases |s| - i
  {
    if i == |s| || !IsCSpace(s[i]) then i else SpaceRunFrom(s, i + 1)
  }

  /** Everything `SpaceRunFrom` steps over is white space. */
  lemma {:induction false} SpaceRunSkips(s: string, i: nat)
    requires i <= |s|
    ensures forall k :: i <= k < SpaceRunFrom(s, i) ==> IsCSpace(s[k])
    decreases |s| - i
  {
    if i < |s| && IsCSpace(s[i]) {
      SpaceRunSkips(s, i + 1);
    }
  }

  /** The end of the run of decimal digits starting at `i`. */
  function DigitEnd(s: string, i: nat): (r: nat)
    requires i <= |s|
    ensures i <= r <= |s|
    ensures DigitsBetween(s, i, r)
    ensures r < |s| ==> !IsDigit(s[r])
    decreases |s| - i
  {
    if i == |s| || !IsDigit(s[i]) then i else DigitEnd(s, i + 1)
  }

  /** The range of `long long`. */
  const LongMin: int := -0x8000_0000_0000_0000
  const LongMax: int := 0x7FFF_FFFF_FFFF_FFFF

  /** How `std::stoll` ends: by throwing `std::invalid_argument`, by throwing
      `std::out_of_range`, or with a value and the count of characters used. */
  datatype Conversion = InvalidArgument | OutOfRange | Converted(value: int, pos: nat)

  /** Where the digits start once `std::stoll` has skipped white space and an
      optional sign. */
  function DigitStart(s: string): (i: nat)
    ensures i <= |s|
  {
    var ws := SpaceRun(s);
    if ws < |s| && (s[ws] == '+' || s[ws] == '-') then ws + 1 else ws
  }

  /** The sign `std::stoll` reads is a minus. */
  predicate Negative(s: string) {
    var ws := SpaceRun(s);
    ws < |s| && s[ws] == '-'
  }

  /** `std::stoll(s, &pos)` in base 10: skips leading white space, reads an
      optional sign and the longest run of digits after it. */
  function StoLL(s: string): (c: Conversion)
    ensures c.Converted? ==> 0 < c.pos <= |s| && LongMin <= c.value <= LongMax
  {
    var start := DigitStart(s);
    var end := DigitEnd(s, start);
    if end == start then InvalidArgument
    else
      var magnitude := DigitsIn(s, start, end);
      var v: int := if Negative(s) then -(magnitude as int) else magnitude;
      if LongMin <= v <= LongMax then Converted(v, end) else OutOfRange
  }

  /** The texts `tryParseInt` accepts, as a grammar on the whole text: C white
      space, an optional sign, then one or more digits up to the end, denoting
      a value `long long` can hold. */
  function ParseInt(s: string): Option<int>
  {
    var start := DigitStart(s);
    if start == |s| || !DigitsBetween(s, start, |s|) then None
    else
      var magnitude := DigitsIn(s, start, |s|);
      var v: int := if Negative(s) then -(magnitude as int) else magnitude;
      if LongMin <= v <= LongMax then Some(v) else None
  }

  /** `tryParseInt(s, out)`: `out` is written only when the whole text converts. */
  method TryParseInt(s: string, out0: int) returns (ok: bool, out: int)
    ensures ok <==> ParseInt(s).Some?
    ensures out == if ok then ParseInt(s).value else out0
  {
    match StoLL(s)
    case InvalidArgument =>
      return false, out0;
    case OutOfRange =>
      return false, out0;
    case Converted(val, pos) =>
      if pos != |s| {
        return false, out0;
      }
      return true, val;
  }

  /** A text `tryParseInt` accepts holds nothing but white space, signs and
      digits; in particular a `/` or a trailing letter makes it fail. */
  lemma {:induction false} ParseIntAlphabet(s: string)
    requires ParseInt(s).Some?
    ensures forall k :: 0 <= k < |s| ==> IsCSpace(s[k]) || IsDigit(s[k]) || s[k] == '+' || s[k] == '-'
  {
    var ws, start := SpaceRun(s), DigitStart(s);
    SpaceRunSkips(s, 0);
    forall k | 0 <= k < |s|
      ensures IsCSpace(s[k]) || IsDigit(s[k]) || s[k] == '+' || s[k] == '-'
    {
      if k >= start {
        assert IsDigit(s[k]);
      }
    }
  }

  /** The decimal digits of `n`, as `std::cout` prints them. */
  function NatToString(n: nat): (s: string)
    ensures s != [] && AllDigits(s) && DigitsValue(s) == n
    ensures n > 0 ==> s[0] != '0'
  {
    if n < 10 then
      var s := [DigitChar(n)];
      assert DigitsIn(s, 0, 0) == 0;
      s
    else
      var t := NatToString(n / 10);
      var s := t + [DigitChar(n % 10)];
      DigitsInAgree(t, 0, s, 0, |t|);
      s
  }

  /** `std::cout << n` for a `long long`: a minus sign, if any, then the digits. */
  function IntToString(i: int): (s: string)
    ensures s != [] && !IsCSpace(s[0]) && !IsTrimSpace(s[0]) && !IsTrimSpace(s[|s| - 1])
    ensures forall k :: 0 <= k < |s| ==> IsDigit(s[k]) || s[k] == '-'
  {
    if i < 0 then "-" + NatToString(-i) else NatToString(i)
  }

  /** What is printed reads back as the same integer. */
  lemma {:induction false} ParseIntRoundTrip(i: int)
    requires LongMin <= i <= LongMax
    ensures ParseInt(IntToString(i)) == Some(i)
  {
    var s := IntToString(i);
    assert SpaceRun(s) == 0;
    if i < 0 {
      var t := NatToString(-i);
      assert DigitStart(s) == 1;
      DigitsInAgree(t, 0, s, 1, |t|);
    } else {
      assert DigitStart(s) == 0;
    }
  }
}
