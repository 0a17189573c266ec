/** strconv in base ten: printing naturals, and ParseInt with its sign, its digits and its 64-bit range. */
module Decimal {
  import opened Common

  const INT64_LIMIT: int := 0x8000_0000_0000_0000

  predicate IsDigit(c: char) {
    '0' <= c <= '9'
  }

  predicate IsDigits(s: string) {
    s != "" && forall i | 0 <= i < |s| :: IsDigit(s[i])
  }

  function DigitChar(n: nat): (c: char)
    requires n < 10
    ensures IsDigit(c) && DigitValue(c) == n
  {
    '0' + n as char
  }

  function DigitValue(c: char): (n: nat)
    requires IsDigit(c)
    ensures n < 10
  {
    (c - '0') as nat
  }

  /** What %d prints for a natural. */
  function Print(n: nat): (s: string)
    ensures IsDigits(s)
  {
    if n < 10 then [DigitChar(n)] else Print(n / 10) + [DigitChar(n % 10)]
  }

  function Value(s: string): nat
    requires forall i | 0 <= i < |s| :: IsDigit(s[i])
  {
    if s == "" then 0 else Value(s[..|s| - 1]) * 10 + DigitValue(s[|s| - 1])
  }

  lemma {:induction false} ValueOfPrint(n: nat)
    ensures Value(Print(n)) == n
  {
    if n >= 10 {
      ValueOfPrint(n / 10);
      assert Print(n)[..|Print(n)| - 1] == Print(n / 10);
    } else {
      assert Print(n)[..0] == "";
    }
  }

  /** strconv.ParseInt(s, 10, 64). */
  function ParseInt(s: string): (n: Option<int>)
    ensures n.Some? ==> -INT64_LIMIT <= n.value < INT64_LIMIT
  {
    if s == "" then None
    else
      var digits := if s[0] == '+' || s[0] == '-' then s[1..] else s;
      if !IsDigits(digits) then None
      else
        var n: int := if s[0] == '-' then 0 - Value(digits) else Value(digits);
        if -INT64_LIMIT <= n < INT64_LIMIT then Some(n) else None
  }

  lemma ParseOfPrint(n: nat)
    ensures ParseInt(Print(n)) == if n < INT64_LIMIT then Some(n) else None
  {
    ValueOfPrint(n);
    assert IsDigit(Print(n)[0]);
  }

  // ---------------------------------------------------------------- what is parsed

  predicate Zeros(s: string) {
    forall i | 0 <= i < |s| :: s[i] == '0'
  }

  /** A number in base ten: perhaps a sign, perhaps zeros, and its print. */
  predicate Numeral(s: string, n: int, sign: string, zeros: string) {
    && s == sign + (zeros + Print(if n < 0 then -n else n))
    && Zeros(zeros)
    && (if n < 0 then sign == "-" else if n > 0 then sign == "" || sign == "+" else sign in {"", "+", "-"})
  }

  lemma PrintOneDigitMore(v: nat, c: char)
    requires IsDigit(c)
    ensures Print(v * 10 + DigitValue(c)) == if v == 0 then [c] else Print(v) + [c]
  {
    var n := v * 10 + DigitValue(c);
    assert n / 10 == v && n % 10 == DigitValue(c);
    assert DigitChar(DigitValue(c)) == c;
  }

  lemma {:induction false} DigitsAreZerosAndPrint(s: string) returns (zeros: string)
    requires IsDigits(s)
    ensures Zeros(zeros) && s == zeros + Print(Value(s))
    decreases |s|
  {
    var before, c := s[..|s| - 1], s[|s| - 1];
    PrintOneDigitMore(Value(before), c);
    if before == "" {
      zeros := "";
      assert s == [c];
    } else {
      zeros := DigitsAreZerosAndPrint(before);
      assert s == before + [c];
      if Value(before) == 0 {
        zeros := zeros + "0";
      } else {
        assert zeros + Print(Value(before)) + [c] == zeros + (Print(Value(before)) + [c]);
      }
    }
  }

  lemma {:induction false} ValueAfterZeros(zeros: string, s: string)
    requires Zeros(zeros) && (s == "" || IsDigits(s))
    ensures Value(zeros + s) == Value(s)
    decreases |zeros| + |s|
  {
    if s != "" {
      assert (zeros + s)[..|zeros + s| - 1] == zeros + s[..|s| - 1];
      ValueAfterZeros(zeros, s[..|s| - 1]);
    } else if zeros != "" {
      var fewer := zeros[..|zeros| - 1];
      assert zeros + s == zeros && fewer + "" == fewer;
      ValueAfterZeros(fewer, "");
    }
  }

  /** ParseInt yields a number exactly for the 64-bit integers in base ten, in any of the forms above. */
  lemma ParseIntExactlyWhen(s: string, n: int)
    ensures ParseInt(s) == Some(n) <==> -INT64_LIMIT <= n < INT64_LIMIT && exists sign, zeros :: Numeral(s, n, sign, zeros)
  {
    if ParseInt(s) == Some(n) {
      ParsedIsNumeral(s, n);
    }
    if sign, zeros :| -INT64_LIMIT <= n < INT64_LIMIT && Numeral(s, n, sign, zeros) {
      NumeralIsParsed(s, n, sign, zeros);
    }
  }

  /** What ParseInt makes of a sign and digits. */
  lemma SignedParse(sign: string, digits: string)
    requires sign in {"", "+", "-"} && IsDigits(digits)
    ensures var n: int := if sign == "-" then 0 - Value(digits) else Value(digits);
            ParseInt(sign + digits) == if -INT64_LIMIT <= n < INT64_LIMIT then Some(n) else None
  {
    var s := sign + digits;
    assert IsDigit(digits[0]) && s[|sign|..] == digits;
    assert s[0] == if sign == "" then digits[0] else sign[0];
  }

  /** And it makes nothing of anything else. */
  lemma ParsedIsSigned(s: string) returns (sign: string, digits: string)
    requires ParseInt(s).Some?
    ensures sign in {"", "+", "-"} && IsDigits(digits) && s == sign + digits
  {
    sign := if s[0] == '+' then "+" else if s[0] == '-' then "-" else "";
    digits := s[|sign|..];
    assert s == sign + digits;
  }

  lemma ParsedIsNumeral(s: string, n: int)
    requires ParseInt(s) == Some(n)
    ensures exists sign, zeros :: Numeral(s, n, sign, zeros)
  {
    var sign, digits := ParsedIsSigned(s);
    SignedParse(sign, digits);
    var zeros := DigitsAreZerosAndPrint(digits);
    assert Numeral(s, n, sign, zeros);
  }

  lemma NumeralIsParsed(s: string, n: int, sign: string, zeros: string)
    requires -INT64_LIMIT <= n < INT64_LIMIT && Numeral(s, n, sign, zeros)
    ensures ParseInt(s) == Some(n)
  {
    var k: nat := if n < 0 then -n else n;
    ValueAfterZeros(zeros, Print(k));
    ValueOfPrint(k);
    SignedParse(sign, zeros + Print(k));
  }
}
