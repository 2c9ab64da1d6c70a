/** The parts of Go's strconv package that volume-option parsing uses, base
    10 only: ParseBool, ParseUint and ParseInt, with the values they return
    together with an error. */
module Strconv {

  datatype NumError = NoError | ErrSyntax | ErrRange

  const TwoTo32: nat := 0x1_0000_0000
  const TwoTo63: nat := 0x8000_0000_0000_0000
  const TwoTo64: nat := 0x1_0000_0000_0000_0000

  /** One past the largest unsigned value of the given bit size. */
  function Limit(bitSize: nat): nat
    requires bitSize == 32 || bitSize == 64
  {
    if bitSize == 32 then TwoTo32 else TwoTo64
  }

  predicate IsDigit(c: char)
  {
    '0' <= c <= '9'
  }

  predicate AllDigits(s: string)
  {
    forall i :: 0 <= i < |s| ==> IsDigit(s[i])
  }

  /** The value of a string of decimal digits. */
  function DigitsValue(s: string): nat
    requires AllDigits(s)
  {
    if s == [] then 0 else 10 * DigitsValue(s[..|s| - 1]) + (s[|s| - 1] as int - '0' as int)
  }

  /** The length of the run of digits that `s` starts with. */
  function DigitRun(s: string): (n: nat)
    ensures n <= |s| && AllDigits(s[..n])
    ensures n < |s| ==> !IsDigit(s[n])
  {
    if s == [] || !IsDigit(s[0]) then 0
    else
      var n := 1 + DigitRun(s[1..]);
      assert s[..n] == [s[0]] + s[1..][..n - 1];
      n
  }

  /** ParseBool: the accepted spellings of true and false; anything else is
      a syntax error reported with the value false. */
  function ParseBool(s: string): (r: (bool, NumError))
    ensures r.1 == NoError || r == (false, ErrSyntax)
    ensures r.1 == NoError <==> s in {"1", "t", "T", "TRUE", "true", "True", "0", "f", "F", "FALSE", "false", "False"}
    ensures r.0 <==> s in {"1", "t", "T", "TRUE", "true", "True"}
  {
    if s in {"1", "t", "T", "TRUE", "true", "True"} then (true, NoError)
    else if s in {"0", "f", "F", "FALSE", "false", "False"} then (false, NoError)
    else (false, ErrSyntax)
  }

  /** Go's digit loop, left to right from position `i` with the value `n`
      read so far: a non-digit is a syntax error (value 0); a digit that
      takes the value past `maxVal` is a range error (value `maxVal`),
      whatever follows it. */
  function Scan(s: string, i: nat, n: nat, maxVal: nat): (nat, NumError)
    requires i <= |s| && n <= maxVal
    decreases |s| - i
  {
    if i == |s| then (n, NoError)
    else if !IsDigit(s[i]) then (0, ErrSyntax)
    else
      var n1 := 10 * n + (s[i] as int - '0' as int);
      if n1 > maxVal then (maxVal, ErrRange) else Scan(s, i + 1, n1, maxVal)
  }

  /** ParseUint(s, 10, bitSize). */
  function ParseUint(s: string, bitSize: nat): (r: (nat, NumError))
    requires bitSize == 32 || bitSize == 64
    ensures r.0 < Limit(bitSize)
    ensures r.1 == ErrSyntax ==> r.0 == 0
    ensures r.1 == ErrRange ==> r.0 == Limit(bitSize) - 1
    ensures r.1 == ErrRange <==> DigitsValue(s[..DigitRun(s)]) >= Limit(bitSize)
    ensures r.1 == NoError <==> s != [] && AllDigits(s) && DigitsValue(s) < Limit(bitSize)
    ensures r.1 == NoError ==> r.0 == DigitsValue(s)
  {
    if s == [] then (0, ErrSyntax)
    else
      assert s[..0] == [];
      ScanMeaning(s, 0, Limit(bitSize) - 1);
      var run := DigitRun(s);
      assert run == |s| ==> s[..run] == s;
      assert run < |s| ==> !AllDigits(s);
      Scan(s, 0, 0, Limit(bitSize) - 1)
  }

  /** What the scan from position `i` returns, in terms of the run of digits
      the string starts with. */
  lemma {:induction false} ScanMeaning(s: string, i: nat, maxVal: nat)
    requires i <= DigitRun(s)
    requires DigitsValue(s[..i]) <= maxVal
    ensures var run := DigitRun(s);
      Scan(s, i, DigitsValue(s[..i]), maxVal) ==
        if DigitsValue(s[..run]) > maxVal then (maxVal, ErrRange)
        else if run < |s| then (0, ErrSyntax)
        else (DigitsValue(s), NoError)
    decreases |s| - i
  {
    var run := DigitRun(s);
    if i == |s| {
      assert s[..i] == s;
    } else if i == run {
    } else {
      assert s[..i + 1][..i] == s[..i];
      var n1 := DigitsValue(s[..i + 1]);
      if n1 > maxVal {
        DigitsValueGrows(s, i + 1, run);
      } else {
        ScanMeaning(s, i + 1, maxVal);
      }
    }
  }

  /** A longer prefix of a run of digits has a value at least as large. */
  lemma {:induction false} DigitsValueGrows(s: string, i: nat, j: nat)
    requires i <= j <= |s| && AllDigits(s[..j])
    ensures AllDigits(s[..i]) && DigitsValue(s[..i]) <= DigitsValue(s[..j])
    decreases j - i
  {
    assert s[..j][..i] == s[..i];
    if i < j {
      assert s[..j][..j - 1] == s[..j - 1];
      DigitsValueGrows(s, i, j - 1);
    }
  }

  /** `s` without the one leading sign character ParseInt accepts. */
  function Unsigned(s: string): (r: string)
    ensures s != [] && (s[0] == '+' || s[0] == '-') ==> s == [s[0]] + r
    ensures s == [] || (s[0] != '+' && s[0] != '-') ==> r == s
  {
    if s != [] && (s[0] == '+' || s[0] == '-') then s[1..] else s
  }

  /** ParseInt(s, 10, 64): an optional sign, then ParseUint's digits. A
      syntax error gives 0; a magnitude that fits gives the signed value
      (down to -2^63 for a negative one); a magnitude out of range gives
      the int64 bound on the side of the sign. */
  function ParseInt64(s: string): (r: (int, NumError))
    ensures -(TwoTo63 as int) <= r.0 < TwoTo63
    ensures r.1 == ErrSyntax <==> s == [] || ParseUint(Unsigned(s), 64).1 == ErrSyntax
    ensures r.1 == ErrSyntax ==> r.0 == 0
    ensures r.1 == NoError <==>
      && s != [] && Unsigned(s) != [] && AllDigits(Unsigned(s))
      && (DigitsValue(Unsigned(s)) < TwoTo63 || (s[0] == '-' && DigitsValue(Unsigned(s)) == TwoTo63))
    ensures r.1 == NoError ==>
      r.0 == if s[0] == '-' then -(DigitsValue(Unsigned(s)) as int) else DigitsValue(Unsigned(s))
    ensures r.1 == ErrRange ==> r.0 == if s[0] == '-' then -(TwoTo63 as int) else TwoTo63 - 1
  {
    if s == [] then (0, ErrSyntax)
    else
      var neg := s[0] == '-';
      var (un, err) := ParseUint(Unsigned(s), 64);
      if err == ErrSyntax then (0, ErrSyntax)
      else if !neg && un >= TwoTo63 then (TwoTo63 - 1, ErrRange)
      else if neg && un > TwoTo63 then (-(TwoTo63 as int), ErrRange)
      else (if neg then -(un as int) else un, NoError)
  }

  /** A decimal within the int64 range, unsigned or with either sign,
      reads back as its signed value; -2^63 included. */
  lemma ParseInt64Signed(sign: string, digits: string)
    requires sign == "" || sign == "+" || sign == "-"
    requires digits != [] && AllDigits(digits)
    requires DigitsValue(digits) < TwoTo63 || (sign == "-" && DigitsValue(digits) == TwoTo63)
    ensures ParseInt64(sign + digits) == (if sign == "-" then -(DigitsValue(digits) as int) else DigitsValue(digits), NoError)
  {
    var s := sign + digits;
    assert IsDigit(digits[0]);
    if sign == "" {
      assert s == digits;
    } else {
      assert s[0] == sign[0] && s[1..] == digits;
    }
    assert Unsigned(s) == digits;
  }
}
