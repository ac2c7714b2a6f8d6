/**
 * Go's `strconv.Atoi` on a 64-bit platform: an optional sign, then decimal
 * digits; ParseUint's digit loop rejects a non-digit with a syntax error and
 * reports a range error as soon as the accumulated value would pass
 * 2^64 - 1; ParseInt then rejects a magnitude outside the int64 range.
 * (Atoi's fast path for short strings computes the same results.)
 */
module Strconv {
  import opened Wrappers

  datatype NumError = ErrSyntax | ErrRange

  const MaxUint64: int := 0xFFFF_FFFF_FFFF_FFFF
  const MaxInt64: int := 0x7FFF_FFFF_FFFF_FFFF
  const MinInt64: int := -0x8000_0000_0000_0000
  /** ParseUint's `cutoff` for base 10: the smallest value that overflows when multiplied by 10. */
  const Cutoff: int := MaxUint64 / 10 + 1

  predicate IsDigit(c: char) { '0' <= c <= '9' }

  predicate AllDigits(s: string)
  {
    forall i :: 0 <= i < |s| ==> IsDigit(s[i])
  }

  function DigitValue(c: char): nat
    requires IsDigit(c)
  {
    (c as int) - ('0' as int)
  }

  /** The value of the decimal digits `s` read after the already accumulated value `acc`. */
  function ValueFrom(acc: nat, s: string): nat
    requires AllDigits(s)
    decreases |s|
  {
    if s == [] then acc else ValueFrom(acc * 10 + DigitValue(s[0]), s[1..])
  }

  function DecimalValue(s: string): nat
    requires AllDigits(s)
  {
    ValueFrom(0, s)
  }

  /** ParseUint's digit loop, continuing from the accumulated value `n`. */
  function ScanUint(s: string, n: nat): Result<nat, NumError>
  {
    if s == [] then Ok(n)
    else if !IsDigit(s[0]) then Err(ErrSyntax)
    else if n >= Cutoff then Err(ErrRange)
    else if n * 10 + DigitValue(s[0]) > MaxUint64 then Err(ErrRange)
    else ScanUint(s[1..], n * 10 + DigitValue(s[0]))
  }

  /** `strconv.ParseUint(s, 10, 64)`. */
  function ParseUint(s: string): Result<nat, NumError>
  {
    if s == "" then Err(ErrSyntax) else ScanUint(s, 0)
  }

  /** `strconv.Atoi(s)`, that is `strconv.ParseInt(s, 10, 0)` with 64-bit ints. */
  function Atoi(s: string): (r: Result<int, NumError>)
  {
    if s == "" then Err(ErrSyntax)
    else
      var neg := s[0] == '-';
      var body := if s[0] == '+' || s[0] == '-' then s[1..] else s;
      match ParseUint(body)
      case Err(e) => Err(e)
      case Ok(un) =>
        if !neg && un > MaxInt64 then Err(ErrRange)
        else if neg && un > MaxInt64 + 1 then Err(ErrRange)
        else Ok(if neg then -(un as int) else un)
  }

  // ---------------------------------------------------------------------
  // The grammar Atoi accepts, stated independently of the scanning loop
  // ---------------------------------------------------------------------

  function Unsigned(s: string): string
  {
    if s != "" && (s[0] == '+' || s[0] == '-') then s[1..] else s
  }

  /** An optional `+` or `-` followed by at least one decimal digit. */
  predicate AtoiSyntax(s: string)
  {
    Unsigned(s) != "" && AllDigits(Unsigned(s))
  }

  function SignedValue(s: string): int
    requires AtoiSyntax(s)
  {
    if s[0] == '-' then -(DecimalValue(Unsigned(s)) as int) else DecimalValue(Unsigned(s))
  }

  predicate InInt64(x: int) { MinInt64 <= x <= MaxInt64 }

  lemma {:induction false} ValueFromGrows(acc: nat, s: string)
    requires AllDigits(s)
    ensures ValueFrom(acc, s) >= acc
    ensures s != [] ==> ValueFrom(acc, s) >= acc * 10 + DigitValue(s[0])
    decreases |s|
  {
    if s != [] {
      ValueFromGrows(acc * 10 + DigitValue(s[0]), s[1..]);
    }
  }

  /** On digits, the loop yields the decimal value, or a range error exactly when it exceeds 2^64 - 1. */
  lemma {:induction false} ScanDigits(s: string, n: nat)
    requires AllDigits(s) && n <= MaxUint64
    ensures ScanUint(s, n) == if ValueFrom(n, s) <= MaxUint64 then Ok(ValueFrom(n, s)) else Err(ErrRange)
    decreases |s|
  {
    if s != [] {
      var d := DigitValue(s[0]);
      ValueFromGrows(n, s);
      if n < Cutoff && n * 10 + d <= MaxUint64 {
        ScanDigits(s[1..], n * 10 + d);
      }
    }
  }

  /** A non-digit anywhere makes the loop fail (with whichever error it meets first). */
  lemma {:induction false} ScanNonDigits(s: string, n: nat)
    requires !AllDigits(s)
    ensures ScanUint(s, n).Err?
    decreases |s|
  {
    if IsDigit(s[0]) && n < Cutoff && n * 10 + DigitValue(s[0]) <= MaxUint64 {
      assert !AllDigits(s[1..]) by {
        var i :| 0 <= i < |s| && !IsDigit(s[i]);
        assert s[1..][i - 1] == s[i];
      }
      ScanNonDigits(s[1..], n * 10 + DigitValue(s[0]));
    }
  }

  /**
   * Atoi succeeds exactly on the signed-decimal grammar with an int64 value,
   * and then returns that value; a well-formed numeral out of range is a
   * range error.
   */
  lemma {:induction false} AtoiSpec(s: string)
    ensures Atoi(s).Ok? <==> AtoiSyntax(s) && InInt64(SignedValue(s))
    ensures Atoi(s).Ok? ==> Atoi(s).value == SignedValue(s)
    ensures AtoiSyntax(s) && !InInt64(SignedValue(s)) ==> Atoi(s) == Err(ErrRange)
  {
    if s != "" {
      var body := Unsigned(s);
      if body != "" {
        if AllDigits(body) {
          ScanDigits(body, 0);
        } else {
          ScanNonDigits(body, 0);
        }
      }
    }
  }

  // ---------------------------------------------------------------------
  // Decimal formatting, the inverse of Atoi
  // ---------------------------------------------------------------------

  function DigitChar(d: nat): (c: char)
    requires d < 10
    ensures IsDigit(c) && DigitValue(c) == d
  {
    ('0' as int + d) as char
  }

  /** The decimal numeral of `n`, without leading zeros. */
  function Digits(n: nat): (r: string)
    ensures r != "" && AllDigits(r)
  {
    if n < 10 then [DigitChar(n)] else Digits(n / 10) + [DigitChar(n % 10)]
  }

  /** `strconv.Itoa(n)`. */
  function Itoa(n: int): string
  {
    if n < 0 then "-" + Digits(-n) else Digits(n)
  }

  lemma {:induction false} ValueFromAppend(acc: nat, s: string, c: char)
    requires AllDigits(s) && IsDigit(c)
    ensures AllDigits(s + [c])
    ensures ValueFrom(acc, s + [c]) == ValueFrom(acc, s) * 10 + DigitValue(c)
    decreases |s|
  {
    if s != [] {
      assert (s + [c])[1..] == s[1..] + [c];
      ValueFromAppend(acc * 10 + DigitValue(s[0]), s[1..], c);
    }
  }

  lemma {:induction false} DigitsValue(n: nat)
    ensures DecimalValue(Digits(n)) == n
  {
    if n >= 10 {
      DigitsValue(n / 10);
      ValueFromAppend(0, Digits(n / 10), DigitChar(n % 10));
      assert Digits(n) == Digits(n / 10) + [DigitChar(n % 10)];
    } else {
      var one := [DigitChar(n)];
      assert ValueFrom(0, one) == ValueFrom(n, one[1..]);
    }
  }

  /** Every int64 survives formatting and parsing back. */
  lemma {:induction false} AtoiItoa(n: int)
    requires InInt64(n)
    ensures Atoi(Itoa(n)) == Ok(n)
  {
    var s := Itoa(n);
    if n < 0 {
      assert Unsigned(s) == Digits(-n);
      DigitsValue(-n);
    } else {
      assert Unsigned(s) == Digits(n);
      DigitsValue(n);
    }
    AtoiSpec(s);
  }

  /** A formatted integer holds no character other than digits and a leading minus. */
  lemma {:induction false} ItoaChars(n: int, c: char)
    requires c in Itoa(n)
    ensures c == '-' || IsDigit(c)
  {
  }
}
