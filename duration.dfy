/**
 * `parseDuration`: a video badge such as "3:45" or "1:02:10" turned into a
 * number of seconds. The badge is split on ':'; two pieces are minutes and
 * seconds, three are hours, minutes and seconds; each piece goes through
 * Atoi and the first one that fails names the error. Components are not
 * range-checked and may carry a sign, so the total is an unbounded `int`.
 */
module Duration {
  import opened Wrappers
  import opened GoText
  import opened Strconv

  datatype DurationError =
    | InvalidFormat(input: string)     // "invalid duration format %q"
    | InvalidHours(cause: NumError)    // "invalid hours: %v"
    | InvalidMinutes(cause: NumError)  // "invalid minutes: %v"
    | InvalidSeconds(cause: NumError)  // "invalid seconds: %v"

  const Colon: string := ":"

  function ParseDuration(durationStr: string): (r: Result<int, DurationError>)
  {
    var parts := Split(durationStr, Colon);
    if |parts| < 2 || |parts| > 3 then Err(InvalidFormat(durationStr))
    else if |parts| == 2 then
      match Atoi(parts[0])
      case Err(e) => Err(InvalidMinutes(e))
      case Ok(minutes) =>
        match Atoi(parts[1])
        case Err(e) => Err(InvalidSeconds(e))
        case Ok(seconds) => Ok(minutes * 60 + seconds)
    else
      match Atoi(parts[0])
      case Err(e) => Err(InvalidHours(e))
      case Ok(hours) =>
        match Atoi(parts[1])
        case Err(e) => Err(InvalidMinutes(e))
        case Ok(minutes) =>
          match Atoi(parts[2])
          case Err(e) => Err(InvalidSeconds(e))
          case Ok(seconds) => Ok(hours * 3600 + minutes * 60 + seconds)
  }

  /** The number of ':' characters in `s`. */
  function Colons(s: string): nat
  {
    CountOcc(s, Colon)
  }

  /** A badge is rejected as malformed exactly when it has neither one nor two colons. */
  lemma {:induction false} ParseDurationFormat(s: string)
    ensures ParseDuration(s) == Err(InvalidFormat(s)) <==> Colons(s) != 1 && Colons(s) != 2
  {
    SplitCount(s, Colon);
  }

  /**
   * "mm:ss": minutes are checked before seconds, and with both numbers the
   * result is 60 * mm + ss with no bound on either component.
   */
  lemma {:induction false} ParseMinutesSeconds(mm: string, ss: string)
    requires ':' !in mm && ':' !in ss
    ensures Atoi(mm).Err? ==> ParseDuration(mm + ":" + ss) == Err(InvalidMinutes(Atoi(mm).error))
    ensures Atoi(mm).Ok? && Atoi(ss).Err? ==> ParseDuration(mm + ":" + ss) == Err(InvalidSeconds(Atoi(ss).error))
    ensures Atoi(mm).Ok? && Atoi(ss).Ok? ==> ParseDuration(mm + ":" + ss) == Ok(60 * Atoi(mm).value + Atoi(ss).value)
  {
    SplitAtFirst(mm, ':', ss);
    SplitWithoutSep(ss, ':');
  }

  /**
   * "hh:mm:ss": hours, then minutes, then seconds are checked, and with all
   * three numbers the result is 3600 * hh + 60 * mm + ss.
   */
  lemma {:induction false} ParseHoursMinutesSeconds(hh: string, mm: string, ss: string)
    requires ':' !in hh && ':' !in mm && ':' !in ss
    ensures Atoi(hh).Err? ==> ParseDuration(hh + ":" + mm + ":" + ss) == Err(InvalidHours(Atoi(hh).error))
    ensures Atoi(hh).Ok? && Atoi(mm).Err? ==> ParseDuration(hh + ":" + mm + ":" + ss) == Err(InvalidMinutes(Atoi(mm).error))
    ensures Atoi(hh).Ok? && Atoi(mm).Ok? && Atoi(ss).Err? ==>
              ParseDuration(hh + ":" + mm + ":" + ss) == Err(InvalidSeconds(Atoi(ss).error))
    ensures Atoi(hh).Ok? && Atoi(mm).Ok? && Atoi(ss).Ok? ==>
              ParseDuration(hh + ":" + mm + ":" + ss) == Ok(3600 * Atoi(hh).value + 60 * Atoi(mm).value + Atoi(ss).value)
  {
    assert hh + ":" + mm + ":" + ss == hh + [':'] + (mm + [':'] + ss);
    SplitAtFirst(hh, ':', mm + [':'] + ss);
    SplitAtFirst(mm, ':', ss);
    SplitWithoutSep(ss, ':');
  }

  lemma {:induction false} ItoaHasNoColon(n: int)
    ensures ':' !in Itoa(n)
  {
    if ':' in Itoa(n) {
      ItoaChars(n, ':');
    }
  }

  /** Formatting minutes and seconds as "m:s" and parsing gives back 60 * m + s, for any int64 values. */
  lemma {:induction false} ParseFormattedMinutesSeconds(m: int, s: int)
    requires InInt64(m) && InInt64(s)
    ensures ParseDuration(Itoa(m) + ":" + Itoa(s)) == Ok(60 * m + s)
  {
    ItoaHasNoColon(m);
    ItoaHasNoColon(s);
    AtoiItoa(m);
    AtoiItoa(s);
    ParseMinutesSeconds(Itoa(m), Itoa(s));
  }

  /** Formatting as "h:m:s" and parsing gives back 3600 * h + 60 * m + s, for any int64 values. */
  lemma {:induction false} ParseFormattedHoursMinutesSeconds(h: int, m: int, s: int)
    requires InInt64(h) && InInt64(m) && InInt64(s)
    ensures ParseDuration(Itoa(h) + ":" + Itoa(m) + ":" + Itoa(s)) == Ok(3600 * h + 60 * m + s)
  {
    ItoaHasNoColon(h);
    ItoaHasNoColon(m);
    ItoaHasNoColon(s);
    AtoiItoa(h);
    AtoiItoa(m);
    AtoiItoa(s);
    ParseHoursMinutesSeconds(Itoa(h), Itoa(m), Itoa(s));
  }

  /** A successful parse means the badge had one or two colons and every piece was an int64 numeral. */
  lemma {:induction false} ParseDurationOk(s: string)
    requires ParseDuration(s).Ok?
    ensures Colons(s) == 1 || Colons(s) == 2
    ensures forall k :: 0 <= k < |Split(s, Colon)| ==>
              AtoiSyntax(Split(s, Colon)[k]) && InInt64(SignedValue(Split(s, Colon)[k]))
  {
    ParseDurationFormat(s);
    var parts := Split(s, Colon);
    forall k | 0 <= k < |parts|
      ensures AtoiSyntax(parts[k]) && InInt64(SignedValue(parts[k]))
    {
      AtoiSpec(parts[k]);
    }
  }

  /** Badges without one or two colons are malformed, the empty badge included. */
  lemma {:induction false} MalformedExamples()
    ensures ParseDuration("") == Err(InvalidFormat(""))
    ensures ParseDuration("5") == Err(InvalidFormat("5"))
    ensures ParseDuration("1:2:3:4") == Err(InvalidFormat("1:2:3:4"))
  {
    SplitWithoutSep("", ':');
    SplitWithoutSep("5", ':');
    assert "1:2:3:4" == "1" + [':'] + "2:3:4";
    assert "2:3:4" == "2" + [':'] + "3:4";
    assert "3:4" == "3" + [':'] + "4";
    SplitAtFirst("1", ':', "2:3:4");
    SplitAtFirst("2", ':', "3:4");
    SplitAtFirst("3", ':', "4");
    SplitWithoutSep("4", ':');
    assert |Split("1:2:3:4", Colon)| == 4;
  }

  /** An empty middle piece is reported as invalid minutes. */
  lemma {:induction false} EmptyMinutesExample()
    ensures ParseDuration("1::2") == Err(InvalidMinutes(ErrSyntax))
  {
    var hh, mm, ss := "1", "", "2";
    assert "1::2" == hh + ":" + mm + ":" + ss;
    ParseHoursMinutesSeconds(hh, mm, ss);
    AtoiOneDigit('1');
  }

  /** An empty leading piece is reported as invalid minutes. */
  lemma {:induction false} MissingMinutesExample()
    ensures ParseDuration(":30") == Err(InvalidMinutes(ErrSyntax))
  {
    var mm, ss := "", "30";
    assert ":30" == mm + ":" + ss;
    ParseMinutesSeconds(mm, ss);
  }

  /** A non-numeric piece is reported as the component it stands in. */
  lemma {:induction false} NonNumericExample()
    ensures ParseDuration("ab:30") == Err(InvalidMinutes(ErrSyntax))
  {
    var mm, ss := "ab", "30";
    assert "ab:30" == mm + ":" + ss;
    ParseMinutesSeconds(mm, ss);
    assert !AtoiSyntax(mm) by { assert !IsDigit(mm[0]); }
    AtoiSpec(mm);
    assert mm[0] != '+' && mm[0] != '-';
    assert !IsDigit(mm[0]);
  }

  lemma {:induction false} AtoiOneDigit(a: char)
    requires IsDigit(a)
    ensures Atoi([a]) == Ok(DigitValue(a))
    ensures Atoi(['-', a]) == Ok(-(DigitValue(a) as int))
  {
    ValueFromAppend(0, [], a);
    assert [] + [a] == [a];
    AtoiSpec([a]);
    assert Unsigned(['-', a]) == [a];
    AtoiSpec(['-', a]);
  }

  lemma {:induction false} AtoiTwoDigits(a: char, b: char)
    requires IsDigit(a) && IsDigit(b)
    ensures Atoi([a, b]) == Ok(10 * DigitValue(a) + DigitValue(b))
  {
    ValueFromAppend(0, [], a);
    assert [] + [a] == [a];
    ValueFromAppend(0, [a], b);
    assert [a] + [b] == [a, b];
    AtoiSpec([a, b]);
  }

  /** A badge "m:ss" of digits. */
  lemma {:induction false} MinutesSecondsDigits(a: char, b: char, c: char)
    requires IsDigit(a) && IsDigit(b) && IsDigit(c)
    ensures ParseDuration([a, ':', b, c]) == Ok(60 * DigitValue(a) + 10 * DigitValue(b) + DigitValue(c))
  {
    var mm, ss := [a], [b, c];
    AtoiOneDigit(a);
    AtoiTwoDigits(b, c);
    ParseMinutesSeconds(mm, ss);
    assert [a, ':', b, c] == mm + ":" + ss;
  }

  /** A badge "-m:ss" of digits. */
  lemma {:induction false} NegativeMinutesSecondsDigits(a: char, b: char, c: char)
    requires IsDigit(a) && IsDigit(b) && IsDigit(c)
    ensures ParseDuration(['-', a, ':', b, c]) == Ok(-60 * DigitValue(a) + 10 * DigitValue(b) + DigitValue(c))
  {
    var mm, ss := ['-', a], [b, c];
    AtoiOneDigit(a);
    AtoiTwoDigits(b, c);
    ParseMinutesSeconds(mm, ss);
    assert ['-', a, ':', b, c] == mm + ":" + ss;
  }

  /** A badge "h:mm:ss" of digits. */
  lemma {:induction false} HoursMinutesSecondsDigits(a: char, b: char, c: char, d: char, e: char)
    requires IsDigit(a) && IsDigit(b) && IsDigit(c) && IsDigit(d) && IsDigit(e)
    ensures ParseDuration([a, ':', b, c, ':', d, e]) ==
              Ok(3600 * DigitValue(a) + 60 * (10 * DigitValue(b) + DigitValue(c)) + 10 * DigitValue(d) + DigitValue(e))
  {
    var hh, mm, ss := [a], [b, c], [d, e];
    AtoiOneDigit(a);
    AtoiTwoDigits(b, c);
    AtoiTwoDigits(d, e);
    ParseHoursMinutesSeconds(hh, mm, ss);
    assert [a, ':', b, c, ':', d, e] == hh + ":" + mm + ":" + ss;
  }

  /** A minutes-and-seconds badge. */
  lemma {:induction false} MinutesSecondsExample()
    ensures ParseDuration("3:45") == Ok(225)
  {
    MinutesSecondsDigits('3', '4', '5');
  }

  /** An hours-minutes-seconds badge. */
  lemma {:induction false} HoursMinutesSecondsExample()
    ensures ParseDuration("1:02:10") == Ok(3730)
  {
    HoursMinutesSecondsDigits('1', '0', '2', '1', '0');
  }

  /** Seconds beyond 59 are not range-checked. */
  lemma {:induction false} UncheckedSecondsExample()
    ensures ParseDuration("0:75") == Ok(75)
  {
    MinutesSecondsDigits('0', '7', '5');
  }

  /** Minutes beyond 59 are not range-checked. */
  lemma {:induction false} UncheckedMinutesExample()
    ensures ParseDuration("1:90:00") == Ok(9000)
  {
    HoursMinutesSecondsDigits('1', '9', '0', '0', '0');
  }

  /** A signed component is accepted and the total may be negative. */
  lemma {:induction false} NegativeExample()
    ensures ParseDuration("-1:30") == Ok(-30)
  {
    NegativeMinutesSecondsDigits('1', '3', '0');
  }
}
