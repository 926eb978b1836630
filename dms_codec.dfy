/**
 * Degree/minute/second coordinates: the parser `dms_to_decimal` (main.py)
 * and the encoder `decimal_to_dms` (main2.py, corrds2.py, get_coords.py).
 * Reals stand in for Python floats, so arithmetic here is exact.
 */
module DmsCodec {
  import opened Wrappers
  import opened DmsText
  import AsciiCase

  /** The `ValueError` raised when the text holds fewer than three numbers. */
  datatype DmsError = TooFewNumbers(text: string)

  function Abs(x: real): (a: real)
    ensures a >= 0.0 && (a == x || a == -x)
  {
    if x >= 0.0 then x else -x
  }

  /** Python's `int()` on a float: truncation toward zero. */
  function Trunc(x: real): (n: int)
    ensures x >= 0.0 ==> 0 <= n && n as real <= x < n as real + 1.0
    ensures x < 0.0 ==> n <= 0 && n as real - 1.0 < x <= n as real
  {
    if x >= 0.0 then x.Floor else -((-x).Floor)
  }

  /**
   * Characters whose `str.upper()` contains `S` or `W`: the ASCII letters, the
   * long s (U+017F), sharp s (U+00DF, upper-cased to "SS"), the ligatures
   * U+FB05 and U+FB06 (upper-cased to "ST") and w with ring above (U+1E98).
   */
  predicate UpperMarksSouthOrWest(c: char): (b: bool)
    ensures ('a' <= c <= 'z' || 'A' <= c <= 'Z') ==> (b <==> AsciiCase.UpperChar(c) in {'S', 'W'})
    ensures IsDigit(c) ==> !b
  {
    c in {'S', 's', 'W', 'w', '\U{017F}', '\U{00DF}', '\U{FB05}', '\U{FB06}', '\U{1E98}'}
  }

  /** `'S' in text.upper() or 'W' in text.upper()`. */
  predicate MarksSouthOrWest(s: string): (b: bool)
    ensures AllDigits(s) ==> !b
    ensures forall i :: 0 <= i < |s| && s[i] in "SsWw" ==> b
  {
    exists i :: 0 <= i < |s| && UpperMarksSouthOrWest(s[i])
  }

  /** degrees + minutes/60 + seconds/3600 from the first three tokens. */
  function Magnitude(ts: seq<string>): (m: real)
    requires |ts| >= 3 && IsNumeral(ts[0]) && IsNumeral(ts[1]) && IsNumeral(ts[2])
    ensures m >= TokenValue(ts[0]) >= 0.0
  {
    TokenValue(ts[0]) + TokenValue(ts[1]) / 60.0 + TokenValue(ts[2]) / 3600.0
  }

  /** `dms_to_decimal(text)`. */
  function DmsToDecimal(s: string): (r: Result<real, DmsError>)
    ensures r.Failure? <==> |Tokens(s)| < 3
    ensures r.Success? ==> Abs(r.value) == Magnitude(Tokens(s))
    ensures r.Success? ==> (r.value < 0.0 <==> MarksSouthOrWest(s) && Magnitude(Tokens(s)) > 0.0)
  {
    var ts := Tokens(s);
    if |ts| < 3 then Failure(TooFewNumbers(s))
    else Success(Signed(Magnitude(ts), MarksSouthOrWest(s)))
  }

  function Signed(m: real, negative: bool): real {
    if negative then -m else m
  }

  /** Once three tokens are found, the result depends only on them and on the S/W test. */
  lemma ReadsAs(s: string, ts: seq<string>, negative: bool)
    requires Tokens(s) == ts && |ts| >= 3 && MarksSouthOrWest(s) == negative
    ensures DmsToDecimal(s) == Success(Signed(Magnitude(ts), negative))
  {
  }

  /** Only the first three tokens matter: a text that starts with the same three reads the same. */
  lemma FurtherTokensIgnored(s: string, s': string)
    requires |Tokens(s)| >= 3 && |Tokens(s')| >= 3
    requires Tokens(s)[..3] == Tokens(s')[..3]
    requires MarksSouthOrWest(s) == MarksSouthOrWest(s')
    ensures DmsToDecimal(s) == DmsToDecimal(s')
  {
    var ts, ts' := Tokens(s), Tokens(s');
    assert ts[0] == ts[..3][0] && ts[1] == ts[..3][1] && ts[2] == ts[..3][2];
    assert ts'[0] == ts'[..3][0] && ts'[1] == ts'[..3][1] && ts'[2] == ts'[..3][2];
    assert Magnitude(ts) == Magnitude(ts');
    ReadsAs(s, ts, MarksSouthOrWest(s));
    ReadsAs(s', ts', MarksSouthOrWest(s));
  }

  /** The scanner never captures a minus sign: a leading `-` changes nothing. */
  lemma LeadingMinusIgnored(s: string)
    ensures DmsToDecimal(['-'] + s).Success? == DmsToDecimal(s).Success?
    ensures DmsToDecimal(s).Success? ==> DmsToDecimal(['-'] + s).value == DmsToDecimal(s).value
  {
    assert (['-'] + s)[1..] == s;
    assert Tokens(['-'] + s) == Tokens(s);
    MarksOfConcat(['-'], s);
    assert !MarksSouthOrWest(['-']);
  }

  /** A bare decimal such as `27.99` is a single token, so it is refused. */
  lemma BareNumberRefused(t: string)
    requires IsNumeral(t)
    ensures DmsToDecimal(t) == Failure(TooFewNumbers(t))
  {
    NumeralAlone(t);
  }

  /** The docstring example `15 deg 25' 4.30"` reads as 15 + 25/60 + 4.3/3600, no sign. */
  lemma DocstringExample(s: string)
    requires s == "15 deg 25' 4.30\""
    ensures DmsToDecimal(s) == Success(15.0 + 25.0 / 60.0 + 4.3 / 3600.0)
  {
    DocstringTokens();
    DocstringNumerals();
    DocstringHasNoMark();
    assert Magnitude(["15", "25", "4.30"]) == 15.0 + 25.0 / 60.0 + 4.3 / 3600.0;
    ReadsAs(s, ["15", "25", "4.30"], false);
  }

  lemma SecondsTokenValue()
    ensures IsNumeral("4.30") && TokenValue("4.30") == 4.3
  {
    assert DigitRun("4.30") == 1 by {
      assert "4.30"[1..] == ".30";
    }
    assert "4.30"[..1] == "4" && "4.30"[2..] == "30";
    assert DigitRun("30") == 2 by {
      DigitRunOfAllDigits("30");
    }
    assert DigitsValue("4") == 4 by {
      assert "4"[..0] == [];
    }
    assert DigitsValue("30") == 30 by {
      assert "30"[..1] == "3" && "3"[..0] == [];
    }
  }

  lemma DocstringHasNoMark()
    ensures !MarksSouthOrWest("15 deg 25' 4.30\"")
  {
  }

  lemma DocstringTokens()
    ensures Tokens("15 deg 25' 4.30\"") == ["15", "25", "4.30"]
  {
    DocstringNumerals();
    DocstringShape();
    ThreeSeparatedNumerals("15", ' ', "deg ", "25", '\'', " ", "4.30", '"', []);
    assert "15" + [' '] + "deg " + "25" + ['\''] + " " + "4.30" + ['"'] + [] == "15 deg 25' 4.30\"";
  }

  lemma DocstringNumerals()
    ensures IsNumeral("15") && IsNumeral("25") && IsNumeral("4.30")
    ensures TokenValue("15") == 15.0 && TokenValue("25") == 25.0 && TokenValue("4.30") == 4.3
  {
    DecStrValue(15);
    DecStrValue(25);
    assert DecStr(15) == "15" && DecStr(25) == "25";
    SecondsTokenValue();
  }

  lemma DocstringShape()
    ensures "15 deg 25' 4.30\"" == "15" + [' '] + "deg " + "25" + ['\''] + " " + "4.30" + ['"']
    ensures forall i :: 0 <= i < |"deg "| ==> !IsDigit("deg "[i])
  {
  }

  lemma MarksOfConcat(a: string, b: string)
    ensures MarksSouthOrWest(a + b) <==> MarksSouthOrWest(a) || MarksSouthOrWest(b)
  {
    if MarksSouthOrWest(a + b) {
      var i :| 0 <= i < |a + b| && UpperMarksSouthOrWest((a + b)[i]);
      if i >= |a| {
        assert b[i - |a|] == (a + b)[i];
      }
    }
    if MarksSouthOrWest(b) {
      var i :| 0 <= i < |b| && UpperMarksSouthOrWest(b[i]);
      assert (a + b)[|a| + i] == b[i];
    }
    if MarksSouthOrWest(a) {
      var i :| 0 <= i < |a| && UpperMarksSouthOrWest(a[i]);
      assert (a + b)[i] == a[i];
    }
  }

  /**
   * On ASCII text the S/W test is exactly `'S' in text.upper() or 'W' in
   * text.upper()` with the ASCII upper-casing.
   */
  lemma MarksAsciiAgree(s: string)
    requires forall i :: 0 <= i < |s| ==> s[i] < '\U{0080}'
    ensures MarksSouthOrWest(s) <==> 'S' in AsciiCase.Upper(s) || 'W' in AsciiCase.Upper(s)
  {
    var u := AsciiCase.Upper(s);
    if MarksSouthOrWest(s) {
      var i :| 0 <= i < |s| && UpperMarksSouthOrWest(s[i]);
      assert u[i] == 'S' || u[i] == 'W';
    }
    if 'S' in u || 'W' in u {
      var i :| 0 <= i < |u| && (u[i] == 'S' || u[i] == 'W');
      assert u[i] == AsciiCase.UpperChar(s[i]);
      assert UpperMarksSouthOrWest(s[i]);
    }
  }

  // ---------------------------------------------------------------- encoder

  /** The arc-second sign U+2033 used by main2.py and corrds2.py. */
  const ArcSecondMark: char := '\U{2033}'
  /** The ASCII double quote used as seconds mark by get_coords.py. */
  const QuoteMark: char := '"'
  const DegreeSign: char := '\U{00B0}'

  /** The pieces `decimal_to_dms` computes before printing them. */
  datatype Dms = Dms(degrees: nat, minutes: nat, seconds: real, direction: char)

  function Direction(x: real, isLat: bool): (h: char)
    ensures h in {'N', 'S', 'E', 'W'}
  {
    if isLat then (if x >= 0.0 then 'N' else 'S')
    else (if x >= 0.0 then 'E' else 'W')
  }

  /** The decomposition in `decimal_to_dms`: whole degrees, whole minutes, remaining seconds. */
  function DecimalToDms(x: real, isLat: bool): (d: Dms)
    ensures d.degrees == Trunc(Abs(x))
    ensures d.minutes <= 59
    ensures 0.0 <= d.seconds < 60.0
    ensures d.degrees as real + d.minutes as real / 60.0 + d.seconds / 3600.0 == Abs(x)
    ensures isLat ==> (d.direction == 'N' <==> x >= 0.0) && (d.direction == 'S' <==> x < 0.0)
    ensures !isLat ==> (d.direction == 'E' <==> x >= 0.0) && (d.direction == 'W' <==> x < 0.0)
  {
    var a := Abs(x);
    var degrees := Trunc(a);
    var minutesFull := (a - degrees as real) * 60.0;
    var minutes := Trunc(minutesFull);
    var seconds := (minutesFull - minutes as real) * 60.0;
    assert minutesFull < 60.0;
    Dms(degrees, minutes, seconds, Direction(x, isLat))
  }

  /** `round(y)` with ties to even, as `'%.1f'` rounds the exact value it prints. */
  function RoundHalfEven(y: real): (n: int)
    ensures -0.5 <= n as real - y <= 0.5
  {
    var f := y.Floor;
    var frac := y - f as real;
    if frac > 0.5 then f + 1
    else if frac < 0.5 then f
    else if f % 2 == 0 then f else f + 1
  }

  /** The seconds as printed by `{seconds:.1f}`, counted in tenths. */
  function Tenths(seconds: real): (t: nat)
    requires 0.0 <= seconds < 60.0
    ensures t <= 600
    ensures -0.05 <= t as real / 10.0 - seconds <= 0.05
  {
    RoundHalfEven(seconds * 10.0)
  }

  /** `'%.1f' % (t / 10)`: whole part, a point, one decimal. */
  function OneDecimal(t: nat): (s: string)
    ensures |s| >= 3 && s[|s| - 2] == '.'
    ensures IsNumeral(s) && TokenValue(s) == t as real / 10.0
  {
    OneDecimalValue(t / 10, t % 10);
    assert (t / 10) as real + (t % 10) as real / 10.0 == t as real / 10.0;
    DecStr(t / 10) + "." + DecStr(t % 10)
  }

  /** The f-string `f"{degrees}°{minutes}'{seconds:.1f}<mark>{direction}"`. */
  function FormatDms(d: Dms, mark: char): (s: string)
    requires 0.0 <= d.seconds < 60.0
    ensures |s| >= 9 && s[|s| - 2] == mark && s[|s| - 1] == d.direction
    ensures |DecStr(d.degrees)| < |s| && s[|DecStr(d.degrees)|] == DegreeSign
  {
    DecStr(d.degrees) + [DegreeSign] + DecStr(d.minutes) + ['\'']
      + OneDecimal(Tenths(d.seconds)) + [mark] + [d.direction]
  }

  /** `decimal_to_dms` of main2.py and corrds2.py (arc-second mark). */
  function DecimalToDmsText(x: real, isLat: bool): (s: string)
    ensures QuoteMark !in s
  {
    var d := DecimalToDms(x, isLat);
    var s := FormatDms(d, ArcSecondMark);
    NoQuoteInFormat(d, ArcSecondMark);
    s
  }

  /** `decimal_to_dms` of get_coords.py (ASCII double-quote mark). */
  function DecimalToDmsTextQuote(x: real, isLat: bool): (s: string)
    ensures |s| >= 2 && s[|s| - 2] == QuoteMark
    ensures |s| == |DecimalToDmsText(x, isLat)|
    ensures s == DecimalToDmsText(x, isLat)[|s| - 2 := QuoteMark]
  {
    var d := DecimalToDms(x, isLat);
    FormatDms(d, QuoteMark)
  }

  lemma NoQuoteInFormat(d: Dms, mark: char)
    requires 0.0 <= d.seconds < 60.0
    requires mark != QuoteMark && d.direction != QuoteMark
    ensures QuoteMark !in FormatDms(d, mark)
  {
    var s := FormatDms(d, mark);
    forall i | 0 <= i < |s| ensures s[i] != QuoteMark {
      var a := DecStr(d.degrees);
      var b := DecStr(d.minutes);
      var c := OneDecimal(Tenths(d.seconds));
      var t := Tenths(d.seconds);
      assert s == a + [DegreeSign] + b + ['\''] + c + [mark] + [d.direction];
      if i < |a| {
        assert s[i] == a[i];
      } else if |a| + 1 <= i < |a| + 1 + |b| {
        assert s[i] == b[i - |a| - 1];
      } else if |a| + |b| + 2 <= i < |a| + |b| + 2 + |c| {
        var j := i - |a| - |b| - 2;
        assert s[i] == c[j];
        var q := DecStr(t / 10);
        if j < |q| {
          assert c[j] == q[j];
        } else if j > |q| {
          assert c[j] == DecStr(t % 10)[j - |q| - 1];
        }
      }
    }
  }

  /** The text `decimal_to_dms` prints is scanned as degrees, minutes and printed seconds. */
  lemma {:induction false} FormatTokens(d: Dms, mark: char)
    requires 0.0 <= d.seconds < 60.0
    requires !IsDigit(mark) && mark != '.' && !IsDigit(d.direction)
    ensures Tokens(FormatDms(d, mark))
         == [DecStr(d.degrees), DecStr(d.minutes), OneDecimal(Tenths(d.seconds))]
  {
    var t := Tenths(d.seconds);
    var a := DecStr(d.degrees);
    var b := DecStr(d.minutes);
    var c := OneDecimal(t);
    OneDecimalValue(t / 10, t % 10);
    DecStrValue(d.degrees);
    DecStrValue(d.minutes);
    assert FormatDms(d, mark) == a + [DegreeSign] + [] + b + ['\''] + [] + c + [mark] + [d.direction];
    ThreeSeparatedNumerals(a, DegreeSign, [], b, '\'', [], c, mark, [d.direction]);
  }

  /** The printed text marks south/west exactly when the coordinate is negative. */
  lemma {:induction false} FormatMarks(d: Dms, mark: char)
    requires 0.0 <= d.seconds < 60.0
    requires !UpperMarksSouthOrWest(mark)
    ensures MarksSouthOrWest(FormatDms(d, mark)) <==> UpperMarksSouthOrWest(d.direction)
  {
    var t := Tenths(d.seconds);
    var a := DecStr(d.degrees);
    var b := DecStr(d.minutes);
    var q := DecStr(t / 10);
    var r := DecStr(t % 10);
    assert FormatDms(d, mark) == a + [DegreeSign] + b + ['\''] + q + "." + r + [mark] + [d.direction];
    assert !MarksSouthOrWest(a) && !MarksSouthOrWest(b) && !MarksSouthOrWest(q) && !MarksSouthOrWest(r);
    assert !MarksSouthOrWest([DegreeSign]) && !MarksSouthOrWest(['\'']) && !MarksSouthOrWest(".");
    assert !MarksSouthOrWest([mark]);
    assert MarksSouthOrWest([d.direction]) <==> UpperMarksSouthOrWest(d.direction) by {
      assert [d.direction][0] == d.direction;
    }
    MarksOfConcat(a, [DegreeSign]);
    MarksOfConcat(a + [DegreeSign], b);
    MarksOfConcat(a + [DegreeSign] + b, ['\'']);
    MarksOfConcat(a + [DegreeSign] + b + ['\''], q);
    MarksOfConcat(a + [DegreeSign] + b + ['\''] + q, ".");
    MarksOfConcat(a + [DegreeSign] + b + ['\''] + q + ".", r);
    MarksOfConcat(a + [DegreeSign] + b + ['\''] + q + "." + r, [mark]);
    MarksOfConcat(a + [DegreeSign] + b + ['\''] + q + "." + r + [mark], [d.direction]);
  }

  /**
   * Round trip: `dms_to_decimal` of the text `decimal_to_dms` prints gives back
   * the coordinate up to the rounding of the seconds to one decimal, i.e.
   * within 1/72000 of a degree, with the sign restored by the S/W letter.
   */
  lemma {:induction false} RoundTrip(x: real, isLat: bool, mark: char)
    requires mark == ArcSecondMark || mark == QuoteMark
    ensures DmsToDecimal(FormatDms(DecimalToDms(x, isLat), mark)).Success?
    ensures var y := DmsToDecimal(FormatDms(DecimalToDms(x, isLat), mark)).value;
            -1.0 / 72000.0 <= y - x <= 1.0 / 72000.0
  {
    var d := DecimalToDms(x, isLat);
    var s := FormatDms(d, mark);
    var t := Tenths(d.seconds);
    var ts := [DecStr(d.degrees), DecStr(d.minutes), OneDecimal(t)];
    FormatTokens(d, mark);
    FormatMarks(d, mark);
    DecStrValue(d.degrees);
    DecStrValue(d.minutes);
    var m := Magnitude(ts);
    assert m == d.degrees as real + d.minutes as real / 60.0 + (t as real / 10.0) / 3600.0;
    assert -1.0 / 72000.0 <= m - Abs(x) <= 1.0 / 72000.0;
    assert MarksSouthOrWest(s) == (x < 0.0);
    ReadsAs(s, ts, x < 0.0);
  }

  /** Both seconds marks round-trip: the ASCII variant is read back like the arc-second one. */
  lemma RoundTripAllVariants(x: real, isLat: bool)
    ensures DmsToDecimal(DecimalToDmsText(x, isLat)).Success?
    ensures DmsToDecimal(DecimalToDmsTextQuote(x, isLat)) == DmsToDecimal(DecimalToDmsText(x, isLat))
  {
    var d := DecimalToDms(x, isLat);
    RoundTrip(x, isLat, ArcSecondMark);
    MarkIrrelevant(d, ArcSecondMark, QuoteMark);
  }

  /** The seconds mark, whichever of the two, does not change what the text reads as. */
  lemma {:induction false} MarkIrrelevant(d: Dms, m1: char, m2: char)
    requires 0.0 <= d.seconds < 60.0
    requires m1 in {ArcSecondMark, QuoteMark} && m2 in {ArcSecondMark, QuoteMark}
    requires !IsDigit(d.direction)
    ensures DmsToDecimal(FormatDms(d, m1)) == DmsToDecimal(FormatDms(d, m2))
  {
    FormatTokens(d, m1);
    FormatTokens(d, m2);
    FormatMarks(d, m1);
    FormatMarks(d, m2);
    var t := Tenths(d.seconds);
    var ts := [DecStr(d.degrees), DecStr(d.minutes), OneDecimal(t)];
    ReadsAs(FormatDms(d, m1), ts, UpperMarksSouthOrWest(d.direction));
    ReadsAs(FormatDms(d, m2), ts, UpperMarksSouthOrWest(d.direction));
  }

  /** Printed seconds can read `60.0`: just under a whole minute rounds up on printing. */
  lemma PrintedSecondsCanReachSixty()
    ensures DecimalToDms(10.0 + 59.96 / 3600.0, true).seconds < 60.0
    ensures Tenths(DecimalToDms(10.0 + 59.96 / 3600.0, true).seconds) == 600
  {
    var d := DecimalToDms(10.0 + 59.96 / 3600.0, true);
    assert d.degrees == 10;
    assert d.minutes == 0;
    assert d.seconds == 59.96;
  }

  /** The zero latitude prints as `0°0'0.0″N`. */
  lemma ZeroLatitudeText()
    ensures DecimalToDmsText(0.0, true) == ['0', DegreeSign, '0', '\'', '0', '.', '0', ArcSecondMark, 'N']
  {
    var d := DecimalToDms(0.0, true);
    assert d == Dms(0, 0, 0.0, 'N');
  }

  /** -15.4179 as a longitude splits into 15 degrees, 25 minutes, 4.4 printed seconds, west. */
  lemma WestLongitudeExample()
    ensures var d := DecimalToDms(-15.4179, false);
            d.degrees == 15 && d.minutes == 25 && Tenths(d.seconds) == 44 && d.direction == 'W'
  {
    var d := DecimalToDms(-15.4179, false);
    assert d.degrees == 15;
    assert d.minutes == 25;
    assert d.seconds == 4.44;
  }
}
