/**
 * Character-level helpers for degree/minute/second text: decimal digits,
 * `str(n)` of a non-negative integer, and the numeric-token scanner that
 * `re.findall(r'(\d+\.?\d*)', text)` performs in `dms_to_decimal`.
 */
module DmsText {

  predicate IsDigit(c: char) {
    '0' <= c <= '9'
  }

  predicate AllDigits(s: string) {
    forall i :: 0 <= i < |s| ==> IsDigit(s[i])
  }

  function DigitValue(c: char): (d: nat)
    requires IsDigit(c)
    ensures d < 10
  {
    c as int - '0' as int
  }

  function DigitChar(d: nat): (c: char)
    requires d < 10
    ensures IsDigit(c) && DigitValue(c) == d
  {
    ('0' as int + d) as char
  }

  function Pow10(k: nat): (p: nat)
    ensures p >= 1
  {
    if k == 0 then 1 else 10 * Pow10(k - 1)
  }

  /** The value of a string of decimal digits, most significant first. */
  function DigitsValue(s: string): nat
    requires AllDigits(s)
  {
    if s == [] then 0 else DigitsValue(s[..|s| - 1]) * 10 + DigitValue(s[|s| - 1])
  }

  /** `str(n)` for a non-negative integer: its decimal numeral, no leading zeros. */
  function DecStr(n: nat): (s: string)
    ensures |s| >= 1 && AllDigits(s)
    ensures DigitsValue(s) == n
    ensures n > 0 ==> s[0] != '0'
    ensures n == 0 ==> s == "0"
  {
    if n < 10 then [DigitChar(n)]
    else
      var s := DecStr(n / 10) + [DigitChar(n % 10)];
      assert s[..|s| - 1] == DecStr(n / 10);
      s
  }

  /** Length of the run of digits at the start of `s`. */
  function DigitRun(s: string): (k: nat)
    ensures k <= |s|
    ensures AllDigits(s[..k])
    ensures k < |s| ==> !IsDigit(s[k])
  {
    if s != [] && IsDigit(s[0]) then
      var k := 1 + DigitRun(s[1..]);
      assert s[..k] == [s[0]] + s[1..][..k - 1];
      k
    else 0
  }

  /** A whole match of `\d+\.?\d*`: digits, then optionally a point and more digits. */
  predicate IsNumeral(t: string) {
    var d := DigitRun(t);
    d >= 1 && (d == |t| || (t[d] == '.' && AllDigits(t[d + 1..])))
  }

  /**
   * Length of the greedy match of `\d+\.?\d*` that starts at `s[0]`.  The
   * match cannot be extended: the next character is no digit, and it is a
   * point only when the match already holds one.
   */
  function MatchLength(s: string): (k: nat)
    requires s != [] && IsDigit(s[0])
    ensures 1 <= k <= |s|
    ensures IsNumeral(s[..k])
    ensures k < |s| ==> !IsDigit(s[k])
    ensures k < |s| && s[k] == '.' ==> '.' in s[..k]
  {
    var d := DigitRun(s);
    if d < |s| && s[d] == '.' then
      var e := DigitRun(s[d + 1..]);
      var k := d + 1 + e;
      assert s[..k][..d] == s[..d];
      assert s[..k][d + 1..] == s[d + 1..][..e];
      assert s[..k][d] == '.';
      DigitRunOfPrefix(s, d, k);
      assert k < |s| ==> s[k] == s[d + 1..][e];
      k
    else
      assert s[..d][..d] == s[..d];
      DigitRunOfPrefix(s, d, d);
      d
  }

  /** The non-overlapping matches of `\d+\.?\d*` in `s`, left to right (`re.findall`). */
  function Tokens(s: string): (ts: seq<string>)
    ensures forall i :: 0 <= i < |ts| ==> IsNumeral(ts[i])
  {
    if s == [] then []
    else if IsDigit(s[0]) then
      var k := MatchLength(s);
      [s[..k]] + Tokens(s[k..])
    else Tokens(s[1..])
  }

  /** `float(t)` of a numeral `t`, exactly: integer part plus the fraction its decimals spell. */
  function TokenValue(t: string): (v: real)
    requires IsNumeral(t)
    ensures v >= 0.0
  {
    var d := DigitRun(t);
    var whole := DigitsValue(t[..d]) as real;
    if d == |t| then whole
    else whole + DigitsValue(t[d + 1..]) as real / Pow10(|t| - d - 1) as real
  }

  /** Cutting a string after a digit run that ends before `k` does not change the run. */
  lemma {:induction false} DigitRunOfPrefix(s: string, d: nat, k: nat)
    requires d == DigitRun(s) && d <= k <= |s|
    ensures DigitRun(s[..k]) == d
  {
    if s != [] && IsDigit(s[0]) && k > 0 {
      assert s[..k][1..] == s[1..][..k - 1];
      DigitRunOfPrefix(s[1..], d - 1, k - 1);
    }
  }

  /** The digit run of `u + v` stops inside `u` unless all of `u` is digits. */
  lemma {:induction false} DigitRunAppend(u: string, v: string)
    ensures DigitRun(u + v) == if DigitRun(u) < |u| then DigitRun(u) else |u| + DigitRun(v)
  {
    if u != [] {
      assert (u + v)[1..] == u[1..] + v;
      if IsDigit(u[0]) {
        DigitRunAppend(u[1..], v);
      }
    } else {
      assert u + v == v;
    }
  }

  /**
   * A numeral followed by a character that is neither a digit nor a point is
   * scanned as exactly that numeral, and scanning resumes after the character.
   */
  lemma {:induction false} TokensAfterNumeral(t: string, c: char, rest: string)
    requires IsNumeral(t) && !IsDigit(c) && c != '.'
    ensures Tokens(t + [c] + rest) == [t] + Tokens(rest)
  {
    var s := t + [c] + rest;
    var d := DigitRun(t);
    assert s == t + ([c] + rest);
    DigitRunAppend(t, [c] + rest);
    assert DigitRun([c] + rest) == 0;
    if d < |t| {
      assert s[d] == '.';
      assert s[d + 1..] == t[d + 1..] + ([c] + rest);
      DigitRunAppend(t[d + 1..], [c] + rest);
      assert DigitRun(t[d + 1..]) == |t| - d - 1 by {
        DigitRunOfAllDigits(t[d + 1..]);
      }
    }
    assert MatchLength(s) == |t|;
    assert s[..|t|] == t;
    assert s[|t|..] == [c] + rest;
    assert Tokens([c] + rest) == Tokens(rest) by {
      assert ([c] + rest)[1..] == rest;
    }
  }

  /**
   * A numeral that already holds a point stops at a second point, which the
   * scanner then skips: `1.2.3` is read as `1.2` and `3`.
   */
  lemma {:induction false} TokensAfterPointedNumeral(t: string, rest: string)
    requires IsNumeral(t) && '.' in t
    ensures Tokens(t + ['.'] + rest) == [t] + Tokens(rest)
  {
    var s := t + ['.'] + rest;
    var d := DigitRun(t);
    assert '.' !in t[..d];
    assert d < |t|;
    assert s == t + (['.'] + rest);
    DigitRunAppend(t, ['.'] + rest);
    assert s[d] == '.';
    assert s[d + 1..] == t[d + 1..] + (['.'] + rest);
    DigitRunAppend(t[d + 1..], ['.'] + rest);
    DigitRunOfAllDigits(t[d + 1..]);
    assert DigitRun(['.'] + rest) == 0;
    assert MatchLength(s) == |t|;
    assert s[..|t|] == t;
    assert s[|t|..] == ['.'] + rest;
    assert Tokens(['.'] + rest) == Tokens(rest) by {
      assert (['.'] + rest)[1..] == rest;
    }
  }

  /** A token of digits only, such as `05`, is worth the plain value of its digits. */
  lemma DigitsTokenValue(t: string)
    requires |t| >= 1 && AllDigits(t)
    ensures IsNumeral(t) && TokenValue(t) == DigitsValue(t) as real
  {
    DigitRunOfAllDigits(t);
    assert t[..|t|] == t;
  }

  lemma {:induction false} DigitRunOfAllDigits(s: string)
    requires AllDigits(s)
    ensures DigitRun(s) == |s|
  {
    if s != [] {
      DigitRunOfAllDigits(s[1..]);
    }
  }

  /** A string without digits holds no numeric token. */
  lemma {:induction false} TokensOfNonDigits(s: string)
    requires forall i :: 0 <= i < |s| ==> !IsDigit(s[i])
    ensures Tokens(s) == []
  {
    if s != [] {
      TokensOfNonDigits(s[1..]);
    }
  }

  /** A text that is one numeral and nothing else scans as that single token. */
  lemma {:induction false} NumeralAlone(t: string)
    requires IsNumeral(t)
    ensures Tokens(t) == [t]
  {
    var d := DigitRun(t);
    if d < |t| {
      DigitRunOfAllDigits(t[d + 1..]);
    }
    assert MatchLength(t) == |t|;
    assert t[..|t|] == t && t[|t|..] == [];
  }

  /** The converse of `TokensOfNonDigits`: any digit in the text yields a token. */
  lemma {:induction false} NoTokensMeansNoDigits(s: string)
    ensures Tokens(s) == [] ==> forall i :: 0 <= i < |s| ==> !IsDigit(s[i])
  {
    if s != [] && !IsDigit(s[0]) {
      NoTokensMeansNoDigits(s[1..]);
      if Tokens(s) == [] {
        forall i | 0 <= i < |s|
          ensures !IsDigit(s[i])
        {
          if i > 0 {
            assert s[i] == s[1..][i - 1];
          }
        }
      }
    }
  }

  /** Characters that are not digits are skipped by the scanner. */
  lemma {:induction false} TokensSkipNonDigits(p: string, s: string)
    requires forall i :: 0 <= i < |p| ==> !IsDigit(p[i])
    ensures Tokens(p + s) == Tokens(s)
  {
    if p != [] {
      assert (p + s)[1..] == p[1..] + s;
      TokensSkipNonDigits(p[1..], s);
    } else {
      assert p + s == s;
    }
  }

  /**
   * Three numerals, each closed by a separator, with digit-free text between
   * and after them, are scanned as exactly those three tokens.
   */
  lemma {:induction false} ThreeSeparatedNumerals(a: string, c1: char, p: string, b: string, c2: char, q: string,
                                                  t: string, c3: char, r: string)
    requires IsNumeral(a) && IsNumeral(b) && IsNumeral(t)
    requires !IsDigit(c1) && c1 != '.' && !IsDigit(c2) && c2 != '.' && !IsDigit(c3) && c3 != '.'
    requires forall i :: 0 <= i < |p| ==> !IsDigit(p[i])
    requires forall i :: 0 <= i < |q| ==> !IsDigit(q[i])
    requires forall i :: 0 <= i < |r| ==> !IsDigit(r[i])
    ensures Tokens(a + [c1] + p + b + [c2] + q + t + [c3] + r) == [a, b, t]
  {
    assert a + [c1] + p + b + [c2] + q + t + [c3] + r == a + [c1] + (p + (b + [c2] + (q + (t + [c3] + r))));
    TokensOfNonDigits(r);
    TokensAfterNumeral(t, c3, r);
    TokensSkipNonDigits(q, t + [c3] + r);
    TokensAfterNumeral(b, c2, q + (t + [c3] + r));
    TokensSkipNonDigits(p, b + [c2] + (q + (t + [c3] + r)));
    TokensAfterNumeral(a, c1, p + (b + [c2] + (q + (t + [c3] + r))));
  }

  /** `str(q) + "." + str(r)` for one decimal `r` reads back as `q + r/10`. */
  lemma OneDecimalValue(q: nat, r: nat)
    requires r < 10
    ensures IsNumeral(DecStr(q) + "." + DecStr(r))
    ensures TokenValue(DecStr(q) + "." + DecStr(r)) == q as real + r as real / 10.0
  {
    var a, f := DecStr(q), DecStr(r);
    assert |f| == 1 by {
      assert f == [DigitChar(r)];
    }
    assert Pow10(1) == 10;
    PointNumeral(a, f);
    assert DigitsValue(a) == q && DigitsValue(f) == r;
    assert Pow10(|f|) as real == 10.0;
    assert TokenValue(a + "." + f) == q as real + r as real / 10.0;
  }

  /** Digits, a point, digits: a numeral whose value is the whole part plus the decimals. */
  lemma {:induction false} PointNumeral(a: string, f: string)
    requires |a| >= 1 && AllDigits(a) && AllDigits(f)
    ensures IsNumeral(a + "." + f)
    ensures TokenValue(a + "." + f) == DigitsValue(a) as real + DigitsValue(f) as real / Pow10(|f|) as real
  {
    var t := a + "." + f;
    assert t == a + ("." + f);
    DigitRunAppend(a, "." + f);
    DigitRunOfAllDigits(a);
    assert DigitRun("." + f) == 0;
    assert DigitRun(t) == |a|;
    assert t[..|a|] == a;
    assert t[|a|] == '.';
    assert t[|a| + 1..] == f;
  }

  /** `str(n)` alone is one numeric token whose value is `n`. */
  lemma DecStrValue(n: nat)
    ensures IsNumeral(DecStr(n))
    ensures TokenValue(DecStr(n)) == n as real
  {
    DigitRunOfAllDigits(DecStr(n));
    assert DecStr(n)[..|DecStr(n)|] == DecStr(n);
  }
}
