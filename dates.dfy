/** The daily-note date helpers: the `YYYY-MM-DD` id test
    (`matchFormattedDate`) and the formatter that builds such ids from a
    date's year, month and day (`getFormattedDate`). */
module Dates {
  import opened JsStrings

  /** One element of a regular expression without alternation or
      repetition: `\d`, or a literal character. */
  datatype Token = AnyDigit | Literal(c: char)

  predicate TokenMatches(t: Token, c: char) {
    match t
    case AnyDigit => IsDigit(c)
    case Literal(l) => c == l
  }

  /** `n` copies of a token: the quantifier `{n}`. */
  function Times(n: nat, t: Token): (r: seq<Token>)
    ensures |r| == n && forall k :: 0 <= k < n ==> r[k] == t
  {
    if n == 0 then [] else [t] + Times(n - 1, t)
  }

  /** `^\d{4}-\d{2}-\d{2}$` as a sequence of tokens. */
  const DatePattern: seq<Token> :=
    Times(4, AnyDigit) + [Literal('-')] + Times(2, AnyDigit) + [Literal('-')] + Times(2, AnyDigit)

  /** A test anchored at both ends (`^…$`, no multiline flag, so `$` only
      matches at the very end): every token matches the character at its
      position and nothing is left over on either side. */
  predicate AnchoredMatch(p: seq<Token>, s: string) {
    if p == [] then s == []
    else s != [] && TokenMatches(p[0], s[0]) && AnchoredMatch(p[1..], s[1..])
  }

  /** `matchFormattedDate(date)` */
  predicate MatchFormattedDate(s: string) {
    AnchoredMatch(DatePattern, s)
  }

  /** An anchored match is a position-by-position match of equal lengths. */
  lemma {:induction false} AnchoredMatchIff(p: seq<Token>, s: string)
    ensures AnchoredMatch(p, s) <==> |p| == |s| && forall k :: 0 <= k < |p| ==> TokenMatches(p[k], s[k])
  {
    if p != [] && s != [] {
      AnchoredMatchIff(p[1..], s[1..]);
      if |p| == |s| && forall k :: 0 <= k < |p| ==> TokenMatches(p[k], s[k]) {
        forall k | 0 <= k < |p[1..]| ensures TokenMatches(p[1..][k], s[1..][k]) {
          assert TokenMatches(p[k + 1], s[k + 1]);
        }
      }
      if AnchoredMatch(p, s) {
        forall k | 0 <= k < |p| ensures TokenMatches(p[k], s[k]) {
          if k > 0 {
            assert TokenMatches(p[1..][k - 1], s[1..][k - 1]);
          }
        }
      }
    }
  }

  /** The date test holds exactly when the text has ten characters, `-` at
      indices 4 and 7, and digits everywhere else. */
  lemma DateShape(s: string)
    ensures MatchFormattedDate(s) <==>
              |s| == 10 && s[4] == '-' && s[7] == '-' &&
              forall k :: 0 <= k < 10 && k != 4 && k != 7 ==> IsDigit(s[k])
  {
    AnchoredMatchIff(DatePattern, s);
    var p := DatePattern;
    assert |p| == 10;
    assert forall k :: 0 <= k < 10 && k != 4 && k != 7 ==> p[k] == AnyDigit by {
      assert forall k :: 0 <= k < 4 ==> p[k] == Times(4, AnyDigit)[k];
      assert forall k :: 5 <= k < 7 ==> p[k] == Times(2, AnyDigit)[k - 5];
      assert forall k :: 8 <= k < 10 ==> p[k] == Times(2, AnyDigit)[k - 8];
    }
    assert p[4] == Literal('-') && p[7] == Literal('-');
  }

  /** The test is anchored: text before or after a valid date makes it
      fail. */
  lemma Anchored(s: string, extra: string)
    requires MatchFormattedDate(s) && extra != ""
    ensures !MatchFormattedDate(s + extra) && !MatchFormattedDate(extra + s)
  {
    DateShape(s);
    DateShape(s + extra);
    DateShape(extra + s);
  }

  /** Nothing checks that the month or day exists: `"2024-13-45"` passes. */
  lemma NoRangeCheck()
    ensures MatchFormattedDate("2024-13-45")
  {
    DateShape("2024-13-45");
  }

  /** The digit character of `d`. */
  function DigitChar(d: nat): char
    requires d < 10
  {
    ('0' as int + d) as char
  }

  /** `n.toString(10)` for a non-negative integer: its decimal digits, no
      leading zeros. */
  function NatString(n: nat): (r: string)
    ensures 0 < |r| && AllDigits(r)
  {
    if n < 10 then [DigitChar(n)] else NatString(n / 10) + [DigitChar(n % 10)]
  }

  /** `n.toString(10)` (`${n}` in a template) for any integer. */
  function IntString(n: int): string {
    if n < 0 then "-" + NatString(-n) else NatString(n)
  }

  /** The value of a string of decimal digits. */
  function DecimalValue(s: string): nat
    requires AllDigits(s)
  {
    if s == [] then 0 else DecimalValue(s[..|s| - 1]) * 10 + (s[|s| - 1] as int - '0' as int)
  }

  /** Printing a number and reading it back gives the number. */
  lemma {:induction false} NatStringValue(n: nat)
    ensures DecimalValue(NatString(n)) == n
  {
    if n >= 10 {
      NatStringValue(n / 10);
      var r := NatString(n);
      assert r[..|r| - 1] == NatString(n / 10);
    }
  }

  /** The number of digits `toString` writes for one- to four-digit numbers. */
  lemma NatStringLength(n: nat)
    ensures n < 10 ==> |NatString(n)| == 1
    ensures 10 <= n < 100 ==> |NatString(n)| == 2
    ensures 1000 <= n < 10000 ==> |NatString(n)| == 4
  {
    if 1000 <= n < 10000 {
      assert |NatString(n / 10)| == 3 by {
        assert |NatString(n / 100)| == 2 by {
          assert |NatString(n / 1000)| == 1;
        }
      }
    }
  }

  /** `s.padStart(2, "0")` */
  function PadStart2(s: string): (r: string)
    ensures |s| >= 2 ==> r == s
    ensures |s| < 2 ==> |r| == 2 && r[2 - |s|..] == s && forall k :: 0 <= k < 2 - |s| ==> r[k] == '0'
  {
    if |s| >= 2 then s else Repeat(2 - |s|, '0') + s
  }

  /** `getFormattedDate`, given the date's full year, zero-based month index
      (`getMonth()`) and day of the month (`getDate()`): year, month
      number and day joined with `-`, month and day left-padded with `0`. */
  function GetFormattedDate(year: int, monthIndex: int, day: int): string {
    IntString(year) + "-" + PadStart2(IntString(monthIndex + 1)) + "-" + PadStart2(IntString(day))
  }

  /** A one- or two-digit number padded to two digits. */
  lemma PaddedTwoDigits(n: nat)
    requires n < 100
    ensures var r := PadStart2(NatString(n));
            |r| == 2 && AllDigits(r) && DecimalValue(r) == n
  {
    NatStringLength(n);
    NatStringValue(n);
    var s := NatString(n);
    var r := PadStart2(s);
    if |s| == 1 {
      assert r == ['0'] + s;
      assert r[..1] == ['0'];
      assert DecimalValue(r[..1]) == DecimalValue([]) * 10 + 0;
    }
  }

  /** Four digits, `-`, two digits, `-`, two digits pass the date test, and
      the three groups sit at indices 0..4, 5..7 and 8..10. */
  lemma JoinedDate(y: string, m: string, d: string)
    requires |y| == 4 && |m| == 2 && |d| == 2 && AllDigits(y) && AllDigits(m) && AllDigits(d)
    ensures var r := y + "-" + m + "-" + d;
            MatchFormattedDate(r) && |r| == 10 && r[..4] == y && r[5..7] == m && r[8..] == d
  {
    var r := y + ("-" + (m + ("-" + d)));
    assert r == y + "-" + m + "-" + d;
    assert forall k :: 0 <= k < 4 ==> r[k] == y[k];
    assert forall k :: 5 <= k < 7 ==> r[k] == m[k - 5];
    assert forall k :: 8 <= k < 10 ==> r[k] == d[k - 8];
    assert r[4] == '-' && r[7] == '-';
    DateShape(r);
  }

  /** For a four-digit year, a month index 0..11 and a day 1..31 the
      formatter's output passes the date test, and its three digit groups
      read back as the year, the month number and the day. */
  lemma FormattedDateMatches(year: int, monthIndex: int, day: int)
    requires 1000 <= year <= 9999 && 0 <= monthIndex <= 11 && 1 <= day <= 31
    ensures var r := GetFormattedDate(year, monthIndex, day);
            MatchFormattedDate(r) && |r| == 10 &&
            AllDigits(r[..4]) && DecimalValue(r[..4]) == year &&
            AllDigits(r[5..7]) && DecimalValue(r[5..7]) == monthIndex + 1 &&
            AllDigits(r[8..]) && DecimalValue(r[8..]) == day
  {
    var y := NatString(year);
    var m := PadStart2(NatString(monthIndex + 1));
    var d := PadStart2(NatString(day));
    NatStringLength(year);
    NatStringValue(year);
    PaddedTwoDigits(monthIndex + 1);
    PaddedTwoDigits(day);
    assert GetFormattedDate(year, monthIndex, day) == y + "-" + m + "-" + d;
    JoinedDate(y, m, d);
  }

  /** Years before 1000 are not padded, so their dates fail the test. */
  lemma ShortYearFails(year: int, monthIndex: int, day: int)
    requires 0 <= year < 1000 && 0 <= monthIndex <= 11 && 1 <= day <= 31
    ensures !MatchFormattedDate(GetFormattedDate(year, monthIndex, day))
  {
    var r := GetFormattedDate(year, monthIndex, day);
    var y := NatString(year);
    assert |y| <= 3 by {
      if year >= 10 {
        assert |NatString(year / 10)| <= 2 by {
          NatStringLength(year / 10);
        }
      }
    }
    PaddedTwoDigits(monthIndex + 1);
    DateShape(r);
    assert r[|y|] == '-' && !IsDigit(r[|y|]);
  }
}
