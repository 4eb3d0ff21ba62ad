/** Arrival-month keys: the `"YYYY-MM"` strings of the 到货年月 column.
    `get_prev_month` (Logisticsdata.py:63-70) parses a key with
    `datetime.strptime(s, "%Y-%m")`, steps back one day from the first of
    the month and formats the result with `strftime("%Y-%m")`; every failure
    yields `""`. `month_to_num` (Logisticsdata.py:935-939) deletes the dashes
    and applies Python's `int()`, mapping every failure to 0. */
module MonthKeys {
  import opened Wrappers
  import Seqs

  datatype YearMonth = YearMonth(year: int, month: int)

  /** What a `datetime` can hold: years 1..9999, months 1..12. */
  predicate ValidYearMonth(ym: YearMonth)
  {
    1 <= ym.year <= 9999 && 1 <= ym.month <= 12
  }

  /** Months counted from year 0, so that consecutive calendar months have
      consecutive indexes. */
  function MonthIndex(ym: YearMonth): int
  {
    12 * ym.year + ym.month - 1
  }

  predicate IsDigit(c: char)
  {
    '0' <= c <= '9'
  }

  function DigitValue(c: char): (d: nat)
    requires IsDigit(c)
    ensures d < 10
  {
    (c as int) - ('0' as int)
  }

  function Digit(d: nat): (c: char)
    requires d < 10
    ensures IsDigit(c) && DigitValue(c) == d
  {
    (('0' as int) + d) as char
  }

  // ---------------------------------------------------------------------
  // strftime("%Y-%m")

  /** `%Y`: the year as four zero-padded digits. */
  function Pad4(y: nat): string
    requires y <= 9999
  {
    [Digit(y / 1000), Digit(y / 100 % 10), Digit(y / 10 % 10), Digit(y % 10)]
  }

  /** `%m`: the month as two zero-padded digits. */
  function Pad2(m: nat): string
    requires m <= 99
  {
    [Digit(m / 10), Digit(m % 10)]
  }

  function FormatYearMonth(ym: YearMonth): (s: string)
    requires ValidYearMonth(ym)
    ensures |s| == 7 && s[4] == '-'
  {
    Pad4(ym.year) + "-" + Pad2(ym.month)
  }

  // ---------------------------------------------------------------------
  // strptime(s, "%Y-%m")

  /** The regular expression `1[0-2]|0[1-9]|[1-9]` that `strptime` uses for
      `%m`, tried left to right at the start of `t`: the month and the
      number of characters it consumed. */
  function MatchMonthField(t: string): (r: Option<(int, nat)>)
    ensures r.Some? ==> 1 <= r.value.0 <= 12 && 1 <= r.value.1 <= 2 && r.value.1 <= |t|
  {
    if |t| >= 2 && t[0] == '1' && '0' <= t[1] <= '2' then Some((10 + DigitValue(t[1]), 2))
    else if |t| >= 2 && t[0] == '0' && '1' <= t[1] <= '9' then Some((DigitValue(t[1]), 2))
    else if |t| >= 1 && '1' <= t[0] <= '9' then Some((DigitValue(t[0]), 1))
    else None
  }

  /** `datetime.strptime(s, "%Y-%m")`: exactly four digits for `%Y`, a
      dash, a month as above, and nothing after it ("unconverted data
      remains" otherwise); year 0 is not a valid `datetime`. */
  function ParseYearMonth(s: string): (r: Option<YearMonth>)
    ensures r.Some? ==> ValidYearMonth(r.value)
  {
    if |s| < 6 || !IsDigit(s[0]) || !IsDigit(s[1]) || !IsDigit(s[2]) || !IsDigit(s[3]) || s[4] != '-' then None
    else
      var y := 1000 * DigitValue(s[0]) + 100 * DigitValue(s[1]) + 10 * DigitValue(s[2]) + DigitValue(s[3]);
      match MatchMonthField(s[5..])
      case None => None
      case Some((m, used)) =>
        if 5 + used != |s| then None
        else if y < 1 then None
        else Some(YearMonth(y, m))
  }

  lemma Pad4Value(y: nat)
    requires y <= 9999
    ensures 1000 * DigitValue(Pad4(y)[0]) + 100 * DigitValue(Pad4(y)[1])
            + 10 * DigitValue(Pad4(y)[2]) + DigitValue(Pad4(y)[3]) == y
  {
    var d3, a := y % 10, y / 10;
    var d2, b := a % 10, a / 10;
    var d1, c := b % 10, b / 10;
    assert y == 1000 * c + 100 * d1 + 10 * d2 + d3;
    FourDigitsSplit(c, d1, d2, d3);
  }

  /** Parsing what `strftime` wrote gives back the same month. */
  lemma ParseFormat(ym: YearMonth)
    requires ValidYearMonth(ym)
    ensures ParseYearMonth(FormatYearMonth(ym)) == Some(ym)
  {
    var s := FormatYearMonth(ym);
    Pad4Value(ym.year);
    assert s[5..] == Pad2(ym.month);
  }

  lemma FourDigitsSplit(d0: nat, d1: nat, d2: nat, d3: nat)
    requires d0 < 10 && d1 < 10 && d2 < 10 && d3 < 10
    ensures var y := 1000 * d0 + 100 * d1 + 10 * d2 + d3;
      y / 1000 == d0 && y / 100 % 10 == d1 && y / 10 % 10 == d2 && y % 10 == d3
  {
    var y := 1000 * d0 + 100 * d1 + 10 * d2 + d3;
    assert y == 10 * (100 * d0 + 10 * d1 + d2) + d3;
    assert y / 10 == 100 * d0 + 10 * d1 + d2;
    assert y == 100 * (10 * d0 + d1) + (10 * d2 + d3);
    assert y / 100 == 10 * d0 + d1;
    assert y == 1000 * d0 + (100 * d1 + 10 * d2 + d3);
    assert y / 1000 == d0;
  }

  lemma YearDigits(s: string)
    requires |s| >= 4 && IsDigit(s[0]) && IsDigit(s[1]) && IsDigit(s[2]) && IsDigit(s[3])
    ensures var y := 1000 * DigitValue(s[0]) + 100 * DigitValue(s[1]) + 10 * DigitValue(s[2]) + DigitValue(s[3]);
      y <= 9999 && Pad4(y) == s[..4]
  {
    var d0, d1, d2, d3 := DigitValue(s[0]), DigitValue(s[1]), DigitValue(s[2]), DigitValue(s[3]);
    FourDigitsSplit(d0, d1, d2, d3);
    assert Digit(d0) == s[0] && Digit(d1) == s[1] && Digit(d2) == s[2] && Digit(d3) == s[3];
  }

  /** Every string `strptime` accepts is a canonical key or, for months
      before October, a key with a one-digit month (`"2024-1"`); the
      converses are ParseFormat and ParseOneDigitMonth. */
  lemma ParseAccepts(s: string)
    requires ParseYearMonth(s).Some?
    ensures var ym := ParseYearMonth(s).value;
      s == FormatYearMonth(ym) || (ym.month < 10 && s == Pad4(ym.year) + "-" + [Digit(ym.month)])
  {
    var ym := ParseYearMonth(s).value;
    YearDigits(s);
    assert s == s[..4] + "-" + s[5..];
    if |s| == 7 {
      assert s[5..] == Pad2(ym.month);
    } else {
      assert s[5..] == [Digit(ym.month)];
    }
  }

  /** Before October a key may also give its month as one digit, which
      `strptime` accepts as that month. */
  lemma ParseOneDigitMonth(y: int, m: int)
    requires 1 <= y <= 9999 && 1 <= m <= 9
    ensures ParseYearMonth(Pad4(y) + "-" + [Digit(m)]) == Some(YearMonth(y, m))
  {
    var s := Pad4(y) + "-" + [Digit(m)];
    Pad4Value(y);
    assert s[..4] == Pad4(y) && s[4] == '-';
    assert s[5..] == [Digit(m)];
  }

  // ---------------------------------------------------------------------
  // get_prev_month

  /** `get_prev_month`: the month before `s`, or `""` when `s` does not
      parse or the day before 0001-01-01 would be needed (the `OverflowError`
      falls into the same `except`). */
  function GetPrevMonth(s: string): (r: string)
    ensures r == "" <==> ParseYearMonth(s).None? || ParseYearMonth(s) == Some(YearMonth(1, 1))
    ensures r != "" ==>
      && ParseYearMonth(r).Some?
      && r == FormatYearMonth(ParseYearMonth(r).value)
      && MonthIndex(ParseYearMonth(r).value) + 1 == MonthIndex(ParseYearMonth(s).value)
  {
    match ParseYearMonth(s)
    case None => ""
    case Some(ym) =>
      var prev := if ym.month == 1 then YearMonth(ym.year - 1, 12) else YearMonth(ym.year, ym.month - 1);
      if prev.year < 1 then ""
      else
        ParseFormat(prev);
        FormatYearMonth(prev)
  }

  /** On a canonical key the previous month is the canonical key of the
      calendar month before it, January going to December of the year
      before. */
  lemma PrevMonthOfCanonical(ym: YearMonth)
    requires ValidYearMonth(ym) && ym != YearMonth(1, 1)
    ensures GetPrevMonth(FormatYearMonth(ym))
         == FormatYearMonth(if ym.month == 1 then YearMonth(ym.year - 1, 12) else YearMonth(ym.year, ym.month - 1))
  {
    ParseFormat(ym);
    PrevMonthOfParsed(FormatYearMonth(ym), ym);
  }

  lemma PrevMonthOfParsed(s: string, ym: YearMonth)
    requires ParseYearMonth(s) == Some(ym) && ValidYearMonth(ym) && ym != YearMonth(1, 1)
    ensures GetPrevMonth(s)
         == FormatYearMonth(if ym.month == 1 then YearMonth(ym.year - 1, 12) else YearMonth(ym.year, ym.month - 1))
  {
  }

  lemma PrevMonthExamples()
    ensures GetPrevMonth("2024-03") == "2024-02"
    ensures GetPrevMonth("2024-01") == "2023-12"
    ensures GetPrevMonth("2024-1") == "2023-12"
  {
    assert ParseYearMonth("2024-03") == Some(YearMonth(2024, 3));
    assert ParseYearMonth("2024-01") == Some(YearMonth(2024, 1));
    assert ParseYearMonth("2024-1") == Some(YearMonth(2024, 1));
    assert FormatYearMonth(YearMonth(2024, 2)) == "2024-02";
    assert FormatYearMonth(YearMonth(2023, 12)) == "2023-12";
  }

  /** A month outside 1-12, January of year 1 and the empty key give "". */
  lemma PrevMonthRejects()
    ensures GetPrevMonth("2024-13") == ""
    ensures GetPrevMonth("0001-01") == ""
    ensures GetPrevMonth("") == ""
  {
    assert ParseYearMonth("0001-01") == Some(YearMonth(1, 1));
  }

  // ---------------------------------------------------------------------
  // month_to_num: int(month_str.replace("-", ""))

  /** The characters Python's `int()` strips from both ends. */
  predicate IsPyWhitespace(c: char)
  {
    || ('\U{0009}' <= c <= '\U{000D}') || ('\U{001C}' <= c <= '\U{001F}')
    || c == '\U{0020}' || c == '\U{0085}' || c == '\U{00A0}' || c == '\U{1680}'
    || ('\U{2000}' <= c <= '\U{200A}') || c == '\U{2028}' || c == '\U{2029}'
    || c == '\U{202F}' || c == '\U{205F}' || c == '\U{3000}'
  }

  function StripLeft(s: string): (r: string)
    ensures |r| <= |s| && (r != [] ==> !IsPyWhitespace(r[0]))
  {
    if s != [] && IsPyWhitespace(s[0]) then StripLeft(s[1..]) else s
  }

  function StripRight(s: string): (r: string)
    ensures |r| <= |s| && (r != [] ==> !IsPyWhitespace(r[|r| - 1]))
  {
    if s != [] && IsPyWhitespace(s[|s| - 1]) then StripRight(s[..|s| - 1]) else s
  }

  /** Digits with single underscores between them, as `int()` accepts. */
  predicate IsDigitRun(b: string)
  {
    && |b| > 0 && IsDigit(b[0]) && IsDigit(b[|b| - 1])
    && (forall i :: 0 <= i < |b| ==> IsDigit(b[i]) || b[i] == '_')
    && (forall i :: 0 <= i < |b| - 1 ==> b[i] != '_' || b[i + 1] != '_')
  }

  /** The decimal value of a digit run, underscores (and any other
      non-digit) skipped. */
  function DigitsValue(b: string): nat
  {
    if b == [] then 0
    else if !IsDigit(b[|b| - 1]) then DigitsValue(b[..|b| - 1])
    else 10 * DigitsValue(b[..|b| - 1]) + DigitValue(b[|b| - 1])
  }

  /** The most digits `int()` converts from a decimal string
      (`sys.int_info.default_max_str_digits`, the limit on integer string
      conversion in CPython 3.11 and later and in the 3.7.14, 3.8.14, 3.9.14
      and 3.10.7 security releases). */
  const MaxStrDigits: nat := 4300

  /** The digits of a string, underscores not counted. */
  function DigitCount(b: string): (n: nat)
    ensures n <= |b|
  {
    if b == [] then 0
    else DigitCount(b[..|b| - 1]) + (if IsDigit(b[|b| - 1]) then 1 else 0)
  }

  /** Python's `int(t)` on a string, `None` where it raises `ValueError`:
      not a signed digit run, or more than `MaxStrDigits` digits. */
  function PyInt(t: string): Option<int>
  {
    var u := StripRight(StripLeft(t));
    var negative := |u| > 0 && u[0] == '-';
    var body := if |u| > 0 && (u[0] == '+' || u[0] == '-') then u[1..] else u;
    if IsDigitRun(body) && DigitCount(body) <= MaxStrDigits then
      var n: int := if negative then 0 - DigitsValue(body) as int else DigitsValue(body);
      Some(n)
    else None
  }

  predicate NotDash(c: char)
  {
    c != '-'
  }

  function RemoveDashes(s: string): string
  {
    Seqs.Filter(s, NotDash)
  }

  /** `month_to_num`: the key as the number YYYYMM, 0 when it does not
      convert. */
  function MonthToNum(s: string): int
  {
    match PyInt(RemoveDashes(s))
    case None => 0
    case Some(n) => n
  }

  lemma PrefixStep(b: string, k: nat)
    requires k < |b| && IsDigit(b[k])
    ensures DigitsValue(b[..k + 1]) == 10 * DigitsValue(b[..k]) + DigitValue(b[k])
  {
    assert b[..k + 1][..k] == b[..k];
  }

  lemma Horner6(v1: int, v2: int, v3: int, v4: int, v5: int, v6: int, d0: int, d1: int, d2: int, d3: int, d4: int, d5: int)
    requires v1 == d0 && v2 == 10 * v1 + d1 && v3 == 10 * v2 + d2
    requires v4 == 10 * v3 + d3 && v5 == 10 * v4 + d4 && v6 == 10 * v5 + d5
    ensures v6 == 100000 * d0 + 10000 * d1 + 1000 * d2 + 100 * d3 + 10 * d4 + d5
  {
  }

  lemma SixDigitsValue(b: string)
    requires |b| == 6 && forall i :: 0 <= i < 6 ==> IsDigit(b[i])
    ensures DigitsValue(b) == 100000 * DigitValue(b[0]) + 10000 * DigitValue(b[1]) + 1000 * DigitValue(b[2])
                            + 100 * DigitValue(b[3]) + 10 * DigitValue(b[4]) + DigitValue(b[5])
  {
    assert b[..0] == [] && b[..6] == b;
    PrefixStep(b, 0);
    PrefixStep(b, 1);
    PrefixStep(b, 2);
    PrefixStep(b, 3);
    PrefixStep(b, 4);
    PrefixStep(b, 5);
    Horner6(DigitsValue(b[..1]), DigitsValue(b[..2]), DigitsValue(b[..3]), DigitsValue(b[..4]), DigitsValue(b[..5]), DigitsValue(b),
            DigitValue(b[0]), DigitValue(b[1]), DigitValue(b[2]), DigitValue(b[3]), DigitValue(b[4]), DigitValue(b[5]));
  }

  lemma RemoveDashesOfFormat(ym: YearMonth)
    requires ValidYearMonth(ym)
    ensures RemoveDashes(FormatYearMonth(ym)) == Pad4(ym.year) + Pad2(ym.month)
  {
    var p := NotDash;
    var a, b := Pad4(ym.year), Pad2(ym.month);
    assert FormatYearMonth(ym) == (a + "-") + b;
    Seqs.FilterConcat(a + "-", b, p);
    Seqs.FilterConcat(a, "-", p);
    Seqs.FilterAll(a, p);
    Seqs.FilterAll(b, p);
    Seqs.FilterNone("-", p);
  }

  /** A canonical key converts to YYYYMM. */
  lemma MonthToNumOfFormat(ym: YearMonth)
    requires ValidYearMonth(ym)
    ensures MonthToNum(FormatYearMonth(ym)) == 100 * ym.year + ym.month
  {
    var b := Pad4(ym.year) + Pad2(ym.month);
    RemoveDashesOfFormat(ym);
    assert StripLeft(b) == b;
    assert StripRight(b) == b;
    assert IsDigitRun(b);
    SixDigitsValue(b);
    Pad4Value(ym.year);
  }

  /** On canonical keys, comparing month numbers is comparing calendar
      months, which the trend filter and the trend sort rely on. */
  lemma MonthToNumOrder(a: YearMonth, b: YearMonth)
    requires ValidYearMonth(a) && ValidYearMonth(b)
    ensures MonthToNum(FormatYearMonth(a)) <= MonthToNum(FormatYearMonth(b)) <==> MonthIndex(a) <= MonthIndex(b)
  {
    MonthToNumOfFormat(a);
    MonthToNumOfFormat(b);
    if a.year < b.year {
      assert 100 * a.year + 100 <= 100 * b.year;
      assert 12 * a.year + 12 <= 12 * b.year;
    } else if a.year > b.year {
      assert 100 * b.year + 100 <= 100 * a.year;
      assert 12 * b.year + 12 <= 12 * a.year;
    }
  }

  /** The previous month of a canonical key sorts before it. */
  lemma PrevMonthSortsBefore(ym: YearMonth)
    requires ValidYearMonth(ym) && ym != YearMonth(1, 1)
    ensures MonthToNum(GetPrevMonth(FormatYearMonth(ym))) < MonthToNum(FormatYearMonth(ym))
  {
    var prev := if ym.month == 1 then YearMonth(ym.year - 1, 12) else YearMonth(ym.year, ym.month - 1);
    PrevMonthOfCanonical(ym);
    MonthToNumOrder(ym, prev);
  }

  /** A character `int()` can never accept: not a digit, an underscore, a
      sign, a dash (removed before the conversion) or whitespace. */
  predicate IsForeign(c: char)
  {
    !IsDigit(c) && c != '_' && c != '-' && c != '+' && !IsPyWhitespace(c)
  }

  /** A key holding a character that `int()` cannot accept, wherever it
      stands, converts to 0 (`"2024-05x"`, `"abc"`, `"2024/05"`). */
  lemma MonthToNumMalformed(s: string, k: nat)
    requires k < |s| && IsForeign(s[k])
    ensures MonthToNum(s) == 0
  {
    var c := s[k];
    var t := RemoveDashes(s);
    Seqs.FilterMembers(s, NotDash);
    assert c in t;
    StripLeftKeeps(t, c);
    StripRightKeeps(StripLeft(t), c);
    var u := StripRight(StripLeft(t));
    var body := if |u| > 0 && (u[0] == '+' || u[0] == '-') then u[1..] else u;
    assert c in body by {
      if |u| > 0 && (u[0] == '+' || u[0] == '-') {
        assert u == [u[0]] + u[1..];
      }
    }
    var j :| 0 <= j < |body| && body[j] == c;
    assert !IsDigitRun(body);
  }

  /** A key with no digit at all converts to 0 (`""`, `"-"`, `"N/A"`). */
  lemma MonthToNumWithoutDigits(s: string)
    requires forall k :: 0 <= k < |s| ==> !IsDigit(s[k])
    ensures MonthToNum(s) == 0
  {
    var t := RemoveDashes(s);
    Seqs.FilterMembers(s, NotDash);
    var u := StripRight(StripLeft(t));
    var body := if |u| > 0 && (u[0] == '+' || u[0] == '-') then u[1..] else u;
    if |body| > 0 {
      assert body[0] in u by {
        if |u| > 0 && (u[0] == '+' || u[0] == '-') {
          assert u == [u[0]] + u[1..];
        }
      }
      StripRightWithin(StripLeft(t), body[0]);
      StripLeftWithin(t, body[0]);
      assert !IsDigit(body[0]);
    }
  }

  /** `strip` only removes whitespace. */
  lemma {:induction false} StripLeftKeeps(s: string, c: char)
    requires c in s && !IsPyWhitespace(c)
    ensures c in StripLeft(s)
    decreases |s|
  {
    if s != [] && IsPyWhitespace(s[0]) {
      assert s == [s[0]] + s[1..];
      StripLeftKeeps(s[1..], c);
    }
  }

  lemma {:induction false} StripRightKeeps(s: string, c: char)
    requires c in s && !IsPyWhitespace(c)
    ensures c in StripRight(s)
    decreases |s|
  {
    if s != [] && IsPyWhitespace(s[|s| - 1]) {
      assert s == s[..|s| - 1] + [s[|s| - 1]];
      StripRightKeeps(s[..|s| - 1], c);
    }
  }

  /** `strip` adds nothing. */
  lemma {:induction false} StripLeftWithin(s: string, c: char)
    requires c in StripLeft(s)
    ensures c in s
    decreases |s|
  {
    if s != [] && IsPyWhitespace(s[0]) {
      StripLeftWithin(s[1..], c);
    }
  }

  lemma {:induction false} StripRightWithin(s: string, c: char)
    requires c in StripRight(s)
    ensures c in s
    decreases |s|
  {
    if s != [] && IsPyWhitespace(s[|s| - 1]) {
      StripRightWithin(s[..|s| - 1], c);
      assert s == s[..|s| - 1] + [s[|s| - 1]];
    }
  }

  /** `int()` strips surrounding whitespace before reading the digits. */
  lemma PyIntStrips()
    ensures PyInt(" 202405\n") == Some(202405)
  {
    assert StripLeft(" 202405\n") == "202405\n";
    assert StripRight("202405\n") == "202405";
    SixDigitsValue("202405");
    assert IsDigitRun("202405");
  }

  /** `int()` rejects a doubled underscore and a sign without digits. */
  lemma PyIntRejects()
    ensures PyInt("2__0") == None
    ensures PyInt("+") == None
  {
    assert StripLeft("2__0") == "2__0";
    assert StripRight("2__0") == "2__0";
    assert "2__0"[1] == '_' && "2__0"[2] == '_';
    assert StripLeft("+") == "+";
    assert StripRight("+") == "+";
  }

  /** A run of digits longer than the conversion limit makes `int()` raise,
      so such a key converts to 0. */
  lemma PyIntDigitLimit(b: string)
    requires |b| > MaxStrDigits && forall i :: 0 <= i < |b| ==> IsDigit(b[i])
    ensures PyInt(b) == None
    ensures MonthToNum(b) == 0
  {
    AllDigitsCount(b);
    assert StripLeft(b) == b;
    assert StripRight(b) == b;
    Seqs.FilterAll(b, NotDash);
  }

  lemma {:induction false} AllDigitsCount(b: string)
    requires forall i :: 0 <= i < |b| ==> IsDigit(b[i])
    ensures DigitCount(b) == |b|
    decreases |b|
  {
    if b != [] {
      AllDigitsCount(b[..|b| - 1]);
    }
  }
}
