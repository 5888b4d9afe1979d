/**
 The text of the build stamp: `{year:04}-{month:02}-{day:02}T{hour:02}:{minute:02}:{second:02}Z`,
 read back by a parser for the fixed-width form of section 5.6 of RFC 3339.
 */
module TimestampText {
  import opened Calendar
  import opened Wrappers

  // ---------- Printing ----------

  function Digit(d: int): char
    requires 0 <= d < 10
  {
    '0' + d as char
  }

  function Digits(n: nat): (s: string)
    ensures |s| > 0
  {
    if n < 10 then [Digit(n)] else Digits(n / 10) + [Digit(n % 10)]
  }

  function ZeroPad(s: string, w: nat): string
    decreases w - |s|
  {
    if |s| >= w then s else ZeroPad("0" + s, w)
  }

  /** `{n:0w}`: zero padding after the sign, which counts toward the width. */
  function FormatInt(n: int, w: nat): string
    requires w > 0
  {
    if n >= 0 then ZeroPad(Digits(n), w) else "-" + ZeroPad(Digits(-n), w - 1)
  }

  function Format(t: DateTime): string {
    FormatInt(t.date.year, 4) + ("-" + (FormatInt(t.date.month, 2) + ("-" + (FormatInt(t.date.day, 2)
    + ("T" + (FormatInt(t.hour, 2) + (":" + (FormatInt(t.minute, 2) + (":" + (FormatInt(t.second, 2) + "Z"))))))))))
  }

  /** `iso8601_utc_now`, given the clock's count of seconds. */
  function Stamp(clock: u64): string {
    Format(EpochToYmdHms(AsI64(clock)))
  }

  // ---------- Reading ----------

  predicate AllDigits(s: string) {
    forall i :: 0 <= i < |s| ==> '0' <= s[i] <= '9'
  }

  function NumberOf(s: string): nat
    requires AllDigits(s)
  {
    if s == "" then 0 else 10 * NumberOf(s[..|s| - 1]) + (s[|s| - 1] - '0') as int
  }

  /** The fixed-width date-time of RFC 3339 with a `Z` offset; calendar ranges are checked. */
  function Parse(s: string): Option<DateTime> {
    if |s| != 20 then None
    else if !(s[4] == '-' && s[7] == '-' && s[10] == 'T' && s[13] == ':' && s[16] == ':' && s[19] == 'Z') then None
    else if !(AllDigits(s[..4]) && AllDigits(s[5..7]) && AllDigits(s[8..10]) && AllDigits(s[11..13])
              && AllDigits(s[14..16]) && AllDigits(s[17..19])) then None
    else
      var t := DateTime(Date(NumberOf(s[..4]), NumberOf(s[5..7]), NumberOf(s[8..10])),
                        NumberOf(s[11..13]), NumberOf(s[14..16]), NumberOf(s[17..19]));
      if ValidDateTime(t) then Some(t) else None
  }

  // ---------- Fixed-width numbers ----------

  function Pow10(w: nat): nat {
    if w == 0 then 1 else 10 * Pow10(w - 1)
  }

  /** The last `w` decimal digits of `n`. */
  function Fixed(n: nat, w: nat): (s: string)
    ensures |s| == w
  {
    if w == 0 then "" else Fixed(n / 10, w - 1) + [Digit(n % 10)]
  }

  lemma {:induction false} ZeroPadSnoc(s: string, c: char, w: nat)
    requires w > 0
    ensures ZeroPad(s + [c], w) == ZeroPad(s, w - 1) + [c]
    decreases w - |s|
  {
    if |s| + 1 < w {
      assert "0" + (s + [c]) == ("0" + s) + [c];
      ZeroPadSnoc("0" + s, c, w);
    }
  }

  lemma {:induction false} ZeroesAreFixed(w: nat)
    ensures ZeroPad("", w) == Fixed(0, w)
  {
    if w > 0 {
      assert "0" + "" == "" + ['0'];
      ZeroPadSnoc("", '0', w);
      ZeroesAreFixed(w - 1);
    }
  }

  /** A number that fits the width prints as exactly its last `w` digits. */
  lemma {:induction false} FormatIsFixed(n: nat, w: nat)
    requires w > 0 && n < Pow10(w)
    ensures FormatInt(n, w) == Fixed(n, w)
  {
    if n < 10 {
      assert [Digit(n)] == "" + [Digit(n)];
      ZeroPadSnoc("", Digit(n), w);
      ZeroesAreFixed(w - 1);
    } else {
      ZeroPadSnoc(Digits(n / 10), Digit(n % 10), w);
      assert w > 1;
      FormatIsFixed(n / 10, w - 1);
    }
  }

  lemma {:induction false} FixedReadsBack(n: nat, w: nat)
    requires n < Pow10(w)
    ensures AllDigits(Fixed(n, w)) && NumberOf(Fixed(n, w)) == n
  {
    if w > 0 {
      FixedReadsBack(n / 10, w - 1);
      assert Fixed(n, w)[..w - 1] == Fixed(n / 10, w - 1);
    }
  }

  lemma {:induction false} ReadPrintsBack(s: string)
    requires AllDigits(s)
    ensures NumberOf(s) < Pow10(|s|) && Fixed(NumberOf(s), |s|) == s
  {
    if s != "" {
      var init, d := s[..|s| - 1], (s[|s| - 1] - '0') as int;
      ReadPrintsBack(init);
      assert NumberOf(s) / 10 == NumberOf(init) && NumberOf(s) % 10 == d;
      assert s == init + [Digit(d)];
    }
  }

  // ---------- String order ----------

  /** Dictionary order on strings, as `<` on Rust and JavaScript strings of ASCII. */
  predicate LexLess(a: string, b: string) {
    b != "" && (a == "" || a[0] < b[0] || (a[0] == b[0] && LexLess(a[1..], b[1..])))
  }

  lemma {:induction false} LexConcat(a: string, b: string, c: string, d: string)
    requires |a| == |c|
    ensures LexLess(a + b, c + d) <==> LexLess(a, c) || (a == c && LexLess(b, d))
  {
    if a == "" {
      assert a + b == b && c + d == d;
    } else {
      assert (a + b)[1..] == a[1..] + b && (c + d)[1..] == c[1..] + d;
      assert a == [a[0]] + a[1..] && c == [c[0]] + c[1..];
      LexConcat(a[1..], b, c[1..], d);
    }
  }

  lemma {:induction false} LexIrreflexive(a: string)
    ensures !LexLess(a, a)
  {
    if a != "" {
      LexIrreflexive(a[1..]);
    }
  }

  /** On equal widths dictionary order is numeric order. */
  lemma {:induction false} FixedOrder(a: nat, b: nat, w: nat)
    requires a < Pow10(w) && b < Pow10(w)
    ensures LexLess(Fixed(a, w), Fixed(b, w)) <==> a < b
    ensures Fixed(a, w) == Fixed(b, w) <==> a == b
  {
    FixedReadsBack(a, w);
    FixedReadsBack(b, w);
    if w > 0 {
      FixedOrder(a / 10, b / 10, w - 1);
      LexConcat(Fixed(a / 10, w - 1), [Digit(a % 10)], Fixed(b / 10, w - 1), [Digit(b % 10)]);
    }
  }

  /** One field and its separator: compare the field first, then the rest. */
  lemma FieldOrder(a: nat, b: nat, w: nat, sep: string, x: string, y: string)
    requires a < Pow10(w) && b < Pow10(w) && |sep| == 1
    ensures LexLess(Fixed(a, w) + (sep + x), Fixed(b, w) + (sep + y)) <==> a < b || (a == b && LexLess(x, y))
  {
    FixedOrder(a, b, w);
    LexConcat(Fixed(a, w), sep + x, Fixed(b, w), sep + y);
    LexConcat(sep, x, sep, y);
    LexIrreflexive(sep);
  }

  // ---------- The printed form ----------

  predicate FourDigitYear(t: DateTime) {
    0 <= t.date.year <= 9999
  }

  function Fields(t: DateTime): string
    requires ValidDateTime(t) && FourDigitYear(t)
  {
    Fixed(t.date.year, 4) + ("-" + (Fixed(t.date.month, 2) + ("-" + (Fixed(t.date.day, 2)
    + ("T" + (Fixed(t.hour, 2) + (":" + (Fixed(t.minute, 2) + (":" + (Fixed(t.second, 2) + "Z"))))))))))
  }

  lemma PowersOfTen()
    ensures Pow10(2) == 100 && Pow10(4) == 10_000
  {
    assert Pow10(1) == 10;
    assert Pow10(3) == 10 * Pow10(2);
  }

  lemma FormatIsFields(t: DateTime)
    requires ValidDateTime(t) && FourDigitYear(t)
    ensures Format(t) == Fields(t) && |Format(t)| == 20
  {
    PowersOfTen();
    FormatIsFixed(t.date.year, 4);
    FormatIsFixed(t.date.month, 2);
    FormatIsFixed(t.date.day, 2);
    FormatIsFixed(t.hour, 2);
    FormatIsFixed(t.minute, 2);
    FormatIsFixed(t.second, 2);
  }

  /** The six fields and six separators of a 20-character string. */
  function Pieces(s: string): string
    requires |s| == 20
  {
    s[..4] + ([s[4]] + (s[5..7] + ([s[7]] + (s[8..10] + ([s[10]]
    + (s[11..13] + ([s[13]] + (s[14..16] + ([s[16]] + (s[17..19] + [s[19]]))))))))))
  }

  lemma PiecesRejoin(s: string)
    requires |s| == 20
    ensures Pieces(s) == s
  {
  }

  /** A field, its separator and the rest, found at position `k` of a string. */
  lemma FieldAt(s: string, k: nat, field: string, separator: char, rest: string)
    requires k <= |s| && s[k..] == field + ([separator] + rest)
    ensures k + |field| < |s| && s[k..k + |field|] == field && s[k + |field|] == separator
    ensures s[k + |field| + 1..] == rest
  {
    var t := s[k..];
    assert t[..|field|] == field && t[|field|] == separator && t[|field| + 1..] == rest;
    assert s[k..k + |field|] == t[..|field|] && s[k + |field| + 1..] == t[|field| + 1..];
  }

  lemma FieldSlices(t: DateTime)
    requires ValidDateTime(t) && FourDigitYear(t)
    ensures var s := Fields(t);
            && |s| == 20
            && s[..4] == Fixed(t.date.year, 4) && s[5..7] == Fixed(t.date.month, 2)
            && s[8..10] == Fixed(t.date.day, 2) && s[11..13] == Fixed(t.hour, 2)
            && s[14..16] == Fixed(t.minute, 2) && s[17..19] == Fixed(t.second, 2)
            && s[4] == '-' && s[7] == '-' && s[10] == 'T' && s[13] == ':' && s[16] == ':' && s[19] == 'Z'
  {
    var s := Fields(t);
    var s6 := Fixed(t.second, 2) + ("Z" + "");
    var s5 := Fixed(t.minute, 2) + (":" + s6);
    var s4 := Fixed(t.hour, 2) + (":" + s5);
    var s3 := Fixed(t.date.day, 2) + ("T" + s4);
    var s2 := Fixed(t.date.month, 2) + ("-" + s3);
    assert "Z" + "" == "Z";
    assert s[0..] == s;
    FieldAt(s, 0, Fixed(t.date.year, 4), '-', s2);
    FieldAt(s, 5, Fixed(t.date.month, 2), '-', s3);
    FieldAt(s, 8, Fixed(t.date.day, 2), 'T', s4);
    FieldAt(s, 11, Fixed(t.hour, 2), ':', s5);
    FieldAt(s, 14, Fixed(t.minute, 2), ':', s6);
    FieldAt(s, 17, Fixed(t.second, 2), 'Z', "");
  }

  lemma FixedFieldsReadBack(t: DateTime)
    requires ValidDateTime(t) && FourDigitYear(t)
    ensures AllDigits(Fixed(t.date.year, 4)) && NumberOf(Fixed(t.date.year, 4)) == t.date.year
    ensures forall n: nat :: n < 100 ==> AllDigits(Fixed(n, 2)) && NumberOf(Fixed(n, 2)) == n
  {
    PowersOfTen();
    FixedReadsBack(t.date.year, 4);
    forall n: nat | n < 100
      ensures AllDigits(Fixed(n, 2)) && NumberOf(Fixed(n, 2)) == n
    {
      FixedReadsBack(n, 2);
    }
  }

  /** A printed date-time with a four-digit year reads back as itself. */
  lemma ParseUndoesFormat(t: DateTime)
    requires ValidDateTime(t) && FourDigitYear(t)
    ensures Parse(Format(t)) == Some(t)
  {
    FormatIsFields(t);
    FieldSlices(t);
    FixedFieldsReadBack(t);
  }

  /** Whatever the reader accepts is what the printer prints for it. */
  lemma FormatUndoesParse(s: string)
    requires Parse(s).Some?
    ensures Format(Parse(s).value) == s
  {
    var t := Parse(s).value;
    PowersOfTen();
    ReadPrintsBack(s[..4]);
    ReadPrintsBack(s[5..7]);
    ReadPrintsBack(s[8..10]);
    ReadPrintsBack(s[11..13]);
    ReadPrintsBack(s[14..16]);
    ReadPrintsBack(s[17..19]);
    FormatIsFields(t);
    PiecesRejoin(s);
    assert Fields(t) == Pieces(s);
  }

  /** Section 5.1 of RFC 3339: sorting the strings sorts the times. */
  lemma StringOrderIsTimeOrder(a: DateTime, b: DateTime)
    requires ValidDateTime(a) && ValidDateTime(b) && FourDigitYear(a) && FourDigitYear(b)
    ensures LexLess(Format(a), Format(b)) <==> TimeBefore(a, b)
  {
    FormatIsFields(a);
    FormatIsFields(b);
    PowersOfTen();
    var a5, b5 := Fixed(a.second, 2) + ("Z" + ""), Fixed(b.second, 2) + ("Z" + "");
    FieldOrder(a.second, b.second, 2, "Z", "", "");
    assert "Z" + "" == "Z";
    var a4, b4 := Fixed(a.minute, 2) + (":" + a5), Fixed(b.minute, 2) + (":" + b5);
    FieldOrder(a.minute, b.minute, 2, ":", a5, b5);
    var a3, b3 := Fixed(a.hour, 2) + (":" + a4), Fixed(b.hour, 2) + (":" + b4);
    FieldOrder(a.hour, b.hour, 2, ":", a4, b4);
    var a2, b2 := Fixed(a.date.day, 2) + ("T" + a3), Fixed(b.date.day, 2) + ("T" + b3);
    FieldOrder(a.date.day, b.date.day, 2, "T", a3, b3);
    var a1, b1 := Fixed(a.date.month, 2) + ("-" + a2), Fixed(b.date.month, 2) + ("-" + b2);
    FieldOrder(a.date.month, b.date.month, 2, "-", a2, b2);
    FieldOrder(a.date.year, b.date.year, 4, "-", a1, b1);
  }

  // ---------- Any year ----------

  lemma {:induction false} DigitsRead(n: nat)
    ensures AllDigits(Digits(n)) && NumberOf(Digits(n)) == n
    ensures n > 0 ==> Digits(n)[0] != '0'
  {
    if n >= 10 {
      DigitsRead(n / 10);
      assert Digits(n)[..|Digits(n)| - 1] == Digits(n / 10);
    } else {
      assert Digits(n)[..0] == "";
    }
  }

  lemma {:induction false} LeadingZero(s: string)
    requires AllDigits(s)
    ensures AllDigits("0" + s) && NumberOf("0" + s) == NumberOf(s)
  {
    var z := "0" + s;
    if s == "" {
      assert z == "0" && z[..0] == "";
    } else {
      LeadingZero(s[..|s| - 1]);
      assert z[..|z| - 1] == "0" + s[..|s| - 1];
    }
  }

  lemma {:induction false} ZeroPadReads(s: string, w: nat)
    requires AllDigits(s)
    ensures AllDigits(ZeroPad(s, w)) && NumberOf(ZeroPad(s, w)) == NumberOf(s)
    ensures |ZeroPad(s, w)| == if |s| >= w then |s| else w
    ensures |s| >= w ==> ZeroPad(s, w) == s
    decreases w - |s|
  {
    if |s| < w {
      LeadingZero(s);
      ZeroPadReads("0" + s, w);
    }
  }

  /** `{n:0w}` of any integer: a minus sign if negative, and digits that read as its size, padded just to the width. */
  lemma FormatIntReads(n: int, w: nat)
    requires w > 0
    ensures var s := FormatInt(n, w);
            && |s| >= w
            && (n < 0 ==> s[0] == '-')
            && var digits := if n < 0 then s[1..] else s;
               && AllDigits(digits) && NumberOf(digits) == (if n < 0 then -n else n)
               && (|s| > w && n != 0 ==> digits[0] != '0')
  {
    var size := if n < 0 then -n else n;
    DigitsRead(size);
    ZeroPadReads(Digits(size), if n < 0 then w - 1 else w);
    if n < 0 {
      assert FormatInt(n, w)[1..] == ZeroPad(Digits(-n), w - 1);
    }
  }

  /** The date-time in the leap year 2000. */
  function InYear2000(t: DateTime): DateTime {
    t.(date := t.date.(year := 2000))
  }

  /** Whatever the year, the text is the year's followed by what year 2000 prints after its own. */
  lemma FormatOfAnyYear(t: DateTime)
    requires ValidDateTime(t)
    ensures ValidDateTime(InYear2000(t)) && FourDigitYear(InYear2000(t))
    ensures var year := FormatInt(t.date.year, 4);
            |Format(InYear2000(t))| == 20 && Format(t) == year + Format(InYear2000(t))[4..]
  {
    var u := InYear2000(t);
    FormatIsFields(u);
    PowersOfTen();
    FormatIsFixed(2000, 4);
    var tail := Format(u)[4..];
    assert Format(u) == FormatInt(2000, 4) + tail;
  }

  // ---------- The stamp ----------

  /** The last second of year 9999. */
  const LAST_FOUR_DIGIT_SECOND: int := 253_402_300_799

  lemma YearBound(d: Date, limit: int)
    requires ValidDate(d)
    ensures d.year < limit <==> DayNumber(d) < YearStart(limit)
  {
    DayNumberInYear(d);
    if d.year < limit {
      YearStartMonotone(d.year + 1, limit);
    } else {
      YearStartMonotone(limit, d.year);
    }
  }

  lemma YearOfSeconds(t: DateTime, first: int, limit: int)
    requires ValidDateTime(t) && first == 1970 && limit == 10_000
    ensures SecondNumber(t) >= 0 ==> first <= t.date.year
    ensures t.date.year < limit <==> SecondNumber(t) <= LAST_FOUR_DIGIT_SECOND
  {
    var n := DayNumber(t.date);
    assert 0 <= SecondNumber(t) - n * 86_400 < 86_400;
    assert t.date.year < first <==> n < YearStart(first) by { YearBound(t.date, first); }
    assert t.date.year < limit <==> n < YearStart(limit) by { YearBound(t.date, limit); }
    assert YearStart(first) == 0 by { YearStartClosedForm(first); }
    assert YearStart(limit) == 2_932_897 by { YearStartClosedForm(limit); }
  }

  lemma FourDigitYearsEnd(secs: i64)
    requires secs >= 0
    ensures 1970 <= EpochToYmdHms(secs).date.year
    ensures EpochToYmdHms(secs).date.year <= 9999 <==> secs <= LAST_FOUR_DIGIT_SECOND
  {
    YearOfSeconds(EpochToYmdHms(secs), 1970, 10_000);
  }

  lemma TextOrderIsSecondOrder(t: DateTime, u: DateTime)
    requires ValidDateTime(t) && ValidDateTime(u) && FourDigitYear(t) && FourDigitYear(u)
    ensures LexLess(Format(t), Format(u)) <==> SecondNumber(t) < SecondNumber(u)
  {
    StringOrderIsTimeOrder(t, u);
    SecondNumberOrders(t, u);
  }

  lemma StampPrints(clock: u64) returns (t: DateTime)
    requires clock <= LAST_FOUR_DIGIT_SECOND
    ensures ValidDateTime(t) && FourDigitYear(t) && SecondNumber(t) == clock && Stamp(clock) == Format(t)
  {
    t := EpochToYmdHms(clock);
    FourDigitYearsEnd(clock);
  }

  /** Until year 9999 ends the stamp has 20 characters and reads back as the clock. */
  lemma StampFaithful(clock: u64)
    requires clock <= LAST_FOUR_DIGIT_SECOND
    ensures |Stamp(clock)| == 20
    ensures Parse(Stamp(clock)).Some? && SecondNumber(Parse(Stamp(clock)).value) == clock
  {
    var t := StampPrints(clock);
    FormatIsFields(t);
    ParseUndoesFormat(t);
  }

  /** And stamps sort as their clocks do. */
  lemma StampsSort(clock: u64, other: u64)
    requires clock <= LAST_FOUR_DIGIT_SECOND && other <= LAST_FOUR_DIGIT_SECOND
    ensures LexLess(Stamp(clock), Stamp(other)) <==> clock < other
  {
    var t := StampPrints(clock);
    var u := StampPrints(other);
    TextOrderIsSecondOrder(t, u);
  }

  lemma {:induction false} ZeroPadAtLeast(s: string, w: nat)
    ensures |ZeroPad(s, w)| == if |s| >= w then |s| else w
    decreases w - |s|
  {
    if |s| < w {
      ZeroPadAtLeast("0" + s, w);
    }
  }

  /** From year 10000 on the text is longer than the fixed-width form, and the reader rejects it. */
  lemma FiveDigitYears(t: DateTime)
    requires ValidDateTime(t) && t.date.year >= 10_000
    ensures |Format(t)| > 20 && Parse(Format(t)) == None
  {
    var y := t.date.year;
    assert |Digits(y / 1_000)| >= 2;
    assert |Digits(y / 100)| >= 3 by { assert y / 100 / 10 == y / 1_000; }
    assert |Digits(y / 10)| >= 4 by { assert y / 10 / 10 == y / 100; }
    assert |Digits(y)| >= 5;
    ZeroPadAtLeast(Digits(y), 4);
    ZeroPadAtLeast(Digits(t.date.month), 2);
    ZeroPadAtLeast(Digits(t.date.day), 2);
    ZeroPadAtLeast(Digits(t.hour), 2);
    ZeroPadAtLeast(Digits(t.minute), 2);
    ZeroPadAtLeast(Digits(t.second), 2);
  }

  /** What the reader accepts lies before year 10000. */
  lemma ParsedIsFourDigits(s: string)
    requires Parse(s).Some?
    ensures SecondNumber(Parse(s).value) <= LAST_FOUR_DIGIT_SECOND
  {
    PowersOfTen();
    ReadPrintsBack(s[..4]);
    YearOfSeconds(Parse(s).value, 1970, 10_000);
  }

  /**
   For every clock, the `as i64` wrap included, the stamp reads back exactly up to the end of year
   9999; after that, short of the wrap, it does not read at all.
   */
  lemma StampReadsBackExactlyWhen(clock: u64)
    ensures (Parse(Stamp(clock)).Some? && SecondNumber(Parse(Stamp(clock)).value) == clock)
       <==> clock <= LAST_FOUR_DIGIT_SECOND
    ensures LAST_FOUR_DIGIT_SECOND < clock == AsI64(clock) ==> Parse(Stamp(clock)).None?
  {
    if clock <= LAST_FOUR_DIGIT_SECOND {
      StampFaithful(clock);
    } else {
      if Parse(Stamp(clock)).Some? {
        ParsedIsFourDigits(Stamp(clock));
      }
      if clock == AsI64(clock) {
        FourDigitYearsEnd(clock);
        FiveDigitYears(EpochToYmdHms(clock));
      }
    }
  }
}
