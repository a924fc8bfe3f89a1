/** Canonical timestamps `YYYY-MM-DDTHH:mm:ss.nnnnnnnnnZ`: parsing, printing, and their order. */
module Timestamp {
  import opened Calendar
  import Json
  import opened JsonParse

  datatype Moment = Moment(date: Date, hour: int, minute: int, second: int, nanos: int)

  datatype ParseError = InvalidLexicalForm | InvalidCalendarDate
  datatype ClockError = ClockUnavailable | BeforeEpoch | YearOutOfRange | BeyondReflogRange
  datatype Outcome<+T, +E> = Done(value: T) | Failed(error: E)

  const BILLION := 1_000_000_000

  predicate ValidMoment(m: Moment) {
    && ValidDate(m.date) && m.date.year <= 9_999
    && 0 <= m.hour <= 23 && 0 <= m.minute <= 59 && 0 <= m.second <= 59
    && 0 <= m.nanos < BILLION
  }

  function SecondOfDay(m: Moment): int { m.hour * 3_600 + m.minute * 60 + m.second }

  function UnixNanos(m: Moment): int { (UnixDays(m.date) * 86_400 + SecondOfDay(m)) * BILLION + m.nanos }

  // ----- Text -----

  function Pow10(w: nat): (p: nat)
    ensures p > 0
  {
    if w == 0 then 1 else 10 * Pow10(w - 1)
  }

  /** `n` in decimal, zero-padded to `w` digits. */
  function Padded(n: nat, w: nat): (s: string)
    ensures |s| == w
  {
    if w == 0 then [] else Padded(n / 10, w - 1) + [Json.Digit(n % 10)]
  }

  lemma FieldWidths()
    ensures Pow10(2) == 100 && Pow10(4) == 10_000 && Pow10(9) == BILLION
  {
    assert Pow10(3) == 1_000 && Pow10(5) == 100_000 && Pow10(7) == 10_000_000;
  }

  function DateText(d: Date): string
    requires 0 <= d.year <= 9_999 && 0 <= d.month <= 99 && 0 <= d.day <= 99
  {
    Padded(d.year, 4) + "-" + Padded(d.month, 2) + "-" + Padded(d.day, 2)
  }

  function TimeText(h: int, m: int, s: int): string
    requires 0 <= h <= 99 && 0 <= m <= 99 && 0 <= s <= 99
  {
    Padded(h, 2) + ":" + Padded(m, 2) + ":" + Padded(s, 2)
  }

  function MomentText(m: Moment): string
    requires ValidMoment(m)
  {
    DateText(m.date) + "T" + TimeText(m.hour, m.minute, m.second) + "." + Padded(m.nanos, 9) + "Z"
  }

  // ----- Parser -----

  predicate Lexical(t: string) {
    && |t| == 30
    && t[4] == '-' && t[7] == '-' && t[10] == 'T' && t[13] == ':' && t[16] == ':' && t[19] == '.' && t[29] == 'Z'
    && forall i | 0 <= i < 30 && i !in {4, 7, 10, 13, 16, 19, 29} :: IsDigit(t[i])
  }

  function NumberAt(t: string, start: nat, end: nat): nat
    requires start <= end <= |t| && AllDigits(t[start..end])
  {
    NatOf(t[start..end])
  }

  function ReadMoment(t: string): Moment
    requires Lexical(t)
  {
    Moment(Date(NumberAt(t, 0, 4), NumberAt(t, 5, 7), NumberAt(t, 8, 10)),
           NumberAt(t, 11, 13), NumberAt(t, 14, 16), NumberAt(t, 17, 19), NumberAt(t, 20, 29))
  }

  function ParseTimestamp(t: string): Outcome<int, ParseError> {
    if !Lexical(t) then Failed(InvalidLexicalForm) else
    var m := ReadMoment(t);
    if !(1 <= m.date.month <= 12) || m.date.day == 0 || m.date.day > DaysInMonth(m.date.year, m.date.month)
       || m.hour > 23 || m.minute > 59 || m.second > 59
    then Failed(InvalidCalendarDate)
    else Done(UnixNanos(m))
  }

  // ----- Printer -----

  function MomentOf(seconds: int, nanos: nat): Moment {
    var ofDay := seconds % 86_400;
    Moment(CivilFromDays(seconds / 86_400), ofDay / 3_600, ofDay % 3_600 / 60, ofDay % 60, nanos)
  }

  function FormatTimestamp(seconds: int, nanos: nat): Outcome<string, ClockError>
    requires nanos < BILLION
  {
    if seconds < 0 then Failed(BeforeEpoch) else
    var m := MomentOf(seconds, nanos);
    if !(0 <= m.date.year <= 9_999) then Failed(YearOutOfRange) else
    MomentOfIsValid(seconds, nanos);
    Done(MomentText(m))
  }

  /** The moment printed for a second count is that second. */
  lemma MomentOfIsValid(seconds: int, nanos: nat)
    requires seconds >= 0 && nanos < BILLION
    ensures ValidDate(MomentOf(seconds, nanos).date)
    ensures MomentOf(seconds, nanos).date.year <= 9_999 ==> ValidMoment(MomentOf(seconds, nanos))
    ensures UnixNanos(MomentOf(seconds, nanos)) == seconds * BILLION + nanos
  {
    hide CivilFromDays, UnixDays, ValidDate;
    CivilDateCountsBack(seconds / 86_400);
    ClockParts(seconds % 86_400);
  }

  lemma ClockParts(ofDay: int)
    requires 0 <= ofDay < 86_400
    ensures 0 <= ofDay / 3_600 <= 23 && 0 <= ofDay % 3_600 / 60 <= 59 && 0 <= ofDay % 60 <= 59
    ensures ofDay / 3_600 * 3_600 + ofDay % 3_600 / 60 * 60 + ofDay % 60 == ofDay
  {
    var h, r := ofDay / 3_600, ofDay % 3_600;
    assert ofDay % 60 == r % 60 by {
      assert ofDay == 60 * (60 * h) + r;
    }
  }

  /** The four-digit year range in seconds. */
  lemma FormatSucceedsExactly(seconds: int, nanos: nat)
    requires nanos < BILLION
    ensures FormatTimestamp(seconds, nanos).Done? <==> 0 <= seconds < 253_402_300_800
  {
    hide CivilFromDays, UnixDays, MomentText;
    if seconds >= 0 {
      var days := seconds / 86_400;
      CivilDateCountsBack(days);
      var d, last := CivilFromDays(days), Date(9_999, 12, 31);
      assert UnixDays(last) == 2_932_896 && ValidDate(last) by { LastDay(); }
      if Before(last, d) { DaysFollowDates(last, d); }
      if Before(d, last) { DaysFollowDates(d, last); }
      assert seconds < 253_402_300_800 <==> days <= 2_932_896;
    }
  }

  lemma LastDay()
    ensures ValidDate(Date(9_999, 12, 31)) && UnixDays(Date(9_999, 12, 31)) == 2_932_896
  {
    DaysBeforeMonthTable(9_999, 12);
  }

  // ----- Digits -----

  lemma {:induction false} PaddedReadsBack(n: nat, w: nat)
    requires n < Pow10(w)
    ensures AllDigits(Padded(n, w)) && NatOf(Padded(n, w)) == n
  {
    hide Json.Digit;
    if w > 0 {
      PaddedReadsBack(n / 10, w - 1);
      DigitReads(n % 10);
      NatOfSnoc(Padded(n / 10, w - 1), Json.Digit(n % 10));
    }
  }

  lemma DigitReads(d: nat)
    requires d < 10
    ensures IsDigit(Json.Digit(d)) && Json.Digit(d) as int - '0' as int == d
  {
  }

  lemma NatOfSnoc(s: string, c: char)
    requires AllDigits(s) && IsDigit(c)
    ensures AllDigits(s + [c]) && NatOf(s + [c]) == NatOf(s) * 10 + (c as int - '0' as int)
  {
    assert (s + [c])[..|s|] == s;
  }

  lemma {:induction false} DigitsPadBack(s: string)
    requires AllDigits(s)
    ensures NatOf(s) < Pow10(|s|) && Padded(NatOf(s), |s|) == s
  {
    if s != [] {
      var k := |s| - 1;
      var init := s[..k];
      DigitsPadBack(init);
      var d := s[k] as int - '0' as int;
      DigitReads(d);
      assert NatOf(s) / 10 == NatOf(init) && NatOf(s) % 10 == d;
      assert s == init + [s[k]];
    }
  }

  // ----- Round trips -----

  lemma DateTextParts(d: Date)
    requires 0 <= d.year <= 9_999 && 0 <= d.month <= 99 && 0 <= d.day <= 99
    ensures var t := DateText(d);
            && |t| == 10 && t[4] == '-' && t[7] == '-'
            && t[0..4] == Padded(d.year, 4) && t[5..7] == Padded(d.month, 2) && t[8..10] == Padded(d.day, 2)
  {
    hide Padded;
  }

  lemma TimeTextParts(h: int, m: int, s: int)
    requires 0 <= h <= 99 && 0 <= m <= 99 && 0 <= s <= 99
    ensures var t := TimeText(h, m, s);
            && |t| == 8 && t[2] == ':' && t[5] == ':'
            && t[0..2] == Padded(h, 2) && t[3..5] == Padded(m, 2) && t[6..8] == Padded(s, 2)
  {
    hide Padded;
  }

  lemma MomentTextParts(m: Moment)
    requires ValidMoment(m)
    ensures var t := MomentText(m);
            && |t| == 30 && t[10] == 'T' && t[19] == '.' && t[29] == 'Z'
            && t[0..10] == DateText(m.date) && t[11..19] == TimeText(m.hour, m.minute, m.second)
            && t[20..29] == Padded(m.nanos, 9)
  {
    hide Padded, DateText, TimeText;
    DateTextParts(m.date);
    TimeTextParts(m.hour, m.minute, m.second);
  }

  lemma Slices(t: string)
    requires |t| == 30
    ensures t[0..10][0..4] == t[0..4] && t[0..10][5..7] == t[5..7] && t[0..10][8..10] == t[8..10]
    ensures t[11..19][0..2] == t[11..13] && t[11..19][3..5] == t[14..16] && t[11..19][6..8] == t[17..19]
    ensures t[0..10][4] == t[4] && t[0..10][7] == t[7] && t[11..19][2] == t[13] && t[11..19][5] == t[16]
  {
    SliceOfSlice(t, 0, 10, 0, 4);
    SliceOfSlice(t, 0, 10, 5, 7);
    SliceOfSlice(t, 0, 10, 8, 10);
    SliceOfSlice(t, 11, 19, 0, 2);
    SliceOfSlice(t, 11, 19, 3, 5);
    SliceOfSlice(t, 11, 19, 6, 8);
  }

  lemma SliceOfSlice(t: string, a: nat, b: nat, i: nat, j: nat)
    requires a <= b <= |t| && i <= j <= b - a
    ensures t[a..b][i..j] == t[a + i..a + j]
  {
    var s, r := t[a..b][i..j], t[a + i..a + j];
    assert |s| == |r|;
    forall k | 0 <= k < |s| ensures s[k] == r[k] {
      assert s[k] == t[a..b][i + k] == t[a + (i + k)];
    }
  }

  /** Digits in every field make the whole text lexical. */
  lemma LexicalFromFields(t: string)
    requires |t| == 30
    requires t[4] == '-' && t[7] == '-' && t[10] == 'T' && t[13] == ':' && t[16] == ':' && t[19] == '.' && t[29] == 'Z'
    requires AllDigits(t[0..4]) && AllDigits(t[5..7]) && AllDigits(t[8..10])
    requires AllDigits(t[11..13]) && AllDigits(t[14..16]) && AllDigits(t[17..19]) && AllDigits(t[20..29])
    ensures Lexical(t)
  {
    forall i | 0 <= i < 30 && i !in {4, 7, 10, 13, 16, 19, 29} ensures IsDigit(t[i]) {
      if i < 4 { assert t[i] == t[0..4][i]; }
      else if i < 7 { assert t[i] == t[5..7][i - 5]; }
      else if i < 10 { assert t[i] == t[8..10][i - 8]; }
      else if i < 13 { assert t[i] == t[11..13][i - 11]; }
      else if i < 16 { assert t[i] == t[14..16][i - 14]; }
      else if i < 19 { assert t[i] == t[17..19][i - 17]; }
      else { assert t[i] == t[20..29][i - 20]; }
    }
  }

  lemma MomentReadsBack(m: Moment)
    requires ValidMoment(m)
    ensures Lexical(MomentText(m)) && ReadMoment(MomentText(m)) == m
  {
    hide Padded, NatOf, DateText, TimeText, MomentText, AllDigits, Lexical, DaysInMonth;
    var t := MomentText(m);
    MonthFits(m.date);
    FieldWidths();
    DateTextParts(m.date);
    TimeTextParts(m.hour, m.minute, m.second);
    MomentTextParts(m);
    Slices(t);
    PaddedReadsBack(m.date.year, 4);
    PaddedReadsBack(m.date.month, 2);
    PaddedReadsBack(m.date.day, 2);
    PaddedReadsBack(m.hour, 2);
    PaddedReadsBack(m.minute, 2);
    PaddedReadsBack(m.second, 2);
    PaddedReadsBack(m.nanos, 9);
    LexicalFromFields(t);
  }

  lemma MonthFits(d: Date)
    requires ValidDate(d)
    ensures d.day <= 31
  {
  }

  /** Every printed timestamp parses to the instant it was printed for. */
  lemma PrintedTimestampParses(seconds: int, nanos: nat)
    requires nanos < BILLION && FormatTimestamp(seconds, nanos).Done?
    ensures ParseTimestamp(FormatTimestamp(seconds, nanos).value) == Done(seconds * BILLION + nanos)
  {
    hide MomentText, ReadMoment, Lexical, CivilFromDays, UnixNanos, MomentOf;
    MomentOfIsValid(seconds, nanos);
    MomentReadsBack(MomentOf(seconds, nanos));
  }

  /** A lexical text is the concatenation of its fields and separators. */
  lemma TextOfParts(t: string)
    requires Lexical(t)
    ensures t[0..10] == t[0..4] + "-" + t[5..7] + "-" + t[8..10]
    ensures t[11..19] == t[11..13] + ":" + t[14..16] + ":" + t[17..19]
    ensures t == t[0..10] + "T" + t[11..19] + "." + t[20..29] + "Z"
  {
  }

  lemma FieldsAreDigits(t: string)
    requires Lexical(t)
    ensures |t| == 30
    ensures AllDigits(t[0..4]) && AllDigits(t[5..7]) && AllDigits(t[8..10])
    ensures AllDigits(t[11..13]) && AllDigits(t[14..16]) && AllDigits(t[17..19]) && AllDigits(t[20..29])
  {
  }

  /** A text whose fields are in calendar range is exactly the text printed for them. */
  lemma MomentPrintsBack(t: string)
    requires ParseTimestamp(t).Done?
    ensures ValidMoment(ReadMoment(t)) && MomentText(ReadMoment(t)) == t
  {
    hide Padded, NatOf, AllDigits, Lexical, DaysInMonth;
    FieldWidths();
    FieldsAreDigits(t);
    DigitsPadBack(t[0..4]);
    DigitsPadBack(t[5..7]);
    DigitsPadBack(t[8..10]);
    DigitsPadBack(t[11..13]);
    DigitsPadBack(t[14..16]);
    DigitsPadBack(t[17..19]);
    DigitsPadBack(t[20..29]);
    TextOfParts(t);
  }

  /** The parser accepts exactly the fixed layout of a valid moment, before the epoch too, as that instant. */
  lemma AcceptedExactly(t: string, n: int)
    ensures ParseTimestamp(t) == Done(n) <==> exists m :: ValidMoment(m) && MomentText(m) == t && UnixNanos(m) == n
  {
    hide Padded, NatOf, AllDigits, Lexical, DaysInMonth, UnixDays, MomentText;
    if ParseTimestamp(t) == Done(n) { MomentPrintsBack(t); }
    if m :| ValidMoment(m) && MomentText(m) == t && UnixNanos(m) == n { MomentReadsBack(m); }
  }

  lemma MomentOfInverts(m: Moment)
    requires ValidMoment(m)
    ensures MomentOf(UnixNanos(m) / BILLION, UnixNanos(m) % BILLION) == m
  {
    hide CivilFromDays, UnixDays, DaysInMonth;
    var s := UnixDays(m.date) * 86_400 + SecondOfDay(m);
    Quotient(s, m.nanos, BILLION);
    Quotient(UnixDays(m.date), SecondOfDay(m), 86_400);
    CivilFromDaysInverts(m.date);
    ClockPartsBack(m.hour, m.minute, m.second);
  }

  lemma Quotient(q: int, r: int, d: int)
    requires 0 <= r < d
    ensures (q * d + r) / d == q && (q * d + r) % d == r
  {
    var n := q * d + r;
    assert n == d * (n / d) + n % d;
    assert d * (q - n / d) == n % d - r;
    SmallMultiple(d, q - n / d);
    SmallMultiple(d, n / d - q);
  }

  lemma SmallMultiple(d: int, k: int)
    requires d * k < d && 0 < d
    ensures k <= 0
  {
  }

  lemma ClockPartsBack(h: int, m: int, s: int)
    requires 0 <= h <= 23 && 0 <= m <= 59 && 0 <= s <= 59
    ensures var t := h * 3_600 + m * 60 + s; t / 3_600 == h && t % 3_600 / 60 == m && t % 60 == s
  {
    Quotient(h, m * 60 + s, 3_600);
    Quotient(m, s, 60);
    Quotient(h * 60 + m, s, 60);
    assert (h * 60 + m) * 60 + s == h * 3_600 + m * 60 + s;
  }

  /** Every accepted timestamp at or after the epoch is what the printer writes for its instant. */
  lemma AcceptedTimestampPrintsBack(t: string)
    requires ParseTimestamp(t).Done? && ParseTimestamp(t).value >= 0
    ensures var v := ParseTimestamp(t).value; FormatTimestamp(v / BILLION, v % BILLION) == Done(t)
  {
    hide MomentText, ReadMoment, Lexical, UnixNanos, MomentOf, DaysInMonth;
    MomentPrintsBack(t);
    MomentOfInverts(ReadMoment(t));
  }

  // ----- Order -----

  /** Byte order on ASCII texts. */
  ghost predicate Precedes(s: string, t: string) {
    (|s| < |t| && s == t[..|s|]) || exists k | 0 <= k < |s| && k < |t| :: s[..k] == t[..k] && s[k] < t[k]
  }

  lemma PrecedesIsAsymmetric(s: string, t: string)
    requires Precedes(s, t)
    ensures !Precedes(t, s) && s != t
  {
    if k :| 0 <= k < |s| && k < |t| && s[..k] == t[..k] && s[k] < t[k] {
      forall j | 0 <= j < |t| && j < |s| ensures !(t[..j] == s[..j] && t[j] < s[j]) {
        if k < j { assert t[..j][k] == t[k] && s[..j][k] == s[k]; }
        if j < k { assert t[..k][j] == t[j] && s[..k][j] == s[j]; }
      }
      if |t| < |s| { assert s[..|t|][k] == s[k]; }
    } else {
      forall j | 0 <= j < |t| && j < |s| ensures t[j] == s[j] {
        assert s[j] == t[..|s|][j];
      }
    }
  }

  /** The first differing field decides. */
  lemma FieldDecides(s: string, t: string, lo: nat, hi: nat)
    requires lo <= hi <= |s| && hi <= |t|
    requires s[..lo] == t[..lo] && Precedes(s[lo..hi], t[lo..hi])
    ensures Precedes(s, t)
  {
    var a, b := s[lo..hi], t[lo..hi];
    var k :| 0 <= k < |a| && k < |b| && a[..k] == b[..k] && a[k] < b[k];
    assert a[..k] == s[lo..lo + k] && b[..k] == t[lo..lo + k];
    assert s[..lo + k] == s[..lo] + a[..k] && t[..lo + k] == t[..lo] + b[..k];
    assert s[lo + k] == a[k] && t[lo + k] == b[k];
  }

  lemma {:induction false} PaddedOrder(m: nat, n: nat, w: nat)
    requires m < n < Pow10(w)
    ensures Precedes(Padded(m, w), Padded(n, w))
  {
    var a, b := Padded(m, w), Padded(n, w);
    if m / 10 < n / 10 {
      PaddedOrder(m / 10, n / 10, w - 1);
      assert a[0..w - 1] == Padded(m / 10, w - 1) && b[0..w - 1] == Padded(n / 10, w - 1);
      FieldDecides(a, b, 0, w - 1);
    } else {
      assert a[..w - 1] == b[..w - 1] && a[w - 1] < b[w - 1];
    }
  }

  lemma DateTextOrder(d: Date, e: Date)
    requires ValidDate(d) && ValidDate(e) && d.year <= 9_999 && e.year <= 9_999 && Before(d, e)
    ensures Precedes(DateText(d), DateText(e))
  {
    hide Padded, Precedes, DaysInMonth, DateText;
    MonthFits(d);
    MonthFits(e);
    FieldWidths();
    DateTextParts(d);
    DateTextParts(e);
    var s, t := DateText(d), DateText(e);
    if d.year < e.year {
      PaddedOrder(d.year, e.year, 4);
      FieldDecides(s, t, 0, 4);
    } else if d.month < e.month {
      PaddedOrder(d.month, e.month, 2);
      assert s[..5] == s[0..4] + "-" && t[..5] == t[0..4] + "-";
      FieldDecides(s, t, 5, 7);
    } else {
      PaddedOrder(d.day, e.day, 2);
      assert s[..8] == s[0..4] + "-" + s[5..7] + "-" && t[..8] == t[0..4] + "-" + t[5..7] + "-";
      FieldDecides(s, t, 8, 10);
    }
  }

  lemma TimeTextOrder(m: Moment, n: Moment)
    requires ValidMoment(m) && ValidMoment(n) && SecondOfDay(m) < SecondOfDay(n)
    ensures Precedes(TimeText(m.hour, m.minute, m.second), TimeText(n.hour, n.minute, n.second))
  {
    hide Padded, Precedes, ValidDate, TimeText;
    FieldWidths();
    TimeTextParts(m.hour, m.minute, m.second);
    TimeTextParts(n.hour, n.minute, n.second);
    var s, t := TimeText(m.hour, m.minute, m.second), TimeText(n.hour, n.minute, n.second);
    if m.hour < n.hour {
      PaddedOrder(m.hour, n.hour, 2);
      FieldDecides(s, t, 0, 2);
    } else if m.minute < n.minute {
      PaddedOrder(m.minute, n.minute, 2);
      assert s[..3] == s[0..2] + ":" && t[..3] == t[0..2] + ":";
      FieldDecides(s, t, 3, 5);
    } else {
      PaddedOrder(m.second, n.second, 2);
      assert s[..6] == s[0..2] + ":" + s[3..5] + ":" && t[..6] == t[0..2] + ":" + t[3..5] + ":";
      FieldDecides(s, t, 6, 8);
    }
  }

  /** Instants compare field by field. */
  lemma InstantsCompareByField(m: Moment, n: Moment)
    requires ValidMoment(m) && ValidMoment(n) && UnixNanos(m) < UnixNanos(n)
    ensures Before(m.date, n.date)
         || (m.date == n.date && SecondOfDay(m) < SecondOfDay(n))
         || (m.date == n.date && SecondOfDay(m) == SecondOfDay(n) && m.nanos < n.nanos)
  {
    hide UnixDays, DaysInMonth;
    if Before(n.date, m.date) {
      DaysFollowDates(n.date, m.date);
      assert false;
    }
  }

  lemma MomentTextOrder(m: Moment, n: Moment)
    requires ValidMoment(m) && ValidMoment(n) && UnixNanos(m) < UnixNanos(n)
    ensures Precedes(MomentText(m), MomentText(n))
  {
    hide Padded, Precedes, UnixNanos, SecondOfDay, DateText, TimeText, MomentText, DaysInMonth;
    InstantsCompareByField(m, n);
    MomentTextParts(m);
    MomentTextParts(n);
    var s, t := MomentText(m), MomentText(n);
    if Before(m.date, n.date) {
      DateTextOrder(m.date, n.date);
      FieldDecides(s, t, 0, 10);
    } else if SecondOfDay(m) < SecondOfDay(n) {
      TimeTextOrder(m, n);
      assert s[..11] == s[0..10] + "T" && t[..11] == t[0..10] + "T";
      FieldDecides(s, t, 11, 19);
    } else {
      FieldWidths();
      PaddedOrder(m.nanos, n.nanos, 9);
      SameTimeText(m, n);
      assert s[..20] == s[0..10] + "T" + s[11..19] + "." && t[..20] == t[0..10] + "T" + t[11..19] + ".";
      FieldDecides(s, t, 20, 29);
    }
  }

  lemma SameTimeText(m: Moment, n: Moment)
    requires ValidMoment(m) && ValidMoment(n) && SecondOfDay(m) == SecondOfDay(n)
    ensures TimeText(m.hour, m.minute, m.second) == TimeText(n.hour, n.minute, n.second)
  {
    hide ValidDate;
    ClockPartsBack(m.hour, m.minute, m.second);
    ClockPartsBack(n.hour, n.minute, n.second);
  }

  /** Accepted timestamps sort as texts exactly as they sort as instants, and equal instants are equal texts. */
  lemma TextOrderIsTimeOrder(s: string, t: string)
    requires ParseTimestamp(s).Done? && ParseTimestamp(t).Done?
    ensures Precedes(s, t) <==> ParseTimestamp(s).value < ParseTimestamp(t).value
    ensures s == t <==> ParseTimestamp(s).value == ParseTimestamp(t).value
  {
    hide Precedes, MomentText, ReadMoment, Lexical, UnixNanos, DaysInMonth;
    MomentPrintsBack(s);
    MomentPrintsBack(t);
    var m, n := ReadMoment(s), ReadMoment(t);
    if UnixNanos(m) < UnixNanos(n) {
      MomentTextOrder(m, n);
      PrecedesIsAsymmetric(s, t);
    } else if UnixNanos(n) < UnixNanos(m) {
      MomentTextOrder(n, m);
      PrecedesIsAsymmetric(t, s);
    } else {
      SameInstantSameMoment(m, n);
      if Precedes(s, t) { PrecedesIsAsymmetric(s, t); }
    }
  }

  lemma SameInstantSameMoment(m: Moment, n: Moment)
    requires ValidMoment(m) && ValidMoment(n) && UnixNanos(m) == UnixNanos(n)
    ensures m == n
  {
    hide UnixNanos, ValidMoment, MomentOf;
    MomentOfInverts(m);
    MomentOfInverts(n);
  }
}
