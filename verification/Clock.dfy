/** Whole-second UTC instants and their `isoformat` text, which has the fixed
    width of section 5.1 of RFC 3339. */
module Clock {
  import opened Text

  datatype Instant = Instant(year: nat, month: nat, day: nat, hour: nat, minute: nat, second: nat)

  predicate IsLeap(year: nat) {
    year % 4 == 0 && (year % 100 != 0 || year % 400 == 0)
  }

  function DaysInMonth(year: nat, month: nat): nat {
    if month == 2 then (if IsLeap(year) then 29 else 28)
    else if month in {4, 6, 9, 11} then 30
    else 31
  }

  /** The calendar, month by month, with a 29th of February every fourth year but not every
      hundredth, yet every four hundredth. */
  lemma {:induction false} Calendar(year: nat, month: nat)
    requires 1 <= month <= 12
    ensures month in {1, 3, 5, 7, 8, 10, 12} ==> DaysInMonth(year, month) == 31
    ensures month in {4, 6, 9, 11} ==> DaysInMonth(year, month) == 30
    ensures year % 4 != 0 || (year % 100 == 0 && year % 400 != 0) ==> DaysInMonth(year, 2) == 28
    ensures year % 400 == 0 || (year % 4 == 0 && year % 100 != 0) ==> DaysInMonth(year, 2) == 29
  {
    Centuries(year);
  }

  predicate IsInstant(t: Instant) {
    && 1 <= t.year <= 9999 && 1 <= t.month <= 12 && 1 <= t.day <= DaysInMonth(t.year, t.month)
    && t.hour < 24 && t.minute < 60 && t.second < 60
  }

  // ---- text ------------------------------------------------------------------------

  function Pad2(n: nat): string {
    [Digit(n / 10 % 10), Digit(n % 10)]
  }

  function Pad4(n: nat): string {
    Pad2(n / 100) + Pad2(n % 100)
  }

  function TimeText(t: Instant): string {
    "T" + (Pad2(t.hour) + (":" + (Pad2(t.minute) + (":" + (Pad2(t.second) + "+00:00")))))
  }

  /** `2026-09-23T10:00:00+00:00` */
  function Iso(t: Instant): string {
    Pad4(t.year) + ("-" + (Pad2(t.month) + ("-" + (Pad2(t.day) + TimeText(t)))))
  }

  /** The two-digit number at position `i`. */
  function Field(s: string, i: nat): nat
    requires i + 2 <= |s|
  {
    var v := (s[i] as int - '0' as int) * 10 + (s[i + 1] as int - '0' as int);
    if v < 0 then 0 else v
  }

  /** Reads back what `Iso` writes. */
  function ParseIso(s: string): Instant
    requires |s| == 25
  {
    Instant(Field(s, 0) * 100 + Field(s, 2), Field(s, 5), Field(s, 8), Field(s, 11), Field(s, 14), Field(s, 17))
  }

  /** The decimal digits of a two-digit number stand at position `i`. */
  predicate HasDigits(s: string, i: nat, n: nat) {
    i + 2 <= |s| && s[i] as int == '0' as int + n / 10 && s[i + 1] as int == '0' as int + n % 10
  }

  /** The text after position `at` is a separator, a field and the rest. */
  lemma {:induction false} Peel(s: string, at: nat, separator: string, n: nat, rest: string)
    requires at <= |s| && |separator| <= 1 && n < 100 && s[at..] == separator + (Pad2(n) + rest)
    ensures |s| == at + |separator| + 2 + |rest| && s[at + |separator| + 2..] == rest
    ensures HasDigits(s, at + |separator|, n)
    ensures separator != "" ==> s[at] == separator[0]
  {
    var tail := separator + (Pad2(n) + rest);
    assert tail[|separator| + 2..] == rest;
    assert s[at..][|separator| + 2..] == s[at + |separator| + 2..];
    assert tail[|separator|] == Pad2(n)[0] && tail[|separator| + 1] == Pad2(n)[1];
    assert s[at + |separator|] == s[at..][|separator|] && s[at + |separator| + 1] == s[at..][|separator| + 1];
    if separator != "" { assert s[at] == s[at..][0] == tail[0]; }
  }

  lemma {:induction false} DateText(t: Instant)
    requires IsInstant(t)
    ensures var s := Iso(t);
            && |s| == 10 + |TimeText(t)| && s[10..] == TimeText(t)
            && HasDigits(s, 0, t.year / 100) && HasDigits(s, 2, t.year % 100)
            && s[4] == '-' && HasDigits(s, 5, t.month) && s[7] == '-' && HasDigits(s, 8, t.day)
  {
    hide Pad2, HasDigits, TimeText;
    var s := Iso(t);
    var days := "-" + (Pad2(t.day) + TimeText(t));
    var months := "-" + (Pad2(t.month) + days);
    assert s[0..] == "" + (Pad2(t.year / 100) + (Pad2(t.year % 100) + months));
    Peel(s, 0, "", t.year / 100, Pad2(t.year % 100) + months);
    assert s[2..] == "" + (Pad2(t.year % 100) + months);
    Peel(s, 2, "", t.year % 100, months);
    Peel(s, 4, "-", t.month, days);
    Peel(s, 7, "-", t.day, TimeText(t));
  }

  lemma {:induction false} TimeOfDayText(t: Instant, s: string)
    requires IsInstant(t) && |s| >= 10 && s[10..] == TimeText(t)
    ensures |s| == 25 && s[10] == 'T' && HasDigits(s, 11, t.hour) && s[13] == ':' && HasDigits(s, 14, t.minute)
    ensures s[16] == ':' && HasDigits(s, 17, t.second) && s[19..] == "+00:00"
  {
    hide Pad2, HasDigits;
    var seconds := ":" + (Pad2(t.second) + "+00:00");
    Peel(s, 10, "T", t.hour, ":" + (Pad2(t.minute) + seconds));
    Peel(s, 13, ":", t.minute, seconds);
    Peel(s, 16, ":", t.second, "+00:00");
  }

  /** A whole-second UTC `isoformat`, position by position: YYYY-MM-DDTHH:MM:SS+00:00 */
  lemma {:induction false} IsoText(t: Instant)
    requires IsInstant(t)
    ensures var s := Iso(t);
            && |s| == 25
            && HasDigits(s, 0, t.year / 100) && HasDigits(s, 2, t.year % 100)
            && s[4] == '-' && HasDigits(s, 5, t.month) && s[7] == '-' && HasDigits(s, 8, t.day)
            && s[10] == 'T' && HasDigits(s, 11, t.hour) && s[13] == ':' && HasDigits(s, 14, t.minute)
            && s[16] == ':' && HasDigits(s, 17, t.second) && s[19..] == "+00:00"
  {
    hide Iso, TimeText, HasDigits;
    DateText(t);
    TimeOfDayText(t, Iso(t));
  }

  lemma {:induction false} FieldIs(s: string, i: nat, n: nat)
    requires HasDigits(s, i, n)
    ensures Field(s, i) == n
  {
  }

  lemma {:induction false} IsoRoundTrip(t: Instant)
    requires IsInstant(t)
    ensures |Iso(t)| == 25 && ParseIso(Iso(t)) == t
  {
    hide Iso, HasDigits, Field;
    IsoText(t);
    FieldIs(Iso(t), 0, t.year / 100);
    FieldIs(Iso(t), 2, t.year % 100);
    FieldIs(Iso(t), 5, t.month);
    FieldIs(Iso(t), 8, t.day);
    FieldIs(Iso(t), 11, t.hour);
    FieldIs(Iso(t), 14, t.minute);
    FieldIs(Iso(t), 17, t.second);
  }

  // ---- order -----------------------------------------------------------------------

  /** Days before the first of January of `year`, proleptic Gregorian. */
  function DaysBeforeYear(year: nat): int
    requires year >= 1
  {
    var y := year - 1;
    365 * y + y / 4 - y / 100 + y / 400
  }

  function DaysBeforeMonth(year: nat, month: nat): nat
    requires month >= 1
  {
    if month == 1 then 0 else DaysBeforeMonth(year, month - 1) + DaysInMonth(year, month - 1)
  }

  /** Seconds since the start of year 1: the instant itself. */
  function Seconds(t: Instant): int
    requires IsInstant(t)
  {
    var days := DaysBeforeYear(t.year) + DaysBeforeMonth(t.year, t.month) + t.day - 1;
    ((days * 24 + t.hour) * 60 + t.minute) * 60 + t.second
  }

  lemma {:induction false} YearsAreOrdered(a: nat, b: nat)
    requires 1 <= a < b
    ensures DaysBeforeYear(a) + (if IsLeap(a) then 366 else 365) <= DaysBeforeYear(b)
    decreases b
  {
    YearLength(b - 1);
    if a < b - 1 { YearsAreOrdered(a, b - 1); }
  }

  lemma {:induction false} YearLength(y: nat)
    requires y >= 1
    ensures DaysBeforeYear(y + 1) == DaysBeforeYear(y) + (if IsLeap(y) then 366 else 365)
  {
    Every4(y);
    Every100(y);
    Every400(y);
    Centuries(y);
  }

  lemma {:induction false} Every4(y: nat)
    requires y >= 1
    ensures y / 4 == (y - 1) / 4 + if y % 4 == 0 then 1 else 0
  {
  }

  lemma {:induction false} Every100(y: nat)
    requires y >= 1
    ensures y / 100 == (y - 1) / 100 + if y % 100 == 0 then 1 else 0
  {
    var (q, r) := ((y - 1) / 100, (y - 1) % 100);
    assert y == 100 * q + (r + 1);
  }

  lemma {:induction false} Every400(y: nat)
    requires y >= 1
    ensures y / 400 == (y - 1) / 400 + if y % 400 == 0 then 1 else 0
  {
    var (q, r) := ((y - 1) / 400, (y - 1) % 400);
    assert y == 400 * q + (r + 1);
  }

  lemma {:induction false} Centuries(y: nat)
    ensures y % 100 == 0 ==> y % 4 == 0
    ensures y % 400 == 0 ==> y % 100 == 0
  {
    if y % 100 == 0 { assert y == 4 * (25 * (y / 100)); }
    if y % 400 == 0 { assert y == 100 * (4 * (y / 400)); }
  }

  lemma {:induction false} MonthsAreOrdered(year: nat, a: nat, b: nat)
    requires 1 <= a < b
    ensures DaysBeforeMonth(year, a) + DaysInMonth(year, a) <= DaysBeforeMonth(year, b)
    decreases b
  {
    if a < b - 1 { MonthsAreOrdered(year, a, b - 1); }
  }

  lemma {:induction false} DayFitsYear(t: Instant)
    requires IsInstant(t)
    ensures 0 <= DaysBeforeMonth(t.year, t.month) + t.day - 1 < if IsLeap(t.year) then 366 else 365
  {
    if t.month < 12 { MonthsAreOrdered(t.year, t.month, 12); }
    YearToDecember(t.year);
  }

  lemma {:induction false} YearToDecember(year: nat)
    ensures DaysBeforeMonth(year, 12) == if IsLeap(year) then 335 else 334
  {
    assert DaysBeforeMonth(year, 2) == 31;
    assert DaysBeforeMonth(year, 3) == if IsLeap(year) then 60 else 59;
    assert DaysBeforeMonth(year, 5) == DaysBeforeMonth(year, 3) + 61;
    assert DaysBeforeMonth(year, 7) == DaysBeforeMonth(year, 5) + 61;
    assert DaysBeforeMonth(year, 9) == DaysBeforeMonth(year, 7) + 62;
    assert DaysBeforeMonth(year, 11) == DaysBeforeMonth(year, 9) + 61;
  }

  predicate TimeBefore(a: Instant, b: Instant) {
    a.hour < b.hour || (a.hour == b.hour &&
    (a.minute < b.minute || (a.minute == b.minute && a.second < b.second)))
  }

  predicate FieldsBefore(a: Instant, b: Instant) {
    a.year < b.year || (a.year == b.year &&
    (a.month < b.month || (a.month == b.month &&
    (a.day < b.day || (a.day == b.day && TimeBefore(a, b))))))
  }

  lemma {:induction false} FieldsBeforeIsEarlier(a: Instant, b: Instant)
    requires IsInstant(a) && IsInstant(b) && FieldsBefore(a, b)
    ensures Seconds(a) < Seconds(b)
  {
    DayFitsYear(a);
    DayFitsYear(b);
    if a.year < b.year { YearsAreOrdered(a.year, b.year); }
    else if a.month < b.month { MonthsAreOrdered(a.year, a.month, b.month); }
  }

  lemma {:induction false} DigitOrder(a: nat, b: nat)
    requires a < 10 && b < 10
    ensures Less([Digit(a)], [Digit(b)]) <==> a < b
    ensures Digit(a) == Digit(b) <==> a == b
  {
    assert [Digit(a)][1..] == "" && [Digit(b)][1..] == "";
  }

  lemma {:induction false} Pad2Order(a: nat, b: nat)
    requires a < 100 && b < 100
    ensures Less(Pad2(a), Pad2(b)) <==> a < b
    ensures Pad2(a) == Pad2(b) <==> a == b
  {
    DigitOrder(a / 10, b / 10);
    DigitOrder(a % 10, b % 10);
    assert Pad2(a) == [Digit(a / 10)] + [Digit(a % 10)] && Pad2(b) == [Digit(b / 10)] + [Digit(b % 10)];
    LessConcat([Digit(a / 10)], [Digit(a % 10)], [Digit(b / 10)], [Digit(b % 10)]);
    assert Pad2(a)[0] == Digit(a / 10) && Pad2(a)[1] == Digit(a % 10);
    assert Pad2(b)[0] == Digit(b / 10) && Pad2(b)[1] == Digit(b % 10);
  }

  lemma {:induction false} Pad4Order(a: nat, b: nat)
    requires a < 10000 && b < 10000
    ensures Less(Pad4(a), Pad4(b)) <==> a < b
    ensures Pad4(a) == Pad4(b) <==> a == b
  {
    Pad2Order(a / 100, b / 100);
    Pad2Order(a % 100, b % 100);
    LessConcat(Pad2(a / 100), Pad2(a % 100), Pad2(b / 100), Pad2(b % 100));
    assert Pad4(a)[..2] == Pad2(a / 100) && Pad4(a)[2..] == Pad2(a % 100);
    assert Pad4(b)[..2] == Pad2(b / 100) && Pad4(b)[2..] == Pad2(b % 100);
  }

  /** One two-digit field and its separator decide before the rest. */
  lemma {:induction false} FieldStep(a: nat, x: string, b: nat, y: string, separator: string)
    requires a < 100 && b < 100
    ensures Less(separator + (Pad2(a) + x), separator + (Pad2(b) + y)) <==> a < b || (a == b && Less(x, y))
  {
    LessIrreflexive(separator);
    LessConcat(separator, Pad2(a) + x, separator, Pad2(b) + y);
    LessConcat(Pad2(a), x, Pad2(b), y);
    Pad2Order(a, b);
  }

  lemma {:induction false} TimeOrder(a: Instant, b: Instant)
    requires IsInstant(a) && IsInstant(b)
    ensures Less(TimeText(a), TimeText(b)) <==> TimeBefore(a, b)
  {
    LessIrreflexive("+00:00");
    FieldStep(a.second, "+00:00", b.second, "+00:00", ":");
    FieldStep(a.minute, ":" + (Pad2(a.second) + "+00:00"), b.minute, ":" + (Pad2(b.second) + "+00:00"), ":");
    FieldStep(a.hour, ":" + (Pad2(a.minute) + (":" + (Pad2(a.second) + "+00:00"))),
              b.hour, ":" + (Pad2(b.minute) + (":" + (Pad2(b.second) + "+00:00"))), "T");
  }

  lemma {:induction false} IsoFieldOrder(a: Instant, b: Instant)
    requires IsInstant(a) && IsInstant(b)
    ensures Less(Iso(a), Iso(b)) <==> FieldsBefore(a, b)
  {
    hide TimeText, TimeBefore;
    TimeOrder(a, b);
    FieldStep(a.day, TimeText(a), b.day, TimeText(b), "-");
    FieldStep(a.month, "-" + (Pad2(a.day) + TimeText(a)), b.month, "-" + (Pad2(b.day) + TimeText(b)), "-");
    LessConcat(Pad4(a.year), "-" + (Pad2(a.month) + ("-" + (Pad2(a.day) + TimeText(a)))),
               Pad4(b.year), "-" + (Pad2(b.month) + ("-" + (Pad2(b.day) + TimeText(b)))));
    Pad4Order(a.year, b.year);
  }

  /** String order on timestamps is order in time. */
  lemma {:induction false} IsoOrder(a: Instant, b: Instant)
    requires IsInstant(a) && IsInstant(b)
    ensures Less(Iso(a), Iso(b)) <==> Seconds(a) < Seconds(b)
    ensures Iso(a) == Iso(b) <==> Seconds(a) == Seconds(b)
  {
    IsoFieldOrder(a, b);
    IsoRoundTrip(a);
    IsoRoundTrip(b);
    if FieldsBefore(a, b) { FieldsBeforeIsEarlier(a, b); }
    else if FieldsBefore(b, a) { FieldsBeforeIsEarlier(b, a); }
    else { assert a == b; }
  }
}
