/**
 * An expense record, the clock reading that stamps it, and the fixed-width
 * `YYYY-MM-DD HH:MM:SS` text its date is stored as.
 */
module Expense {
  import opened Text

  /**
   * One stored expense. `id` and `date` come from the clock when the record
   * is added; `amount` is in the currency's smallest unit (no sign check);
   * `category` is expected to be a catalog entry; `note` may be empty.
   */
  datatype Expense = Expense(id: int, amount: int, category: string, note: string, date: string)

  /** A reading of the local clock, as `datetime.now()` gives it. */
  datatype DateTime = DateTime(year: nat, month: nat, day: nat, hour: nat, minute: nat, second: nat)

  predicate ValidClock(t: DateTime) {
    1000 <= t.year <= 9999 && 1 <= t.month <= 12 && 1 <= t.day <= 31
    && t.hour < 24 && t.minute < 60 && t.second < 60
  }

  /** Zero-padded two-digit field, as `%m`, `%d`, `%H`, `%M`, `%S` and `{:02d}` write it. */
  function Pad2(n: nat): (s: string)
    requires n < 100
    ensures |s| == 2 && AllDigits(s)
  {
    [DigitChar(n / 10), DigitChar(n % 10)]
  }

  lemma Pad2RoundTrip(n: nat)
    requires n < 100
    ensures DecimalValue(Pad2(n)) == n
  {
    var s := Pad2(n);
    assert s[..1] == [DigitChar(n / 10)];
    assert DecimalValue(s[..1]) == n / 10;
  }

  /** Re-padding a parsed two-digit field gives back the field as written. */
  lemma PadOfDecimalValue(t: string)
    requires |t| == 2 && AllDigits(t)
    ensures Pad2(DecimalValue(t)) == t
  {
    assert t[..1] == [t[0]];
    assert DecimalValue(t[..1]) == DigitValue(t[0]);
    var n := DecimalValue(t);
    assert n == DigitValue(t[0]) * 10 + DigitValue(t[1]);
    assert n / 10 == DigitValue(t[0]) && n % 10 == DigitValue(t[1]);
    DigitCharOfValue(t[0]);
    DigitCharOfValue(t[1]);
  }

  /** Position `i` of a `YYYY-MM-DD HH:MM:SS` date holds a digit. */
  predicate DigitPosition(i: int) {
    0 <= i < 19 && i != 4 && i != 7 && i != 10 && i != 13 && i != 16
  }

  /** The fixed `YYYY-MM-DD HH:MM:SS` layout: digits everywhere but at the separators. */
  predicate DateShape(s: string) {
    && |s| == 19
    && s[4] == '-' && s[7] == '-' && s[10] == ' ' && s[13] == ':' && s[16] == ':'
    && forall i :: 0 <= i < 19 && DigitPosition(i) ==> IsDigit(s[i])
  }

  /** Two digits starting at position `i` of a date, read as a number. */
  function FieldAt(s: string, i: nat): nat
    requires DateShape(s) && DigitPosition(i) && DigitPosition(i + 1)
  {
    assert AllDigits(s[i..i + 2]) by {
      assert s[i..i + 2][0] == s[i] && s[i..i + 2][1] == s[i + 1];
    }
    DecimalValue(s[i..i + 2])
  }

  /**
   * A date `datetime.strptime(s, "%Y-%m-%d %H:%M:%S")` accepts, as far as
   * the fields' own ranges go (the length of each month is not checked).
   * The year is four digits and at least 1, so "0000" is refused.
   */
  predicate WellFormedDate(s: string) {
    && DateShape(s) && s[..4] != "0000"
    && 1 <= FieldAt(s, 5) <= 12 && 1 <= FieldAt(s, 8) <= 31
    && FieldAt(s, 11) < 24 && FieldAt(s, 14) < 60 && FieldAt(s, 17) < 60
  }

  /** The year `strptime` reads from a well-formed date. */
  function YearOf(date: string): nat
    requires WellFormedDate(date)
  {
    assert forall i :: 0 <= i < 4 ==> DigitPosition(i);
    DecimalValue(date[..4])
  }

  /** A well-formed date's year is in `datetime`'s range: at least 1. */
  lemma YearAtLeastOne(date: string)
    requires WellFormedDate(date)
    ensures YearOf(date) >= 1
  {
    var y := date[..4];
    assert forall i :: 0 <= i < 4 ==> DigitPosition(i);
    if y[0] != '0' {
      NonZeroDigitIsPositive(y, 0);
    } else if y[1] != '0' {
      NonZeroDigitIsPositive(y, 1);
    } else if y[2] != '0' {
      NonZeroDigitIsPositive(y, 2);
    } else {
      assert y == "000" + [y[3]];
      NonZeroDigitIsPositive(y, 3);
    }
  }

  /** The month `strptime` reads from a well-formed date. */
  function MonthOf(date: string): nat
    requires WellFormedDate(date)
  {
    FieldAt(date, 5)
  }

  /** `f"{d.month:02d}"` is the month field exactly as the date writes it. */
  lemma MonthTextIsSlice(date: string)
    requires WellFormedDate(date)
    ensures MonthOf(date) < 100 && Pad2(MonthOf(date)) == date[5..7]
  {
    var t := date[5..7];
    assert t[0] == date[5] && t[1] == date[6];
    PadOfDecimalValue(t);
  }

  /** `now.strftime("%Y-%m-%d %H:%M:%S")`. */
  function FormatDate(t: DateTime): (s: string)
    requires ValidClock(t)
    ensures WellFormedDate(s)
  {
    FourDigits(t.year);
    var s := ToDecimal(t.year) + "-" + Pad2(t.month) + "-" + Pad2(t.day) + " "
      + Pad2(t.hour) + ":" + Pad2(t.minute) + ":" + Pad2(t.second);
    assert DateShape(s);
    assert s[..4] != "0000" by {
      assert s[0] == ToDecimal(t.year)[0] != '0';
    }
    assert s[5..7] == Pad2(t.month) && s[8..10] == Pad2(t.day) && s[11..13] == Pad2(t.hour);
    assert s[14..16] == Pad2(t.minute) && s[17..19] == Pad2(t.second);
    Pad2RoundTrip(t.month);
    Pad2RoundTrip(t.day);
    Pad2RoundTrip(t.hour);
    Pad2RoundTrip(t.minute);
    Pad2RoundTrip(t.second);
    s
  }

  /** Reading back a formatted date gives the clock reading it came from. */
  lemma FormatDateRoundTrip(t: DateTime)
    requires ValidClock(t)
    ensures var s := FormatDate(t);
      && YearOf(s) == t.year && MonthOf(s) == t.month && FieldAt(s, 8) == t.day
      && FieldAt(s, 11) == t.hour && FieldAt(s, 14) == t.minute && FieldAt(s, 17) == t.second
  {
    var s := FormatDate(t);
    FourDigits(t.year);
    assert s[..4] == ToDecimal(t.year);
    DecimalValueOfToDecimal(t.year);
    assert s[5..7] == Pad2(t.month);
    assert s[8..10] == Pad2(t.day);
    assert s[11..13] == Pad2(t.hour);
    assert s[14..16] == Pad2(t.minute);
    assert s[17..19] == Pad2(t.second);
    Pad2RoundTrip(t.month);
    Pad2RoundTrip(t.day);
    Pad2RoundTrip(t.hour);
    Pad2RoundTrip(t.minute);
    Pad2RoundTrip(t.second);
  }

  /**
   * The record `add_expense` builds: the id is the clock in milliseconds and
   * the date the formatted clock reading.
   */
  function NewExpense(nowMillis: int, now: DateTime, amount: int, category: string, note: string): Expense
    requires ValidClock(now)
  {
    Expense(nowMillis, amount, category, note, FormatDate(now))
  }
}
