/** Snapshot names sort like the instants they name (internal/core/backup/destination.go). */
module SnapshotKeys {
  import opened Prelude
  import opened Text

  /** A UTC instant in whole seconds, by its civil fields. */
  datatype Civil = Civil(year: nat, month: nat, day: nat, hour: nat, minute: nat, second: nat)

  predicate IsLeap(year: nat) {
    year % 4 == 0 && (year % 100 != 0 || year % 400 == 0)
  }

  function MonthDays(year: nat, month: nat): nat
    requires 1 <= month <= 12
  {
    if month == 2 then (if IsLeap(year) then 29 else 28)
    else if month == 4 || month == 6 || month == 9 || month == 11 then 30
    else 31
  }

  predicate Valid(t: Civil) {
    && t.year <= 9999 && 1 <= t.month <= 12 && 1 <= t.day <= MonthDays(t.year, t.month)
    && t.hour < 24 && t.minute < 60 && t.second < 60
  }

  function DaysBeforeYear(year: nat): nat {
    if year == 0 then 0 else DaysBeforeYear(year - 1) + (if IsLeap(year - 1) then 366 else 365)
  }

  function DaysBeforeMonth(year: nat, month: nat): nat
    requires 1 <= month <= 13
  {
    if month == 1 then 0 else DaysBeforeMonth(year, month - 1) + MonthDays(year, month - 1)
  }

  /** Seconds elapsed since the start of year 0, which is what makes instants chronological. */
  function Elapsed(t: Civil): int
    requires Valid(t)
  {
    (DaysBeforeYear(t.year) + DaysBeforeMonth(t.year, t.month) + t.day - 1) * 86400
    + t.hour * 3600 + t.minute * 60 + t.second
  }

  function Digit(d: nat): char
    requires d < 10
  {
    '0' + d as char
  }

  function Padded(n: nat, width: nat): (s: string)
    ensures |s| == width
  {
    if width == 0 then "" else Padded(n / 10, width - 1) + [Digit(n % 10)]
  }

  function SnapshotKey(t: Civil): string {
    Padded(t.year, 4) + (Padded(t.month, 2) + (Padded(t.day, 2) + ("T" +
      (Padded(t.hour, 2) + (Padded(t.minute, 2) + (Padded(t.second, 2) + "Z.age"))))))
  }

  lemma {:induction false} LessConcat(s: string, t: string, x: string, y: string)
    requires |s| == |t|
    ensures Less(s + x, t + y) <==> Less(s, t) || (s == t && Less(x, y))
  {
    if s == "" {
      assert s + x == x && t + y == y;
    } else {
      LessConcat(s[1..], t[1..], x, y);
      assert (s + x)[1..] == s[1..] + x && (t + y)[1..] == t[1..] + y;
      assert s == [s[0]] + s[1..] && t == [t[0]] + t[1..];
    }
  }

  function Pow10(n: nat): nat {
    if n == 0 then 1 else 10 * Pow10(n - 1)
  }

  lemma {:induction false} PaddedOrder(a: nat, b: nat, width: nat)
    requires a < Pow10(width) && b < Pow10(width)
    ensures Less(Padded(a, width), Padded(b, width)) <==> a < b
    ensures Padded(a, width) == Padded(b, width) <==> a == b
  {
    if width > 0 {
      PaddedOrder(a / 10, b / 10, width - 1);
      var p, q := Padded(a / 10, width - 1), Padded(b / 10, width - 1);
      var c, d := Digit(a % 10), Digit(b % 10);
      LessConcat(p, q, [c], [d]);
      assert (p + [c])[..width - 1] == p && (q + [d])[..width - 1] == q;
      assert (p + [c])[width - 1] == c && (q + [d])[width - 1] == d;
    }
  }

  /** One fixed-width field decides, or leaves it to the rest. */
  lemma FieldOrder(a: nat, b: nat, width: nat, x: string, y: string)
    requires a < Pow10(width) && b < Pow10(width)
    ensures Less(Padded(a, width) + x, Padded(b, width) + y) <==> a < b || (a == b && Less(x, y))
    ensures Padded(a, width) + x == Padded(b, width) + y <==> a == b && x == y
  {
    PaddedOrder(a, b, width);
    LessConcat(Padded(a, width), Padded(b, width), x, y);
    var s, t := Padded(a, width), Padded(b, width);
    assert (s + x)[..width] == s && (t + y)[..width] == t && (s + x)[width..] == x && (t + y)[width..] == y;
  }

  /** The civil fields compared in turn. */
  predicate Before(s: Civil, t: Civil) {
    s.year < t.year || (s.year == t.year && (
      s.month < t.month || (s.month == t.month && (
        s.day < t.day || (s.day == t.day && (
          s.hour < t.hour || (s.hour == t.hour && (
            s.minute < t.minute || (s.minute == t.minute && s.second < t.second)))))))))
  }

  lemma Powers()
    ensures Pow10(2) == 100 && Pow10(4) == 10000
  {
    assert Pow10(1) == 10;
    assert Pow10(3) == 1000;
  }

  lemma KeyOrderIsFieldOrder(s: Civil, t: Civil)
    requires Valid(s) && Valid(t)
    ensures Less(SnapshotKey(s), SnapshotKey(t)) <==> Before(s, t)
    ensures SnapshotKey(s) == SnapshotKey(t) <==> s == t
  {
    hide Less, Padded;
    Powers();
    var tail := "Z.age";
    var s5, t5 := Padded(s.second, 2) + tail, Padded(t.second, 2) + tail;
    var s4, t4 := Padded(s.minute, 2) + s5, Padded(t.minute, 2) + t5;
    var s3, t3 := Padded(s.hour, 2) + s4, Padded(t.hour, 2) + t4;
    var s2, t2 := Padded(s.day, 2) + ("T" + s3), Padded(t.day, 2) + ("T" + t3);
    var s1, t1 := Padded(s.month, 2) + s2, Padded(t.month, 2) + t2;
    LessIsOneWay(tail, tail);
    FieldOrder(s.second, t.second, 2, tail, tail);
    FieldOrder(s.minute, t.minute, 2, s5, t5);
    FieldOrder(s.hour, t.hour, 2, s4, t4);
    LessConcat("T", "T", s3, t3);
    LessIsOneWay("T", "T");
    assert ("T" + s3)[1..] == s3 && ("T" + t3)[1..] == t3;
    FieldOrder(s.day, t.day, 2, "T" + s3, "T" + t3);
    FieldOrder(s.month, t.month, 2, s2, t2);
    FieldOrder(s.year, t.year, 4, s1, t1);
  }

  lemma {:induction false} PaddedReadsBack(n: nat, width: nat)
    requires width > 0 && n < Pow10(width)
    ensures ReadDecimal(Padded(n, width)) == Some(n)
  {
    var s := Padded(n, width);
    assert s[..|s| - 1] == Padded(n / 10, width - 1);
    if width > 1 {
      PaddedReadsBack(n / 10, width - 1);
    }
  }

  /** The civil fields read back from a name: YYYYMMDD'T'HHMMSS'Z.age', each in decimal. */
  lemma KeyReadsBack(t: Civil)
    requires Valid(t)
    ensures var key := SnapshotKey(t);
            && |key| == 20 && key[8] == 'T' && key[15..] == "Z.age"
            && ReadDecimal(key[..4]) == Some(t.year)
            && ReadDecimal(key[4..6]) == Some(t.month)
            && ReadDecimal(key[6..8]) == Some(t.day)
            && ReadDecimal(key[9..11]) == Some(t.hour)
            && ReadDecimal(key[11..13]) == Some(t.minute)
            && ReadDecimal(key[13..15]) == Some(t.second)
  {
    Powers();
    hide ReadDecimal, Padded, Pow10;
    PaddedReadsBack(t.year, 4);
    PaddedReadsBack(t.month, 2);
    PaddedReadsBack(t.day, 2);
    PaddedReadsBack(t.hour, 2);
    PaddedReadsBack(t.minute, 2);
    PaddedReadsBack(t.second, 2);
    var key := SnapshotKey(t);
    assert key[..4] == Padded(t.year, 4) && key[4..6] == Padded(t.month, 2) && key[6..8] == Padded(t.day, 2);
    assert key[9..11] == Padded(t.hour, 2) && key[11..13] == Padded(t.minute, 2) && key[13..15] == Padded(t.second, 2);
  }

  lemma {:induction false} YearsAddUp(a: nat, b: nat)
    requires a < b
    ensures DaysBeforeYear(a) + (if IsLeap(a) then 366 else 365) <= DaysBeforeYear(b)
  {
    if a + 1 < b {
      YearsAddUp(a, b - 1);
    }
  }

  lemma {:induction false} MonthsAddUp(year: nat, a: nat, b: nat)
    requires 1 <= a < b <= 13
    ensures DaysBeforeMonth(year, a) + MonthDays(year, a) <= DaysBeforeMonth(year, b)
  {
    if a + 1 < b {
      MonthsAddUp(year, a, b - 1);
    }
  }

  /** The days before a year in closed form: three leap years in four are left out of the centuries. */
  lemma {:induction false} DaysBeforeYearIs(year: nat)
    ensures DaysBeforeYear(year) == 365 * year + (year + 3) / 4 - (year + 99) / 100 + (year + 399) / 400
  {
    if year > 0 {
      DaysBeforeYearIs(year - 1);
      OneYearMore(year - 1);
      hide IsLeap;
    }
  }

  lemma OneYearMore(y: nat)
    ensures (y + 4) / 4 - (y + 100) / 100 + (y + 400) / 400 ==
            (y + 3) / 4 - (y + 99) / 100 + (y + 399) / 400 + if IsLeap(y) then 1 else 0
  {
    OneInFour(y);
    OneInAHundred(y);
    OneInFourHundred(y);
    LeapCount(y);
    hide IsLeap;
  }

  lemma OneInFour(y: nat)
    ensures (y + 4) / 4 == (y + 3) / 4 + if y % 4 == 0 then 1 else 0
  {
  }

  lemma OneInAHundred(y: nat)
    ensures (y + 100) / 100 == (y + 99) / 100 + if y % 100 == 0 then 1 else 0
  {
  }

  lemma OneInFourHundred(y: nat)
    ensures (y + 400) / 400 == (y + 399) / 400 + if y % 400 == 0 then 1 else 0
  {
  }

  lemma LeapCount(y: nat)
    ensures (if IsLeap(y) then 1 else 0) ==
            (if y % 4 == 0 then 1 else 0) - (if y % 100 == 0 then 1 else 0) + (if y % 400 == 0 then 1 else 0)
  {
    CenturyIsFourth(y);
    FourthCenturyIsCentury(y);
  }

  lemma CenturyIsFourth(y: nat)
    ensures y % 100 == 0 ==> y % 4 == 0
  {
    if y % 100 == 0 {
      var centuries := y / 100;
      assert y == 100 * centuries;
      Multiple(25 * centuries, 4);
      assert y == 25 * centuries * 4;
    }
  }

  lemma {:induction false} Multiple(m: nat, n: nat)
    requires n == 4 || n == 100
    ensures m * n % n == 0
  {
    if n == 4 {
      assert 4 * m % 4 == 0;
    }
  }

  lemma FourthCenturyIsCentury(y: nat)
    ensures y % 400 == 0 ==> y % 100 == 0
  {
    if y % 400 == 0 {
      var cycles := y / 400;
      assert y == 400 * cycles;
      Multiple(4 * cycles, 100);
      assert y == 4 * cycles * 100;
    }
  }

  lemma YearLength(year: nat)
    ensures DaysBeforeMonth(year, 13) == if IsLeap(year) then 366 else 365
  {
    assert DaysBeforeMonth(year, 2) == 31;
    assert DaysBeforeMonth(year, 3) == if IsLeap(year) then 60 else 59;
    assert DaysBeforeMonth(year, 5) == DaysBeforeMonth(year, 3) + 61;
    assert DaysBeforeMonth(year, 7) == DaysBeforeMonth(year, 5) + 61;
    assert DaysBeforeMonth(year, 9) == DaysBeforeMonth(year, 7) + 62;
    assert DaysBeforeMonth(year, 11) == DaysBeforeMonth(year, 9) + 61;
    assert DaysBeforeMonth(year, 13) == DaysBeforeMonth(year, 11) + 61;
  }

  lemma DayOfYearFits(t: Civil)
    requires Valid(t)
    ensures 0 <= DaysBeforeMonth(t.year, t.month) + t.day - 1 < if IsLeap(t.year) then 366 else 365
  {
    YearLength(t.year);
    MonthsAddUp(t.year, t.month, 13);
  }

  lemma FieldOrderIsChronological(s: Civil, t: Civil)
    requires Valid(s) && Valid(t) && Before(s, t)
    ensures Elapsed(s) < Elapsed(t)
  {
    hide DaysBeforeYear, DaysBeforeMonth, IsLeap, MonthDays;
    var p := DaysBeforeYear(s.year) + DaysBeforeMonth(s.year, s.month) + s.day - 1;
    var q := DaysBeforeYear(t.year) + DaysBeforeMonth(t.year, t.month) + t.day - 1;
    if s.year < t.year {
      YearsAddUp(s.year, t.year);
      DayOfYearFits(s);
      DayOfYearFits(t);
      assert p < q;
    } else if s.month < t.month {
      MonthsAddUp(s.year, s.month, t.month);
      assert p < q;
    } else if s.day < t.day {
      assert p < q;
    } else {
      assert p == q;
    }
  }

  /** Keys compare lexicographically exactly as their instants compare in time,
      and distinct seconds have distinct keys. */
  lemma KeysSortChronologically(s: Civil, t: Civil)
    requires Valid(s) && Valid(t)
    ensures Less(SnapshotKey(s), SnapshotKey(t)) <==> Elapsed(s) < Elapsed(t)
    ensures SnapshotKey(s) == SnapshotKey(t) <==> Elapsed(s) == Elapsed(t)
  {
    hide Less, SnapshotKey, Elapsed;
    KeyOrderIsFieldOrder(s, t);
    if Before(s, t) {
      FieldOrderIsChronological(s, t);
    } else if Before(t, s) {
      FieldOrderIsChronological(t, s);
    } else {
      assert s == t;
    }
  }
}
