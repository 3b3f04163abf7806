/** Instants and the text chrono's `to_rfc3339` gives them.

    An instant is a count of nanoseconds since 0000-01-01T00:00:00Z. The text has a
    four-digit year (a sign and more digits from year 10000 on), 0, 3, 6 or 9 fraction
    digits and the offset `+00:00`. */
module Rfc3339 {
  import opened Text

  const NANOS: nat := 1_000_000_000
  const OFFSET: string := "+00:00"

  predicate IsLeap(y: nat)
  {
    y % 4 == 0 && (y % 100 != 0 || y % 400 == 0)
  }

  function YearDays(y: nat): (n: nat)
  {
    if IsLeap(y) then 366 else 365
  }

  function MonthDays(y: nat, m: nat): (n: nat)
    requires 1 <= m <= 12
  {
    if m == 2 then (if IsLeap(y) then 29 else 28)
    else if m == 4 || m == 6 || m == 9 || m == 11 then 30
    else 31
  }

  function DaysFromMonth(y: nat, m: nat): (n: nat)
    requires 1 <= m <= 13
    decreases 13 - m
  {
    if m == 13 then 0 else MonthDays(y, m) + DaysFromMonth(y, m + 1)
  }

  datatype YearDay = YearDay(year: nat, day: nat)
  datatype MonthDay = MonthDay(month: nat, day: nat)

  /** The year that day number `day`, counted from the first of January of `y`, falls in. */
  function YearOf(day: nat, y: nat): (r: YearDay)
    ensures r.year >= y && r.day < YearDays(r.year)
    decreases day
  {
    if day < YearDays(y) then YearDay(y, day) else YearOf(day - YearDays(y), y + 1)
  }

  /** The month and day of the month, `day` days after the first of month `m`. */
  function MonthOf(day: nat, y: nat, m: nat): (r: MonthDay)
    requires 1 <= m <= 12 && day < DaysFromMonth(y, m)
    ensures m <= r.month <= 12 && 1 <= r.day <= MonthDays(y, r.month)
    decreases 12 - m
  {
    if day < MonthDays(y, m) then MonthDay(m, day + 1) else MonthOf(day - MonthDays(y, m), y, m + 1)
  }

  lemma YearHasItsMonths(y: nat)
    ensures DaysFromMonth(y, 1) == YearDays(y)
  {
    assert DaysFromMonth(y, 7) == 184 by {
      assert DaysFromMonth(y, 10) == 92;
    }
    assert DaysFromMonth(y, 4) == 275;
  }

  lemma {:induction false} YearOfOrder(a: nat, b: nat, y: nat)
    requires a < b
    ensures var p, q := YearOf(a, y), YearOf(b, y);
            p.year < q.year || (p.year == q.year && p.day < q.day)
    decreases a
  {
    if a >= YearDays(y) {
      YearOfOrder(a - YearDays(y), b - YearDays(y), y + 1);
    }
  }

  lemma {:induction false} MonthOfOrder(a: nat, b: nat, y: nat, m: nat)
    requires 1 <= m <= 12 && a < b < DaysFromMonth(y, m)
    ensures var p, q := MonthOf(a, y, m), MonthOf(b, y, m);
            p.month < q.month || (p.month == q.month && p.day < q.day)
    decreases 12 - m
  {
    hide IsLeap;
    if a >= MonthDays(y, m) {
      MonthOfOrder(a - MonthDays(y, m), b - MonthDays(y, m), y, m + 1);
    }
  }

  function YearText(y: nat): (s: string)
  {
    if y <= 9999 then Padded(y, 4) else "+" + Decimal(y)
  }

  function MonthText(r: MonthDay): (s: string)
  {
    Padded(r.month, 2) + ("-" + Padded(r.day, 2))
  }

  function DateText(day: nat): (s: string)
  {
    var d := YearOf(day, 0);
    YearHasItsMonths(d.year);
    YearText(d.year) + ("-" + MonthText(MonthOf(d.day, d.year, 1)))
  }

  function ClockText(sec: nat): (s: string)
    requires sec < 86400
  {
    Padded(sec / 3600, 2) + (":" + (Padded(sec / 60 % 60, 2) + (":" + Padded(sec % 60, 2))))
  }

  function SecondText(sec: nat): (s: string)
  {
    DateText(sec / 86400) + ("T" + ClockText(sec % 86400))
  }

  function FractionText(ns: nat): (s: string)
    requires ns < NANOS
  {
    if ns == 0 then ""
    else if ns % 1_000_000 == 0 then "." + Padded(ns / 1_000_000, 3)
    else if ns % 1_000 == 0 then "." + Padded(ns / 1_000, 6)
    else "." + Padded(ns, 9)
  }

  /** `DateTime<Utc>::to_rfc3339`. */
  function Render(t: nat): (s: string)
  {
    SecondText(t / NANOS) + (FractionText(t % NANOS) + OFFSET)
  }

  function YearAt(t: nat): (y: nat)
  {
    YearOf(t / NANOS / 86400, 0).year
  }

  /** Instants whose year prints with four digits. */
  predicate FourDigitYear(t: nat)
  {
    YearAt(t) <= 9999
  }

  lemma YearAtMonotone(a: nat, b: nat)
    requires a <= b
    ensures YearAt(a) <= YearAt(b)
  {
    var p, q := a / NANOS / 86400, b / NANOS / 86400;
    assert p <= q;
    if p < q {
      YearOfOrder(p, q, 0);
    }
  }

  lemma Pow10Small()
    ensures Pow10(2) == 100 && Pow10(4) == 10000 && Pow10(9) == NANOS
  {
    assert Pow10(3) == 1000;
    assert Pow10(6) == 1_000_000;
  }

  lemma MonthTextOrder(p: MonthDay, q: MonthDay)
    requires p.month <= 12 && q.month <= 12 && p.day <= 31 && q.day <= 31
    requires p.month < q.month || (p.month == q.month && p.day < q.day)
    ensures Less(MonthText(p), MonthText(q))
  {
    Pow10Small();
    if p.month < q.month {
      PaddedOrder(p.month, q.month, 2);
      LessExtends(Padded(p.month, 2), Padded(q.month, 2), "-" + Padded(p.day, 2), "-" + Padded(q.day, 2));
    } else {
      PaddedOrder(p.day, q.day, 2);
      LessPrefixed("-", Padded(p.day, 2), Padded(q.day, 2));
      LessPrefixed(Padded(p.month, 2), "-" + Padded(p.day, 2), "-" + Padded(q.day, 2));
    }
  }

  lemma DateTextOrder(a: nat, b: nat)
    requires a < b && YearOf(b, 0).year <= 9999
    ensures Less(DateText(a), DateText(b)) && |DateText(a)| == |DateText(b)| == 10
  {
    Pow10Small();
    YearOfOrder(a, b, 0);
    var p, q := YearOf(a, 0), YearOf(b, 0);
    YearHasItsMonths(p.year);
    YearHasItsMonths(q.year);
    var mp, mq := MonthOf(p.day, p.year, 1), MonthOf(q.day, q.year, 1);
    if p.year < q.year {
      PaddedOrder(p.year, q.year, 4);
      LessExtends(Padded(p.year, 4), Padded(q.year, 4), "-" + MonthText(mp), "-" + MonthText(mq));
    } else {
      MonthOfOrder(p.day, q.day, p.year, 1);
      MonthTextOrder(mp, mq);
      LessPrefixed("-", MonthText(mp), MonthText(mq));
      LessPrefixed(Padded(p.year, 4), "-" + MonthText(mp), "-" + MonthText(mq));
    }
  }

  lemma ClockTextOrder(a: nat, b: nat)
    requires a < b < 86400
    ensures Less(ClockText(a), ClockText(b))
  {
    Pow10Small();
    var ra := ":" + (Padded(a / 60 % 60, 2) + (":" + Padded(a % 60, 2)));
    var rb := ":" + (Padded(b / 60 % 60, 2) + (":" + Padded(b % 60, 2)));
    if a / 3600 < b / 3600 {
      PaddedOrder(a / 3600, b / 3600, 2);
      LessExtends(Padded(a / 3600, 2), Padded(b / 3600, 2), ra, rb);
    } else {
      assert a / 3600 == b / 3600;
      LessPrefixed(Padded(a / 3600, 2), ra, rb);
      LessPrefixed(":", ra[1..], rb[1..]);
      assert a / 60 <= b / 60 && a / 60 / 60 == a / 3600 && b / 60 / 60 == b / 3600;
      var sa, sb := ":" + Padded(a % 60, 2), ":" + Padded(b % 60, 2);
      assert ra[1..] == Padded(a / 60 % 60, 2) + sa && rb[1..] == Padded(b / 60 % 60, 2) + sb;
      assert ra == ":" + ra[1..] && rb == ":" + rb[1..];
      if a / 60 < b / 60 {
        PaddedOrder(a / 60 % 60, b / 60 % 60, 2);
        LessExtends(Padded(a / 60 % 60, 2), Padded(b / 60 % 60, 2), sa, sb);
      } else {
        PaddedOrder(a % 60, b % 60, 2);
        LessPrefixed(":", Padded(a % 60, 2), Padded(b % 60, 2));
        LessPrefixed(Padded(a / 60 % 60, 2), sa, sb);
      }
    }
  }

  /** Two texts in front of two others: the front decides unless it is the same. */
  lemma LessInTwoParts(p: string, x: string, q: string, y: string)
    requires (|p| == |q| && Less(p, q)) || (p == q && Less(x, y))
    ensures Less(p + x, q + y)
  {
    if |p| == |q| && Less(p, q) {
      LessExtends(p, q, x, y);
    } else {
      LessPrefixed(p, x, y);
    }
  }

  lemma DayOrder(a: nat, b: nat)
    requires a < b
    ensures a / 86400 < b / 86400 || (a / 86400 == b / 86400 && a % 86400 < b % 86400)
  {
  }

  lemma NanoOrder(a: nat, b: nat)
    requires a < b
    ensures a / NANOS < b / NANOS || (a / NANOS == b / NANOS && a % NANOS < b % NANOS)
  {
  }

  lemma SecondTextOrder(a: nat, b: nat)
    requires a < b && YearOf(b / 86400, 0).year <= 9999
    ensures Less(SecondText(a), SecondText(b)) && |SecondText(a)| == |SecondText(b)|
  {
    DayOrder(a, b);
    var da, db, ca, cb := a / 86400, b / 86400, a % 86400, b % 86400;
    if da < db {
      DateTextOrder(da, db);
    } else {
      ClockTextOrder(ca, cb);
      LessPrefixed("T", ClockText(ca), ClockText(cb));
    }
    LessInTwoParts(DateText(da), "T" + ClockText(ca), DateText(db), "T" + ClockText(cb));
  }

  /** How many of the nine fraction digits `FractionText` keeps. */
  function Kept(ns: nat): (k: nat)
    requires ns < NANOS
  {
    if ns == 0 then 0 else if ns % 1_000_000 == 0 then 3 else if ns % 1_000 == 0 then 6 else 9
  }

  lemma PaddedDropOne(n: nat, width: nat)
    requires width >= 1
    ensures Padded(n, width)[..width - 1] == Padded(n / 10, width - 1)
    ensures n % 10 == 0 ==> Padded(n, width)[width - 1] == '0'
  {
  }

  lemma PaddedDropThree(n: nat, width: nat)
    requires width >= 3
    ensures Padded(n, width)[..width - 3] == Padded(n / 1000, width - 3)
    ensures n % 1000 == 0 ==> forall i :: width - 3 <= i < width ==> Padded(n, width)[i] == '0'
  {
    var n1, n2 := n / 10, n / 100;
    assert n1 / 10 == n2 && n2 / 10 == n / 1000;
    PaddedDropOne(n, width);
    PaddedDropOne(n1, width - 1);
    PaddedDropOne(n2, width - 2);
    var d, d1 := Padded(n, width), Padded(n1, width - 1);
    assert d[..width - 2] == d1[..width - 2];
    assert d[..width - 3] == d1[..width - 2][..width - 3];
    assert d[width - 2] == d1[width - 2];
    assert d[width - 3] == d1[width - 3] == d1[..width - 2][width - 3];
    if n % 1000 == 0 {
      assert n % 10 == 0 && n1 % 10 == 0 && n2 % 10 == 0;
    }
  }

  lemma MillionIsThousandTwice(ns: nat)
    requires ns % 1_000_000 == 0
    ensures ns % 1000 == 0 && ns / 1000 % 1000 == 0 && ns / 1000 / 1000 == ns / 1_000_000
  {
    var q := ns / 1_000_000;
    assert ns == 1000 * (1000 * q);
  }

  lemma DropSix(ns: nat)
    requires ns < NANOS && ns % 1_000_000 == 0
    ensures Padded(ns, 9)[..3] == Padded(ns / 1_000_000, 3)
    ensures forall i :: 3 <= i < 9 ==> Padded(ns, 9)[i] == '0'
  {
    var d, m := Padded(ns, 9), ns / 1000;
    MillionIsThousandTwice(ns);
    PaddedDropThree(ns, 9);
    PaddedDropThree(m, 6);
    assert d[..3] == d[..6][..3];
    assert forall i :: 3 <= i < 6 ==> d[i] == d[..6][i];
  }

  lemma ZeroFraction()
    ensures forall i :: 0 <= i < 9 ==> Padded(0, 9)[i] == '0'
  {
    DropSix(0);
    PaddedDropThree(0, 3);
    assert forall i :: 0 <= i < 3 ==> Padded(0, 9)[i] == Padded(0, 9)[..3][i];
  }

  /** The kept digits are the first of the nine, and the rest of the nine are zeros. */
  lemma FractionIsPrefix(ns: nat)
    requires ns < NANOS
    ensures FractionText(ns) == (if Kept(ns) == 0 then "" else "." + Padded(ns, 9)[..Kept(ns)])
    ensures forall i :: Kept(ns) <= i < 9 ==> Padded(ns, 9)[i] == '0'
  {
    if ns == 0 {
      ZeroFraction();
    } else if ns % 1_000_000 == 0 {
      DropSix(ns);
    } else if ns % 1000 == 0 {
      PaddedDropThree(ns, 9);
    } else {
      assert Padded(ns, 9)[..9] == Padded(ns, 9);
    }
  }

  /** Two texts `.digits+...` and `.digits...`, where the first differing digit of the nine
      lies beyond the first text's digits or inside both. */
  lemma DigitsThenPlus(da: string, ka: nat, db: string, kb: nat, i: nat)
    requires |da| == |db| == 9 && ka <= 9 && kb <= 9 && i < 9 && i < kb
    requires da[..i] == db[..i] && da[i] < db[i]
    requires forall j :: 0 <= j < 9 ==> '0' <= db[j] <= '9'
    ensures Less("." + da[..ka] + OFFSET, "." + db[..kb] + OFFSET)
  {
    var x, y := "." + da[..ka] + OFFSET, "." + db[..kb] + OFFSET;
    var j := if i < ka then i else ka;
    assert da[..j] == da[..i][..j] == db[..i][..j] == db[..j];
    assert x[..j + 1] == "." + da[..j] == "." + db[..j] == y[..j + 1];
    assert x[j + 1] == if i < ka then da[j] else '+';
    LessAt(x, y, j + 1);
  }

  /** Fractions of different length still compare as numbers, because the offset's `+`
      sorts before `.` and before every digit. */
  lemma FractionOrder(a: nat, b: nat)
    requires a < b < NANOS
    ensures Less(FractionText(a) + OFFSET, FractionText(b) + OFFSET)
  {
    FractionIsPrefix(a);
    FractionIsPrefix(b);
    var da, db, ka, kb := Padded(a, 9), Padded(b, 9), Kept(a), Kept(b);
    if a == 0 {
      LessAt(FractionText(a) + OFFSET, FractionText(b) + OFFSET, 0);
    } else {
      Pow10Small();
      PaddedOrder(a, b, 9);
      var i := FirstDifference(da, db);
      PaddedIsDigits(a, 9);
      PaddedIsDigits(b, 9);
      DigitsThenPlus(da, ka, db, kb, i);
    }
  }

  lemma RenderForward(a: nat, b: nat)
    requires a < b && FourDigitYear(b)
    ensures Less(Render(a), Render(b))
  {
    NanoOrder(a, b);
    var sa, sb, fa, fb := a / NANOS, b / NANOS, a % NANOS, b % NANOS;
    if sa < sb {
      SecondTextOrder(sa, sb);
    } else {
      FractionOrder(fa, fb);
    }
    LessInTwoParts(SecondText(sa), FractionText(fa) + OFFSET, SecondText(sb), FractionText(fb) + OFFSET);
  }

  /** Up to the year 9999 the rendering is an order embedding. */
  lemma {:induction false} RenderOrder(a: nat, b: nat)
    requires FourDigitYear(a) && FourDigitYear(b)
    ensures Less(Render(a), Render(b)) <==> a < b
    ensures Render(a) == Render(b) <==> a == b
  {
    if a < b {
      RenderForward(a, b);
      LessAsymmetric(Render(a), Render(b));
    } else if b < a {
      RenderForward(b, a);
      LessAsymmetric(Render(b), Render(a));
    } else if Less(Render(a), Render(b)) {
      LessAsymmetric(Render(a), Render(b));
    }
  }

  /** A five-digit year is written with a sign, which sorts before every digit. */
  lemma SignSortsFirst(a: nat, b: nat)
    requires FourDigitYear(a) && !FourDigitYear(b)
    ensures Less(Render(b), Render(a))
  {
    PaddedIsDigits(YearAt(a), 4);
    LessAt(Render(b), Render(a), 0);
  }

  /** The bound is exact: a later instant sorts after a four-digit one just when its own
      year has four digits too. */
  lemma RenderOrderExact(a: nat, b: nat)
    requires a < b && FourDigitYear(a)
    ensures Less(Render(a), Render(b)) <==> FourDigitYear(b)
  {
    if FourDigitYear(b) {
      RenderForward(a, b);
    } else {
      SignSortsFirst(a, b);
      LessAsymmetric(Render(b), Render(a));
    }
  }

  // ---- The last second of 9999 and the first of 10000 ----

  /** Days from the first of January of year 0 to that of year `y`. */
  function DaysBefore(y: nat): (n: nat)
  {
    365 * y + (y + 3) / 4 + (y + 399) / 400 - (y + 99) / 100
  }

  lemma FoursUp(y: nat)
    ensures (y + 4) / 4 == (y + 3) / 4 + if y % 4 == 0 then 1 else 0
  {
  }

  lemma HundredsUp(y: nat)
    ensures (y + 100) / 100 == (y + 99) / 100 + if y % 100 == 0 then 1 else 0
  {
  }

  lemma FourHundredsUp(y: nat)
    ensures (y + 400) / 400 == (y + 399) / 400 + if y % 400 == 0 then 1 else 0
  {
  }

  lemma Centuries(y: nat)
    ensures y % 400 == 0 ==> y % 100 == 0
    ensures y % 100 == 0 ==> y % 4 == 0
  {
    if y % 400 == 0 {
      assert y == 100 * (4 * (y / 400));
    }
    if y % 100 == 0 {
      assert y == 4 * (25 * (y / 100));
    }
  }

  lemma DaysBeforeNext(y: nat)
    ensures DaysBefore(y + 1) == DaysBefore(y) + YearDays(y)
  {
    FoursUp(y);
    HundredsUp(y);
    FourHundredsUp(y);
    Centuries(y);
  }

  lemma {:induction false} YearSkips(y: nat, rest: nat)
    ensures YearOf(DaysBefore(y) + rest, 0) == YearOf(rest, y)
  {
    hide DaysBefore, YearDays;
    if y == 0 {
      DaysBeforeZero();
    } else {
      DaysBeforeNext(y - 1);
      YearSkips(y - 1, YearDays(y - 1) + rest);
    }
  }

  lemma DaysBeforeZero()
    ensures DaysBefore(0) == 0
  {
  }

  const YEAR_10000: nat := 3_652_425 * 86_400 * NANOS

  lemma DayTenThousand()
    ensures YEAR_10000 / NANOS / 86400 == DaysBefore(10000)
    ensures (YEAR_10000 - 1) / NANOS / 86400 == DaysBefore(9999) + 364
  {
  }

  lemma YearTenThousand()
    ensures YearAt(YEAR_10000) == 10000
    ensures YearAt(YEAR_10000 - 1) == 9999
  {
    DayTenThousand();
    YearSkips(10000, 0);
    YearSkips(9999, 364);
  }

  /** The first instant of the year 10000 sorts before the one a nanosecond earlier. */
  lemma NewYearSortsBack()
    ensures Less(Render(YEAR_10000), Render(YEAR_10000 - 1))
  {
    YearTenThousand();
    SignSortsFirst(YEAR_10000 - 1, YEAR_10000);
  }

  // ---- Reading a timestamp back ----

  function DaysBeforeMonth(y: nat, m: nat): (n: nat)
    requires 1 <= m <= 13
  {
    if m == 1 then 0 else DaysBeforeMonth(y, m - 1) + MonthDays(y, m - 1)
  }

  predicate TwoDigits(s: string, i: nat)
  {
    i + 2 <= |s| && IsDigits(s[i..i + 2])
  }

  /** `YYYY-MM-DD` as a day number. */
  function ParseDate(s: string): (r: Option<nat>)
  {
    if |s| == 10 && IsDigits(s[..4]) && s[4] == '-' && TwoDigits(s, 5) && s[7] == '-' && TwoDigits(s, 8) then
      var y, m, d := Number(s[..4]), Number(s[5..7]), Number(s[8..10]);
      if 1 <= m <= 12 && 1 <= d <= MonthDays(y, m) then Some(DaysBefore(y) + DaysBeforeMonth(y, m) + d - 1) else None
    else None
  }

  /** `HH:MM:SS` as a second of the day. */
  function ParseClock(s: string): (r: Option<nat>)
  {
    if |s| == 8 && TwoDigits(s, 0) && s[2] == ':' && TwoDigits(s, 3) && s[5] == ':' && TwoDigits(s, 6) then
      var h, m, sec := Number(s[0..2]), Number(s[3..5]), Number(s[6..8]);
      if h < 24 && m < 60 && sec < 60 then Some(3600 * h + 60 * m + sec) else None
    else None
  }

  /** Nothing, or a dot and up to nine digits, as nanoseconds. */
  function ParseFraction(s: string): (r: Option<nat>)
  {
    if s == "" then Some(0)
    else if s[0] == '.' && 2 <= |s| <= 10 && IsDigits(s[1..]) then Some(Number(s[1..]) * Pow10(10 - |s|))
    else None
  }

  /** `DateTime::parse_from_rfc3339` on texts in UTC with a four-digit year. */
  function Parse(s: string): (r: Option<nat>)
  {
    if |s| >= 25 && s[10] == 'T' && s[|s| - 6..] == OFFSET then
      var day, sec, ns := ParseDate(s[..10]), ParseClock(s[11..19]), ParseFraction(s[19..|s| - 6]);
      if day.Some? && sec.Some? && ns.Some? then Some((86400 * day.value + sec.value) * NANOS + ns.value) else None
    else None
  }

  lemma {:induction false} YearOfSum(day: nat, y: nat)
    ensures var p := YearOf(day, y); DaysBefore(p.year) + p.day == DaysBefore(y) + day
    decreases day
  {
    if day >= YearDays(y) {
      DaysBeforeNext(y);
      YearOfSum(day - YearDays(y), y + 1);
    }
  }

  lemma {:induction false} MonthOfSum(day: nat, y: nat, m: nat)
    requires 1 <= m <= 12 && day < DaysFromMonth(y, m)
    ensures var p := MonthOf(day, y, m); DaysBeforeMonth(y, p.month) + p.day - 1 == DaysBeforeMonth(y, m) + day
    decreases 12 - m
  {
    hide IsLeap;
    if day >= MonthDays(y, m) {
      MonthOfSum(day - MonthDays(y, m), y, m + 1);
    }
  }

  lemma DateSlices(y: nat, m: nat, d: nat, s: string)
    requires s == Padded(y, 4) + ("-" + (Padded(m, 2) + ("-" + Padded(d, 2))))
    ensures |s| == 10 && s[..4] == Padded(y, 4) && s[4] == '-' && s[5..7] == Padded(m, 2) && s[7] == '-' && s[8..10] == Padded(d, 2)
  {
    hide Padded;
  }

  lemma ParseDateOf(y: nat, m: nat, d: nat, s: string)
    requires y <= 9999 && 1 <= m <= 12 && 1 <= d <= MonthDays(y, m)
    requires s == Padded(y, 4) + ("-" + (Padded(m, 2) + ("-" + Padded(d, 2))))
    ensures ParseDate(s) == Some(DaysBefore(y) + DaysBeforeMonth(y, m) + d - 1)
  {
    hide DaysBefore, DaysBeforeMonth, Padded, Number, IsDigits, Pow10, IsLeap;
    DateSlices(y, m, d, s);
    Pow10Small();
    NumberPadded(y, 4);
    NumberPadded(m, 2);
    NumberPadded(d, 2);
  }

  lemma ParseDateText(day: nat)
    requires YearOf(day, 0).year <= 9999
    ensures |DateText(day)| == 10 && ParseDate(DateText(day)) == Some(day)
  {
    hide ParseDate, Padded, MonthDays;
    var p := YearOf(day, 0);
    YearHasItsMonths(p.year);
    var q := MonthOf(p.day, p.year, 1);
    DateSlices(p.year, q.month, q.day, DateText(day));
    ParseDateOf(p.year, q.month, q.day, DateText(day));
    YearOfSum(day, 0);
    MonthOfSum(p.day, p.year, 1);
  }

  lemma ClockSlices(h: nat, m: nat, sec: nat, s: string)
    requires s == Padded(h, 2) + (":" + (Padded(m, 2) + (":" + Padded(sec, 2))))
    ensures |s| == 8 && s[0..2] == Padded(h, 2) && s[2] == ':' && s[3..5] == Padded(m, 2) && s[5] == ':' && s[6..8] == Padded(sec, 2)
  {
    hide Padded;
  }

  lemma ClockParts(sec: nat)
    requires sec < 86400
    ensures sec / 3600 < 24 && sec / 60 % 60 < 60 && sec % 60 < 60
    ensures 3600 * (sec / 3600) + 60 * (sec / 60 % 60) + sec % 60 == sec
  {
    assert sec / 60 / 60 == sec / 3600;
  }

  lemma ParseClockText(sec: nat)
    requires sec < 86400
    ensures |ClockText(sec)| == 8 && ParseClock(ClockText(sec)) == Some(sec)
  {
    ClockSlices(sec / 3600, sec / 60 % 60, sec % 60, ClockText(sec));
    ClockParts(sec);
    Pow10Small();
    NumberPadded(sec / 3600, 2);
    NumberPadded(sec / 60 % 60, 2);
    NumberPadded(sec % 60, 2);
  }

  lemma ParseDigits(n: nat, width: nat)
    requires 1 <= width <= 9 && n < Pow10(width)
    ensures ParseFraction("." + Padded(n, width)) == Some(n * Pow10(9 - width))
  {
    var s := "." + Padded(n, width);
    assert s[1..] == Padded(n, width);
    NumberPadded(n, width);
  }

  lemma ParseFractionText(ns: nat)
    requires ns < NANOS
    ensures ParseFraction(FractionText(ns)) == Some(ns)
  {
    Pow10Small();
    Pow10Powers();
    if ns != 0 {
      if ns % 1_000_000 == 0 {
        ParseDigits(ns / 1_000_000, 3);
      } else if ns % 1_000 == 0 {
        ParseDigits(ns / 1_000, 6);
      } else {
        ParseDigits(ns, 9);
      }
    }
  }

  lemma Pow10Powers()
    ensures Pow10(0) == 1 && Pow10(3) == 1_000 && Pow10(6) == 1_000_000 && Pow10(9) == 1_000_000_000
  {
    assert Pow10(3) == 1_000;
    assert Pow10(6) == 1_000 * Pow10(3) by {
      assert Pow10(5) == 100 * Pow10(3);
    }
    assert Pow10(9) == 1_000 * Pow10(6) by {
      assert Pow10(8) == 100 * Pow10(6);
    }
  }

  lemma RenderSlices(date: string, clock: string, fraction: string, s: string)
    requires |date| == 10 && |clock| == 8 && s == date + ("T" + clock) + (fraction + OFFSET)
    ensures |s| >= 25 && s[..10] == date && s[10] == 'T' && s[11..19] == clock
    ensures s[19..|s| - 6] == fraction && s[|s| - 6..] == OFFSET
  {
  }

  /** A rendered timestamp is read back as the instant it was, to the nanosecond. */
  lemma ParseRender(t: nat)
    requires FourDigitYear(t)
    ensures Parse(Render(t)) == Some(t)
  {
    hide ParseDate, ParseClock, ParseFraction, DateText, ClockText, FractionText, YearOf;
    var sec, ns := t / NANOS, t % NANOS;
    ParseDateText(sec / 86400);
    ParseClockText(sec % 86400);
    ParseFractionText(ns);
    RenderSlices(DateText(sec / 86400), ClockText(sec % 86400), FractionText(ns), Render(t));
  }
}
