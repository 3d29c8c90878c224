/** ISO-8601 timestamps to epoch seconds (src/handler.c, `parse_iso8601` and the query period). The
    closed formula is proved equal to counting days one at a time from 1970-01-01. */
module IsoTime {
  import opened CStrings

  // ----- the calendar -----

  datatype Date = Date(y: int, m: int, d: int)

  predicate Leap(y: int) { y % 4 == 0 && (y % 100 != 0 || y % 400 == 0) }

  function MonthLength(y: int, m: int): int {
    if m == 2 then (if Leap(y) then 29 else 28)
    else if m == 4 || m == 6 || m == 9 || m == 11 then 30
    else 31
  }

  predicate ValidDate(x: Date) { 1 <= x.m <= 12 && 1 <= x.d <= MonthLength(x.y, x.m) }

  function NextDay(x: Date): (r: Date)
    requires ValidDate(x)
    ensures ValidDate(r)
  {
    if x.d < MonthLength(x.y, x.m) then x.(d := x.d + 1)
    else if x.m < 12 then Date(x.y, x.m + 1, 1)
    else Date(x.y + 1, 1, 1)
  }

  function PreviousDay(x: Date): (r: Date)
    requires ValidDate(x)
    ensures ValidDate(r) && NextDay(r) == x
  {
    if x.d > 1 then x.(d := x.d - 1)
    else if x.m > 1 then Date(x.y, x.m - 1, MonthLength(x.y, x.m - 1))
    else Date(x.y - 1, 12, 31)
  }

  /** Where a date stands in time; only its order matters. */
  function Rank(x: Date): int { (x.y * 12 + x.m) * 32 + x.d }

  const EPOCH := Date(1970, 1, 1)

  /** Days since 1970-01-01, counted one at a time. */
  function CountDays(x: Date): int
    requires ValidDate(x)
    decreases if Rank(x) >= Rank(EPOCH) then Rank(x) - Rank(EPOCH) else Rank(EPOCH) - Rank(x)
  {
    if x == EPOCH then 0
    else if Rank(x) > Rank(EPOCH) then CountDays(PreviousDay(x)) + 1
    else CountDays(NextDay(x)) - 1
  }

  // ----- the formula -----

  /** The era of 400 years; the shift makes truncating division round down. */
  function Era(y: int): int { TruncDiv(if y >= 0 then y else y - 399, 400) }

  function DaysFromCivil(y0: int, mo: int, d: int): int {
    var y := if mo <= 2 then y0 - 1 else y0;
    var era := Era(y);
    var yoe := y - era * 400;
    var mp := if mo > 2 then mo - 3 else mo + 9;
    var doy := (153 * mp + 2) / 5 + d - 1;
    var doe := yoe * 365 + yoe / 4 - yoe / 100 + doy;
    era * 146097 + doe - 719468
  }

  lemma EraRoundsDown(y: int)
    ensures Era(y) == y / 400 && 0 <= y - Era(y) * 400 < 400
  {
  }

  /** The intermediate values stay in the ranges of their unsigned C types. */
  lemma FormulaInRange(x: Date)
    requires ValidDate(x)
    ensures var y := if x.m <= 2 then x.y - 1 else x.y;
            var mp := if x.m > 2 then x.m - 3 else x.m + 9;
            0 <= y - Era(y) * 400 < 400 && 0 <= mp < 12 && 0 <= (153 * mp + 2) / 5 + x.d - 1 < 366
  {
    EraRoundsDown(if x.m <= 2 then x.y - 1 else x.y);
  }

  /** Days before the year `k` of the era `e`, years starting in March. */
  function YearStart(e: int, k: int): int { e * 146097 + k * 365 + k / 4 - k / 100 }

  /** The day of the March-based year on which month `mp` starts. */
  function MonthStart(mp: int): int { (153 * mp + 2) / 5 }

  function MarchYear(y: int, m: int): int { if m <= 2 then y - 1 else y }

  function MarchMonth(m: int): int { if m > 2 then m - 3 else m + 9 }

  lemma FormulaSplits(y: int, m: int, d: int)
    ensures DaysFromCivil(y, m, d)
      == YearStart(MarchYear(y, m) / 400, MarchYear(y, m) % 400) + MonthStart(MarchMonth(m)) + d - 1 - 719468
  {
    EraRoundsDown(MarchYear(y, m));
  }

  lemma LeapInEra(e: int, k: int)
    requires 0 < k <= 400
    ensures Leap(400 * e + k) <==> k % 4 == 0 && (k % 100 != 0 || k == 400)
  {
    var y := 400 * e + k;
    assert y % 4 == k % 4 by { Mod4(y, 100 * e + k / 4, k % 4); }
    assert y % 100 == k % 100 by { Mod100(y, 4 * e + k / 100, k % 100); }
    assert y % 400 == k % 400 by { Mod400(y, e + k / 400, k % 400); }
  }

  lemma Mod4(x: int, q: int, r: int)
    requires x == 4 * q + r && 0 <= r < 4
    ensures x % 4 == r
  {
  }

  lemma Mod100(x: int, q: int, r: int)
    requires x == 100 * q + r && 0 <= r < 100
    ensures x % 100 == r
  {
  }

  lemma Mod400(x: int, q: int, r: int)
    requires x == 400 * q + r && 0 <= r < 400
    ensures x % 400 == r
  {
  }

  /** A March-based year has 365 days, and one more when the February it ends with is long. */
  lemma YearLength(y: int)
    ensures YearStart((y + 1) / 400, (y + 1) % 400) - YearStart(y / 400, y % 400) == if Leap(y + 1) then 366 else 365
  {
    var e, k := y / 400, y % 400;
    assert y + 1 == 400 * e + (k + 1);
    LeapInEra(e, k + 1);
    if k == 399 {
      assert (y + 1) / 400 == e + 1 && (y + 1) % 400 == 0;
    } else {
      assert (y + 1) / 400 == e && (y + 1) % 400 == k + 1;
      QuarterStep(k);
    }
  }

  lemma QuarterStep(k: int)
    requires 0 <= k < 399
    ensures (k + 1) / 4 - k / 4 - ((k + 1) / 100 - k / 100)
         == if (k + 1) % 4 == 0 && (k + 1) % 100 != 0 then 1 else 0
  {
    assert (k + 1) / 100 - k / 100 == if (k + 1) % 100 == 0 then 1 else 0;
    assert (k + 1) / 4 - k / 4 == if (k + 1) % 4 == 0 then 1 else 0;
  }

  lemma MonthStep(y: int, m: int)
    requires 1 <= m <= 12 && m != 2
    ensures MonthStart(MarchMonth(m) + 1) - MonthStart(MarchMonth(m)) == MonthLength(y, m)
  {
    var mp := MarchMonth(m);
    assert mp == 0 || mp == 1 || mp == 2 || mp == 3 || mp == 4 || mp == 5 || mp == 6 || mp == 7 || mp == 8 || mp == 9
      || mp == 10;
  }

  lemma FebruaryEnds(y: int)
    ensures DaysFromCivil(y, 3, 1) == DaysFromCivil(y, 2, MonthLength(y, 2)) + 1
  {
    FormulaSplits(y, 2, MonthLength(y, 2));
    FormulaSplits(y, 3, 1);
    YearLength(y - 1);
    assert MonthStart(MarchMonth(2)) == 337 && MonthStart(MarchMonth(3)) == 0;
  }

  lemma MonthEnds(y: int, m: int, y': int, m': int)
    requires 1 <= m <= 12 && m != 2
    requires MarchYear(y', m') == MarchYear(y, m) && MarchMonth(m') == MarchMonth(m) + 1
    ensures DaysFromCivil(y', m', 1) == DaysFromCivil(y, m, MonthLength(y, m)) + 1
  {
    FormulaSplits(y, m, MonthLength(y, m));
    FormulaSplits(y', m', 1);
    MonthStep(y, m);
  }

  /** One day later is one more. */
  lemma FormulaStep(x: Date)
    requires ValidDate(x)
    ensures var n := NextDay(x); DaysFromCivil(n.y, n.m, n.d) == DaysFromCivil(x.y, x.m, x.d) + 1
  {
    var n := NextDay(x);
    if x.d < MonthLength(x.y, x.m) {
      FormulaSplits(x.y, x.m, x.d);
      FormulaSplits(x.y, x.m, x.d + 1);
    } else if x.m == 2 {
      FebruaryEnds(x.y);
    } else {
      MonthEnds(x.y, x.m, n.y, n.m);
    }
  }

  lemma FormulaAtEpoch()
    ensures DaysFromCivil(1970, 1, 1) == 0
  {
    FormulaSplits(1970, 1, 1);
    assert MonthStart(MarchMonth(1)) == 306 && YearStart(4, 369) == 719162;
  }

  /** Counting days is the only measure that is 0 at the epoch and grows by one a day. */
  lemma {:induction false} OnlyCount(f: Date -> int, x: Date)
    requires ValidDate(x)
    requires f(EPOCH) == 0 && forall n {:trigger NextDay(n)} | ValidDate(n) :: f(NextDay(n)) == f(n) + 1
    ensures f(x) == CountDays(x)
    decreases if Rank(x) >= Rank(EPOCH) then Rank(x) - Rank(EPOCH) else Rank(EPOCH) - Rank(x)
  {
    if x == EPOCH {
    } else if Rank(x) > Rank(EPOCH) {
      var p := PreviousDay(x);
      assert f(NextDay(p)) == f(p) + 1;
      OnlyCount(f, p);
    } else {
      assert f(NextDay(x)) == f(x) + 1;
      OnlyCount(f, NextDay(x));
    }
  }

  /** The formula counts days, for every date of every year. */
  lemma FormulaCounts(x: Date)
    requires ValidDate(x)
    ensures DaysFromCivil(x.y, x.m, x.d) == CountDays(x)
  {
    var f := (x: Date) => DaysFromCivil(x.y, x.m, x.d);
    FormulaAtEpoch();
    forall n {:trigger NextDay(n)} | ValidDate(n) ensures f(NextDay(n)) == f(n) + 1 { FormulaStep(n); }
    OnlyCount(f, x);
  }

  // ----- order -----

  predicate DateBefore(a: Date, b: Date) { a.y < b.y || (a.y == b.y && (a.m < b.m || (a.m == b.m && a.d < b.d))) }

  lemma NothingBetween(a: Date, b: Date)
    requires ValidDate(a) && ValidDate(b) && DateBefore(a, b)
    ensures var p := PreviousDay(b); a == p || DateBefore(a, p)
    ensures Rank(PreviousDay(b)) < Rank(b)
  {
  }

  lemma {:induction false} LaterIsMore(f: Date -> int, a: Date, b: Date)
    requires ValidDate(a) && ValidDate(b) && DateBefore(a, b)
    requires forall n {:trigger NextDay(n)} | ValidDate(n) :: f(NextDay(n)) == f(n) + 1
    ensures f(a) < f(b)
    decreases Rank(b) - Rank(a)
  {
    var p := PreviousDay(b);
    NothingBetween(a, b);
    assert f(NextDay(p)) == f(p) + 1;
    if a != p {
      RankFollows(a, p);
      LaterIsMore(f, a, p);
    }
  }

  lemma RankFollows(a: Date, b: Date)
    requires ValidDate(a) && ValidDate(b) && DateBefore(a, b)
    ensures Rank(a) < Rank(b)
  {
  }

  /** Later dates get larger day numbers. */
  lemma FormulaIncreases(a: Date, b: Date)
    requires ValidDate(a) && ValidDate(b) && DateBefore(a, b)
    ensures DaysFromCivil(a.y, a.m, a.d) < DaysFromCivil(b.y, b.m, b.d)
  {
    var f := (x: Date) => DaysFromCivil(x.y, x.m, x.d);
    forall n {:trigger NextDay(n)} | ValidDate(n) ensures f(NextDay(n)) == f(n) + 1 { FormulaStep(n); }
    LaterIsMore(f, a, b);
  }

  // ----- date-times -----

  datatype DateTime = DateTime(date: Date, h: int, mi: int, se: int)

  predicate ValidTime(t: DateTime) { ValidDate(t.date) && 0 <= t.h < 24 && 0 <= t.mi < 60 && 0 <= t.se < 60 }

  function SecondOfDay(t: DateTime): int { t.h * 3600 + t.mi * 60 + t.se }

  function EpochSeconds(t: DateTime): int {
    DaysFromCivil(t.date.y, t.date.m, t.date.d) * 86400 + t.h * 3600 + t.mi * 60 + t.se
  }

  predicate Earlier(a: DateTime, b: DateTime) {
    DateBefore(a.date, b.date)
    || (a.date == b.date && (a.h < b.h || (a.h == b.h && (a.mi < b.mi || (a.mi == b.mi && a.se < b.se)))))
  }

  function NextSecond(t: DateTime): (r: DateTime)
    requires ValidTime(t)
    ensures ValidTime(r)
  {
    if t.se < 59 then t.(se := t.se + 1)
    else if t.mi < 59 then t.(mi := t.mi + 1, se := 0)
    else if t.h < 23 then t.(h := t.h + 1, mi := 0, se := 0)
    else DateTime(NextDay(t.date), 0, 0, 0)
  }

  /** `n` seconds after `t`, one second at a time. */
  function After(t: DateTime, n: nat): (r: DateTime)
    requires ValidTime(t)
    ensures ValidTime(r)
  {
    if n == 0 then t else NextSecond(After(t, n - 1))
  }

  lemma SecondStep(t: DateTime)
    requires ValidTime(t)
    ensures EpochSeconds(NextSecond(t)) == EpochSeconds(t) + 1
  {
    FormulaStep(t.date);
  }

  lemma {:induction false} TicksAdd(g: DateTime -> int, t: DateTime, n: nat)
    requires ValidTime(t)
    requires forall u {:trigger NextSecond(u)} | ValidTime(u) :: g(NextSecond(u)) == g(u) + 1
    ensures g(After(t, n)) == g(t) + n
  {
    if n > 0 {
      TicksAdd(g, t, n - 1);
      assert g(NextSecond(After(t, n - 1))) == g(After(t, n - 1)) + 1;
    }
  }

  lemma SecondsCount(t: DateTime, n: nat)
    requires ValidTime(t)
    ensures EpochSeconds(After(t, n)) == EpochSeconds(t) + n
  {
    var g := (u: DateTime) => EpochSeconds(u);
    forall u {:trigger NextSecond(u)} | ValidTime(u) ensures g(NextSecond(u)) == g(u) + 1 { SecondStep(u); }
    TicksAdd(g, t, n);
  }

  lemma SameDayOrder(a: DateTime, b: DateTime)
    requires ValidTime(a) && ValidTime(b) && a.date == b.date
    ensures Earlier(a, b) <==> SecondOfDay(a) < SecondOfDay(b)
    ensures a != b ==> SecondOfDay(a) != SecondOfDay(b)
  {
  }

  lemma EarlierIsLess(a: DateTime, b: DateTime)
    requires ValidTime(a) && ValidTime(b) && Earlier(a, b)
    ensures EpochSeconds(a) < EpochSeconds(b)
  {
    if DateBefore(a.date, b.date) {
      FormulaIncreases(a.date, b.date);
      var i, j := DaysFromCivil(a.date.y, a.date.m, a.date.d), DaysFromCivil(b.date.y, b.date.m, b.date.d);
      assert EpochSeconds(a) == i * 86400 + SecondOfDay(a) && EpochSeconds(b) == j * 86400 + SecondOfDay(b);
    } else {
      SameDayOrder(a, b);
    }
  }

  /** Epoch seconds order date-times exactly as the calendar does. */
  lemma EpochIncreases(a: DateTime, b: DateTime)
    requires ValidTime(a) && ValidTime(b)
    ensures EpochSeconds(a) < EpochSeconds(b) <==> Earlier(a, b)
    ensures EpochSeconds(a) == EpochSeconds(b) <==> a == b
  {
    if Earlier(a, b) {
      EarlierIsLess(a, b);
    } else if a != b {
      EarlierIsLess(b, a);
    }
  }

  /** The difference of two epoch values is the number of seconds from one to the other. */
  lemma DifferenceIsElapsed(a: DateTime, b: DateTime)
    requires ValidTime(a) && ValidTime(b) && Earlier(a, b)
    ensures EpochSeconds(a) < EpochSeconds(b) && After(a, EpochSeconds(b) - EpochSeconds(a)) == b
  {
    EpochIncreases(a, b);
    var n := EpochSeconds(b) - EpochSeconds(a);
    SecondsCount(a, n);
    EpochIncreases(After(a, n), b);
  }

  /** Midnight of the day that days are counted from. */
  predicate IsZero(t: DateTime) { ValidTime(t) && CountDays(t.date) == 0 && SecondOfDay(t) == 0 }

  /** Midnight 1970-01-01 is second 0. */
  lemma EpochIsZero(zero: DateTime)
    requires IsZero(zero)
    ensures EpochSeconds(zero) == 0
  {
    FormulaCounts(zero.date);
  }

  /** Days are counted from 1970-01-01 and from no other day. */
  lemma OnlyEpoch(x: Date, epoch: Date)
    requires ValidDate(x) && ValidDate(epoch) && CountDays(epoch) == 0
    ensures CountDays(x) == 0 <==> x == epoch
  {
    FormulaCounts(x);
    FormulaCounts(epoch);
    if DateBefore(x, epoch) {
      FormulaIncreases(x, epoch);
    } else if x != epoch {
      FormulaIncreases(epoch, x);
    }
  }

  /** Every date-time from midnight 1970-01-01 on is reached from it by ticking its epoch seconds. */
  lemma TickedFromZero(zero: DateTime, t: DateTime)
    requires IsZero(zero) && ValidTime(t) && !Earlier(t, zero)
    ensures EpochSeconds(t) >= 0 && After(zero, EpochSeconds(t)) == t
  {
    EpochIsZero(zero);
    TickedFrom(zero, t);
  }

  lemma TickedFrom(zero: DateTime, t: DateTime)
    requires ValidTime(zero) && EpochSeconds(zero) == 0
    requires ValidTime(t) && !Earlier(t, zero)
    ensures EpochSeconds(t) >= 0 && After(zero, EpochSeconds(t)) == t
  {
    if t != zero {
      OneIsEarlier(zero, t);
      DifferenceIsElapsed(zero, t);
    }
  }

  lemma OneIsEarlier(a: DateTime, b: DateTime)
    requires a != b
    ensures Earlier(a, b) || Earlier(b, a)
  {
  }

  /** A leap second counts as the first second of the next minute: epoch seconds do not tell the two apart. */
  lemma LeapSecond(t: DateTime)
    requires ValidTime(t)
    ensures EpochSeconds(t.(se := 60)) == EpochSeconds(NextSecond(t.(se := 59)))
  {
    SecondStep(t.(se := 59));
  }

  // ----- text -----

  /** One `%d` of `sscanf`: the value and the text after it. */
  function ScanInt(s: string): (r: Option<(int, string)>)
    ensures r.Some? ==> |r.value.1| < |s|
  {
    var t := SkipSpace(s);
    var u := if t != "" && (t[0] == '-' || t[0] == '+') then t[1..] else t;
    var d := Digits(u);
    if d == "" then None
    else Some((if t[0] == '-' then 0 - NatValue(d) else NatValue(d), u[|d|..]))
  }

  /** Integers separated by the characters of `seps`, up to the first that does not fit. */
  function Scan(seps: string, s: string): (r: seq<int>)
    ensures |r| <= |seps| + 1
  {
    match ScanInt(s)
    case None => []
    case Some(v) =>
      if seps == "" || v.1 == "" || v.1[0] != seps[0] then [v.0] else [v.0] + Scan(seps[1..], v.1[1..])
  }

  /** `parse_iso8601`: 0 when fewer than five fields can be read. */
  function ParseIso8601(s: string): int {
    var f := Scan("--T::", s);
    if |f| < 5 then 0
    else EpochSeconds(DateTime(Date(f[0], f[1], f[2]), f[3], f[4], if |f| > 5 then f[5] else 0))
  }

  /** `parts` with the characters of `seps` between them. */
  function Join(seps: string, parts: seq<string>): string
    requires |parts| == |seps| + 1
  {
    if seps == "" then parts[0] else parts[0] + ([seps[0]] + Join(seps[1..], parts[1..]))
  }

  function Two(n: int): string
    requires 0 <= n < 100
  {
    [DigitChar(n / 10), DigitChar(n % 10)]
  }

  /** A year of four digits; the second may be a leap second. */
  predicate Written(t: DateTime) {
    ValidDate(t.date) && 0 <= t.date.y < 10000 && 0 <= t.h < 24 && 0 <= t.mi < 60 && 0 <= t.se <= 60
  }

  function Parts(t: DateTime): seq<string>
    requires Written(t)
  {
    [Two(t.date.y / 100) + Two(t.date.y % 100), Two(t.date.m), Two(t.date.d), Two(t.h), Two(t.mi), Two(t.se)]
  }

  /** RFC 3339, section 5.6: `full-date "T" partial-time`, without the fraction and the offset. */
  function Print(t: DateTime): string
    requires Written(t)
  {
    Join("--T::", Parts(t))
  }

  predicate Number(d: string) { d != "" && forall c :: c in d ==> IsDigit(c) }

  lemma ScanNumber(d: string, rest: string)
    requires Number(d) && NoDigitFirst(rest)
    ensures ScanInt(d + rest) == Some((NatValue(d), rest))
  {
    DigitsStop(d, rest);
    assert d[0] in d;
    var t := d + rest;
    assert t[0] == d[0] && SkipSpace(t) == t;
    assert t[|d|..] == rest;
  }

  predicate Reads(d: string, n: int) { Number(d) && NatValue(d) == n }

  lemma ScanField(d: string, c: char, seps: string, rest: string)
    requires Number(d) && !IsDigit(c)
    ensures Scan([c] + seps, d + ([c] + rest)) == [NatValue(d)] + Scan(seps, rest)
  {
    ScanNumber(d, [c] + rest);
    assert ([c] + seps)[1..] == seps && ([c] + rest)[1..] == rest;
  }

  /** Every field joined by separators is read back, whatever follows that is neither a digit nor the
      next separator. */
  lemma {:induction false} ScanJoin(seps: string, next: string, parts: seq<string>, ns: seq<int>, suffix: string)
    requires |parts| == |ns| == |seps| + 1 && NoDigitFirst(suffix)
    requires suffix != "" && next != "" ==> suffix[0] != next[0]
    requires forall i :: 0 <= i < |parts| ==> Reads(parts[i], ns[i])
    requires forall c :: c in seps ==> !IsDigit(c)
    ensures Scan(seps + next, Join(seps, parts) + suffix) == ns
  {
    if seps == "" {
      assert seps + next == next;
      ScanNumber(parts[0], suffix);
    } else {
      var rest := Join(seps[1..], parts[1..]);
      assert Join(seps, parts) + suffix == parts[0] + ([seps[0]] + (rest + suffix));
      assert seps + next == [seps[0]] + (seps[1..] + next) && seps[0] in seps;
      ScanField(parts[0], seps[0], seps[1..] + next, rest + suffix);
      ReadsTail(parts, ns);
      ScanJoin(seps[1..], next, parts[1..], ns[1..], suffix);
    }
  }

  lemma ReadsTail(parts: seq<string>, ns: seq<int>)
    requires 0 < |parts| == |ns| && forall i :: 0 <= i < |parts| ==> Reads(parts[i], ns[i])
    ensures forall i :: 0 <= i < |parts| - 1 ==> Reads(parts[1..][i], ns[1..][i])
  {
    assert forall i :: 0 <= i < |parts| - 1 ==> parts[1..][i] == parts[i + 1] && ns[1..][i] == ns[i + 1];
  }

  lemma TwoValue(n: int)
    requires 0 <= n < 100
    ensures Number(Two(n)) && NatValue(Two(n)) == n
  {
    var d := Two(n);
    assert d[..1] == [d[0]] && d[..1][..0] == "";
    assert NatValue(d[..1]) == n / 10;
  }

  lemma FourValue(n: int)
    requires 0 <= n < 10000
    ensures Number(Two(n / 100) + Two(n % 100)) && NatValue(Two(n / 100) + Two(n % 100)) == n
  {
    var a, b := Two(n / 100), Two(n % 100);
    TwoValue(n / 100);
    assert (a + b)[..3] == a + [b[0]] && (a + [b[0]])[..2] == a;
    assert NatValue(a + [b[0]]) == n / 10;
  }

  function Fields(t: DateTime): seq<int> { [t.date.y, t.date.m, t.date.d, t.h, t.mi, t.se] }

  lemma PartsRead(t: DateTime)
    requires Written(t)
    ensures forall i :: 0 <= i < 6 ==> Reads(Parts(t)[i], Fields(t)[i])
  {
    FourValue(t.date.y);
    TwoValue(t.date.m);
    TwoValue(t.date.d);
    TwoValue(t.h);
    TwoValue(t.mi);
    TwoValue(t.se);
  }

  /** A written date-time is read back to its epoch seconds, whatever follows the seconds. */
  lemma ParsePrinted(t: DateTime, suffix: string)
    requires Written(t) && NoDigitFirst(suffix)
    ensures ParseIso8601(Print(t) + suffix) == EpochSeconds(t)
  {
    PartsRead(t);
    assert "--T::" + "" == "--T::";
    ScanJoin("--T::", "", Parts(t), Fields(t), suffix);
  }

  /** Seconds may be missing. */
  lemma ParseWithoutSeconds(t: DateTime, suffix: string)
    requires Written(t) && NoDigitFirst(suffix) && !(":" <= suffix)
    ensures ParseIso8601(Join("--T:", Parts(t)[..5]) + suffix) == EpochSeconds(t.(se := 0))
  {
    PartsRead(t);
    assert "--T:" + ":" == "--T::";
    ScanJoin("--T:", ":", Parts(t)[..5], Fields(t)[..5], suffix);
  }

  /** Without minutes nothing is understood. */
  lemma ParseIncomplete(t: DateTime, suffix: string)
    requires Written(t) && NoDigitFirst(suffix)
    ensures !(":" <= suffix) ==> ParseIso8601(Join("--T", Parts(t)[..4]) + suffix) == 0
    ensures !("T" <= suffix) ==> ParseIso8601(Join("--", Parts(t)[..3]) + suffix) == 0
  {
    PartsRead(t);
    assert "--T" + "::" == "--T::" && "--" + "T::" == "--T::";
    if !(":" <= suffix) {
      ScanJoin("--T", "::", Parts(t)[..4], Fields(t)[..4], suffix);
    }
    if !("T" <= suffix) {
      ScanJoin("--", "T::", Parts(t)[..3], Fields(t)[..3], suffix);
    }
  }

  // ----- timestamps with a fraction and an offset -----

  /** RFC 3339, section 5.6: `Z`, or hours and minutes ahead of or behind UTC. */
  datatype Offset = Zulu | Ahead(h: int, mi: int) | Behind(h: int, mi: int)

  predicate ValidOffset(o: Offset) { !o.Zulu? ==> 0 <= o.h < 24 && 0 <= o.mi < 60 }

  function Minutes(o: Offset): int {
    match o
    case Zulu => 0
    case Ahead(h, mi) => h * 60 + mi
    case Behind(h, mi) => -(h * 60 + mi)
  }

  function OffsetText(o: Offset): string
    requires ValidOffset(o)
  {
    match o
    case Zulu => "Z"
    case Ahead(h, mi) => "+" + Two(h) + ":" + Two(mi)
    case Behind(h, mi) => "-" + Two(h) + ":" + Two(mi)
  }

  datatype Timestamp = Timestamp(local: DateTime, fraction: string, offset: Offset)

  predicate ValidStamp(x: Timestamp) {
    Written(x.local) && ValidOffset(x.offset)
    && (x.fraction == "" || (x.fraction[0] == '.' && Number(x.fraction[1..])))
  }

  function StampText(x: Timestamp): string
    requires ValidStamp(x)
  {
    Print(x.local) + (x.fraction + OffsetText(x.offset))
  }

  /** The instant a timestamp denotes, in whole seconds: local time less the offset (section 4.2). */
  function Instant(x: Timestamp): int { EpochSeconds(x.local) - 60 * Minutes(x.offset) }

  lemma ParseStamp(x: Timestamp)
    requires ValidStamp(x)
    ensures ParseIso8601(StampText(x)) == EpochSeconds(x.local)
  {
    ParsePrinted(x.local, x.fraction + OffsetText(x.offset));
  }

  /** The parser skips the offset, so it finds the instant exactly when the offset is zero. */
  lemma ParsedInstant(x: Timestamp)
    requires ValidStamp(x)
    ensures ParseIso8601(StampText(x)) - Instant(x) == 60 * Minutes(x.offset)
    ensures ParseIso8601(StampText(x)) == Instant(x) <==> Minutes(x.offset) == 0
  {
    ParseStamp(x);
  }

  /** 2026-08-02T00:00:00+02:00 is two hours before 2026-08-02T00:00:00Z, but is read as the same. */
  lemma OffsetDropped()
    ensures var local := DateTime(Date(2026, 8, 2), 0, 0, 0);
            var east, utc := Timestamp(local, "", Ahead(2, 0)), Timestamp(local, "", Zulu);
            ValidStamp(east) && ValidStamp(utc) && Instant(utc) - Instant(east) == 7200
            && ParseIso8601(StampText(east)) == ParseIso8601(StampText(utc)) == Instant(utc)
  {
    var local := DateTime(Date(2026, 8, 2), 0, 0, 0);
    ParsedInstant(Timestamp(local, "", Ahead(2, 0)));
    ParsedInstant(Timestamp(local, "", Zulu));
  }

  // ----- the query period -----

  /** The seconds from `f` to `t`; an hour when there are none. */
  function PeriodOf(f: int, t: int): int {
    var period := if t > f then t - f else 3600;
    if period <= 0 then 3600 else period
  }

  function EpochOf(s: Option<string>): int { if s.Some? then ParseIso8601(s.value) else 0 }

  /** The period of a Grafana query, from the `from` and `to` strings that are present. */
  function QueryPeriod(from: Option<string>, to: Option<string>): int { PeriodOf(EpochOf(from), EpochOf(to)) }

  lemma PeriodOfStamps(a: Timestamp, b: Timestamp)
    requires ValidStamp(a) && ValidStamp(b)
    ensures QueryPeriod(Some(StampText(a)), Some(StampText(b)))
         == PeriodOf(EpochSeconds(a.local), EpochSeconds(b.local))
  {
    ParseStamp(a);
    ParseStamp(b);
  }

  lemma PeriodOfEpochs(a: DateTime, b: DateTime, p: int)
    requires ValidTime(a) && ValidTime(b) && p == PeriodOf(EpochSeconds(a), EpochSeconds(b))
    ensures p > 0 && (if Earlier(a, b) then p == EpochSeconds(b) - EpochSeconds(a) && After(a, p) == b else p == 3600)
  {
    EpochIncreases(a, b);
    if Earlier(a, b) {
      DifferenceIsElapsed(a, b);
    }
  }

  /** Between two timestamps with the same offset, UTC or not, the period is the time that truly passes:
      the difference of their instants, ticked second by second; an hour when no time passes. */
  lemma PeriodIsElapsed(a: Timestamp, b: Timestamp)
    requires ValidStamp(a) && ValidStamp(b) && ValidTime(a.local) && ValidTime(b.local)
    requires Minutes(a.offset) == Minutes(b.offset)
    ensures var p := QueryPeriod(Some(StampText(a)), Some(StampText(b)));
            p > 0 && (if Earlier(a.local, b.local) then p == Instant(b) - Instant(a) && After(a.local, p) == b.local
                      else p == 3600 && Instant(b) <= Instant(a))
  {
    PeriodOfStamps(a, b);
    PeriodOfEpochs(a.local, b.local, QueryPeriod(Some(StampText(a)), Some(StampText(b))));
    EpochIncreases(a.local, b.local);
  }

  /** For all timestamps: as written, `from` before `to`, the period is the true one exactly when the
      offsets are equal. Else it is an hour, which is right when truly no time, or just an hour, passes. */
  lemma PeriodExactly(a: Timestamp, b: Timestamp)
    requires ValidStamp(a) && ValidStamp(b) && ValidTime(a.local) && ValidTime(b.local)
    ensures var p := QueryPeriod(Some(StampText(a)), Some(StampText(b)));
            if Earlier(a.local, b.local) then p == Instant(b) - Instant(a) <==> Minutes(a.offset) == Minutes(b.offset)
            else p == PeriodOf(Instant(a), Instant(b)) <==> Instant(b) <= Instant(a) || Instant(b) - Instant(a) == 3600
  {
    PeriodOfStamps(a, b);
    EpochIncreases(a.local, b.local);
  }

  /** When `from` is missing or not understood and `to` is, the period reaches back to 1970. It is the default
      hour exactly when `to` is not after 1970-01-01T00:00:00, or just an hour after. */
  lemma PeriodWithoutFrom(from: Option<string>, b: Timestamp)
    requires EpochOf(from) == 0 && ValidStamp(b)
    ensures var p, e := QueryPeriod(from, Some(StampText(b))), EpochSeconds(b.local);
            p == (if e > 0 then e else 3600) && (p == 3600 <==> e <= 0 || e == 3600)
  {
    ParseStamp(b);
  }

  /** When `to` is missing or not understood, the period is the default hour, unless `from` is before 1970. */
  lemma PeriodWithoutTo(a: Timestamp, to: Option<string>)
    requires EpochOf(to) == 0 && ValidStamp(a)
    ensures var p, e := QueryPeriod(Some(StampText(a)), to), EpochSeconds(a.local);
            p == (if e < 0 then -e else 3600) && (p == 3600 <==> e >= 0 || e == -3600)
  {
    ParseStamp(a);
  }

  /** A `from` that is a date without a time, or has an hour without minutes, is such a case, whatever the date:
      the period is not the time since that day, but since 1970. */
  lemma DateOnlyFrom(t: DateTime, b: Timestamp)
    requires Written(t) && ValidStamp(b) && EpochSeconds(b.local) > 0
    ensures QueryPeriod(Some(Join("--", Parts(t)[..3])), Some(StampText(b))) == EpochSeconds(b.local)
    ensures QueryPeriod(Some(Join("--T", Parts(t)[..4])), Some(StampText(b))) == EpochSeconds(b.local)
  {
    var day, hour := Join("--", Parts(t)[..3]), Join("--T", Parts(t)[..4]);
    ParseIncomplete(t, "");
    assert day + "" == day && hour + "" == hour;
    PeriodWithoutFrom(Some(day), b);
    PeriodWithoutFrom(Some(hour), b);
  }
}
