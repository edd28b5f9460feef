/**
 Minute-of-day arithmetic on "HH:MM" texts (lib/circadian.ts `toMin`/`toTime`; lib/viz.ts
 repeats the same two definitions, so they are stated once here), the wrap-around duration
 rule, and the API route's own `timeToMinutes`, which lacks the `% 24`.
 */
module TimeText {
  import opened Wrappers

  const MinutesPerDay: int := 1440

  predicate IsDigit(c: char) { '0' <= c <= '9' }

  function DigitValue(c: char): nat
    requires IsDigit(c)
  {
    (c as int) - ('0' as int)
  }

  function DigitChar(d: nat): (c: char)
    requires d < 10
    ensures IsDigit(c) && DigitValue(c) == d
  {
    ('0' as int + d) as char
  }

  /** `Number(s)` for a text made of decimal digits (the empty text reads as 0, as in
      JavaScript); any other text reads as NaN, written `None`. */
  function ParseNumber(s: string): (r: Option<nat>)
    ensures r.Some? <==> forall i :: 0 <= i < |s| ==> IsDigit(s[i])
  {
    if |s| == 0 then Some(0)
    else
      match ParseNumber(s[..|s| - 1])
      case None => None
      case Some(v) =>
        if IsDigit(s[|s| - 1]) then Some(10 * v + DigitValue(s[|s| - 1])) else None
  }

  /** Position of the first ':' in `t`, or `|t|` when there is none. */
  function ColonIndex(t: string): (k: nat)
    ensures k <= |t|
    ensures k < |t| ==> t[k] == ':'
    ensures forall i :: 0 <= i < k ==> t[i] != ':'
  {
    if |t| == 0 || t[0] == ':' then 0 else 1 + ColonIndex(t[1..])
  }

  /** `Number(t.split(':')[0])`. */
  function HourField(t: string): Option<nat> {
    ParseNumber(t[..ColonIndex(t)])
  }

  /** `Number(t.split(':')[1]) || 0`: an absent field, NaN and 0 all give 0. */
  function MinuteField(t: string): nat {
    var k := ColonIndex(t);
    if k == |t| then 0
    else
      var rest := t[k + 1..];
      match ParseNumber(rest[..ColonIndex(rest)])
      case None => 0
      case Some(m) => m
  }

  /** `toMin`: hours modulo 24, times 60, plus minutes. NaN hours make the value NaN. */
  function ToMin(t: string): Option<int> {
    match HourField(t)
    case None => None
    case Some(h) => Some((h % 24) * 60 + MinuteField(t))
  }

  /** `timeToMinutes` of the API route: the same reading without the `% 24`. */
  function TimeToMinutes(t: string): Option<int> {
    match HourField(t)
    case None => None
    case Some(h) => Some(h * 60 + MinuteField(t))
  }

  function TwoDigits(a: char, b: char): nat
    requires IsDigit(a) && IsDigit(b)
  {
    10 * DigitValue(a) + DigitValue(b)
  }

  /** A zero-padded 24-hour clock text "HH:MM" with HH <= 23 and MM <= 59. */
  predicate IsClock(t: string) {
    && |t| == 5
    && IsDigit(t[0]) && IsDigit(t[1]) && t[2] == ':' && IsDigit(t[3]) && IsDigit(t[4])
    && TwoDigits(t[0], t[1]) <= 23
    && TwoDigits(t[3], t[4]) <= 59
  }

  lemma ParseTwoDigits(s: string)
    requires |s| == 2 && IsDigit(s[0]) && IsDigit(s[1])
    ensures ParseNumber(s) == Some(TwoDigits(s[0], s[1]))
  {
    assert s[..1][..0] == [];
    assert ParseNumber(s[..1]) == Some(DigitValue(s[0]));
  }

  /** Two digits, a colon and two digits: the shape of a clock text without its ranges. */
  predicate DigitPairs(t: string) {
    |t| == 5 && IsDigit(t[0]) && IsDigit(t[1]) && t[2] == ':' && IsDigit(t[3]) && IsDigit(t[4])
  }

  /** The two fields of a "DD:DD" text read as its two digit pairs. */
  lemma ClockFields(t: string)
    requires DigitPairs(t)
    ensures HourField(t) == Some(TwoDigits(t[0], t[1]))
    ensures MinuteField(t) == TwoDigits(t[3], t[4])
  {
    assert t[0] != ':' && t[1] != ':';
    assert ColonIndex(t) == 2 by {
      assert ColonIndex(t) == 1 + ColonIndex(t[1..]);
      assert ColonIndex(t[1..]) == 1 + ColonIndex(t[2..]);
    }
    ParseTwoDigits(t[..2]);
    var rest := t[3..];
    assert rest[0] != ':' && rest[1] != ':';
    assert ColonIndex(rest) == 2 by {
      assert ColonIndex(rest) == 1 + ColonIndex(rest[1..]);
      assert ColonIndex(rest[1..]) == 1 + ColonIndex(rest[2..]);
    }
    assert rest[..2] == rest;
    ParseTwoDigits(rest);
  }

  /** The minute value the engine reads from a clock text: `toMin(t)` (see `ClockToMin`).
      Every time the engine handles is a clock text; any other text maps to 0. */
  function MinuteOf(t: string): (r: nat)
    ensures r < MinutesPerDay
  {
    if IsClock(t) then 60 * TwoDigits(t[0], t[1]) + TwoDigits(t[3], t[4]) else 0
  }

  /** On a clock text, `toMin` is hours times 60 plus minutes, a minute of the day. */
  lemma ClockToMin(t: string)
    requires IsClock(t)
    ensures ToMin(t) == Some(MinuteOf(t))
  {
    ClockFields(t);
  }

  /** JavaScript's `%` for a positive divisor: the remainder takes the sign of `a`. */
  function JsRem(a: int, b: int): (r: int)
    requires b > 0
    ensures -b < r < b
    ensures a >= 0 ==> r == a % b
    ensures a < 0 ==> r <= 0
  {
    if a >= 0 then a % b else -((-a) % b)
  }

  /** For a day's length, JavaScript's remainder differs from its operand by whole days. */
  lemma JsRemCongruent(a: int)
    ensures (a - JsRem(a, MinutesPerDay)) % MinutesPerDay == 0
  {
  }

  /** The normalisation `((mins % 1440) + 1440) % 1440` of `toTime`, with JavaScript's `%`,
      is the Euclidean residue of `mins`: negative values wrap. */
  lemma NormaliseIsResidue(mins: int)
    ensures JsRem(JsRem(mins, MinutesPerDay) + MinutesPerDay, MinutesPerDay) == mins % MinutesPerDay
  {
    if mins < 0 {
      var q := (-mins) % MinutesPerDay;
      var k := (-mins) / MinutesPerDay;
      assert -mins == MinutesPerDay * k + q;
      if q == 0 {
        assert mins == MinutesPerDay * (-k);
        assert mins % MinutesPerDay == 0;
      } else {
        assert mins == MinutesPerDay * (-k - 1) + (MinutesPerDay - q);
        assert mins % MinutesPerDay == MinutesPerDay - q;
      }
    }
  }

  /** Decimal `toString` of a natural number. */
  function DecimalText(n: nat): (s: string)
    ensures |s| >= 1
    decreases n
  {
    if n < 10 then [DigitChar(n)] else DecimalText(n / 10) + [DigitChar(n % 10)]
  }

  /** `padStart(2, '0')`. */
  function PadStart2(s: string): string {
    if |s| >= 2 then s else seq(2 - |s|, _ => '0') + s
  }

  lemma PaddedTwoDigits(n: nat)
    requires n < 100
    ensures PadStart2(DecimalText(n)) == [DigitChar(n / 10), DigitChar(n % 10)]
  {
    if n >= 10 {
      assert DecimalText(n / 10) == [DigitChar(n / 10)];
    }
  }

  /** `toTime`: always a clock text, naming the minute `mins` modulo one day. */
  function ToTime(mins: int): (r: string)
    ensures IsClock(r)
    ensures MinuteOf(r) == mins % MinutesPerDay
  {
    var m := JsRem(JsRem(mins, MinutesPerDay) + MinutesPerDay, MinutesPerDay);
    NormaliseIsResidue(mins);
    PaddedTwoDigits(m / 60);
    PaddedTwoDigits(m % 60);
    PadStart2(DecimalText(m / 60)) + ":" + PadStart2(DecimalText(m % 60))
  }

  lemma SplitMinute(h: nat, m: nat)
    requires m < 60
    ensures (60 * h + m) / 60 == h && (60 * h + m) % 60 == m
  {
  }

  /** Two clock texts naming the same minute are the same text. */
  lemma {:induction false} ClockInjective(a: string, b: string)
    requires IsClock(a) && IsClock(b)
    requires MinuteOf(a) == MinuteOf(b)
    ensures a == b
  {
    var ha, ma := TwoDigits(a[0], a[1]), TwoDigits(a[3], a[4]);
    var hb, mb := TwoDigits(b[0], b[1]), TwoDigits(b[3], b[4]);
    SplitMinute(ha, ma);
    SplitMinute(hb, mb);
    assert DigitValue(a[0]) == DigitValue(b[0]) && DigitValue(a[1]) == DigitValue(b[1]);
    assert DigitValue(a[3]) == DigitValue(b[3]) && DigitValue(a[4]) == DigitValue(b[4]);
    assert forall i :: 0 <= i < 5 ==> a[i] == b[i];
  }

  /** `toMin(toTime(m))` is `((m % 1440) + 1440) % 1440`. */
  lemma ToMinOfToTime(m: int)
    ensures ToMin(ToTime(m)) == Some(m % MinutesPerDay)
  {
    ClockToMin(ToTime(m));
  }

  lemma ResidueOfMinute(m: int)
    requires 0 <= m < MinutesPerDay
    ensures MinuteOf(ToTime(m)) == m
  {
  }

  /** `toTime(toMin(t)) == t` for every clock text. */
  lemma {:induction false} ToTimeOfToMin(t: string)
    requires IsClock(t)
    ensures ToTime(MinuteOf(t)) == t
  {
    var m := MinuteOf(t);
    assert 0 <= m < MinutesPerDay;
    ResidueOfMinute(m);
    ClockInjective(ToTime(m), t);
  }

  /** `toTime` depends only on its argument modulo one day. */
  lemma {:induction false} ToTimeIsPeriodic(m: int, k: int)
    ensures ToTime(m + k * MinutesPerDay) == ToTime(m)
  {
    assert (m + k * MinutesPerDay) % MinutesPerDay == m % MinutesPerDay;
    ClockInjective(ToTime(m + k * MinutesPerDay), ToTime(m));
  }

  /** The route's `timeToMinutes` agrees with `toMin` exactly when the hour field is below 24;
      when there is no hour field both read NaN. */
  lemma TimeToMinutesAgreement(t: string)
    ensures HourField(t).None? ==> TimeToMinutes(t).None? && ToMin(t).None?
    ensures HourField(t).Some? && HourField(t).value < 24 ==> TimeToMinutes(t) == ToMin(t)
    ensures HourField(t).Some? && HourField(t).value >= 24 ==> TimeToMinutes(t) != ToMin(t)
  {
  }

  lemma TimeToMinutesOnClock(t: string)
    requires IsClock(t)
    ensures TimeToMinutes(t) == Some(MinuteOf(t))
  {
    ClockToMin(t);
    ClockFields(t);
  }

  /** "24:00" reads as minute 0 through `toMin` but as minute 1440 through `timeToMinutes`. */
  lemma TimeToMinutesDiverges()
    ensures ToMin("24:00") == Some(0)
    ensures TimeToMinutes("24:00") == Some(1440)
  {
    ClockFields("24:00");
  }

  /** The duration rule: forward distance when `end > start`, otherwise across midnight. */
  function WrapDuration(start: int, end: int): (d: int)
    ensures 0 <= start < MinutesPerDay && 0 <= end < MinutesPerDay ==> 1 <= d <= MinutesPerDay
    ensures d % MinutesPerDay == (end - start) % MinutesPerDay
    ensures 0 <= start < MinutesPerDay && 0 <= end < MinutesPerDay ==> (d == MinutesPerDay <==> end == start)
  {
    if end > start then end - start else (MinutesPerDay - start) + end
  }
}
