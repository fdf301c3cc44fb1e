/** `Date.prototype.toISOString`: the instant, in UTC, as `YYYY-MM-DDTHH:mm:ss.sssZ`. */
module IsoDate {
  import opened Common
  import opened Text

  /** Splits a day of a 400-year era, counted from 1 March of the era's first year, into
      the year of the era (years begin on 1 March) and the day within that year: first
      the century (the last one holds the era's extra leap day), then the four-year cycle,
      then the year. */
  function YearOfEra(doe: int): (r: (int, int))
    requires 0 <= doe < 146097
    ensures 0 <= r.0 <= 399 && 0 <= r.1 <= 365
    ensures 365 * r.0 + r.0 / 4 - r.0 / 100 + r.1 == doe
  {
    var c := if doe / 36524 < 3 then doe / 36524 else 3;
    var rc := doe - 36524 * c;
    var q := rc / 1461;
    var rq := rc - 1461 * q;
    var k := if rq / 365 < 3 then rq / 365 else 3;
    var yoe := 100 * c + 4 * q + k;
    assert yoe / 4 == 25 * c + q && yoe / 100 == c;
    (yoe, rq - 365 * k)
  }

  /** The civil date (proleptic Gregorian) of a day number counted from 1970-01-01. */
  function CivilFromDays(days: int): (r: (int, int, int))
    ensures 1 <= r.1 <= 12 && 1 <= r.2 <= 31
  {
    var z := days + 719468;
    var era := z / 146097;
    var split := YearOfEra(z - era * 146097);
    CivilOfEra(era, split.0, split.1)
  }

  /** The civil date of day `doy` (counted from March 1) of year `yoe` of a 400-year era. */
  function CivilOfEra(era: int, yoe: int, doy: int): (r: (int, int, int))
    requires 0 <= doy <= 365
    ensures 1 <= r.1 <= 12 && 1 <= r.2 <= 31
  {
    var mp := (5 * doy + 2) / 153;
    var d := doy - (153 * mp + 2) / 5 + 1;
    var m := if mp < 10 then mp + 3 else mp - 9;
    var y := yoe + era * 400 + (if m <= 2 then 1 else 0);
    (y, m, d)
  }

  /** The day number, counted from 1970-01-01, that a civil date names: the reading of a
      date that `Date.UTC` performs. */
  function DaysFromCivil(y: int, m: int, d: int): int
  {
    var ym := if m <= 2 then y - 1 else y;
    var era := ym / 400;
    var yoe := ym - era * 400;
    var mp := if m > 2 then m - 3 else m + 9;
    var doy := (153 * mp + 2) / 5 + d - 1;
    era * 146097 + 365 * yoe + yoe / 4 - yoe / 100 + doy - 719468
  }

  /** The month and day of a day of a March-based year, read back through the month
      offset, give that day again. */
  lemma MonthRoundTrip(doy: int)
    requires 0 <= doy <= 365
    ensures var mp := (5 * doy + 2) / 153;
      var m := if mp < 10 then mp + 3 else mp - 9;
      && 0 <= mp <= 11 && (m <= 2 <==> mp >= 10)
      && (153 * (if m > 2 then m - 3 else m + 9) + 2) / 5 + (doy - (153 * mp + 2) / 5 + 1) - 1 == doy
  {
  }

  /** Reading back the civil date of a day of an era gives the day number of that day. */
  lemma EraRoundTrip(era: int, yoe: int, doy: int)
    requires 0 <= yoe <= 399 && 0 <= doy <= 365
    ensures var c := CivilOfEra(era, yoe, doy);
      DaysFromCivil(c.0, c.1, c.2) == era * 146097 + 365 * yoe + yoe / 4 - yoe / 100 + doy - 719468
  {
    MonthRoundTrip(doy);
    assert (yoe + era * 400) / 400 == era;
  }

  /** Reading back the civil date of a day number gives that day number. */
  lemma CivilRoundTrip(days: int)
    ensures var c := CivilFromDays(days); DaysFromCivil(c.0, c.1, c.2) == days
  {
    var z := days + 719468;
    var era := z / 146097;
    var split := YearOfEra(z - era * 146097);
    EraRoundTrip(era, split.0, split.1);
  }

  /** `n` in decimal, left-padded with zeros to `width` digits. */
  function Pad(n: nat, width: nat): (s: string)
    ensures |s| >= width
  {
    var d := NatText(n);
    if |d| >= width then d else seq(width - |d|, _ => '0') + d
  }

  function Pow10(k: nat): (p: nat)
    ensures p >= 1
  {
    if k == 0 then 1 else 10 * Pow10(k - 1)
  }

  /** The number a string of decimal digits spells. */
  function DigitsValue(s: string): int
  {
    if s == [] then 0 else DigitsValue(s[..|s| - 1]) * 10 + (s[|s| - 1] as int - '0' as int)
  }

  predicate AllDigits(s: string)
  {
    forall i :: 0 <= i < |s| ==> '0' <= s[i] <= '9'
  }

  /** A number below 10^w is written in at most w digits, which spell it. */
  lemma {:induction false} NatTextValue(n: nat, w: nat)
    requires 1 <= w && n < Pow10(w)
    ensures DigitsValue(NatText(n)) == n && |NatText(n)| <= w
  {
    if n >= 10 {
      var s := NatText(n);
      NatTextValue(n / 10, w - 1);
      assert s[..|s| - 1] == NatText(n / 10);
    }
  }

  lemma {:induction false} ZerosValue(k: nat)
    ensures DigitsValue(seq(k, _ => '0')) == 0
  {
    if k > 0 {
      assert seq(k, _ => '0')[..k - 1] == seq(k - 1, _ => '0');
      ZerosValue(k - 1);
    }
  }

  /** Leading zeros do not change the number a string spells. */
  lemma {:induction false} LeadingZerosValue(k: nat, s: string)
    ensures DigitsValue(seq(k, _ => '0') + s) == DigitsValue(s)
    decreases |s|
  {
    var z := seq(k, _ => '0');
    if s == [] {
      assert z + s == z;
      ZerosValue(k);
    } else {
      assert (z + s)[..|z + s| - 1] == z + s[..|s| - 1];
      LeadingZerosValue(k, s[..|s| - 1]);
    }
  }

  /** A number below 10^width pads to exactly `width` digits that spell it. */
  lemma PadDigits(n: nat, width: nat)
    requires 1 <= width && n < Pow10(width)
    ensures |Pad(n, width)| == width && AllDigits(Pad(n, width)) && DigitsValue(Pad(n, width)) == n
  {
    NatTextValue(n, width);
    var d := NatText(n);
    if |d| < width {
      ZeroPadded(width - |d|, d);
    }
  }

  /** Zeros put in front of a string of digits leave a string of digits spelling the same
      number. */
  lemma ZeroPadded(k: nat, d: string)
    requires AllDigits(d)
    ensures AllDigits(seq(k, _ => '0') + d) && DigitsValue(seq(k, _ => '0') + d) == DigitsValue(d)
  {
    var z := seq(k, _ => '0');
    LeadingZerosValue(k, d);
    forall i | 0 <= i < |z + d|
      ensures '0' <= (z + d)[i] <= '9'
    {
      if i >= |z| {
        assert (z + d)[i] == d[i - |z|];
      }
    }
  }

  /** The year as `toISOString` writes it: four digits, or a sign and six digits outside
      0000..9999. */
  function YearText(y: int): string
  {
    if 0 <= y <= 9999 then Pad(y, 4)
    else if y < 0 then "-" + Pad(-y, 6)
    else "+" + Pad(y, 6)
  }

  function ToIsoString(t: Millis): (s: string)
    ensures |s| >= 24
  {
    var days := t / DayMs;
    var ms := t % DayMs;
    var date := CivilFromDays(days);
    YearText(date.0) + "-" + Pad(date.1, 2) + "-" + Pad(date.2, 2)
    + "T" + Pad(ms / 3600000, 2) + ":" + Pad(ms / 60000 % 60, 2) + ":" + Pad(ms / 1000 % 60, 2)
    + "." + Pad(ms % 1000, 3) + "Z"
  }

  /** Reads a `YYYY-MM-DDTHH:mm:ss.sssZ` string back as the instant it names, in
      milliseconds since 1970-01-01T00:00:00.000Z. */
  function IsoInstant(s: string): int
    requires |s| == 24
  {
    DaysFromCivil(DigitsValue(s[0..4]), DigitsValue(s[5..7]), DigitsValue(s[8..10])) * DayMs
    + DigitsValue(s[11..13]) * 3600000 + DigitsValue(s[14..16]) * 60000
    + DigitsValue(s[17..19]) * 1000 + DigitsValue(s[20..23])
  }

  /** Where the fields of a 24-character ISO string sit. */
  lemma IsoLayout(y: string, mo: string, d: string, h: string, mi: string, se: string, ms: string)
    requires |y| == 4 && |mo| == 2 && |d| == 2 && |h| == 2 && |mi| == 2 && |se| == 2 && |ms| == 3
    ensures var s := y + "-" + mo + "-" + d + "T" + h + ":" + mi + ":" + se + "." + ms + "Z";
      && |s| == 24 && s[0..4] == y && s[4] == '-' && s[5..7] == mo && s[7] == '-' && s[8..10] == d
      && s[10] == 'T' && s[11..13] == h && s[13] == ':' && s[14..16] == mi && s[16] == ':'
      && s[17..19] == se && s[19] == '.' && s[20..23] == ms && s[23] == 'Z'
  {
  }

  /** The hours, minutes, seconds and milliseconds of a time of day add back up to it. */
  lemma ClockSplit(ms: int)
    requires 0 <= ms < DayMs
    ensures ms / 3600000 < 24
    ensures ms == ms / 3600000 * 3600000 + ms / 60000 % 60 * 60000 + ms / 1000 % 60 * 1000 + ms % 1000
  {
    var sec := ms / 1000;
    var min := sec / 60;
    assert ms / 60000 == min;
    assert ms / 3600000 == min / 60;
  }

  /** For the years 0000 to 9999 the string has exactly the 24 characters of
      `YYYY-MM-DDTHH:mm:ss.sssZ`, each field in decimal and within its range, and it
      reads back as the instant it was made from. */
  lemma ToIsoStringFormat(t: Millis)
    requires 0 <= CivilFromDays(t / DayMs).0 <= 9999
    ensures var s := ToIsoString(t);
      && |s| == 24
      && s[4] == '-' && s[7] == '-' && s[10] == 'T' && s[13] == ':' && s[16] == ':' && s[19] == '.' && s[23] == 'Z'
      && AllDigits(s[0..4]) && AllDigits(s[5..7]) && AllDigits(s[8..10]) && AllDigits(s[11..13])
      && AllDigits(s[14..16]) && AllDigits(s[17..19]) && AllDigits(s[20..23])
      && 1 <= DigitsValue(s[5..7]) <= 12 && 1 <= DigitsValue(s[8..10]) <= 31
      && DigitsValue(s[11..13]) < 24 && DigitsValue(s[14..16]) < 60 && DigitsValue(s[17..19]) < 60
      && IsoInstant(s) == t
  {
    var days := t / DayMs;
    var ms := t % DayMs;
    var date := CivilFromDays(days);
    var h, mi, se, milli := ms / 3600000, ms / 60000 % 60, ms / 1000 % 60, ms % 1000;
    ClockSplit(ms);
    assert Pow10(2) == 100 && Pow10(3) == 1000 && Pow10(4) == 10000;
    PadDigits(date.0, 4);
    PadDigits(date.1, 2);
    PadDigits(date.2, 2);
    PadDigits(h, 2);
    PadDigits(mi, 2);
    PadDigits(se, 2);
    PadDigits(milli, 3);
    var Y, Mo, D, H, Mi, S, Ms := Pad(date.0, 4), Pad(date.1, 2), Pad(date.2, 2), Pad(h, 2), Pad(mi, 2), Pad(se, 2), Pad(milli, 3);
    var s := ToIsoString(t);
    assert s == Y + "-" + Mo + "-" + D + "T" + H + ":" + Mi + ":" + S + "." + Ms + "Z";
    IsoLayout(Y, Mo, D, H, Mi, S, Ms);
    CivilRoundTrip(days);
    assert DaysFromCivil(date.0, date.1, date.2) == days;
    assert IsoInstant(s) == days * DayMs + h * 3600000 + mi * 60000 + se * 1000 + milli;
    DaySplit(t);
  }

  lemma DaySplit(t: int)
    ensures t == t / DayMs * DayMs + t % DayMs && 0 <= t % DayMs < DayMs
  {
  }

  /** The string always ends in the `Z` of UTC. */
  lemma ToIsoStringEndsInZ(t: Millis)
    ensures var s := ToIsoString(t); |s| >= 24 && s[|s| - 1] == 'Z'
  {
  }
}
