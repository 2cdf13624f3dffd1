/** The parts of Go's time package main.go uses: time.Parse with the layout
    "2006-01-02 15:04:05" (no zone, so UTC), Time.Unix and Time.Format with
    time.RFC3339. A timestamp is its UTC civil date and time of day; the
    fractional seconds Parse tolerates are dropped, since neither Unix nor
    RFC3339 prints them. */
module Times {
  import opened Wrappers
  import opened GoStrings

  datatype Timestamp = Timestamp(year: nat, month: nat, day: nat, hour: nat, minute: nat, second: nat)

  /** Go's zero time.Time: January 1 of year 1, 00:00:00 UTC. */
  const ZeroTime: Timestamp := Timestamp(1, 1, 1, 0, 0, 0)

  predicate IsLeap(y: int)
  {
    y % 4 == 0 && (y % 100 != 0 || y % 400 == 0)
  }

  function DaysIn(y: int, m: nat): (n: nat)
    requires 1 <= m <= 12
    ensures 28 <= n <= 31
  {
    if m == 2 then (if IsLeap(y) then 29 else 28)
    else if m == 4 || m == 6 || m == 9 || m == 11 then 30
    else 31
  }

  /** What Parse can return: a four-digit year and an existing date and time of day. */
  predicate Valid(t: Timestamp)
  {
    t.year <= 9999 && 1 <= t.month <= 12 && 1 <= t.day <= DaysIn(t.year, t.month)
    && t.hour < 24 && t.minute < 60 && t.second < 60
  }

  /** The timestamps records hold: parsed ones and Go's zero time. */
  type Time = t: Timestamp | Valid(t) witness ZeroTime

  // ---------------------------------------------------------------------
  // time.Parse("2006-01-02 15:04:05", s)

  predicate DigitsAt(s: string, i: nat, n: nat)
  {
    i + n <= |s| && AllDigits(s[i..i + n])
  }

  function NumberAt(s: string, i: nat, n: nat): nat
    requires DigitsAt(s, i, n)
  {
    DecimalValue(s[i..i + n])
  }

  function SkipSpaces(s: string): (r: string)
    ensures |r| <= |s| && r == s[|s| - |r|..]
    ensures |r| > 0 ==> r[0] != ' '
  {
    if |s| > 0 && s[0] == ' ' then SkipSpaces(s[1..]) else s
  }

  /** What may follow the seconds: nothing, or a fractional second ("." or "," then digits). */
  predicate FractionOrEnd(s: string)
  {
    |s| == 0 || (|s| >= 2 && (s[0] == '.' || s[0] == ',') && AllDigits(s[1..]))
  }

  /** The clock part "15:04:05": a one- or two-digit hour, two-digit minute and second. */
  function ParseClock(s: string): Option<(nat, nat, nat)>
  {
    var h := if DigitsAt(s, 0, 2) then 2 else 1;
    if DigitsAt(s, 0, h) && DigitsAt(s, h + 1, 2) && DigitsAt(s, h + 4, 2)
       && s[h] == ':' && s[h + 3] == ':' && FractionOrEnd(s[h + 6..])
    then Some((NumberAt(s, 0, h), NumberAt(s, h + 1, 2), NumberAt(s, h + 4, 2)))
    else None
  }

  /** The date part "2006-01-02": a four-digit year, a two-digit month and day. */
  function ParseDate(s: string): (r: Option<(nat, nat, nat)>)
    ensures r.Some? ==> r.value.0 <= 9999
  {
    if |s| == 10 && DigitsAt(s, 0, 4) && s[4] == '-' && DigitsAt(s, 5, 2) && s[7] == '-' && DigitsAt(s, 8, 2)
    then
      assert NumberAt(s, 0, 4) <= 9999 by { ValueBelow(s[0..4]); }
      Some((NumberAt(s, 0, 4), NumberAt(s, 5, 2), NumberAt(s, 8, 2)))
    else None
  }

  /** time.Parse with main.go's layout: the date, a run of spaces, the clock;
      each field within its range and the day within its month. A parsed
      time is the fields its date and clock parts read; a string whose
      eleventh character is not a space does not parse. */
  function ParseTime(s: string): (r: Option<Time>)
    ensures r.Some? ==>
              && |s| > 10 && s[10] == ' '
              && ParseDate(s[..10]) == Some((r.value.year, r.value.month, r.value.day))
              && ParseClock(SkipSpaces(s[10..])) == Some((r.value.hour, r.value.minute, r.value.second))
    ensures !(|s| > 10 && s[10] == ' ') ==> r.None?
  {
    if |s| > 10 && s[10] == ' ' then
      var date :- ParseDate(s[..10]);
      var clock :- ParseClock(SkipSpaces(s[10..]));
      var t := Timestamp(date.0, date.1, date.2, clock.0, clock.1, clock.2);
      if 1 <= t.month <= 12 && 1 <= t.day <= DaysIn(t.year, t.month)
         && t.hour < 24 && t.minute < 60 && t.second < 60
      then Some(t) else None
    else None
  }

  // ---------------------------------------------------------------------
  // Formatting

  /** n in decimal, left-padded with zeros to w digits. */
  function Pad(n: nat, w: nat): (r: string)
    ensures |r| == w && AllDigits(r)
  {
    if w == 0 then "" else Pad(n / 10, w - 1) + [DigitChar(n % 10)]
  }

  /** "YYYY-MM-DD". */
  function DateText(t: Timestamp): (r: string)
    ensures |r| == 10 && r[4] == '-' && r[7] == '-'
    ensures AllDigits(r[..4]) && AllDigits(r[5..7]) && AllDigits(r[8..])
  {
    Pad(t.year, 4) + "-" + Pad(t.month, 2) + "-" + Pad(t.day, 2)
  }

  /** "HH:MM:SS". */
  function ClockText(t: Timestamp): (r: string)
    ensures |r| == 8 && r[2] == ':' && r[5] == ':'
    ensures AllDigits(r[..2]) && AllDigits(r[3..5]) && AllDigits(r[6..])
  {
    Pad(t.hour, 2) + ":" + Pad(t.minute, 2) + ":" + Pad(t.second, 2)
  }

  /** The layout main.go parses, written back: "YYYY-MM-DD HH:MM:SS". */
  function FormatLayout(t: Timestamp): (r: string)
    ensures |r| == 19 && r[10] == ' ' && r[..10] == DateText(t) && r[11..] == ClockText(t)
  {
    DateText(t) + " " + ClockText(t)
  }

  /** Time.Format(time.RFC3339) of a UTC time: "YYYY-MM-DDTHH:MM:SSZ". */
  function FormatRFC3339(t: Time): (r: string)
    ensures |r| == 20 && r[10] == 'T' && r[19] == 'Z'
    ensures r[..10] == DateText(t) && r[11..19] == ClockText(t)
  {
    DateText(t) + "T" + ClockText(t) + "Z"
  }

  // ---------------------------------------------------------------------
  // Time.Unix

  /** Days from 1970-01-01 to the given proleptic Gregorian date (negative before it);
      the year is counted from March so that a leap day ends it. */
  function DaysFromCivil(y: int, m: nat, d: nat): int
    requires 1 <= m <= 12
  {
    var yp := if m <= 2 then y - 1 else y;
    var mp := if m > 2 then m - 3 else m + 9;
    var doy := (153 * mp + 2) / 5 + d - 1;
    365 * yp + yp / 4 - yp / 100 + yp / 400 + doy - 719468
  }

  /** Time.Unix: seconds since 1970-01-01 00:00:00 UTC. */
  function Unix(t: Time): int
  {
    DaysFromCivil(t.year, t.month, t.day) * 86400 + t.hour * 3600 + t.minute * 60 + t.second
  }

  // ---------------------------------------------------------------------
  // Properties

  lemma {:induction false} ValueBelow(s: string)
    requires AllDigits(s)
    ensures DecimalValue(s) < Power10(|s|)
  {
    if |s| > 0 {
      ValueBelow(s[..|s| - 1]);
    }
  }

  function Power10(n: nat): (p: nat)
    ensures p >= 1
  {
    if n == 0 then 1 else 10 * Power10(n - 1)
  }

  lemma {:induction false} PadValue(n: nat, w: nat)
    requires n < Power10(w)
    ensures DecimalValue(Pad(n, w)) == n
  {
    if w > 0 {
      PadValue(n / 10, w - 1);
      var r := Pad(n, w);
      assert r[..|r| - 1] == Pad(n / 10, w - 1);
    }
  }

  lemma NumberAtPad(s: string, i: nat, n: nat, w: nat)
    requires n < Power10(w) && i + w <= |s| && s[i..i + w] == Pad(n, w)
    ensures DigitsAt(s, i, w) && NumberAt(s, i, w) == n
  {
    PadValue(n, w);
  }

  lemma ParseClockOfPadded(h: nat, mi: nat, sec: nat)
    requires h < 24 && mi < 60 && sec < 60
    ensures ParseClock(Pad(h, 2) + ":" + Pad(mi, 2) + ":" + Pad(sec, 2)) == Some((h, mi, sec))
  {
    var c := Pad(h, 2) + ":" + Pad(mi, 2) + ":" + Pad(sec, 2);
    assert Power10(2) == 100;
    assert c[0..2] == Pad(h, 2);
    assert c[3..5] == Pad(mi, 2);
    assert c[6..8] == Pad(sec, 2);
    NumberAtPad(c, 0, h, 2);
    NumberAtPad(c, 3, mi, 2);
    NumberAtPad(c, 6, sec, 2);
    assert c[8..] == "";
  }

  lemma ParseDateOfPadded(y: nat, m: nat, d: nat)
    requires y <= 9999 && m < 100 && d < 100
    ensures ParseDate(Pad(y, 4) + "-" + Pad(m, 2) + "-" + Pad(d, 2)) == Some((y, m, d))
  {
    var s := Pad(y, 4) + "-" + Pad(m, 2) + "-" + Pad(d, 2);
    assert Power10(2) == 100 && Power10(4) == 10000;
    assert s[0..4] == Pad(y, 4);
    assert s[5..7] == Pad(m, 2);
    assert s[8..10] == Pad(d, 2);
    NumberAtPad(s, 0, y, 4);
    NumberAtPad(s, 5, m, 2);
    NumberAtPad(s, 8, d, 2);
  }

  /** Parse reads back what FormatLayout writes: the layout and the parser agree. */
  lemma ParseFormatLayout(t: Timestamp)
    requires Valid(t)
    ensures ParseTime(FormatLayout(t)) == Some(t)
  {
    var c := ClockText(t);
    var date := DateText(t);
    ParseDateOfPadded(t.year, t.month, t.day);
    ParseClockOfPadded(t.hour, t.minute, t.second);
    assert c[0] == Pad(t.hour, 2)[0];
    ParseTimeOfParts(date, c, t);
  }

  /** A date, one space and a clock that each parse make a time that parses. */
  lemma ParseTimeOfParts(date: string, c: string, t: Timestamp)
    requires Valid(t) && |date| == 10 && |c| > 0 && c[0] != ' '
    requires ParseDate(date) == Some((t.year, t.month, t.day))
    requires ParseClock(c) == Some((t.hour, t.minute, t.second))
    ensures ParseTime(date + " " + c) == Some(t)
  {
    var s := date + " " + c;
    assert s[..10] == date;
    assert s[10..] == " " + c;
    assert SkipSpaces(" " + c) == c by {
      assert (" " + c)[1..] == c;
    }
  }

  /** The Unix clock starts at 1970-01-01 00:00:00 ... */
  lemma UnixEpoch()
    ensures Unix(Timestamp(1970, 1, 1, 0, 0, 0)) == 0
  {
    assert (153 * 10 + 2) / 5 == 306;
    assert 1969 / 4 == 492 && 1969 / 100 == 19 && 1969 / 400 == 4;
    assert DaysFromCivil(1970, 1, 1) == 0;
  }

  /** ... and Go's zero time is at -62135596800, Time.Unix's documented value. */
  lemma UnixOfZeroTime()
    ensures Unix(ZeroTime) == -62135596800
  {
    assert (153 * 10 + 2) / 5 == 306;
    assert DaysFromCivil(1, 1, 1) == -719162;
  }

  /** Consecutive calendar days are 86400 seconds apart: within a month ... */
  lemma NextDayInMonth(y: int, m: nat, d: nat)
    requires 1 <= m <= 12 && 1 <= d < DaysIn(y, m)
    ensures DaysFromCivil(y, m, d + 1) == DaysFromCivil(y, m, d) + 1
  {
  }

  /** ... across the end of a month ... */
  lemma NextDayAcrossMonth(y: int, m: nat)
    requires 1 <= m < 12
    ensures DaysFromCivil(y, m + 1, 1) == DaysFromCivil(y, m, DaysIn(y, m)) + 1
  {
    if m == 2 {
      LeapDays(y - 1);
    }
  }

  /** ... and across the end of a year. */
  lemma NextDayAcrossYear(y: int)
    ensures DaysFromCivil(y + 1, 1, 1) == DaysFromCivil(y, 12, 31) + 1
  {
  }

  /** The leap-year count y/4 - y/100 + y/400 grows by one exactly at a leap year. */
  lemma LeapDays(y: int)
    ensures (y + 1) / 4 - (y + 1) / 100 + (y + 1) / 400
         == y / 4 - y / 100 + y / 400 + (if IsLeap(y + 1) then 1 else 0)
  {
    DivStep4(y);
    DivStep100(y);
    DivStep400(y);
  }

  lemma DivStep4(y: int)
    ensures (y + 1) / 4 == y / 4 + (if (y + 1) % 4 == 0 then 1 else 0)
  {
  }

  lemma DivStep100(y: int)
    ensures (y + 1) / 100 == y / 100 + (if (y + 1) % 100 == 0 then 1 else 0)
    ensures (y + 1) % 100 == 0 ==> (y + 1) % 4 == 0
  {
  }

  lemma DivStep400(y: int)
    ensures (y + 1) / 400 == y / 400 + (if (y + 1) % 400 == 0 then 1 else 0)
    ensures (y + 1) % 400 == 0 ==> (y + 1) % 100 == 0
  {
  }
}
