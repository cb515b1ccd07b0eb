/** Timestamps in the format of section 5.6 of RFC 3339, read the way Go's time.Parse reads the
    RFC3339 layout and written the way encoding/json writes a time value (the RFC3339Nano layout). */
module Rfc3339 {
  import opened Wrappers
  import opened Numbers

  /** A civil date and time with nanoseconds and a fixed offset from UTC in minutes, as a Go time value
      carries them. */
  datatype Timestamp = Timestamp(
    year: int, month: int, day: int,
    hour: int, minute: int, second: int, nanos: int,
    offsetMinutes: int)

  predicate IsLeap(year: int) {
    year % 4 == 0 && (year % 100 != 0 || year % 400 == 0)
  }

  /** The number of days of a month, February counting 29 in leap years. */
  function DaysIn(month: int, year: int): (n: int)
    ensures 28 <= n <= 31
  {
    if month == 2 then (if IsLeap(year) then 29 else 28)
    else if month == 4 || month == 6 || month == 9 || month == 11 then 30
    else 31
  }

  /** The largest offset time.Parse accepts: 24 hours and 60 minutes. */
  const MaxOffset := 24 * 60 + 60

  /** The largest offset the JSON encoder writes: 23:59. */
  const MaxWrittenOffset := 23 * 60 + 59

  /** The fields every Go time value keeps in range, whatever its year; the offset is any the
      parser can produce. */
  predicate Normal(t: Timestamp) {
    1 <= t.month <= 12 && 1 <= t.day <= DaysIn(t.month, t.year)
    && 0 <= t.hour <= 23 && 0 <= t.minute <= 59 && 0 <= t.second <= 59
    && 0 <= t.nanos < 1_000_000_000
    && -MaxOffset <= t.offsetMinutes <= MaxOffset
  }

  /** A Go time value. */
  type Time = t: Timestamp | Normal(t) witness Timestamp(1, 1, 1, 0, 0, 0, 0, 0)

  /** A time the JSON encoder can write: its year has four digits and its offset less than 24
      hours. */
  predicate Representable(t: Timestamp) {
    Normal(t) && 0 <= t.year <= 9999 && -MaxWrittenOffset <= t.offsetMinutes <= MaxWrittenOffset
  }

  function Pow10(k: nat): (p: nat)
    ensures p >= 1
  {
    if k == 0 then 1 else 10 * Pow10(k - 1)
  }

  function DigitChar(d: nat): char
    requires d < 10
  {
    (('0' as int) + d) as char
  }

  /** The last `w` decimal digits of `n`, zero-padded. */
  function Pad(n: nat, w: nat): (r: string)
    ensures |r| == w && AllDigits(r)
  {
    if w == 0 then [] else Pad(n / 10, w - 1) + [DigitChar(n % 10)]
  }

  lemma {:induction false} PadDecimal(n: nat, w: nat)
    requires n < Pow10(w)
    ensures Decimal(Pad(n, w)) == n
  {
    if w > 0 {
      PadDecimal(n / 10, w - 1);
      var r := Pad(n, w);
      assert r[..|r| - 1] == Pad(n / 10, w - 1);
    }
  }

  lemma {:induction false} DecimalBound(s: string)
    requires AllDigits(s)
    ensures Decimal(s) < Pow10(|s|)
  {
    if s != [] {
      DecimalBound(s[..|s| - 1]);
    }
  }

  // ----- Reading -----

  /** The value of `s[i..j]` when every character in it is a digit. */
  function Field(s: string, i: nat, j: nat): (r: Option<nat>)
    requires i <= j <= |s|
    ensures r.Some? ==> r.value < Pow10(j - i)
  {
    if AllDigits(s[i..j]) then DecimalBound(s[i..j]); Some(Decimal(s[i..j])) else None
  }

  /** The index of the first non-digit at or after `i`, or |s|. */
  function DigitsEnd(s: string, i: nat): (n: nat)
    requires i <= |s|
    ensures i <= n <= |s| && AllDigits(s[i..n])
    ensures n < |s| ==> !IsDigit(s[n])
    decreases |s| - i
  {
    if i < |s| && IsDigit(s[i]) then DigitsEnd(s, i + 1) else i
  }

  /** A fraction's digits as nanoseconds: the first nine count, the rest are ignored. */
  function Nanos(digits: string): (n: nat)
    requires AllDigits(digits)
    ensures n < Pow10(9)
  {
    var k := if |digits| > 9 then digits[..9] else digits;
    DecimalBound(k);
    ScaleBound(Decimal(k), |k|, 9);
    Decimal(k) * Pow10(9 - |k|)
  }

  lemma ScaleBound(v: nat, k: nat, w: nat)
    requires k <= w && v < Pow10(k)
    ensures v * Pow10(w - k) < Pow10(w)
  {
    PowSplit(k, w - k);
  }

  lemma {:induction false} PowSplit(a: nat, b: nat)
    ensures Pow10(a + b) == Pow10(a) * Pow10(b)
  {
    if b > 0 {
      PowSplit(a, b - 1);
      assert Pow10(a + b) == 10 * Pow10(a + b - 1);
    }
  }

  /** "Z", or a sign, two hour digits, ':' and two minute digits, as minutes east of UTC. Like the
      general parser time.Parse falls back on, hours up to 24 and minutes up to 60 are accepted. */
  function ParseZone(z: string): (r: Option<int>)
    ensures r.Some? ==> -MaxOffset <= r.value <= MaxOffset
    ensures r.Some? ==> z == "Z" || (|z| == 6 && (z[0] == '+' || z[0] == '-') && z[3] == ':')
    ensures |z| == 6 && (z[0] == '+' || z[0] == '-') && z[3] == ':' && AllDigits(z[1..3]) && AllDigits(z[4..6]) ==>
      (r.Some? <==> Decimal(z[1..3]) <= 24 && Decimal(z[4..6]) <= 60)
    ensures r.Some? && z != "Z" ==> AllDigits(z[1..3]) && AllDigits(z[4..6]) && r.value == (if z[0] == '-' then -1 else 1) * (Decimal(z[1..3]) * 60 + Decimal(z[4..6]))
  {
    if z == "Z" then Some(0)
    else if |z| != 6 then None
    else
      var hr := Field(z, 1, 3);
      var mm := Field(z, 4, 6);
      if hr.None? || mm.None? || hr.value > 24 || mm.value > 60 then None
      else if !((z[0] == '-' || z[0] == '+') && z[3] == ':') then None
      else
        var east := hr.value * 60 + mm.value;
        Some(if z[0] == '-' then -east else east)
  }

  /** What follows the seconds: an optional '.' or ',' and digits, then the zone. */
  function ParseTail(rest: string): (r: Option<(nat, int)>)
    ensures r.Some? ==> r.value.0 < 1_000_000_000 && -MaxOffset <= r.value.1 <= MaxOffset
    ensures r.Some? ==> rest != []
  {
    var fractionEnd := if |rest| >= 2 && (rest[0] == '.' || rest[0] == ',') && IsDigit(rest[1]) then DigitsEnd(rest, 1) else 0;
    var nanos := if fractionEnd == 0 then 0 else Nanos(rest[1..fractionEnd]);
    match ParseZone(rest[fractionEnd..])
    case None => None
    case Some(offset) => Some((nanos, offset))
  }

  /** time.Parse(time.RFC3339, s): "YYYY-MM-DDTH:MM:SS" with a one- or two-digit hour, an optional
      fraction, then "Z" or an offset; every field in its range and the day within its month. The
      strict reader Go tries first accepts a subset of this with the same results, and the general
      parser it falls back on accepts exactly this. */
  function Parse(s: string): (r: Option<Timestamp>)
    ensures r.Some? ==> Normal(r.value) && 0 <= r.value.year <= 9999
    ensures r.Some? ==> |s| >= 19 && s[4] == '-' && s[7] == '-' && s[10] == 'T'
  {
    if |s| < 13 then None
    else
      var c := if IsDigit(s[12]) then 13 else 12;  // the end of the hour
      if |s| < c + 6 then None
      else
        var year, month, day := Field(s, 0, 4), Field(s, 5, 7), Field(s, 8, 10);
        var hour, minute, second := Field(s, 11, c), Field(s, c + 1, c + 3), Field(s, c + 4, c + 6);
        if year.None? || month.None? || day.None? || hour.None? || minute.None? || second.None? then None
        else if !(1 <= month.value <= 12 && 1 <= day.value <= DaysIn(month.value, year.value)
                  && hour.value <= 23 && minute.value <= 59 && second.value <= 59) then None
        else if !(s[4] == '-' && s[7] == '-' && s[10] == 'T' && s[c] == ':' && s[c + 3] == ':') then None
        else
          match ParseTail(s[c + 6..])
          case None => None
          case Some((nanos, offset)) =>
            Some(Timestamp(year.value, month.value, day.value, hour.value, minute.value, second.value, nanos, offset))
  }

  // ----- Writing -----

  /** Drops trailing '0' digits. */
  function TrimZeros(s: string): (r: string)
    ensures |r| <= |s| && r == s[..|r|]
    ensures forall i :: |r| <= i < |s| ==> s[i] == '0'
    ensures r == [] || r[|r| - 1] != '0'
  {
    if s != [] && s[|s| - 1] == '0' then TrimZeros(s[..|s| - 1]) else s
  }

  /** The fraction RFC3339Nano writes: nothing for zero nanoseconds, else '.' and up to nine digits
      without trailing zeros. */
  function Fraction(nanos: nat): (r: string)
    requires nanos < 1_000_000_000
    ensures |r| <= 10 && (r == [] <==> nanos == 0)
  {
    if nanos == 0 then "" else "." + TrimZeros(Pad(nanos, 9))
  }

  /** "Z" for UTC, else the signed offset as hours and minutes. */
  function Zone(offset: int): (r: string)
    requires -MaxWrittenOffset <= offset <= MaxWrittenOffset
    ensures |r| == if offset == 0 then 1 else 6
    ensures r[|r| - 1] == 'Z' <==> offset == 0
  {
    if offset == 0 then "Z"
    else
      var east := if offset < 0 then -offset else offset;
      (if offset < 0 then "-" else "+") + Pad(east / 60, 2) + ":" + Pad(east % 60, 2)
  }

  /** "YYYY-MM-DDTHH:MM:SS". */
  function DateTime(t: Timestamp): (r: string)
    requires Representable(t)
    ensures |r| == 19
  {
    Date(t) + "T" + Clock(t)
  }

  function Date(t: Timestamp): (r: string)
    requires Representable(t)
    ensures |r| == 10
  {
    Pad(t.year, 4) + "-" + Pad(t.month, 2) + "-" + Pad(t.day, 2)
  }

  function Clock(t: Timestamp): (r: string)
    requires Representable(t)
    ensures |r| == 8
  {
    Pad(t.hour, 2) + ":" + Pad(t.minute, 2) + ":" + Pad(t.second, 2)
  }

  /** How encoding/json writes a time value (time.RFC3339Nano). */
  function Format(t: Timestamp): (r: string)
    requires Representable(t)
    ensures 20 <= |r| <= 35 && r[10] == 'T'
    ensures r[|r| - 1] == 'Z' <==> t.offsetMinutes == 0
  {
    var dateTime, zone := DateTime(t), Zone(t.offsetMinutes);
    assert dateTime[10] == 'T';
    dateTime + Fraction(t.nanos) + zone
  }

  // ----- Round trip -----

  lemma {:induction false} DecimalZeros(a: string, k: nat)
    requires AllDigits(a)
    ensures AllDigits(a + Pad(0, k))
    ensures Decimal(a + Pad(0, k)) == Decimal(a) * Pow10(k)
  {
    if k > 0 {
      DecimalZeros(a, k - 1);
      var s := a + Pad(0, k);
      assert s[..|s| - 1] == a + Pad(0, k - 1);
      assert s[|s| - 1] == '0';
      calc {
        Decimal(s);
        Decimal(a + Pad(0, k - 1)) * 10;
        Decimal(a) * Pow10(k - 1) * 10;
        { MulAssoc(Decimal(a), Pow10(k - 1), 10); }
        Decimal(a) * Pow10(k);
      }
    } else {
      assert a + Pad(0, k) == a;
    }
  }

  lemma {:induction false} TrimZerosPad(s: string)
    ensures s == TrimZeros(s) + Pad(0, |s| - |TrimZeros(s)|)
  {
    if s != [] && s[|s| - 1] == '0' {
      TrimZerosPad(s[..|s| - 1]);
      assert s == s[..|s| - 1] + ['0'];
    }
  }

  /** The digits RFC3339Nano writes for a fraction read back as the same nanoseconds. */
  lemma FractionDigits(nanos: nat)
    requires 0 < nanos < 1_000_000_000
    ensures var d := TrimZeros(Pad(nanos, 9));
      d != [] && |d| <= 9 && AllDigits(d) && Nanos(d) == nanos
  {
    var p := Pad(nanos, 9);
    var d := TrimZeros(p);
    TrimZerosPad(p);
    PadDecimal(nanos, 9);
    DecimalZeros(d, 9 - |d|);
    if d == [] {
      DecimalZeros([], 9);
      assert false;
    }
  }

  lemma ZoneRoundTrip(offset: int)
    requires -MaxWrittenOffset <= offset <= MaxWrittenOffset
    ensures ParseZone(Zone(offset)) == Some(offset)
    ensures Zone(offset)[0] == 'Z' || Zone(offset)[0] == '+' || Zone(offset)[0] == '-'
  {
    if offset != 0 {
      var east := if offset < 0 then -offset else offset;
      var z := Zone(offset);
      PadDecimal(east / 60, 2);
      PadDecimal(east % 60, 2);
      assert z[1..3] == Pad(east / 60, 2);
      assert z[4..6] == Pad(east % 60, 2);
    }
  }

  lemma TailRoundTrip(nanos: nat, offset: int)
    requires nanos < 1_000_000_000 && -MaxWrittenOffset <= offset <= MaxWrittenOffset
    ensures ParseTail(Fraction(nanos) + Zone(offset)) == Some((nanos, offset))
  {
    ZoneRoundTrip(offset);
    var rest := Fraction(nanos) + Zone(offset);
    if nanos == 0 {
      assert rest == Zone(offset);
    } else {
      FractionDigits(nanos);
      var d := TrimZeros(Pad(nanos, 9));
      assert rest == "." + d + Zone(offset);
      assert rest[0] == '.' && IsDigit(rest[1]) by { assert rest[1] == d[0]; }
      DigitsEndAt(rest, 1, 1 + |d|);
      assert rest[1..1 + |d|] == d;
      assert rest[1 + |d|..] == Zone(offset);
    }
  }

  lemma {:induction false} DigitsEndAt(s: string, i: nat, n: nat)
    requires i <= n < |s| && AllDigits(s[i..n]) && !IsDigit(s[n])
    ensures DigitsEnd(s, i) == n
    decreases n - i
  {
    if i < n {
      assert IsDigit(s[i..n][0]);
      DigitsEndAt(s, i + 1, n);
    }
  }

  /** The general parser reads a one-digit hour: dropping the leading zero of a two-digit hour
      changes nothing. */
  lemma HourLeadingZeroOptional(s: string)
    requires |s| >= 14 && s[11] == '0' && IsDigit(s[12]) && s[13] == ':'
    ensures Parse(s[..11] + s[12..]) == Parse(s)
  {
    var t := s[..11] + s[12..];
    if |s| >= 19 {
      assert t[12] == s[13] && t[4] == s[4] && t[7] == s[7] && t[10] == s[10] && t[15] == s[16];
      HourFieldsShifted(s, t);
    }
  }

  lemma HourFieldsShifted(s: string, t: string)
    requires |s| >= 19 && s[11] == '0' && IsDigit(s[12]) && s[13] == ':' && t == s[..11] + s[12..]
    ensures Field(t, 0, 4) == Field(s, 0, 4) && Field(t, 5, 7) == Field(s, 5, 7) && Field(t, 8, 10) == Field(s, 8, 10)
    ensures Field(t, 11, 12) == Field(s, 11, 13)
    ensures Field(t, 13, 15) == Field(s, 14, 16) && Field(t, 16, 18) == Field(s, 17, 19) && t[18..] == s[19..]
  {
    DecimalLeadingZero([s[12]]);
    assert s[11..13] == "0" + [s[12]];
    assert t[11..12] == [s[12]];
    assert t[0..4] == s[0..4] && t[5..7] == s[5..7] && t[8..10] == s[8..10];
    assert t[13..15] == s[14..16] && t[16..18] == s[17..19] && t[18..] == s[19..];
  }

  /** A fraction may follow the seconds after ',' as well as after '.'. */
  lemma CommaFraction(rest: string)
    ensures ParseTail("," + rest) == ParseTail("." + rest)
  {
    var a, b := "," + rest, "." + rest;
    if |a| >= 2 && IsDigit(a[1]) {
      DigitsEndSame(a, b, 1);
      var n := DigitsEnd(a, 1);
      assert a[1..n] == b[1..n] && a[n..] == b[n..];
    }
  }

  lemma {:induction false} DigitsEndSame(a: string, b: string, i: nat)
    requires i <= |a| == |b| && a[i..] == b[i..]
    ensures DigitsEnd(a, i) == DigitsEnd(b, i)
    decreases |a| - i
  {
    if i < |a| {
      assert a[i] == a[i..][0] == b[i..][0] == b[i];
      assert a[i + 1..] == a[i..][1..];
      assert b[i + 1..] == b[i..][1..];
      DigitsEndSame(a, b, i + 1);
    }
  }

  lemma MulAssoc(a: nat, b: nat, c: nat)
    ensures a * b * c == a * (c * b)
  {
  }

  /** A zero-padded field reads back as the number written into it. */
  lemma FieldOfPad(s: string, i: nat, w: nat, n: nat)
    requires i + w <= |s| && n < Pow10(w) && s[i..i + w] == Pad(n, w)
    ensures Field(s, i, i + w) == Some(n)
  {
    PadDecimal(n, w);
  }

  /** The three numeric fields of "YYYY-MM-DD" read back as written. */
  lemma DateFields(t: Timestamp, s: string)
    requires Representable(t)
    requires |s| >= 10 && s[..10] == Date(t)
    ensures Field(s, 0, 4) == Some(t.year as nat) && Field(s, 5, 7) == Some(t.month as nat)
    ensures Field(s, 8, 10) == Some(t.day as nat)
    ensures s[4] == '-' && s[7] == '-'
  {
    var d := Date(t);
    assert d[0..4] == Pad(t.year, 4) && d[5..7] == Pad(t.month, 2) && d[8..10] == Pad(t.day, 2);
    assert s[0..4] == d[0..4] && s[5..7] == d[5..7] && s[8..10] == d[8..10];
    FieldOfPad(s, 0, 4, t.year);
    FieldOfPad(s, 5, 2, t.month);
    FieldOfPad(s, 8, 2, t.day);
  }

  /** The three numeric fields of "HH:MM:SS", written from position 11, read back as written. */
  lemma ClockFields(t: Timestamp, s: string)
    requires Representable(t)
    requires |s| >= 19 && s[11..19] == Clock(t)
    ensures Field(s, 11, 13) == Some(t.hour as nat) && Field(s, 14, 16) == Some(t.minute as nat)
    ensures Field(s, 17, 19) == Some(t.second as nat)
    ensures s[13] == ':' && s[16] == ':'
  {
    var c := Clock(t);
    assert c[0..2] == Pad(t.hour, 2) && c[3..5] == Pad(t.minute, 2) && c[6..8] == Pad(t.second, 2);
    assert s[11..13] == c[0..2] && s[14..16] == c[3..5] && s[17..19] == c[6..8];
    FieldOfPad(s, 11, 2, t.hour);
    FieldOfPad(s, 14, 2, t.minute);
    FieldOfPad(s, 17, 2, t.second);
  }

  /** The six numeric fields of "YYYY-MM-DDTHH:MM:SS" read back as written. */
  lemma DateTimeFields(t: Timestamp, s: string)
    requires Representable(t)
    requires |s| >= 19 && s[..19] == DateTime(t)
    ensures Field(s, 0, 4) == Some(t.year as nat) && Field(s, 5, 7) == Some(t.month as nat)
    ensures Field(s, 8, 10) == Some(t.day as nat) && Field(s, 11, 13) == Some(t.hour as nat)
    ensures Field(s, 14, 16) == Some(t.minute as nat) && Field(s, 17, 19) == Some(t.second as nat)
    ensures s[4] == '-' && s[7] == '-' && s[10] == 'T' && s[13] == ':' && s[16] == ':'
  {
    assert s[..10] == Date(t) && s[10] == 'T' && s[11..19] == Clock(t);
    DateFields(t, s);
    ClockFields(t, s);
  }

  /** Parse accepts a text that starts with a representable time's date and clock and whose tail
      reads back as that time's fraction and offset. */
  lemma ParseOfParts(t: Timestamp, s: string)
    requires Representable(t) && |s| >= 19 && s[..19] == DateTime(t)
    requires ParseTail(s[19..]) == Some((t.nanos, t.offsetMinutes))
    ensures Parse(s) == Some(t)
  {
    DateTimeFields(t, s);
    assert IsDigit(s[11..13][1]);
  }

  /** Every time encoding/json can write, time.Parse(time.RFC3339, ·) reads back unchanged. */
  lemma ParseFormat(t: Timestamp)
    requires Representable(t)
    ensures Parse(Format(t)) == Some(t)
  {
    var s := Format(t);
    assert s[..19] == DateTime(t);
    assert s[19..] == Fraction(t.nanos) + Zone(t.offsetMinutes);
    TailRoundTrip(t.nanos, t.offsetMinutes);
    ParseOfParts(t, s);
  }
}
