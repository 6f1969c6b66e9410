/** lib-ayd/time.go: the reader of RFC 3339 times and their variants. */
module TimeParsers {
  import opened Common
  import opened Decimals
  import opened Calendar

  /** ---- Reading ---- */

  function Parse2Digits(s: string, pos: nat): Option<int>
    requires pos + 2 <= |s|
  {
    if !IsDigit(s[pos]) || !IsDigit(s[pos + 1]) then None
    else Some(DigitValue(s[pos]) * 10 + DigitValue(s[pos + 1]))
  }

  function Parse4Digits(s: string): Option<int>
    requires |s| >= 4
  {
    if !IsDigit(s[0]) || !IsDigit(s[1]) || !IsDigit(s[2]) || !IsDigit(s[3]) then None
    else Some(DigitValue(s[0]) * 1000 + DigitValue(s[1]) * 100 + DigitValue(s[2]) * 10 + DigitValue(s[3]))
  }

  predicate IsDateTimeDelim(c: char) {
    c == 'T' || c == 't' || c == ' ' || c == '_'
  }

  datatype Date = Date(year: int, month: int, day: int, hourPos: nat)

  function DateAt(s: string, monthPos: nat, dayPos: nat, hourPos: nat): Option<Date>
    requires |s| >= 4 && monthPos + 2 <= |s| && dayPos + 2 <= |s|
  {
    var year, month, day := Parse4Digits(s), Parse2Digits(s, monthPos), Parse2Digits(s, dayPos);
    if year.None? || month.None? || day.None? then None else Some(Date(year.value, month.value, day.value, hourPos))
  }

  function ParseDate(s: string): (r: Option<Date>)
    ensures r.Some? ==> |s| >= 12 && (r.value.hourPos == 9 || r.value.hourPos == 11)
  {
    if |s| < 12 then None
    else if IsDateTimeDelim(s[8]) then DateAt(s, 4, 6, 9)
    else if IsDateTimeDelim(s[10]) && s[4] == '-' && s[7] == '-' then DateAt(s, 5, 8, 11)
    else None
  }

  /** A zone's offset in seconds and where its text begins. */
  datatype ZoneAt = ZoneAt(offset: int, signPos: nat)

  function SignedZone(s: string, signPos: nat, h: Option<int>, m: Option<int>): Option<ZoneAt>
    requires signPos < |s|
  {
    if h.None? || m.None? then None
    else if s[signPos] == '+' then Some(ZoneAt(h.value * 3600 + m.value * 60, signPos))
    else if s[signPos] == '-' then Some(ZoneAt(-h.value * 3600 - m.value * 60, signPos))
    else None
  }

  function ParseTimeZone(s: string): (r: Option<ZoneAt>)
    requires |s| >= 6
    ensures r.Some? ==> r.value.signPos < |s|
  {
    var n := |s|;
    if s[n - 1] == 'Z' || s[n - 1] == 'z' then Some(ZoneAt(0, n - 1))
    else if s[n - 3] == ':' then SignedZone(s, n - 6, Parse2Digits(s, n - 5), Parse2Digits(s, n - 2))
    else if s[n - 3] == '+' || s[n - 3] == '-' then SignedZone(s, n - 3, Parse2Digits(s, n - 2), Some(0))
    else SignedZone(s, n - 5, Parse2Digits(s, n - 4), Parse2Digits(s, n - 2))
  }

  datatype TimeOfDay = TimeOfDay(hour: int, minute: int, second: int, nano: int, resolution: int)

  function TimeAt(h: Option<int>, m: Option<int>, s: Option<int>, nano: int, resolution: int): Option<TimeOfDay> {
    if h.None? || m.None? || s.None? then None else Some(TimeOfDay(h.value, m.value, s.value, nano, resolution))
  }

  /** A fraction of a second in nanoseconds, cut off behind nine digits, and the resolution it has. */
  function Fraction(digits: string): Option<(int, int)> {
    var n := Min(|digits|, 9);
    if !AllDigits(digits[..n]) then None else Some((Value(digits[..n]) * Pow10(9 - n), Pow10(9 - n)))
  }

  function WithFraction(h: Option<int>, m: Option<int>, s: Option<int>, digits: string): Option<TimeOfDay> {
    var f := Fraction(digits);
    if f.None? then None else TimeAt(h, m, s, f.value.0, f.value.1)
  }

  function TimeIn(s: string, start: nat, end: nat): Option<TimeOfDay>
    requires end <= |s|
  {
    var n := end - start;
    if n == 8 then TimeAt(Parse2Digits(s, start), Parse2Digits(s, start + 3), Parse2Digits(s, start + 6), 0, SECOND)
    else if n == 6 then TimeAt(Parse2Digits(s, start), Parse2Digits(s, start + 2), Parse2Digits(s, start + 4), 0, SECOND)
    else if n == 5 then TimeAt(Parse2Digits(s, start), Parse2Digits(s, start + 3), Some(0), 0, MINUTE)
    else if n == 4 then TimeAt(Parse2Digits(s, start), Parse2Digits(s, start + 2), Some(0), 0, MINUTE)
    else if n == 2 then TimeAt(Parse2Digits(s, start), Some(0), Some(0), 0, HOUR)
    else if n > 7 && s[start + 6] == '.' then
      WithFraction(Parse2Digits(s, start), Parse2Digits(s, start + 2), Parse2Digits(s, start + 4), s[start + 7..end])
    else if n > 9 && s[start + 8] == '.' then
      WithFraction(Parse2Digits(s, start), Parse2Digits(s, start + 3), Parse2Digits(s, start + 6), s[start + 9..end])
    else None
  }

  lemma {:induction false} ValueSnoc(s: string, c: char)
    requires AllDigits(s) && IsDigit(c)
    ensures AllDigits(s + [c]) && Value(s + [c]) == 10 * Value(s) + DigitValue(c)
  {
    assert (s + [c])[..|s|] == s;
  }

  /** What the first `i` of nine digits come to; those missing count as zero. */
  predicate ReadUpTo(digits: string, i: nat, nano: int, resolution: int) {
    var n := Min(i, |digits|);
    AllDigits(digits[..n]) && resolution == Pow10(9 - Min(n, 9)) && nano == Value(digits[..n]) * Pow10(i - n)
  }

  lemma ReadDigit(digits: string, i: nat, nano: int, resolution: int)
    requires i < |digits| && i < 9 && IsDigit(digits[i]) && ReadUpTo(digits, i, nano, resolution)
    ensures ReadUpTo(digits, i + 1, nano * 10 + DigitValue(digits[i]), resolution / 10)
  {
    ValueSnoc(digits[..i], digits[i]);
    assert digits[..i + 1] == digits[..i] + [digits[i]];
  }

  lemma ReadNothing(digits: string, i: nat, nano: int, resolution: int)
    requires |digits| <= i < 9 && ReadUpTo(digits, i, nano, resolution)
    ensures ReadUpTo(digits, i + 1, nano * 10, resolution)
  {
    TenTimes(Value(digits[..|digits|]), Pow10(i - |digits|), Pow10(i + 1 - |digits|));
  }

  lemma TenTimes(v: int, p: int, q: int)
    requires q == 10 * p
    ensures v * p * 10 == v * q
  {
  }

  lemma NoFraction(digits: string, i: nat)
    requires i < |digits| && i < 9 && !IsDigit(digits[i])
    ensures Fraction(digits) == None
  {
    assert digits[..Min(|digits|, 9)][i] == digits[i];
  }

  /** The loop over the nine digits. */
  method ParseFraction(digits: string) returns (nano: int, resolution: int, ok: bool)
    ensures Fraction(digits) == if ok then Some((nano, resolution)) else None
  {
    resolution := SECOND;
    nano := 0;
    assert Pow10(9) == SECOND by {
      assert Pow10(5) == 100_000;
    }
    for i := 0 to 9
      invariant ReadUpTo(digits, i, nano, resolution)
    {
      var d := 0;
      if i < |digits| {
        if !IsDigit(digits[i]) {
          NoFraction(digits, i);
          return 0, 0, false;
        }
        ReadDigit(digits, i, nano, resolution);
        d := DigitValue(digits[i]);
        resolution := resolution / 10;
      } else {
        ReadNothing(digits, i, nano, resolution);
      }
      nano := nano * 10 + d;
    }
    ok := true;
  }

  method ParseTime(s: string, start: nat, end: nat) returns (t: TimeOfDay, ok: bool)
    requires end <= |s|
    ensures TimeIn(s, start, end) == if ok then Some(t) else None
  {
    t := TimeOfDay(0, 0, 0, 0, 0);
    var h, m, sec: Option<int>;
    var n := end - start;
    if n == 8 {
      h, m, sec := Parse2Digits(s, start), Parse2Digits(s, start + 3), Parse2Digits(s, start + 6);
      t := t.(resolution := SECOND);
    } else if n == 6 {
      h, m, sec := Parse2Digits(s, start), Parse2Digits(s, start + 2), Parse2Digits(s, start + 4);
      t := t.(resolution := SECOND);
    } else if n == 5 {
      h, m, sec := Parse2Digits(s, start), Parse2Digits(s, start + 3), Some(0);
      t := t.(resolution := MINUTE);
    } else if n == 4 {
      h, m, sec := Parse2Digits(s, start), Parse2Digits(s, start + 2), Some(0);
      t := t.(resolution := MINUTE);
    } else if n == 2 {
      h, m, sec := Parse2Digits(s, start), Some(0), Some(0);
      t := t.(resolution := HOUR);
    } else {
      var fractionPos;
      if n > 7 && s[start + 6] == '.' {
        h, m, sec := Parse2Digits(s, start), Parse2Digits(s, start + 2), Parse2Digits(s, start + 4);
        fractionPos := start + 7;
      } else if n > 9 && s[start + 8] == '.' {
        h, m, sec := Parse2Digits(s, start), Parse2Digits(s, start + 3), Parse2Digits(s, start + 6);
        fractionPos := start + 9;
      } else {
        return t, false;
      }
      var nano, resolution, fractionOk := ParseFraction(s[fractionPos..end]);
      if !fractionOk {
        return t, false;
      }
      t := t.(nano := nano, resolution := resolution);
    }
    ok := h.Some? && m.Some? && sec.Some?;
    if ok {
      t := t.(hour := h.value, minute := m.value, second := sec.value);
    }
  }

  /** A time as its zone shows it, the offset of the zone in seconds, and the resolution of the text. */
  datatype Stamp = Stamp(local: Time, offset: int, resolution: int)

  /** The zone in the text, or else the default one. */
  function ZoneOr(s: string, defaultOffset: Option<int>): (r: Option<ZoneAt>)
    requires |s| >= 12
    ensures r.Some? ==> r.value.signPos <= |s|
  {
    var zone := ParseTimeZone(s);
    if zone.Some? then zone
    else if defaultOffset.Some? then Some(ZoneAt(defaultOffset.value, |s|))
    else None
  }

  function Rfc3339(s: string, defaultOffset: Option<int>): Option<Stamp> {
    var date := ParseDate(s);
    if date.None? then None
    else
      var zone := ZoneOr(s, defaultOffset);
      if zone.None? then None
      else
        var time := TimeIn(s, date.value.hourPos, zone.value.signPos);
        if time.None? then None
        else
          var d, t := date.value, time.value;
          var local := DateInstant(d.year, d.month, d.day, t.hour, t.minute, t.second, t.nano);
          if InYears(local) then Some(Stamp(local, zone.value.offset, t.resolution)) else None
  }

  method ParseRfc3339(s: string, defaultOffset: Option<int>) returns (r: Option<Stamp>)
    ensures r == Rfc3339(s, defaultOffset)
  {
    var date := ParseDate(s);
    if date.None? {
      return None;
    }
    var zone := ParseTimeZone(s);
    if zone.None? {
      if defaultOffset.None? {
        return None;
      }
      zone := Some(ZoneAt(defaultOffset.value, |s|));
    }
    var t, ok := ParseTime(s, date.value.hourPos, zone.value.signPos);
    if !ok {
      return None;
    }
    var d := date.value;
    var local := DateInstant(d.year, d.month, d.day, t.hour, t.minute, t.second, t.nano);
    if !InYears(local) {
      return None;
    }
    return Some(Stamp(local, zone.value.offset, t.resolution));
  }
}
