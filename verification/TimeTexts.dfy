/** lib-ayd/time.go: what a text that is read as a time looks like. */
module TimeTexts {
  import opened Common
  import opened Decimals
  import opened Calendar
  import opened TimeParsers
  import opened TimeLayouts

  /** A time of day with any characters where the colons should be. */
  function LooseTime(f: TimeForm, c: Civil, x: char, y: char): string
    requires Digits(c)
  {
    match f
    case HourForm => Two(c.hour)
    case MinuteForm(e) => Two(c.hour) + Between(e, x) + Two(c.minute)
    case SecondForm(e) => Two(c.hour) + Between(e, x) + Two(c.minute) + Between(e, y) + Two(c.second)
    case FractionForm(e, digits) =>
      Two(c.hour) + Between(e, x) + Two(c.minute) + Between(e, y) + Two(c.second) + "." + digits
  }

  function Between(extended: bool, c: char): string {
    if extended then [c] else ""
  }

  /** As in the layouts that are promised to be read, but only the first nine digits of a fraction need be digits. */
  predicate LooselySupported(l: Layout) {
    && IsDateTimeDelim(l.delim)
    && (l.time.FractionForm? ==> l.time.digits != "" && AllDigits(l.time.digits[..Min(|l.time.digits|, 9)]))
    && SupportedZone(l.zone)
  }

  predicate SupportedZone(z: ZoneForm) {
    && (z.HourOffset? ==> 0 <= z.h < 100)
    && (z.CompactOffset? || z.ColonOffset? ==> 0 <= z.h < 100 && 0 <= z.m < 100)
  }

  function ZoneSaid(z: ZoneForm): string
    requires SupportedZone(z)
  {
    match z
    case Zulu(lower) => if lower then "z" else "Z"
    case HourOffset(neg, h) => Sign(neg) + Two(h)
    case CompactOffset(neg, h, m) => Sign(neg) + Two(h) + Two(m)
    case ColonOffset(neg, h, m) => Sign(neg) + Two(h) + ":" + Two(m)
    case NoZone => ""
  }

  function LooseText(l: Layout, c: Civil, x: char, y: char): string
    requires LooselySupported(l) && Digits(c)
  {
    DateText(l.extendedDate, c) + [l.delim] + LooseTime(l.time, c, x, y) + ZoneSaid(l.zone)
  }

  /** ---- Numbers ---- */

  lemma DigitAgain(c: char)
    requires IsDigit(c)
    ensures DigitValue(c) < 10 && Digit(DigitValue(c)) == c
  {
  }

  lemma TwoWritten(s: string, pos: nat)
    requires pos + 2 <= |s| && Parse2Digits(s, pos).Some?
    ensures var n := Parse2Digits(s, pos).value; 0 <= n < 100 && s[pos..pos + 2] == Two(n)
  {
    DigitAgain(s[pos]);
    DigitAgain(s[pos + 1]);
    assert s[pos..pos + 2] == [s[pos], s[pos + 1]];
  }

  lemma FourWritten(s: string)
    requires |s| >= 4 && Parse4Digits(s).Some?
    ensures var n := Parse4Digits(s).value;
            0 <= n <= 9999 && s[..2] == Two(n / 100) && s[2..4] == Two(n % 100)
  {
    TwoWritten(s, 0);
    TwoWritten(s, 2);
    var a, b := Parse2Digits(s, 0).value, Parse2Digits(s, 2).value;
    var n := Parse4Digits(s).value;
    assert n == 100 * a + b;
    Hundreds(a, b);
    assert s[..2] == s[0..2];
  }

  lemma Hundreds(a: int, b: int)
    requires 0 <= b < 100
    ensures (100 * a + b) / 100 == a && (100 * a + b) % 100 == b
  {
  }

  /** ---- The three parts ---- */

  /** A date that is read is written with or without dashes in front of a delimiter. */
  lemma DateWritten(s: string, c: Civil) returns (extended: bool)
    requires ParseDate(s).Some?
    requires var d := ParseDate(s).value; d.year >= 0 ==> c.year == d.year && c.month == d.month && c.day == d.day
    requires 0 <= c.hour < 100 && 0 <= c.minute < 100 && 0 <= c.second < 100
    ensures Digits(c) && |s| >= 12
    ensures ParseDate(s).value == Date(c.year, c.month, c.day, if extended then 11 else 9)
    ensures var n := if extended then 10 else 8; IsDateTimeDelim(s[n]) && s[..n] == DateText(extended, c)
  {
    var d := ParseDate(s).value;
    extended := d.hourPos == 11;
    var m, y := if extended then 5 else 4, if extended then 8 else 6;
    FourWritten(s);
    TwoWritten(s, m);
    TwoWritten(s, y);
    DateJoined(s, extended, c);
  }

  lemma DateJoined(s: string, extended: bool, c: Civil)
    requires Digits(c) && |s| >= 12 && s[..2] == Two(c.year / 100) && s[2..4] == Two(c.year % 100)
    requires var m := if extended then 5 else 4; s[m..m + 2] == Two(c.month)
    requires var y := if extended then 8 else 6; s[y..y + 2] == Two(c.day)
    requires extended ==> s[4] == '-' && s[7] == '-'
    ensures s[..if extended then 10 else 8] == DateText(extended, c)
  {
    assert s[..4] == s[..2] + s[2..4];
    if extended {
      assert s[4..5] == "-" && s[7..8] == "-";
      assert s[..10] == s[..4] + s[4..5] + s[5..7] + s[7..8] + s[8..10];
    } else {
      assert s[..8] == s[..4] + s[4..6] + s[6..8];
      assert s[..4] + "" + s[4..6] + "" + s[6..8] == s[..8];
    }
  }

  /** A zone that is read is written in one of the four forms. */
  lemma ZoneWritten(s: string) returns (z: ZoneForm)
    requires |s| >= 6 && ParseTimeZone(s).Some?
    ensures SupportedZone(z) && !z.NoZone? && ParseTimeZone(s).value.offset == Offset(z, 0)
    ensures s[ParseTimeZone(s).value.signPos..] == ZoneSaid(z)
  {
    var n := |s|;
    if s[n - 1] == 'Z' || s[n - 1] == 'z' {
      z := Zulu(s[n - 1] == 'z');
      assert s[n - 1..] == [s[n - 1]];
    } else if s[n - 3] == ':' {
      z := ColonWritten(s);
    } else if s[n - 3] == '+' || s[n - 3] == '-' {
      TwoWritten(s, n - 2);
      z := HourOffset(s[n - 3] == '-', Parse2Digits(s, n - 2).value);
      assert s[n - 3..] == [s[n - 3]] + s[n - 2..n];
    } else {
      z := CompactWritten(s);
    }
  }

  lemma ColonWritten(s: string) returns (z: ZoneForm)
    requires |s| >= 6 && s[|s| - 3] == ':'
    requires SignedZone(s, |s| - 6, Parse2Digits(s, |s| - 5), Parse2Digits(s, |s| - 2)).Some?
    ensures z.ColonOffset? && SupportedZone(z) && s[|s| - 6..] == ZoneSaid(z)
    ensures SignedZone(s, |s| - 6, Parse2Digits(s, |s| - 5), Parse2Digits(s, |s| - 2)).value.offset == Offset(z, 0)
  {
    var n := |s|;
    TwoWritten(s, n - 5);
    TwoWritten(s, n - 2);
    z := ColonOffset(s[n - 6] == '-', Parse2Digits(s, n - 5).value, Parse2Digits(s, n - 2).value);
    assert s[n - 6..] == [s[n - 6]] + s[n - 5..n - 3] + [s[n - 3]] + s[n - 2..n];
  }

  lemma CompactWritten(s: string) returns (z: ZoneForm)
    requires |s| >= 6 && SignedZone(s, |s| - 5, Parse2Digits(s, |s| - 4), Parse2Digits(s, |s| - 2)).Some?
    ensures z.CompactOffset? && SupportedZone(z) && s[|s| - 5..] == ZoneSaid(z)
    ensures SignedZone(s, |s| - 5, Parse2Digits(s, |s| - 4), Parse2Digits(s, |s| - 2)).value.offset == Offset(z, 0)
  {
    var n := |s|;
    TwoWritten(s, n - 4);
    TwoWritten(s, n - 2);
    z := CompactOffset(s[n - 5] == '-', Parse2Digits(s, n - 4).value, Parse2Digits(s, n - 2).value);
    assert s[n - 5..] == [s[n - 5]] + s[n - 4..n - 2] + s[n - 2..n];
  }

  /** The form of a time of day, by its length or its point. */
  function FormOf(s: string, start: nat, end: nat): TimeForm
    requires end <= |s| && TimeIn(s, start, end).Some?
  {
    var n := end - start;
    if n == 2 then HourForm
    else if n == 4 || n == 5 then MinuteForm(n == 5)
    else if n == 6 || n == 8 then SecondForm(n == 8)
    else if s[start + 6] == '.' then FractionForm(false, s[start + 7..end])
    else FractionForm(true, s[start + 9..end])
  }

  /** The numbers of a time of day; those that are not written are zero. */
  function NumbersOf(s: string, start: nat, end: nat, c: Civil): Civil
    requires end <= |s| && TimeIn(s, start, end).Some?
  {
    var t := TimeIn(s, start, end).value;
    c.(hour := t.hour, minute := t.minute, second := t.second, nano := t.nano)
  }

  /** Where the numbers of a time of day are. */
  lemma TimeNumbers(s: string, start: nat, end: nat)
    requires end <= |s| && TimeIn(s, start, end).Some?
    ensures var t, f := TimeIn(s, start, end).value, FormOf(s, start, end);
            var e := !f.HourForm? && f.extended;
            && start + 2 <= end && Parse2Digits(s, start) == Some(t.hour)
            && (if f.HourForm? then end == start + 2 && t.minute == 0
                else start + (if e then 5 else 4) <= end && Parse2Digits(s, start + if e then 3 else 2) == Some(t.minute))
            && (f.MinuteForm? ==> end == start + if e then 5 else 4)
            && (if f.HourForm? || f.MinuteForm? then t.second == 0
                else start + (if e then 8 else 6) <= end && Parse2Digits(s, start + if e then 6 else 4) == Some(t.second))
            && (f.SecondForm? ==> end == start + if e then 8 else 6)
            && t.resolution == Resolution(f)
            && (!f.FractionForm? ==> t.nano == 0)
            && (f.FractionForm? ==>
                  var dot := start + if e then 8 else 6;
                  && dot + 1 < end && s[dot] == '.' && f.digits == s[dot + 1..end]
                  && Fraction(f.digits) == Some((t.nano, Resolution(f))))
  {
  }

  lemma FractionDigits(digits: string)
    requires Fraction(digits).Some?
    ensures AllDigits(digits[..Min(|digits|, 9)])
  {
  }

  /** A time of day that is read is written in one of the forms, with anything where the colons should be. */
  lemma TimeWritten(s: string, start: nat, end: nat, c: Civil) returns (x: char, y: char)
    requires end <= |s| && TimeIn(s, start, end).Some?
    requires var t := TimeIn(s, start, end).value; c.hour == t.hour && c.minute == t.minute && c.second == t.second
    requires c.year <= 9999 && 0 <= c.month < 100 && 0 <= c.day < 100
    ensures Digits(c) && start <= end && s[start..end] == LooseTime(FormOf(s, start, end), c, x, y)
    ensures FormOf(s, start, end).FractionForm? ==>
              var digits := FormOf(s, start, end).digits; digits != "" && AllDigits(digits[..Min(|digits|, 9)])
  {
    var f := FormOf(s, start, end);
    var e := !f.HourForm? && f.extended;
    TimeNumbers(s, start, end);
    NumberIn(s, start, end, 0);
    x, y := ':', ':';
    if !f.HourForm? {
      NumberIn(s, start, end, if e then 3 else 2);
      x := s[start + 2];
    }
    if f.SecondForm? || f.FractionForm? {
      NumberIn(s, start, end, if e then 6 else 4);
      y := if e then s[start + 5] else ':';
    }
    if f.FractionForm? {
      FractionDigits(f.digits);
      FractionIn(s, start, end, if e then 8 else 6);
    }
    TimeJoined(s[start..end], f, c, x, y);
  }

  /** A number of the time of day by its place in it. */
  lemma NumberIn(s: string, start: nat, end: nat, i: nat)
    requires start + i + 2 <= end <= |s| && Parse2Digits(s, start + i).Some?
    ensures var n := Parse2Digits(s, start + i).value; 0 <= n < 100 && s[start..end][i..i + 2] == Two(n)
  {
    TwoWritten(s, start + i);
    assert s[start..end][i..i + 2] == s[start + i..start + i + 2];
  }

  lemma FractionIn(s: string, start: nat, end: nat, dot: nat)
    requires start + dot < end <= |s|
    ensures s[start..end][dot] == s[start + dot] && s[start..end][dot + 1..] == s[start + dot + 1..end]
  {
  }

  lemma TimeJoined(t: string, f: TimeForm, c: Civil, x: char, y: char)
    requires Digits(c) && |t| >= 2 && t[0..2] == Two(c.hour)
    requires f.HourForm? ==> |t| == 2
    requires f.MinuteForm? ==> var m := if f.extended then 3 else 2;
               |t| == m + 2 && t[m..m + 2] == Two(c.minute) && (f.extended ==> t[2] == x)
    requires f.SecondForm? || f.FractionForm? ==>
               var (m, n) := (if f.extended then 3 else 2, if f.extended then 6 else 4);
               && |t| >= n + 2 && t[m..m + 2] == Two(c.minute) && t[n..n + 2] == Two(c.second)
               && (f.extended ==> t[2] == x && t[5] == y)
               && (f.SecondForm? ==> |t| == n + 2)
               && (f.FractionForm? ==> |t| > n + 2 && t[n + 2] == '.' && t[n + 3..] == f.digits)
    ensures t == LooseTime(f, c, x, y)
  {
    match f {
      case HourForm =>
      case MinuteForm(e) => MinuteJoined(t, e, c, x);
      case SecondForm(e) => SecondJoined(t, e, c, x, y);
      case FractionForm(e, digits) =>
        var n := if e then 8 else 6;
        SecondJoined(t[..n], e, c, x, y);
        assert t == t[..n] + [t[n]] + t[n + 1..];
    }
  }

  lemma MinuteJoined(t: string, e: bool, c: Civil, x: char)
    requires Digits(c) && |t| == (if e then 5 else 4) && t[0..2] == Two(c.hour) && (e ==> t[2] == x)
    requires var m := if e then 3 else 2; t[m..m + 2] == Two(c.minute)
    ensures t == Two(c.hour) + Between(e, x) + Two(c.minute)
  {
    if e {
      assert t == t[0..2] + [t[2]] + t[3..5];
    } else {
      assert t == t[0..2] + "" + t[2..4];
    }
  }

  lemma SecondJoined(t: string, e: bool, c: Civil, x: char, y: char)
    requires Digits(c) && |t| == (if e then 8 else 6) && t[0..2] == Two(c.hour) && (e ==> t[2] == x && t[5] == y)
    requires var m := if e then 3 else 2; t[m..m + 2] == Two(c.minute)
    requires var n := if e then 6 else 4; t[n..n + 2] == Two(c.second)
    ensures t == Two(c.hour) + Between(e, x) + Two(c.minute) + Between(e, y) + Two(c.second)
  {
    if e {
      assert t == t[0..2] + [t[2]] + t[3..5] + [t[5]] + t[6..8];
    } else {
      assert t == t[0..2] + "" + t[2..4] + "" + t[4..6];
    }
  }

  /** ---- The whole ---- */

  /** The numbers of a text that is read. */
  function Numbers(s: string, default: Option<int>): Civil
    requires Rfc3339(s, default).Some?
  {
    var d, zone := ParseDate(s).value, ZoneOr(s, default).value;
    var t := TimeIn(s, d.hourPos, zone.signPos).value;
    Civil(if d.year >= 0 then d.year else 0, d.month, d.day, t.hour, t.minute, t.second, t.nano)
  }

  lemma YearRead(s: string)
    requires ParseDate(s).Some?
    ensures ParseDate(s).value.year >= 0
  {
    FourWritten(s);
  }

  lemma TimeFields(s: string, start: nat, end: nat)
    requires end <= |s| && TimeIn(s, start, end).Some?
    ensures var t := TimeIn(s, start, end).value; 0 <= t.hour < 100 && 0 <= t.minute < 100 && 0 <= t.second < 100
  {
    var f := FormOf(s, start, end);
    var e := !f.HourForm? && f.extended;
    TimeNumbers(s, start, end);
    TwoWritten(s, start);
    if !f.HourForm? {
      TwoWritten(s, start + if e then 3 else 2);
    }
    if f.SecondForm? || f.FractionForm? {
      TwoWritten(s, start + if e then 6 else 4);
    }
  }

  /** The zone of a text that is read, if it says one. */
  lemma ZoneOrWritten(s: string, default: Option<int>) returns (z: ZoneForm)
    requires |s| >= 12 && ZoneOr(s, default).Some?
    ensures SupportedZone(z) && (z.NoZone? ==> default.Some?)
    ensures var zone := ZoneOr(s, default).value;
            && zone.offset == Offset(z, if default.Some? then default.value else 0)
            && s[zone.signPos..] == ZoneSaid(z)
  {
    if ParseTimeZone(s).Some? {
      z := ZoneWritten(s);
    } else {
      z := NoZone;
    }
  }

  lemma Whole(s: string, i: nat, j: nat)
    requires 0 < i <= j <= |s|
    ensures s == s[..i - 1] + [s[i - 1]] + s[i..j] + s[j..]
  {
  }

  /** Every text that is read is a date, a delimiter, a time of day and perhaps a zone, in one of the layouts up to what
    * stands for the colons and behind the ninth digit of a fraction; and it is read as what these say. */
  lemma OnlyLayouts(s: string, default: Option<int>) returns (l: Layout, c: Civil, x: char, y: char)
    requires Rfc3339(s, default).Some?
    ensures LooselySupported(l) && Digits(c) && s == LooseText(l, c, x, y) && (l.zone.NoZone? ==> default.Some?)
    ensures Said(l.time, c) == c && InYears(Counted(c))
    ensures Rfc3339(s, default) ==
            Some(Stamp(Counted(c), Offset(l.zone, if default.Some? then default.value else 0), Resolution(l.time)))
  {
    var start, end := ParseDate(s).value.hourPos, ZoneOr(s, default).value.signPos;
    c := Numbers(s, default);
    YearRead(s);
    TimeFields(s, start, end);
    var extended := DateWritten(s, c);
    x, y := TimeWritten(s, start, end, c);
    var z := ZoneOrWritten(s, default);
    TimeNumbers(s, start, end);
    l := Layout(extended, s[start - 1], FormOf(s, start, end), z);
    Whole(s, start, end);
  }
}
