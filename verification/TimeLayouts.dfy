/** lib-ayd/time.go: the layouts that are promised to be read, and that they are. */
module TimeLayouts {
  import opened Common
  import opened Decimals
  import opened Calendar
  import opened TimeParsers

  /** How much of the time of day a text says, and whether there are colons in it. */
  datatype TimeForm =
    | HourForm
    | MinuteForm(extended: bool)
    | SecondForm(extended: bool)
    | FractionForm(extended: bool, digits: string)

  datatype ZoneForm =
    | Zulu(lower: bool)
    | HourOffset(negative: bool, h: int)
    | CompactOffset(negative: bool, h: int, m: int)
    | ColonOffset(negative: bool, h: int, m: int)
    | NoZone

  datatype Layout = Layout(extendedDate: bool, delim: char, time: TimeForm, zone: ZoneForm)

  predicate Supported(l: Layout) {
    && IsDateTimeDelim(l.delim)
    && (l.time.FractionForm? ==> l.time.digits != "" && AllDigits(l.time.digits))
    && (l.zone.HourOffset? ==> 0 <= l.zone.h < 100)
    && (l.zone.CompactOffset? || l.zone.ColonOffset? ==> 0 <= l.zone.h < 100 && 0 <= l.zone.m < 100)
  }

  /** Numbers of as many digits as there are for them, whether or not there is such a time. */
  predicate Digits(c: Civil) {
    && c.year <= 9999 && 0 <= c.month < 100 && 0 <= c.day < 100
    && 0 <= c.hour < 100 && 0 <= c.minute < 100 && 0 <= c.second < 100
  }

  function DateText(extended: bool, c: Civil): string
    requires Digits(c)
  {
    var dash := if extended then "-" else "";
    Two(c.year / 100) + Two(c.year % 100) + dash + Two(c.month) + dash + Two(c.day)
  }

  function TimeText(f: TimeForm, c: Civil): string
    requires Digits(c)
  {
    match f
    case HourForm => Two(c.hour)
    case MinuteForm(e) => Two(c.hour) + Colon(e) + Two(c.minute)
    case SecondForm(e) => Two(c.hour) + Colon(e) + Two(c.minute) + Colon(e) + Two(c.second)
    case FractionForm(e, digits) => Two(c.hour) + Colon(e) + Two(c.minute) + Colon(e) + Two(c.second) + "." + digits
  }

  function Colon(extended: bool): string {
    if extended then ":" else ""
  }

  function Sign(negative: bool): string {
    if negative then "-" else "+"
  }

  function ZoneText(l: Layout): string
    requires Supported(l)
  {
    match l.zone
    case Zulu(lower) => if lower then "z" else "Z"
    case HourOffset(neg, h) => Sign(neg) + Two(h)
    case CompactOffset(neg, h, m) => Sign(neg) + Two(h) + Two(m)
    case ColonOffset(neg, h, m) => Sign(neg) + Two(h) + ":" + Two(m)
    case NoZone => ""
  }

  function Rendered(l: Layout, c: Civil): string
    requires Supported(l) && Digits(c)
  {
    DateText(l.extendedDate, c) + [l.delim] + TimeText(l.time, c) + ZoneText(l)
  }

  /** What a text says: fields that are not in it are zero. */
  function Said(f: TimeForm, c: Civil): Civil {
    match f
    case HourForm => c.(minute := 0, second := 0, nano := 0)
    case MinuteForm(_) => c.(second := 0, nano := 0)
    case SecondForm(_) => c.(nano := 0)
    case FractionForm(_, digits) => if Fraction(digits).Some? then c.(nano := Fraction(digits).value.0) else c
  }

  function Resolution(f: TimeForm): int {
    match f
    case HourForm => HOUR
    case MinuteForm(_) => MINUTE
    case SecondForm(_) => SECOND
    case FractionForm(_, digits) => Pow10(9 - Min(|digits|, 9))
  }

  function Offset(z: ZoneForm, default: int): int {
    match z
    case Zulu(_) => 0
    case HourOffset(neg, h) => if neg then -h * 3600 else h * 3600
    case CompactOffset(neg, h, m) => if neg then -h * 3600 - m * 60 else h * 3600 + m * 60
    case ColonOffset(neg, h, m) => if neg then -h * 3600 - m * 60 else h * 3600 + m * 60
    case NoZone => default
  }

  /** ---- The date ---- */

  lemma TwoRead(s: string, pos: nat, n: int)
    requires 0 <= n < 100 && pos + 2 <= |s| && s[pos..pos + 2] == Two(n)
    ensures Parse2Digits(s, pos) == Some(n)
  {
    assert s[pos] == Two(n)[0] && s[pos + 1] == Two(n)[1];
  }

  lemma FourRead(s: string, n: int)
    requires 0 <= n < 10000 && |s| >= 4 && s[..2] == Two(n / 100) && s[2..4] == Two(n % 100)
    ensures Parse4Digits(s) == Some(n)
  {
    var a, b := Two(n / 100), Two(n % 100);
    assert s[0] == a[0] && s[1] == a[1] && s[2] == b[0] && s[3] == b[1];
    assert n == 100 * (n / 100) + n % 100;
  }

  /** Where the numbers of the date are. */
  lemma DateParts(l: Layout, c: Civil)
    requires Supported(l) && Digits(c)
    ensures var d := DateText(l.extendedDate, c) + [l.delim];
            var (m, y) := (if l.extendedDate then 5 else 4, if l.extendedDate then 8 else 6);
            && |d| == y + 3 && d[y + 2] == l.delim
            && d[0..2] == Two(c.year / 100) && d[2..4] == Two(c.year % 100)
            && d[m..m + 2] == Two(c.month) && d[y..y + 2] == Two(c.day)
            && (l.extendedDate ==> d[4] == '-' && d[7] == '-')
  {
    var d := DateText(l.extendedDate, c) + [l.delim];
    if l.extendedDate {
      assert d[5..7] == Two(c.month) && d[8..10] == Two(c.day);
    } else {
      assert d[4..6] == Two(c.month) && d[6..8] == Two(c.day);
    }
  }

  lemma SliceOfPrefix(s: string, d: string, i: nat, j: nat)
    requires |d| <= |s| && s[..|d|] == d && i <= j <= |d|
    ensures s[i..j] == d[i..j]
  {
    assert forall k :: i <= k < j ==> s[k] == s[..|d|][k];
  }

  lemma DateRead(s: string, l: Layout, c: Civil)
    requires Supported(l) && Digits(c) && |s| >= 12
    requires var d := DateText(l.extendedDate, c) + [l.delim]; |d| <= |s| && s[..|d|] == d
    ensures ParseDate(s) == Some(Date(c.year, c.month, c.day, if l.extendedDate then 11 else 9))
  {
    var d, m, y := DateText(l.extendedDate, c) + [l.delim], if l.extendedDate then 5 else 4, if l.extendedDate then 8 else 6;
    DateParts(l, c);
    SliceOfPrefix(s, d, 0, 2);
    SliceOfPrefix(s, d, 2, 4);
    SliceOfPrefix(s, d, m, m + 2);
    SliceOfPrefix(s, d, y, y + 2);
    FourRead(s, c.year);
    TwoRead(s, m, c.month);
    TwoRead(s, y, c.day);
    assert forall i :: 0 <= i < |d| ==> s[i] == d[i];
    assert s[y + 2] == d[y + 2] && s[4] == d[4] && s[7] == d[7];
    if l.extendedDate {
      assert s[8] == d[8..10][0] && IsDigit(s[8]);
    }
  }

  /** ---- The zone ---- */

  /** The text `s` ends in `tail`. */
  predicate EndsIn(s: string, tail: string) {
    |tail| <= |s| && s[|s| - |tail|..] == tail
  }

  lemma TailAt(s: string, tail: string, i: nat)
    requires EndsIn(s, tail) && i < |tail|
    ensures s[|s| - |tail| + i] == tail[i]
  {
  }

  lemma TailTwo(s: string, tail: string, i: nat, n: int)
    requires EndsIn(s, tail) && 0 <= n < 100 && i + 2 <= |tail| && tail[i..i + 2] == Two(n)
    ensures Parse2Digits(s, |s| - |tail| + i) == Some(n)
  {
    var pos := |s| - |tail| + i;
    assert s[pos..pos + 2] == tail[i..i + 2];
    TwoRead(s, pos, n);
  }

  lemma HourZoneRead(s: string, neg: bool, h: int)
    requires |s| >= 12 && 0 <= h < 100 && EndsIn(s, Sign(neg) + Two(h))
    ensures ParseTimeZone(s) == Some(ZoneAt(Offset(HourOffset(neg, h), 0), |s| - 3))
  {
    var z := Sign(neg) + Two(h);
    TailAt(s, z, 0);
    TailAt(s, z, 2);
    assert IsDigit(z[2]);
    TailTwo(s, z, 1, h);
  }

  lemma CompactZoneRead(s: string, neg: bool, h: int, m: int)
    requires |s| >= 12 && 0 <= h < 100 && 0 <= m < 100 && EndsIn(s, Sign(neg) + Two(h) + Two(m))
    ensures ParseTimeZone(s) == Some(ZoneAt(Offset(CompactOffset(neg, h, m), 0), |s| - 5))
  {
    var z := Sign(neg) + Two(h) + Two(m);
    TailAt(s, z, 0);
    TailAt(s, z, 2);
    TailAt(s, z, 4);
    assert IsDigit(z[2]) && IsDigit(z[4]);
    TailTwo(s, z, 1, h);
    TailTwo(s, z, 3, m);
  }

  lemma ColonZoneRead(s: string, neg: bool, h: int, m: int)
    requires |s| >= 12 && 0 <= h < 100 && 0 <= m < 100 && EndsIn(s, Sign(neg) + Two(h) + ":" + Two(m))
    ensures ParseTimeZone(s) == Some(ZoneAt(Offset(ColonOffset(neg, h, m), 0), |s| - 6))
  {
    var z := Sign(neg) + Two(h) + ":" + Two(m);
    TailAt(s, z, 0);
    TailAt(s, z, 3);
    TailAt(s, z, 5);
    assert IsDigit(z[5]) && z[3] == ':';
    assert z[1..3] == Two(h) && z[4..6] == Two(m);
    TailTwo(s, z, 1, h);
    TailTwo(s, z, 4, m);
  }

  lemma ZoneRead(s: string, l: Layout)
    requires Supported(l) && !l.zone.NoZone? && |s| >= 12 && EndsIn(s, ZoneText(l))
    ensures ParseTimeZone(s) == Some(ZoneAt(Offset(l.zone, 0), |s| - |ZoneText(l)|))
  {
    match l.zone {
      case Zulu(_) => TailAt(s, ZoneText(l), 0);
      case HourOffset(neg, h) => HourZoneRead(s, neg, h);
      case CompactOffset(neg, h, m) => CompactZoneRead(s, neg, h, m);
      case ColonOffset(neg, h, m) => ColonZoneRead(s, neg, h, m);
      case NoZone => assert false;
    }
  }

  lemma HourEnd(s: string, l: Layout, c: Civil)
    requires Supported(l) && Digits(c) && |s| >= 12 && EndsIn(s, [l.delim] + Two(c.hour))
    ensures ParseTimeZone(s).None?
  {
    var t := [l.delim] + Two(c.hour);
    TailAt(s, t, 0);
    TailAt(s, t, 2);
    assert IsDigit(t[2]);
  }

  lemma MinuteEnd(s: string, e: bool, l: Layout, c: Civil)
    requires Supported(l) && Digits(c) && |s| >= 12 && EndsIn(s, [l.delim] + TimeText(MinuteForm(e), c))
    ensures ParseTimeZone(s).None?
  {
    var t := [l.delim] + TimeText(MinuteForm(e), c);
    TailAt(s, t, 0);
    TailAt(s, t, |t| - 3);
    TailAt(s, t, |t| - 1);
    assert IsDigit(t[|t| - 1]) && (if e then t[|t| - 3] == ':' else IsDigit(t[|t| - 3]));
  }

  /** The end of a text without a zone is never taken for one. */
  lemma NoZoneRead(s: string, l: Layout, c: Civil)
    requires Supported(l) && Digits(c) && |s| >= 12 && EndsIn(s, [l.delim] + TimeText(l.time, c))
    ensures ParseTimeZone(s).None?
  {
    match l.time {
      case HourForm => HourEnd(s, l, c);
      case MinuteForm(e) => MinuteEnd(s, e, l, c);
      case SecondForm(e) => SecondsEnd(s, e, l, c);
      case FractionForm(e, digits) => FractionEnd(s, e, digits, c);
    }
  }

  lemma SecondsEnd(s: string, e: bool, l: Layout, c: Civil)
    requires Supported(l) && Digits(c) && |s| >= 12 && EndsIn(s, [l.delim] + TimeText(SecondForm(e), c))
    ensures ParseTimeZone(s).None?
  {
    var t := [l.delim] + TimeText(SecondForm(e), c);
    SecondEnd(e, c);
    TailAt(s, t, |t| - 6);
    TailAt(s, t, |t| - 5);
    TailAt(s, t, |t| - 3);
    TailAt(s, t, |t| - 1);
  }

  lemma SecondEnd(e: bool, c: Civil)
    requires Digits(c)
    ensures var t := TimeText(SecondForm(e), c); var n := |t|;
            && n >= 6 && IsDigit(t[n - 1])
            && (if e then n == 8 && t[n - 6] == ':' && t[n - 3] == ':' else IsDigit(t[n - 5]) && IsDigit(t[n - 3]))
  {
  }

  lemma FractionEnd(s: string, e: bool, digits: string, c: Civil)
    requires Digits(c) && digits != "" && AllDigits(digits) && |s| >= 12
    requires EndsIn(s, TimeText(FractionForm(e, digits), c))
    ensures ParseTimeZone(s).None?
  {
    var seconds := TimeText(SecondForm(e), c);
    var t := TimeText(FractionForm(e, digits), c);
    SecondEnd(e, c);
    assert t == seconds + "." + digits && IsDigit(seconds[|seconds| - 1]);
    DotEnd(s, seconds[|seconds| - 1], digits, |s| - |digits| - 1);
  }

  /** A point and some digits end no zone. */
  lemma DotEnd(s: string, before: char, digits: string, dot: nat)
    requires 12 <= |s| && 0 < dot && dot + 1 + |digits| == |s| && digits != "" && AllDigits(digits) && IsDigit(before)
    requires s[dot - 1] == before && s[dot] == '.' && s[dot + 1..] == digits
    ensures ParseTimeZone(s).None?
  {
    var n := |s|;
    assert forall i :: dot < i < n ==> IsDigit(s[i]) by {
      assert forall i :: dot < i < n ==> s[i] == digits[i - dot - 1];
    }
    assert IsDigit(s[n - 1]);
  }

  /** ---- The time of day ---- */

  /** The one time form that is not read: with one digit of a fraction and no colons it is as long as one with
    * colons and no fraction. */
  predicate Mistaken(f: TimeForm) {
    f.FractionForm? && !f.extended && |f.digits| == 1
  }

  /** Where the numbers of the text are. */
  lemma TimeParts(f: TimeForm, c: Civil)
    requires Digits(c)
    ensures var t := TimeText(f, c); |t| >= 2 && t[0..2] == Two(c.hour)
    ensures f.MinuteForm? ==>
              var (t, m) := (TimeText(f, c), if f.extended then 3 else 2); |t| == m + 2 && t[m..m + 2] == Two(c.minute)
    ensures f.SecondForm? || f.FractionForm? ==>
              var (t, m, s) := (TimeText(f, c), if f.extended then 3 else 2, if f.extended then 6 else 4);
              && |t| == s + 2 + (if f.FractionForm? then 1 + |f.digits| else 0)
              && t[m..m + 2] == Two(c.minute) && t[s..s + 2] == Two(c.second)
              && (f.FractionForm? ==> t[s + 2] == '.' && t[s + 3..] == f.digits)
  {
  }

  lemma TimeRead(s: string, start: nat, end: nat, f: TimeForm, c: Civil)
    requires Digits(c) && start <= end <= |s| && s[start..end] == TimeText(f, c)
    requires f.FractionForm? ==> f.digits != "" && AllDigits(f.digits)
    ensures var t := Said(f, c);
            TimeIn(s, start, end) ==
            if Mistaken(f) then None
            else Some(TimeOfDay(t.hour, t.minute, t.second, if f.FractionForm? then t.nano else 0, Resolution(f)))
  {
    TimeParts(f, c);
    TwoIn(s, start, end, 0, c.hour);
    if !f.HourForm? {
      TwoIn(s, start, end, if f.extended then 3 else 2, c.minute);
    }
    if f.SecondForm? || f.FractionForm? {
      TwoIn(s, start, end, if f.extended then 6 else 4, c.second);
    }
    if f.FractionForm? {
      var t, dot := TimeText(f, c), if f.extended then 8 else 6;
      assert s[start + dot] == t[dot] && s[start + dot + 1..end] == t[dot + 1..];
      if f.extended {
        assert s[start + 6] == t[6..8][0] && IsDigit(s[start + 6]);
      }
    }
  }

  lemma TwoIn(s: string, start: nat, end: nat, i: nat, n: int)
    requires 0 <= n < 100 && start + i + 2 <= end <= |s| && s[start..end][i..i + 2] == Two(n)
    ensures Parse2Digits(s, start + i) == Some(n)
  {
    assert s[start + i..start + i + 2] == s[start..end][i..i + 2] by {
      assert forall k :: i <= k < i + 2 ==> s[start..end][k] == s[start + k];
    }
    TwoRead(s, start + i, n);
  }

  /** ---- The fraction ---- */

  lemma {:induction false} ValueBound(digits: string)
    requires AllDigits(digits)
    ensures Value(digits) < Pow10(|digits|)
  {
    if digits != "" {
      ValueBound(digits[..|digits| - 1]);
    }
  }

  lemma {:induction false} PowSplit(m: nat, n: nat)
    ensures Pow10(m + n) == Pow10(m) * Pow10(n)
  {
    if m > 0 {
      PowSplit(m - 1, n);
      Associate(10, Pow10(m - 1), Pow10(n));
    }
  }

  lemma Associate(a: int, b: int, c: int)
    ensures a * (b * c) == (a * b) * c
  {
  }

  lemma PowNine()
    ensures Pow10(9) == SECOND
  {
    assert Pow10(5) == 100_000;
  }

  lemma {:induction false} ValueSplit(a: string, b: string)
    requires AllDigits(a) && AllDigits(b)
    ensures AllDigits(a + b) && Value(a + b) == Value(a) * Pow10(|b|) + Value(b)
  {
    if b == "" {
      assert a + b == a;
    } else {
      var init, last := b[..|b| - 1], b[|b| - 1];
      ValueSplit(a, init);
      ValueSnoc(a + init, last);
      assert a + b == a + init + [last];
      TimesTen(Value(a), Pow10(|init|), Value(init), DigitValue(last));
    }
  }

  lemma TimesTen(x: int, y: int, z: int, d: int)
    ensures 10 * (x * y + z) + d == x * (10 * y) + (10 * z + d)
  {
  }

  /** A fraction by the value `p` of the digits kept and `q` of the others, with 10^n, 10^(9-n) and 10^|rest|
    * in `a`, `b` and `c`: its nanoseconds, its value and its power of ten. */
  ghost predicate SplitFraction(p: int, q: int, a: int, b: int, c: int, nano: int, v: int, w: int) {
    && 0 <= p < a && 0 <= q < c && a * b == SECOND && 0 < b && (b == 1 || c == 1)
    && nano == p * b && v == p * c + q && w == a * c
  }

  lemma FractionParts(digits: string) returns (p: int, q: int, a: int, b: int, c: int)
    requires AllDigits(digits)
    ensures Fraction(digits).Some?
    ensures SplitFraction(p, q, a, b, c, Fraction(digits).value.0, Value(digits), Pow10(|digits|))
  {
    PowNine();
    var n := Min(|digits|, 9);
    var first, rest := digits[..n], digits[n..];
    assert digits == first + rest;
    ValueSplit(first, rest);
    ValueBound(first);
    ValueBound(rest);
    PowSplit(n, 9 - n);
    PowSplit(n, |rest|);
    p, q, a, b, c := Value(first), Value(rest), Pow10(n), Pow10(9 - n), Pow10(|rest|);
  }

  /** `nano` is the fraction v / w of a second in whole nanoseconds, rounded down. */
  ghost predicate RoundsDown(nano: int, v: int, w: int) {
    0 <= nano < SECOND && nano * w <= v * SECOND < (nano + 1) * w
  }

  lemma Truncated(p: int, q: int, a: int, b: int, c: int, nano: int, v: int, w: int)
    requires SplitFraction(p, q, a, b, c, nano, v, w)
    ensures RoundsDown(nano, v, w)
  {
    assert p * b <= (a - 1) * b == SECOND - b;
    if b == 1 {
      assert p * (a * c) == (p * c) * a;
      assert q * a < c * a;
    } else {
      assert p * b * a == p * (a * b) && p * SECOND < (p * b + 1) * a;
    }
  }

  /** The nanoseconds are those of the fraction 0.`digits`, rounded down. */
  lemma FractionTruncates(digits: string)
    requires AllDigits(digits)
    ensures Fraction(digits).Some? && RoundsDown(Fraction(digits).value.0, Value(digits), Pow10(|digits|))
  {
    var p, q, a, b, c := FractionParts(digits);
    Truncated(p, q, a, b, c, Fraction(digits).value.0, Value(digits), Pow10(|digits|));
  }

  /** ---- The whole ---- */

  /** A text of eleven characters is turned down before anything is read. */
  predicate TooShort(l: Layout) {
    !l.extendedDate && l.time.HourForm? && l.zone.NoZone?
  }

  lemma SaidValid(f: TimeForm, c: Civil)
    requires c.Valid() && (f.FractionForm? ==> AllDigits(f.digits))
    ensures Said(f, c).Valid()
  {
    if f.FractionForm? {
      FractionTruncates(f.digits);
    }
  }

  /** The instant that the fields come to when they are counted on, as in Go's time.Date. */
  function Counted(c: Civil): Time {
    DateInstant(c.year, c.month, c.day, c.hour, c.minute, c.second, c.nano)
  }

  lemma Normal(c: Civil)
    requires c.Valid() && c.year <= 9999
    ensures Counted(c) == c.Instant() && InYears(Counted(c))
  {
    NormalMonth(c.year, c.month, c.day, c.hour, c.minute, c.second, c.nano);
    ValidInYears(c);
  }

  /** A rendered text read part by part. */
  lemma PartsRead(l: Layout, c: Civil, default: Option<int>)
    requires Supported(l) && Digits(c) && !TooShort(l)
    ensures var s, start := Rendered(l, c), if l.extendedDate then 11 else 9;
            var end := start + |TimeText(l.time, c)|;
            && ParseDate(s) == Some(Date(c.year, c.month, c.day, start))
            && end <= |s| && s[start..end] == TimeText(l.time, c)
            && ZoneOr(s, default) == if l.zone.NoZone? && default.None? then None
                                     else Some(ZoneAt(Offset(l.zone, if default.Some? then default.value else 0), end))
  {
    var s := Rendered(l, c);
    var d, t, z := DateText(l.extendedDate, c) + [l.delim], TimeText(l.time, c), ZoneText(l);
    assert s == d + t + z;
    LongEnough(l, c);
    DateRead(s, l, c);
    ZoneOrDefault(s, d[..|d| - 1], l, c, default);
  }

  /** What is read off the end of a rendered text. */
  lemma ZoneOfText(s: string, date: string, l: Layout, c: Civil)
    requires Supported(l) && Digits(c) && |s| >= 12 && s == date + [l.delim] + TimeText(l.time, c) + ZoneText(l)
    ensures ParseTimeZone(s) == if l.zone.NoZone? then None else Some(ZoneAt(Offset(l.zone, 0), |s| - |ZoneText(l)|))
  {
    if l.zone.NoZone? {
      assert s == date + ([l.delim] + TimeText(l.time, c));
      NoZoneRead(s, l, c);
    } else {
      ZoneRead(s, l);
    }
  }

  lemma OffsetOr(l: Layout, default: int)
    requires Supported(l)
    ensures if l.zone.NoZone? then ZoneText(l) == "" && Offset(l.zone, default) == default
            else Offset(l.zone, default) == Offset(l.zone, 0)
  {
  }

  lemma ZoneOrDefault(s: string, date: string, l: Layout, c: Civil, default: Option<int>)
    requires Supported(l) && Digits(c) && |s| >= 12 && s == date + [l.delim] + TimeText(l.time, c) + ZoneText(l)
    ensures ZoneOr(s, default) == if l.zone.NoZone? && default.None? then None
                                  else Some(ZoneAt(Offset(l.zone, if default.Some? then default.value else 0), |s| - |ZoneText(l)|))
  {
    ZoneOfText(s, date, l, c);
    OffsetOr(l, if default.Some? then default.value else 0);
  }

  lemma LongEnough(l: Layout, c: Civil)
    requires Supported(l) && Digits(c) && !TooShort(l)
    ensures |Rendered(l, c)| >= 12
    ensures |DateText(l.extendedDate, c) + [l.delim]| == if l.extendedDate then 11 else 9
  {
    TimeParts(l.time, c);
  }

  lemma Assembled(s: string, default: Option<int>, start: nat, end: nat, offset: int, t: Civil, resolution: int)
    requires end <= |s|
    requires ParseDate(s) == Some(Date(t.year, t.month, t.day, start)) && ZoneOr(s, default) == Some(ZoneAt(offset, end))
    requires TimeIn(s, start, end) == Some(TimeOfDay(t.hour, t.minute, t.second, t.nano, resolution))
    ensures Rfc3339(s, default) == if InYears(Counted(t)) then Some(Stamp(Counted(t), offset, resolution)) else None
  {
  }

  /** Numbers written in a supported layout are read as what they are counted on to, if that is in a year from 0 to 9999;
    * the layouts that are not read are known. */
  lemma NumbersRead(l: Layout, c: Civil, default: Option<int>)
    requires Supported(l) && Digits(c)
    ensures Rfc3339(Rendered(l, c), default) ==
            if TooShort(l) || Mistaken(l.time) || (l.zone.NoZone? && default.None?) || !InYears(Counted(Said(l.time, c))) then None
            else Some(Stamp(Counted(Said(l.time, c)), Offset(l.zone, if default.Some? then default.value else 0), Resolution(l.time)))
  {
    if TooShort(l) {
      assert |Rendered(l, c)| == 11;
    } else {
      PartsRead(l, c, default);
      var s, start := Rendered(l, c), if l.extendedDate then 11 else 9;
      var end := start + |TimeText(l.time, c)|;
      TimeRead(s, start, end, l.time, c);
      if !Mistaken(l.time) && !(l.zone.NoZone? && default.None?) {
        FractionRead(l.time);
        Assembled(s, default, start, end, Offset(l.zone, if default.Some? then default.value else 0),
                  Said(l.time, c), Resolution(l.time));
      }
    }
  }

  lemma FractionRead(f: TimeForm)
    requires f.FractionForm? ==> AllDigits(f.digits)
    ensures f.FractionForm? ==> Fraction(f.digits).Some?
  {
  }

  /** A valid time written in a supported layout is read as exactly what the text says. */
  lemma RoundTrip(l: Layout, c: Civil, default: Option<int>)
    requires Supported(l) && c.Valid() && c.year <= 9999
    ensures Said(l.time, c).Valid()
    ensures Rfc3339(Rendered(l, c), default) ==
            if TooShort(l) || Mistaken(l.time) || (l.zone.NoZone? && default.None?) then None
            else Some(Stamp(Said(l.time, c).Instant(), Offset(l.zone, if default.Some? then default.value else 0), Resolution(l.time)))
  {
    SaidValid(l.time, c);
    Normal(Said(l.time, c));
    NumbersRead(l, c, default);
  }
}
