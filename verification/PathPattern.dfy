/** internal/store/pattern.go: log file names with the time in them. */
module PathPatterns {
  import opened Common
  import opened Calendar
  import opened Decimals

  datatype Field = Year | Month | Day | Hour | Minute

  /** Coarser fields come first. */
  function Rank(f: Field): nat {
    match f
    case Year => 0
    case Month => 1
    case Day => 2
    case Hour => 3
    case Minute => 4
  }

  datatype Fragment =
    | ConstFragment(text: string)
    | YearFragment(short: bool)
    | MonthFragment
    | DayFragment
    | HourFragment
    | MinuteFragment
  {
    function Build(t: Civil): string
      requires t.Rough()
    {
      match this
      case ConstFragment(text) => text
      case YearFragment(short) => if short then Two(t.year % 100) else Itoa(t.year)
      case MonthFragment => Two(t.month)
      case DayFragment => Two(t.day)
      case HourFragment => Two(t.hour)
      case MinuteFragment => Two(t.minute)
    }

    function Len(): nat {
      match this
      case ConstFragment(text) => |text|
      case YearFragment(short) => if short then 2 else 4
      case _ => 2
    }

    function Slot(): Field
      requires !ConstFragment?
    {
      match this
      case YearFragment(_) => Year
      case MonthFragment => Month
      case DayFragment => Day
      case HourFragment => Hour
      case MinuteFragment => Minute
    }

    /** The number that the fragment reads in a text, if it is one that the field may take. */
    function Reads(s: string): Option<int>
      requires !ConstFragment?
    {
      var n := Atoi(s);
      if n.None? then None
      else
        match this
        case YearFragment(short) => if n.value < 0 then None else Some(if short then n.value + 2000 else n.value)
        case MonthFragment => if 1 <= n.value <= 12 then n else None
        case DayFragment => if 1 <= n.value <= 31 then n else None
        case HourFragment => if 0 <= n.value <= 23 then n else None
        case MinuteFragment => if 0 <= n.value <= 59 then n else None
    }
  }

  /** The fields found in a name; those not found are -1. */
  datatype TimePattern = TimePattern(year: int, month: int, day: int, hour: int, minute: int) {
    function Get(f: Field): int {
      match f
      case Year => year
      case Month => month
      case Day => day
      case Hour => hour
      case Minute => minute
    }

    function With(f: Field, n: int): TimePattern {
      match f
      case Year => this.(year := n)
      case Month => this.(month := n)
      case Day => this.(day := n)
      case Hour => this.(hour := n)
      case Minute => this.(minute := n)
    }

    predicate Has(f: Field) {
      Get(f) >= if f == Month || f == Day then 1 else 0
    }

    /** The fields that were found are ones that a time may have. */
    predicate InRange() {
      month <= 12 && day <= 31 && hour <= 23 && minute <= 59
    }
  }

  const EMPTY := TimePattern(-1, -1, -1, -1, -1)
  const MIN := Civil(0, 1, 1, 0, 0, 0, 0)
  const MAX := Civil(9999, 12, 31, 23, 59, 59, SECOND - 1)

  /** What a fragment makes of a text: nothing if the text is none of its own, or contradicts what was found before. */
  function Filled(f: Fragment, s: string, tp: TimePattern): (r: Option<TimePattern>)
    ensures tp.InRange() && r.Some? ==> r.value.InRange()
  {
    if f.ConstFragment? then (if s == f.text then Some(tp) else None)
    else
      var n := f.Reads(s);
      if n.None? || (tp.Has(f.Slot()) && tp.Get(f.Slot()) != n.value) then None
      else Some(tp.With(f.Slot(), n.value))
  }

  method FillTimePattern(f: Fragment, s: string, tp: TimePattern) returns (ok: bool, tp': TimePattern)
    ensures Filled(f, s, tp) == if ok then Some(tp') else None
  {
    tp' := tp;
    if f.ConstFragment? {
      return s == f.text, tp';
    }
    var n := Atoi(s);
    if n.None? {
      return false, tp';
    }
    match f {
      case YearFragment(short) =>
        if n.value < 0 {
          return false, tp';
        }
        var year := if short then n.value + 2000 else n.value;
        if tp'.year >= 0 && tp'.year != year {
          return false, tp';
        }
        tp' := tp'.(year := year);
      case MonthFragment =>
        if n.value < 1 || 12 < n.value || (tp'.month >= 1 && tp'.month != n.value) {
          return false, tp';
        }
        tp' := tp'.(month := n.value);
      case DayFragment =>
        if n.value < 1 || 31 < n.value || (tp'.day >= 1 && tp'.day != n.value) {
          return false, tp';
        }
        tp' := tp'.(day := n.value);
      case HourFragment =>
        if n.value < 0 || 23 < n.value || (tp'.hour >= 0 && tp'.hour != n.value) {
          return false, tp';
        }
        tp' := tp'.(hour := n.value);
      case MinuteFragment =>
        if n.value < 0 || 59 < n.value || (tp'.minute >= 0 && tp'.minute != n.value) {
          return false, tp';
        }
        tp' := tp'.(minute := n.value);
      case ConstFragment(_) =>
    }
    ok := true;
  }

  /** ---- Building a name and reading it back ---- */

  function Built(fragments: seq<Fragment>, t: Civil): string
    requires t.Rough()
  {
    if fragments == [] then "" else fragments[0].Build(t) + Built(fragments[1..], t)
  }

  function Parsed(fragments: seq<Fragment>, filename: string, tp: TimePattern): (r: Option<TimePattern>)
    ensures tp.InRange() && r.Some? ==> r.value.InRange()
  {
    if fragments == [] then (if filename == "" then Some(tp) else None)
    else
      var n := fragments[0].Len();
      if n > |filename| then None
      else
        var filled := Filled(fragments[0], filename[..n], tp);
        if filled.None? then None else Parsed(fragments[1..], filename[n..], filled.value)
  }

  method Build(fragments: seq<Fragment>, t: Civil) returns (s: string)
    requires t.Rough()
    ensures s == Built(fragments, t)
  {
    s := "";
    for i := 0 to |fragments|
      invariant s + Built(fragments[i..], t) == Built(fragments, t)
    {
      assert fragments[i..][1..] == fragments[i + 1..];
      s := s + fragments[i].Build(t);
    }
  }

  method ParseTimePattern(fragments: seq<Fragment>, filename: string) returns (tp: TimePattern, ok: bool)
    ensures Parsed(fragments, filename, EMPTY) == if ok then Some(tp) else None
  {
    tp := EMPTY;
    var l := 0;
    for i := 0 to |fragments|
      invariant 0 <= l <= |filename|
      invariant Parsed(fragments[i..], filename[l..], tp) == Parsed(fragments, filename, EMPTY)
    {
      assert fragments[i..][1..] == fragments[i + 1..];
      var r := l + fragments[i].Len();
      if r > |filename| {
        return tp, false;
      }
      assert filename[l..][..r - l] == filename[l..r] && filename[l..][r - l..] == filename[r..];
      var filled;
      filled, tp := FillTimePattern(fragments[i], filename[l..r], tp);
      if !filled {
        return tp, false;
      }
      l := r;
    }
    ok := |filename| == l;
  }

  ghost function Fields(fragments: seq<Fragment>): set<Field> {
    set f | f in fragments && !f.ConstFragment? :: f.Slot()
  }

  function FieldOf(t: Civil, f: Field): int {
    match f
    case Year => t.year
    case Month => t.month
    case Day => t.day
    case Hour => t.hour
    case Minute => t.minute
  }

  /** The pattern that holds some fields of a time. */
  ghost function Pattern(fields: set<Field>, t: Civil): TimePattern {
    TimePattern(if Year in fields then t.year else -1,
                if Month in fields then t.month else -1,
                if Day in fields then t.day else -1,
                if Hour in fields then t.hour else -1,
                if Minute in fields then t.minute else -1)
  }

  /** The year is one that the year fragments can print. */
  predicate Printable(fragments: seq<Fragment>, t: Civil) {
    forall f :: f in fragments && f.YearFragment? ==> if f.short then 2000 <= t.year <= 2099 else 1000 <= t.year <= 9999
  }

  lemma ReadsBuilt(f: Fragment, t: Civil)
    requires t.Rough() && !f.ConstFragment? && Printable([f], t)
    ensures |f.Build(t)| == f.Len() && f.Reads(f.Build(t)) == Some(FieldOf(t, f.Slot()))
  {
    if f == YearFragment(false) {
      assert f in [f];
      AtoiItoa(t.year);
      ItoaFour(t.year);
    } else if f.YearFragment? {
      assert f in [f];
      AtoiTwo(t.year % 100);
    } else {
      AtoiTwo(FieldOf(t, f.Slot()));
    }
  }

  /** Filling in a field that was built from `t` keeps the pattern one of `t`. */
  lemma FilledBuilt(f: Fragment, t: Civil, known: set<Field>)
    requires t.Rough() && Printable([f], t)
    ensures |f.Build(t)| == f.Len()
    ensures Filled(f, f.Build(t), Pattern(known, t)) == Some(Pattern(known + Fields([f]), t))
  {
    if f.ConstFragment? {
      assert Fields([f]) == {};
      assert known + {} == known;
    } else {
      ReadsBuilt(f, t);
      assert Fields([f]) == {f.Slot()} by {
        assert f in [f];
      }
      WithField(f.Slot(), t, known);
    }
  }

  lemma WithField(f: Field, t: Civil, known: set<Field>)
    requires t.Rough()
    ensures var tp := Pattern(known, t);
            (tp.Has(f) ==> tp.Get(f) == FieldOf(t, f)) && tp.With(f, FieldOf(t, f)) == Pattern(known + {f}, t)
  {
  }

  /** Reading a name that was built finds the fields of the time, each occurrence agreeing. */
  lemma {:induction false} ParsedBuilt(fragments: seq<Fragment>, t: Civil, known: set<Field>)
    requires t.Rough() && Printable(fragments, t)
    ensures Parsed(fragments, Built(fragments, t), Pattern(known, t)) == Some(Pattern(known + Fields(fragments), t))
  {
    if fragments == [] {
      assert known + Fields(fragments) == known;
    } else {
      var f, rest := fragments[0], fragments[1..];
      FilledBuilt(f, t, known);
      ParsedBuilt(rest, t, known + Fields([f]));
      FieldsSplit(f, rest);
      assert known + Fields([f]) + Fields(rest) == known + Fields(fragments);
      var name := Built(fragments, t);
      assert name[..f.Len()] == f.Build(t) && name[f.Len()..] == Built(rest, t);
    }
  }

  lemma FieldsSplit(f: Fragment, rest: seq<Fragment>)
    ensures Fields([f] + rest) == Fields([f]) + Fields(rest)
  {
    forall x
      ensures x in Fields([f] + rest) <==> x in Fields([f]) + Fields(rest)
    {
      assert forall g :: g in [f] + rest <==> g in [f] || g in rest;
    }
  }

  /** ---- Whether a file can hold a period ---- */

  /** Fields not found are those of `t` above the finest one found and those of `base` below it. */
  function Executed(p: TimePattern, t: Civil, base: Civil): Civil {
    Civil(if p.Has(Year) then p.year
          else if p.Has(Month) || p.Has(Day) || p.Has(Hour) || p.Has(Minute) then t.year else base.year,
          if p.Has(Month) then p.month else if p.Has(Day) || p.Has(Hour) || p.Has(Minute) then t.month else base.month,
          if p.Has(Day) then p.day else if p.Has(Hour) || p.Has(Minute) then t.day else base.day,
          if p.Has(Hour) then p.hour else if p.Has(Minute) then t.hour else base.hour,
          if p.Has(Minute) then p.minute else base.minute,
          base.second, base.nano)
  }

  method Exec(p: TimePattern, t: Civil, base: Civil) returns (r: Civil)
    ensures r == Executed(p, t, base)
  {
    var useCopy := false;
    r := base;
    if p.minute >= 0 {
      r := r.(minute := p.minute);
      useCopy := true;
    }
    if p.hour >= 0 {
      r := r.(hour := p.hour);
      useCopy := true;
    } else if useCopy {
      r := r.(hour := t.hour);
    }
    if p.day >= 1 {
      r := r.(day := p.day);
      useCopy := true;
    } else if useCopy {
      r := r.(day := t.day);
    }
    if p.month >= 1 {
      r := r.(month := p.month);
      useCopy := true;
    } else if useCopy {
      r := r.(month := t.month);
    }
    if p.year >= 0 {
      r := r.(year := p.year);
    } else if useCopy {
      r := r.(year := t.year);
    }
  }

  /** The file with this pattern in its name may hold times of the period. */
  predicate Overlaps(p: TimePattern, since: Civil, until: Civil)
    requires p.InRange() && since.Rough() && until.Rough()
  {
    && since.Instant() <= Executed(p, until, MAX).Instant()
    && Executed(p, since, MIN).Instant() <= until.Instant()
  }

  predicate Matches(fragments: seq<Fragment>, filename: string, since: Civil, until: Civil)
    requires since.Rough() && until.Rough()
  {
    if fragments == [] then filename == ""
    else
      var tp := Parsed(fragments, filename, EMPTY);
      tp.Some? && Overlaps(tp.value, since, until)
  }

  method Match(fragments: seq<Fragment>, filename: string, since: Civil, until: Civil) returns (b: bool)
    requires since.Rough() && until.Rough()
    ensures b == Matches(fragments, filename, since, until)
  {
    if |fragments| == 0 {
      return filename == "";
    }
    var tp, ok := ParseTimePattern(fragments, filename);
    if !ok {
      return false;
    }
    var max := Exec(tp, until, MAX);
    var min := Exec(tp, since, MIN);
    return !(since.Instant() > max.Instant()) && !(min.Instant() > until.Instant());
  }
}
