/** internal/store/pattern.go: which periods a file's name matches. */
module PathPeriods {
  import opened Common
  import opened Calendar
  import opened PathPatterns
  import opened PathMatching

  /** ---- Names and fields ---- */

  ghost predicate Agree(fields: set<Field>, c: Civil, t: Civil) {
    forall f :: f in fields ==> FieldOf(c, f) == FieldOf(t, f)
  }

  lemma {:induction false} AgreeBuilt(fragments: seq<Fragment>, c: Civil, t: Civil)
    requires c.Rough() && t.Rough() && Agree(Fields(fragments), c, t)
    ensures Built(fragments, c) == Built(fragments, t)
  {
    if fragments != [] {
      var f, rest := fragments[0], fragments[1..];
      assert f in fragments && (!f.ConstFragment? ==> f.Slot() in Fields(fragments));
      assert forall x :: x in Fields(rest) ==> x in Fields(fragments);
      AgreeBuilt(rest, c, t);
    }
  }

  /** Times that the pattern can print have the same name if and only if they have the same fields. */
  lemma SameNameIff(fragments: seq<Fragment>, c: Civil, t: Civil)
    requires c.Rough() && t.Rough() && Printable(fragments, c) && Printable(fragments, t)
    ensures Built(fragments, c) == Built(fragments, t) <==> Agree(Fields(fragments), c, t)
  {
    var fields := Fields(fragments);
    NameRead(fragments, c);
    NameRead(fragments, t);
    if Agree(fields, c, t) {
      AgreeBuilt(fragments, c, t);
    }
    forall f | f in fields && Pattern(fields, c) == Pattern(fields, t)
      ensures FieldOf(c, f) == FieldOf(t, f)
    {
      assert Pattern(fields, c).Get(f) == FieldOf(c, f) && Pattern(fields, t).Get(f) == FieldOf(t, f);
    }
  }

  lemma NameRead(fragments: seq<Fragment>, t: Civil)
    requires t.Rough() && Printable(fragments, t)
    ensures Parsed(fragments, Built(fragments, t), EMPTY) == Some(Pattern(Fields(fragments), t))
  {
    ParsedBuilt(fragments, t, {});
    assert Pattern({}, t) == EMPTY && {} + Fields(fragments) == Fields(fragments);
  }

  /** ---- Files of a period ---- */

  /** A year and the fields below it down to some field: what a pattern without gaps that has the year shows of a time. */
  ghost predicate FromYear(fields: set<Field>) {
    GapFree(fields) && Year in fields
  }

  lemma Coarser(fields: set<Field>)
    requires FromYear(fields)
    ensures Minute in fields ==> Hour in fields
    ensures Hour in fields ==> Day in fields
    ensures Day in fields ==> Month in fields
  {
    assert Rank(Year) < Rank(Month) < Rank(Day) < Rank(Hour) < Rank(Minute);
  }

  /** The period begins in one of the days behind the month that a month of 31 days would still have. */
  ghost predicate Spills(fields: set<Field>, t: Civil, since: Civil)
    requires t.Valid() && since.Valid()
  {
    && Month in fields && Day !in fields
    && t.Month() + DaysIn(t.year, t.month) <= since.Day() < t.Month() + 31
  }

  lemma SameMonth(t: Civil, s: Civil)
    requires t.Valid() && s.Valid() && t.Month() <= s.Day() < t.Month() + DaysIn(t.year, t.month)
    ensures s.year == t.year && s.month == t.month
  {
    if s.year < t.year || (s.year == t.year && s.month < t.month) {
      LaterMonth(s.year, s.month, t.year, t.month);
    } else if t.year < s.year || t.month < s.month {
      LaterMonth(t.year, t.month, s.year, s.month);
    }
  }

  lemma SameYear(y: nat, s: Civil)
    requires s.Valid() && MonthStart(y, 1) <= s.Day() <= MonthStart(y, 12) + 30
    ensures s.year == y
  {
    if s.year < y {
      LaterMonth(s.year, s.month, y, 1);
    } else if y < s.year {
      LaterMonth(y, 12, s.year, s.month);
    }
  }

  lemma SameMinute(hours: int, m: int, s: Civil)
    requires s.Rough() && s.Hour() == hours
    requires Clock(hours, m, 0, 0) <= s.Instant() <= Clock(hours, m, 59, SECOND - 1)
    ensures s.minute == m
  {
    InstantByHour(s);
  }

  /** The days of the file of `t`. */
  lemma FileDays(fields: set<Field>, t: Civil, since: Civil, until: Civil)
    requires FromYear(fields) && t.Valid() && since.Valid() && until.Valid()
    requires Earliest(fields, t, since).Instant() <= since.Instant() <= Latest(fields, t, until).Instant()
    requires !Spills(fields, t, since)
    ensures since.year == t.year && (Month in fields ==> since.month == t.month)
    ensures Day in fields ==> since.day == t.day
  {
    Coarser(fields);
    var e, l := Earliest(fields, t, since), Latest(fields, t, until);
    HoursInOrder(e, since);
    HoursInOrder(since, l);
    if Month in fields {
      SameMonth(t, since);
    } else {
      SameYear(t.year, since);
    }
  }

  lemma FileHour(fields: set<Field>, t: Civil, since: Civil, until: Civil)
    requires FromYear(fields) && Hour in fields && t.Valid() && since.Valid() && until.Valid()
    requires Earliest(fields, t, since).Instant() <= since.Instant() <= Latest(fields, t, until).Instant()
    ensures since.Hour() == t.Hour() && (Minute in fields ==> since.minute == t.minute)
  {
    Coarser(fields);
    var e, l := Earliest(fields, t, since), Latest(fields, t, until);
    HoursInOrder(e, since);
    HoursInOrder(since, l);
    assert e.Hour() == t.Hour() && l.Hour() == t.Hour();
    if Minute in fields {
      InstantByHour(e);
      InstantByHour(l);
      SameMinute(t.Hour(), t.minute, since);
    }
  }

  lemma SameHour(d: int, h: int, d': int, h': int)
    requires 0 <= h <= 23 && 0 <= h' <= 23 && d * 24 + h == d' * 24 + h'
    ensures h == h'
  {
  }

  /** A start of a period that lies between the earliest and the latest time of the file of `t` has the fields of `t`. */
  lemma FileFields(fields: set<Field>, t: Civil, since: Civil, until: Civil)
    requires FromYear(fields) && t.Valid() && since.Valid() && until.Valid()
    requires Earliest(fields, t, since).Instant() <= since.Instant() <= Latest(fields, t, until).Instant()
    requires !Spills(fields, t, since)
    ensures Agree(fields, since, t)
  {
    Coarser(fields);
    FileDays(fields, t, since, until);
    if Hour in fields {
      FileHour(fields, t, since, until);
      SameHour(since.Day(), since.hour, t.Day(), t.hour);
    }
  }

  /** The earliest time of the file of `t` is one of its own. */
  lemma EarliestAgrees(fields: set<Field>, t: Civil, since: Civil)
    requires FromYear(fields) && t.Valid() && since.Valid()
    ensures Earliest(fields, t, since).Valid() && Agree(fields, Earliest(fields, t, since), t)
  {
    Coarser(fields);
  }

  /** Some time in the period has the name of `t`. */
  ghost predicate Named(fragments: seq<Fragment>, t: Civil, since: Civil, until: Civil)
    requires t.Rough() && since.Rough() && until.Rough()
  {
    exists c: Civil :: IsNamesake(fragments, c, t) && since.Instant() <= c.Instant() <= until.Instant()
  }

  ghost predicate IsNamesake(fragments: seq<Fragment>, c: Civil, t: Civil)
    requires t.Rough()
  {
    c.Valid() && Printable(fragments, c) && Built(fragments, c) == Built(fragments, t)
  }

  lemma Namesake(fragments: seq<Fragment>, c: Civil, t: Civil)
    requires c.Valid() && t.Rough() && Printable(fragments, t) && Year in Fields(fragments) && Agree(Fields(fragments), c, t)
    ensures IsNamesake(fragments, c, t)
  {
    assert FieldOf(c, Year) == FieldOf(t, Year);
    SameNameIff(fragments, c, t);
  }

  lemma NamesakeYear(fragments: seq<Fragment>, c: Civil, t: Civil)
    requires t.Rough() && Printable(fragments, t) && Year in Fields(fragments) && IsNamesake(fragments, c, t)
    ensures Agree(Fields(fragments), c, t) && c.year <= 9999
  {
    SameNameIff(fragments, c, t);
    var f :| f in fragments && !f.ConstFragment? && f.Slot() == Year;
    assert f.YearFragment?;
  }

  /** A file named for a time in the period matches it. */
  lemma NamedMatches(fragments: seq<Fragment>, t: Civil, since: Civil, until: Civil)
    requires FromYear(Fields(fragments)) && t.Valid() && Printable(fragments, t) && since.Valid() && until.Valid()
    requires Named(fragments, t, since, until)
    ensures Matches(fragments, Built(fragments, t), since, until) && !Spills(Fields(fragments), t, since)
  {
    var c :| IsNamesake(fragments, c, t) && since.Instant() <= c.Instant() <= until.Instant();
    NamesakeYear(fragments, c, t);
    MatchesBuilt(fragments, since, c, until);
    HoursInOrder(since, c);
    if Month in Fields(fragments) {
      assert FieldOf(c, Year) == FieldOf(t, Year) && FieldOf(c, Month) == FieldOf(t, Month);
    }
  }

  /** A file matches a period that holds no time it is named for if and only if its pattern shows the month and not
    * the day, the month is one of less than 31 days, and the period begins in the days that it lacks. */
  lemma MatchedInVainIff(fragments: seq<Fragment>, t: Civil, since: Civil, until: Civil)
    requires FromYear(Fields(fragments)) && t.Valid() && Printable(fragments, t)
    requires since.Valid() && until.Valid() && since.Instant() <= until.Instant()
    ensures Matches(fragments, Built(fragments, t), since, until) && !Named(fragments, t, since, until)
            <==> Spills(Fields(fragments), t, since)
  {
    var fields := Fields(fragments);
    NameRead(fragments, t);
    var e, l := Earliest(fields, t, since), Latest(fields, t, until);
    EarliestAgrees(fields, t, since);
    if Spills(fields, t, since) {
      SpillMatches(fields, t, since, until);
      if Named(fragments, t, since, until) {
        NamedMatches(fragments, t, since, until);
      }
    } else if Matches(fragments, Built(fragments, t), since, until) {
      if since.Instant() <= e.Instant() {
        Namesake(fragments, e, t);
      } else {
        FileFields(fields, t, since, until);
        Namesake(fragments, since, t);
      }
    }
  }

  lemma SpillMatches(fields: set<Field>, t: Civil, since: Civil, until: Civil)
    requires FromYear(fields) && t.Valid() && since.Valid() && until.Valid() && since.Instant() <= until.Instant()
    requires Spills(fields, t, since)
    ensures Overlaps(Pattern(fields, t), since, until)
  {
    Coarser(fields);
    var e, l := Earliest(fields, t, since), Latest(fields, t, until);
    InstantByHour(e);
    InstantByHour(l);
    InstantByHour(since);
    ClockMonotone(since.Hour(), since.minute, since.second, since.nano, l.Hour(), 59, 59, SECOND - 1);
    ClockMonotone(e.Hour(), 0, 0, 0, since.Hour(), since.minute, since.second, since.nano);
  }

  /** A file matches a period exactly when some time in the period has its name, unless the pattern shows the month
    * and not the day and the month is short. */
  lemma MatchesIffNamed(fragments: seq<Fragment>, t: Civil, since: Civil, until: Civil)
    requires FromYear(Fields(fragments)) && t.Valid() && Printable(fragments, t)
    requires since.Valid() && until.Valid() && since.Instant() <= until.Instant()
    requires Day in Fields(fragments) || Month !in Fields(fragments) || DaysIn(t.year, t.month) == 31
    ensures Matches(fragments, Built(fragments, t), since, until) <==> Named(fragments, t, since, until)
  {
    MatchedInVainIff(fragments, t, since, until);
    if Named(fragments, t, since, until) {
      NamedMatches(fragments, t, since, until);
    }
  }

  /** The file of February 2022 matches the first two days of March. */
  lemma ShortMonthMatched(fragments: seq<Fragment>)
    requires Fields(fragments) == {Year, Month}
    ensures var t, since, until := Civil(2022, 2, 1, 0, 0, 0, 0), Civil(2022, 3, 1, 0, 0, 0, 0), Civil(2022, 3, 2, 0, 0, 0, 0);
            Matches(fragments, Built(fragments, t), since, until) && !Named(fragments, t, since, until)
  {
    var t, since, until := Civil(2022, 2, 1, 0, 0, 0, 0), Civil(2022, 3, 1, 0, 0, 0, 0), Civil(2022, 3, 2, 0, 0, 0, 0);
    assert since.Month() == t.Month() + 28;
    assert GapFree(Fields(fragments));
    InstantByHour(since);
    InstantByHour(until);
    MatchedInVainIff(fragments, t, since, until);
  }
}
