/** internal/store/pattern.go: for which patterns no file of a period is overlooked. */
module PathMatching {
  import opened Calendar
  import opened PathPatterns

  /** No field is left out between a coarser and a finer one. */
  ghost predicate GapFree(fields: set<Field>) {
    forall x, y, z :: x in fields && z in fields && Rank(x) < Rank(y) < Rank(z) ==> y in fields
  }

  /** A period in one zone, with a time in it. */
  ghost predicate Within(since: Civil, t: Civil, until: Civil) {
    && since.Valid() && t.Valid() && until.Valid()
    && since.Instant() <= t.Instant() <= until.Instant() && t.year <= 9999
  }

  /** The latest time that the file of `t` may hold. */
  ghost function Latest(fields: set<Field>, t: Civil, until: Civil): (r: Civil)
    requires t.Rough() && until.Rough()
    ensures r.Rough()
  {
    Executed(Pattern(fields, t), until, MAX)
  }

  ghost function Earliest(fields: set<Field>, t: Civil, since: Civil): (r: Civil)
    requires t.Rough() && since.Rough()
    ensures r.Rough()
  {
    Executed(Pattern(fields, t), since, MIN)
  }

  lemma MonthOrder(y: nat, m: int, z: nat, n: int)
    requires 1 <= m <= 12 && 1 <= n <= 12 && (y < z || (y == z && m <= n))
    ensures MonthStart(y, m) <= MonthStart(z, n)
  {
    if y < z || m < n {
      LaterMonth(y, m, z, n);
    }
  }

  lemma LatestMonth(fields: set<Field>, t: Civil, until: Civil)
    requires GapFree(fields) && Within(t, t, until)
    ensures t.Month() <= Latest(fields, t, until).Month()
  {
    InOrderByField(t, until);
    var m := Latest(fields, t, until);
    if Month !in fields && (Day in fields || Hour in fields || Minute in fields) {
      assert Year !in fields by {
        assert Rank(Year) < Rank(Month);
      }
    } else {
      MonthOrder(t.year, t.month, m.year, m.month);
    }
  }

  lemma LatestDay(fields: set<Field>, t: Civil, until: Civil)
    requires GapFree(fields) && Within(t, t, until)
    ensures t.Day() <= Latest(fields, t, until).Day()
  {
    InOrderByField(t, until);
    LatestMonth(fields, t, until);
    if Day !in fields && (Hour in fields || Minute in fields) {
      assert Year !in fields && Month !in fields by {
        assert Rank(Year) < Rank(Day) && Rank(Month) < Rank(Day);
      }
    }
  }

  lemma LatestHour(fields: set<Field>, t: Civil, until: Civil)
    requires GapFree(fields) && Within(t, t, until)
    ensures t.Hour() <= Latest(fields, t, until).Hour()
  {
    InOrderByField(t, until);
    LatestDay(fields, t, until);
    if Hour !in fields && Minute in fields {
      assert Year !in fields && Month !in fields && Day !in fields by {
        assert Rank(Year) < Rank(Hour) && Rank(Month) < Rank(Hour) && Rank(Day) < Rank(Hour);
      }
    }
  }

  lemma EarliestMonth(fields: set<Field>, t: Civil, since: Civil)
    requires GapFree(fields) && Within(since, t, t)
    ensures Earliest(fields, t, since).Month() <= t.Month()
  {
    InOrderByField(since, t);
    var m := Earliest(fields, t, since);
    if Month !in fields && (Day in fields || Hour in fields || Minute in fields) {
      assert Year !in fields by {
        assert Rank(Year) < Rank(Month);
      }
    } else {
      MonthOrder(m.year, m.month, t.year, t.month);
    }
  }

  lemma EarliestDay(fields: set<Field>, t: Civil, since: Civil)
    requires GapFree(fields) && Within(since, t, t)
    ensures Earliest(fields, t, since).Day() <= t.Day()
  {
    InOrderByField(since, t);
    EarliestMonth(fields, t, since);
    if Day !in fields && (Hour in fields || Minute in fields) {
      assert Year !in fields && Month !in fields by {
        assert Rank(Year) < Rank(Day) && Rank(Month) < Rank(Day);
      }
    }
  }

  lemma EarliestHour(fields: set<Field>, t: Civil, since: Civil)
    requires GapFree(fields) && Within(since, t, t)
    ensures Earliest(fields, t, since).Hour() <= t.Hour()
  {
    InOrderByField(since, t);
    EarliestDay(fields, t, since);
    if Hour !in fields && Minute in fields {
      assert Year !in fields && Month !in fields && Day !in fields by {
        assert Rank(Year) < Rank(Hour) && Rank(Month) < Rank(Hour) && Rank(Day) < Rank(Hour);
      }
    }
  }

  /** The file of `t` may hold `t`, whatever the period around it. */
  lemma FileHolds(fields: set<Field>, since: Civil, t: Civil, until: Civil)
    requires GapFree(fields) && Within(since, t, until)
    ensures Overlaps(Pattern(fields, t), since, until)
  {
    LatestHour(fields, t, until);
    ClockOrder(t, Latest(fields, t, until));
    EarliestHour(fields, t, since);
    ClockOrder(Earliest(fields, t, since), t);
  }

  /** When the fields of a pattern leave no gap, the file named for a time in a period matches the period. */
  lemma MatchesBuilt(fragments: seq<Fragment>, since: Civil, t: Civil, until: Civil)
    requires GapFree(Fields(fragments)) && Within(since, t, until) && Printable(fragments, t)
    ensures Matches(fragments, Built(fragments, t), since, until)
  {
    ParsedBuilt(fragments, t, {});
    assert Pattern({}, t) == EMPTY && {} + Fields(fragments) == Fields(fragments);
    FileHolds(Fields(fragments), since, t, until);
  }

  /** The last second before the coarse field changes, and the first instant of the change. */
  ghost function BeforeChange(coarse: Field): Civil {
    if coarse == Year then Civil(2000, 12, 31, 23, 59, 59, 0)
    else if coarse == Month then Civil(2000, 1, 31, 23, 59, 59, 0)
    else Civil(2000, 1, 1, 23, 59, 59, 0)
  }

  ghost function AtChange(coarse: Field): Civil {
    if coarse == Year then Civil(2001, 1, 1, 0, 0, 0, 0)
    else if coarse == Month then Civil(2000, 2, 1, 0, 0, 0, 0)
    else Civil(2000, 1, 2, 0, 0, 0, 0)
  }

  ghost function AfterChange(coarse: Field): Civil {
    AtChange(coarse).(nano := 1)
  }

  lemma Changes(coarse: Field)
    requires Rank(coarse) < 3
    ensures Within(BeforeChange(coarse), AtChange(coarse), AfterChange(coarse))
    ensures AtChange(coarse).Instant() < AfterChange(coarse).Instant()
  {
    Starts();
  }

  /** The first days of some months. */
  lemma Starts()
    ensures MonthStart(2000, 1) == 730485 && MonthStart(2000, 2) == 730516 && MonthStart(2000, 12) == 730820
    ensures MonthStart(2001, 1) == 730851 && forall m :: 1 <= m <= 12 ==> MonthStart(2001, m) >= 730851
  {
  }

  /** The field below `coarse` is missing, and a still finer one is not. */
  ghost predicate GapBelow(fields: set<Field>, coarse: Field) {
    match coarse
    case Year => Year in fields && Month !in fields && (Day in fields || Hour in fields || Minute in fields)
    case Month => Month in fields && Day !in fields && (Hour in fields || Minute in fields)
    case Day => Day in fields && Hour !in fields && Minute in fields
    case _ => false
  }

  lemma GapAt(fields: set<Field>, x: Field, y: Field, z: Field) returns (coarse: Field)
    requires x in fields && z in fields && Rank(x) < Rank(y) < Rank(z) && y !in fields
    ensures Rank(coarse) < 3 && GapBelow(fields, coarse)
  {
    match y {
      case Month => coarse := Year;
      case Day => coarse := if Month in fields then Month else Year;
      case Hour => coarse := if Day in fields then Day else if Month in fields then Month else Year;
      case _ => assert false;
    }
  }

  lemma GapSomewhere(fields: set<Field>) returns (coarse: Field)
    requires !GapFree(fields)
    ensures Rank(coarse) < 3 && GapBelow(fields, coarse)
  {
    var x, y, z :| x in fields && z in fields && Rank(x) < Rank(y) < Rank(z) && y !in fields;
    coarse := GapAt(fields, x, y, z);
  }

  /** The file of the first instant after a change begins too late: above the gap it says what that instant says,
    * in the gap what the start of the period says. */
  lemma GapLoses(fields: set<Field>, coarse: Field)
    requires Rank(coarse) < 3 && GapBelow(fields, coarse)
    ensures !Overlaps(Pattern(fields, AtChange(coarse)), BeforeChange(coarse), AfterChange(coarse))
  {
    var t, until := AtChange(coarse), AfterChange(coarse);
    var m := Earliest(fields, t, BeforeChange(coarse));
    Starts();
    if coarse == Year {
      assert m.year == 2001 && m.month == 12;
      LaterMonth(2001, 1, 2001, 12);
    }
    assert until.Hour() < m.Hour();
    if m.Instant() <= until.Instant() {
      HoursInOrder(m, until);
    }
  }

  /** The name built for a time in a period matches the period. */
  ghost predicate NeverLost(fragments: seq<Fragment>) {
    forall since, t, until | Within(since, t, until) && Printable(fragments, t) ::
      Matches(fragments, Built(fragments, t), since, until)
  }

  /** The same of periods that end behind the time. */
  ghost predicate NeverMissed(fragments: seq<Fragment>) {
    forall since, t, until | Within(since, t, until) && t.Instant() < until.Instant() && Printable(fragments, t) ::
      Matches(fragments, Built(fragments, t), since, until)
  }

  /** The file of a time is found for every period around the time exactly when the fields leave no gap. It makes no
    * difference whether the end belongs to the period. */
  lemma NeverLostIff(fragments: seq<Fragment>)
    ensures NeverLost(fragments) <==> GapFree(Fields(fragments))
    ensures NeverMissed(fragments) <==> GapFree(Fields(fragments))
  {
    if GapFree(Fields(fragments)) {
      forall since, t, until | Within(since, t, until) && Printable(fragments, t)
        ensures Matches(fragments, Built(fragments, t), since, until)
      {
        MatchesBuilt(fragments, since, t, until);
      }
    } else {
      var since, t, until := GapMisses(fragments);
    }
  }

  /** With a gap some file is missed. */
  lemma GapMisses(fragments: seq<Fragment>) returns (since: Civil, t: Civil, until: Civil)
    requires !GapFree(Fields(fragments))
    ensures Within(since, t, until) && t.Instant() < until.Instant() && Printable(fragments, t)
    ensures !Matches(fragments, Built(fragments, t), since, until)
  {
    var coarse := GapSomewhere(Fields(fragments));
    since, t, until := BeforeChange(coarse), AtChange(coarse), AfterChange(coarse);
    Changes(coarse);
    ParsedBuilt(fragments, t, {});
    assert Pattern({}, t) == EMPTY && {} + Fields(fragments) == Fields(fragments);
    GapLoses(Fields(fragments), coarse);
  }
}
