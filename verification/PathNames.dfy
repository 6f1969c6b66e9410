/** internal/store/pattern.go: which names are of a pattern, and what they say. */
module PathNames {
  import opened Common
  import opened Decimals
  import opened PathPatterns

  /** The number in the text is one from `low` to `high`, and `n` is it. */
  predicate Number(s: string, n: int, low: int, high: int) {
    |s| == 2 && Atoi(s) == Some(n) && low <= n <= high
  }

  /** The text is one that the fragment stands for in a name that says `tp`. */
  predicate Says(f: Fragment, s: string, tp: TimePattern) {
    match f
    case ConstFragment(text) => s == text
    case YearFragment(true) => Number(s, tp.year - 2000, 0, 99)
    case YearFragment(false) => |s| == 4 && Atoi(s) == Some(tp.year) && tp.year >= 0
    case MonthFragment => Number(s, tp.month, 1, 12)
    case DayFragment => Number(s, tp.day, 1, 31)
    case HourFragment => Number(s, tp.hour, 0, 23)
    case MinuteFragment => Number(s, tp.minute, 0, 59)
  }

  function Joined(pieces: seq<string>): string {
    if pieces == [] then "" else pieces[0] + Joined(pieces[1..])
  }

  /** The name is made of one text for each fragment, and these say the fields of `tp`. */
  ghost predicate Spells(fragments: seq<Fragment>, name: string, tp: TimePattern) {
    exists pieces: seq<string> :: Pieces(fragments, pieces, tp) && Joined(pieces) == name
  }

  predicate Pieces(fragments: seq<Fragment>, pieces: seq<string>, tp: TimePattern) {
    |pieces| == |fragments| && forall i :: 0 <= i < |fragments| ==> Says(fragments[i], pieces[i], tp)
  }

  /** What was known before is kept, and so is what the fragments say nothing of. */
  ghost predicate Keeps(before: TimePattern, fragments: seq<Fragment>, tp: TimePattern) {
    forall f: Field :: f !in Fields(fragments) || before.Has(f) ==> tp.Get(f) == before.Get(f)
  }

  lemma TwoCharacters(s: string)
    requires |s| == 2 && Atoi(s).Some?
    ensures Atoi(s).value <= 99
  {
    var signed := s[0] == '+' || s[0] == '-';
    var digits := if signed then s[1..] else s;
    assert AllDigits(digits);
    OneDigit(digits[..1]);
    if signed {
      assert digits[..1] == digits;
    } else {
      assert IsDigit(digits[1]);
    }
  }

  lemma OneDigit(s: string)
    requires |s| == 1 && AllDigits(s)
    ensures Value(s) <= 9
  {
    assert s[..0] == "" && IsDigit(s[0]);
  }

  lemma OneFilled(f: Fragment, s: string, before: TimePattern, tp: TimePattern)
    requires Says(f, s, tp) && (!f.ConstFragment? && before.Has(f.Slot()) ==> tp.Get(f.Slot()) == before.Get(f.Slot()))
    ensures |s| == f.Len()
    ensures Filled(f, s, before) == Some(if f.ConstFragment? then before else before.With(f.Slot(), tp.Get(f.Slot())))
  {
  }

  lemma FilledSays(f: Fragment, s: string, before: TimePattern, tp: TimePattern)
    requires |s| == f.Len() && Filled(f, s, before).Some?
    requires !f.ConstFragment? ==> tp.Get(f.Slot()) == Filled(f, s, before).value.Get(f.Slot())
    ensures Says(f, s, tp)
    ensures !f.ConstFragment? ==> var now := Filled(f, s, before).value;
              now == before.With(f.Slot(), tp.Get(f.Slot())) && now.Has(f.Slot())
              && (before.Has(f.Slot()) ==> before.Get(f.Slot()) == tp.Get(f.Slot()))
  {
    if f.YearFragment? && f.short && Atoi(s).Some? {
      TwoCharacters(s);
    }
  }

  /** Setting one field leaves the others. */
  lemma WithGet(tp: TimePattern, f: Field, n: int, g: Field)
    ensures tp.With(f, n).Get(g) == if f == g then n else tp.Get(g)
  {
  }

  lemma FieldsOfCons(f: Fragment, rest: seq<Fragment>, g: Field)
    ensures g in Fields([f] + rest) <==> (!f.ConstFragment? && f.Slot() == g) || g in Fields(rest)
  {
    FieldsSplit(f, rest);
    assert g in Fields([f]) <==> (!f.ConstFragment? && f.Slot() == g) by {
      assert f in [f];
    }
  }

  lemma KeepsCons(f: Fragment, rest: seq<Fragment>, before: TimePattern, now: TimePattern, tp: TimePattern)
    requires f.ConstFragment? ==> now == before
    requires !f.ConstFragment? ==>
               && now == before.With(f.Slot(), tp.Get(f.Slot())) && now.Has(f.Slot())
               && (before.Has(f.Slot()) ==> before.Get(f.Slot()) == tp.Get(f.Slot()))
    ensures Keeps(before, [f] + rest, tp) <==> Keeps(now, rest, tp)
  {
    forall g: Field
      ensures (g !in Fields([f] + rest) || before.Has(g) ==> tp.Get(g) == before.Get(g))
              <==> (g !in Fields(rest) || now.Has(g) ==> tp.Get(g) == now.Get(g))
    {
      FieldsOfCons(f, rest, g);
      if !f.ConstFragment? {
        WithGet(before, f.Slot(), tp.Get(f.Slot()), g);
      }
    }
  }

  lemma {:induction false} ParsedSpells(fragments: seq<Fragment>, name: string, before: TimePattern, tp: TimePattern)
    returns (pieces: seq<string>)
    requires Parsed(fragments, name, before) == Some(tp)
    ensures Pieces(fragments, pieces, tp) && Joined(pieces) == name && Keeps(before, fragments, tp)
  {
    if fragments == [] {
      pieces := [];
    } else {
      var f, rest := fragments[0], fragments[1..];
      var n := f.Len();
      var now := Filled(f, name[..n], before).value;
      var tail := ParsedSpells(rest, name[n..], now, tp);
      pieces := [name[..n]] + tail;
      assert fragments == [f] + rest && pieces[1..] == tail;
      FoundKept(f, name[..n], rest, before, now, tp);
      FilledSays(f, name[..n], before, tp);
      KeepsCons(f, rest, before, now, tp);
    }
  }

  /** What a fragment finds is found by the whole. */
  lemma FoundKept(f: Fragment, s: string, rest: seq<Fragment>, before: TimePattern, now: TimePattern, tp: TimePattern)
    requires Filled(f, s, before) == Some(now) && Keeps(now, rest, tp)
    ensures !f.ConstFragment? ==> tp.Get(f.Slot()) == now.Get(f.Slot())
  {
    if !f.ConstFragment? {
      assert now.Has(f.Slot());
    }
  }

  lemma {:induction false} SpelledParsed(fragments: seq<Fragment>, pieces: seq<string>, before: TimePattern, tp: TimePattern)
    requires Pieces(fragments, pieces, tp) && Keeps(before, fragments, tp)
    ensures Parsed(fragments, Joined(pieces), before) == Some(tp)
  {
    if fragments == [] {
      assert forall f: Field :: tp.Get(f) == before.Get(f);
      SameFields(before, tp);
    } else {
      var f, rest, first, tail := fragments[0], fragments[1..], pieces[0], pieces[1..];
      var name := Joined(pieces);
      assert fragments == [f] + rest && Says(f, first, tp);
      if !f.ConstFragment? {
        assert before.Has(f.Slot()) ==> tp.Get(f.Slot()) == before.Get(f.Slot());
      }
      OneFilled(f, first, before, tp);
      var now := Filled(f, first, before).value;
      KeepsCons(f, rest, before, now, tp);
      SpelledParsed(rest, tail, now, tp);
      assert name[..f.Len()] == first && name[f.Len()..] == Joined(tail);
    }
  }

  lemma SameFields(a: TimePattern, b: TimePattern)
    requires forall f: Field :: b.Get(f) == a.Get(f)
    ensures a == b
  {
    assert b.Get(Year) == a.Get(Year) && b.Get(Month) == a.Get(Month) && b.Get(Day) == a.Get(Day);
    assert b.Get(Hour) == a.Get(Hour) && b.Get(Minute) == a.Get(Minute);
  }

  /** A name is read, and as these fields, exactly when it is made of texts of the fragments that all say these fields. */
  lemma ParsedIff(fragments: seq<Fragment>, name: string, tp: TimePattern)
    ensures Parsed(fragments, name, EMPTY) == Some(tp) <==> Spells(fragments, name, tp) && Keeps(EMPTY, fragments, tp)
  {
    if Parsed(fragments, name, EMPTY) == Some(tp) {
      var pieces := ParsedSpells(fragments, name, EMPTY, tp);
    } else if Spells(fragments, name, tp) && Keeps(EMPTY, fragments, tp) {
      var pieces: seq<string> :| Pieces(fragments, pieces, tp) && Joined(pieces) == name;
      SpelledParsed(fragments, pieces, EMPTY, tp);
    }
  }
}
