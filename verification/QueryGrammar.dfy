/** The query language as a grammar, and its agreement with the stack machine of `ParseQuery`. */
module QueryGrammar {
  import opened Common
  import opened Matchers
  import opened Query
  import opened QueryMachine

  /** OR is loosest, juxtaposition tighter, NOT and parentheses tightest. */
  datatype Expr = Expr(terms: seq<Term>)
  datatype Term = Term(factors: seq<Factor>)
  datatype Factor = Factor(nots: nat, atom: Atom)
  datatype Atom = Word(leaf: Matchers.Leaf, negated: bool) | Paren(expr: Expr)

  /** ---- What an expression accepts ---- */

  ghost predicate Accepts(e: Expr, r: Record)
    decreases e, 0
  {
    AnyTerm(e.terms, r)
  }

  ghost predicate AnyTerm(ts: seq<Term>, r: Record)
    decreases ts, 0
  {
    ts != [] && (AnyTerm(ts[..|ts| - 1], r) || AllFactors(ts[|ts| - 1].factors, r))
  }

  ghost predicate AllFactors(fs: seq<Factor>, r: Record)
    decreases fs, 0
  {
    fs == [] || (AllFactors(fs[..|fs| - 1], r) && AcceptsFactor(fs[|fs| - 1], r))
  }

  ghost predicate AcceptsFactor(f: Factor, r: Record)
    decreases f, 0
  {
    AcceptsAtom(f.atom, r) == (f.nots % 2 == 0)
  }

  ghost predicate AcceptsAtom(a: Atom, r: Record)
    decreases a, 0
  {
    match a
    case Word(l, negated) => LeafMatch(l, r) != negated
    case Paren(e) => Accepts(e, r)
  }

  /** ---- How an expression is written ---- */

  function NotTokens(n: nat): seq<Token> {
    if n == 0 then [] else [NotToken] + NotTokens(n - 1)
  }

  function PrintAtom(a: Atom): seq<Token>
    decreases a, 0
  {
    match a
    case Word(l, negated) => [Keyword(l, negated)]
    case Paren(e) => [LParen] + Print(e) + [RParen]
  }

  function PrintFactor(f: Factor): seq<Token>
    decreases f, 0
  {
    NotTokens(f.nots) + PrintAtom(f.atom)
  }

  function PrintFactors(fs: seq<Factor>): seq<Token>
    decreases fs, 0
  {
    if fs == [] then [] else PrintFactors(fs[..|fs| - 1]) + PrintFactor(fs[|fs| - 1])
  }

  function PrintTerms(ts: seq<Term>): seq<Token>
    decreases ts, 0
  {
    if ts == [] then []
    else if |ts| == 1 then PrintFactors(ts[0].factors)
    else PrintTerms(ts[..|ts| - 1]) + ([OrToken] + PrintFactors(ts[|ts| - 1].factors))
  }

  function Print(e: Expr): seq<Token>
    decreases e, 0
  {
    PrintTerms(e.terms)
  }

  predicate Odd(f: Factor) {
    f.nots % 2 != 0
  }

  /** ---- What the machine makes of an expression ---- */

  /** The query that is built for every expression. It differs from the grammar in the NOT mode `m`, which is cleared
    * when a query is pushed, except behind the first factor of a later term, where it stays on: it negates the
    * factors that follow, and it is still on inside a parenthesis opened there. Empty terms but the first
    * are passed over, and an expression without terms restricts nothing. */
  ghost predicate Means(e: Expr, m: bool, r: Record)
    decreases e, 0
  {
    MeansTerms(e.terms, m, r)
  }

  ghost predicate MeansTerms(ts: seq<Term>, m: bool, r: Record)
    decreases ts, 0
  {
    ts == [] ||
    var init, fs := ts[..|ts| - 1], ts[|ts| - 1].factors;
    if init == [] then MeansFirst(fs, m, r)
    else MeansTerms(init, m, r) || (fs != [] && MeansLater(fs, r))
  }

  /** The first term: the mode that is on at its beginning turns its first factor. */
  ghost predicate MeansFirst(fs: seq<Factor>, m: bool, r: Record)
    decreases fs, 0
  {
    fs == [] ||
    var init, f := fs[..|fs| - 1], fs[|fs| - 1];
    MeansFirst(init, m, r) && MeansFactor(f, (init == [] && m) != Odd(f), false, r)
  }

  /** A later term. */
  ghost predicate MeansLater(fs: seq<Factor>, r: Record)
    decreases fs, 0
  {
    fs == [] ||
    var init, f := fs[..|fs| - 1], fs[|fs| - 1];
    var m := ModeAfter(init) != Odd(f);
    MeansLater(init, r) && MeansFactor(f, m, init != [] && m, r)
  }

  /** The NOT mode behind the factors of a later term. */
  predicate ModeAfter(fs: seq<Factor>)
  {
    |fs| > 1 &&
    var f := fs[|fs| - 1];
    f.atom.Word? && ModeAfter(fs[..|fs| - 1]) != Odd(f)
  }

  /** A factor that is turned or not; `m` is the mode inside it. */
  ghost predicate MeansFactor(f: Factor, turned: bool, m: bool, r: Record)
    decreases f, 0
  {
    MeansAtom(f.atom, m, r) != turned
  }

  ghost predicate MeansAtom(a: Atom, m: bool, r: Record)
    decreases a, 0
  {
    match a
    case Word(l, negated) => LeafMatch(l, r) != negated
    case Paren(e) => Means(e, m, r)
  }

  /** ---- The expressions the machine reads as the grammar does ---- */

  /** A later factor of a later term may be negated only if it is the last one and a word: the machine
    * does not clear its NOT mode there, and the next factor would be negated too. */
  predicate WellFormed(e: Expr)
    decreases e, 0
  {
    e.terms != [] && WellFormedTerms(e.terms)
  }

  predicate WellFormedTerms(ts: seq<Term>)
    decreases ts, 0
  {
    ts == [] ||
    var t := ts[|ts| - 1];
    && WellFormedTerms(ts[..|ts| - 1])
    && WellFormedFactors(t.factors)
    && (|ts| > 1 ==> t.factors != [] && NothingLeaks(t.factors))
  }

  predicate WellFormedFactors(fs: seq<Factor>)
    decreases fs, 0
  {
    fs == [] || (WellFormedFactors(fs[..|fs| - 1]) && WellFormedFactor(fs[|fs| - 1]))
  }

  predicate WellFormedFactor(f: Factor)
    decreases f, 0
  {
    f.atom.Paren? ==> WellFormed(f.atom.expr)
  }

  predicate NothingLeaks(fs: seq<Factor>) {
    forall j :: 0 < j < |fs| && Odd(fs[j]) ==> j == |fs| - 1 && fs[j].atom.Word?
  }

  /** ---- The machine on written expressions ---- */

  lemma {:induction false} RunNots(n: nat, s: State)
    requires s.frames != []
    ensures Run(NotTokens(n), s) == s.(notMode := s.notMode != (n % 2 != 0))
  {
    if n > 0 {
      RunNots(n - 1, Step(s, NotToken));
    }
  }

  /** The last disjunct of a level is there, unless a parenthesis is still open in it. */
  predicate Whole(f: Frame) {
    f.Ored? ==> f.last.Some?
  }

  /** One factor attaches one query to the level, turned by a pending OR. */
  lemma {:induction false} RunFactor(f: Factor, s: State, r: Record) returns (q: Query)
    requires s.frames != []
    ensures var m := s.notMode != Odd(f);
            && Match(q, r) == MeansFactor(f, m, KeepsModes(s) && m, r)
            && Run(PrintFactor(f), s)
            == State(WithTop(s.frames, Attach(Turn(Top(s), s.orMode), q)), false, f.atom.Word? && KeepsModes(s) && m)
    decreases f, 1
  {
    var m := s.notMode != Odd(f);
    var s1 := s.(notMode := m);
    RunConcat(NotTokens(f.nots), PrintAtom(f.atom), s);
    RunNots(f.nots, s);
    match f.atom
    case Word(l, negated) =>
      q := Wrap(m, Wrap(negated, Query.Leaf(l)));
      RunOne(Keyword(l, negated), s1);
      MatchWrap(negated, Query.Leaf(l), r);
      MatchWrap(m, Wrap(negated, Query.Leaf(l)), r);
    case Paren(e) =>
      var s2 := Step(s1, LParen);
      var g := RunExpr(e, s2, r);
      q := Wrap(m, Close(g));
      RunParen(e, s1, g);
      MatchWrap(m, Close(g), r);
  }

  lemma MatchWrap(neg: bool, q: Query, r: Record)
    ensures Match(Wrap(neg, q), r) == (Match(q, r) != neg)
  {
  }

  lemma RunOne(t: Token, s: State)
    requires s.frames != []
    ensures Run([t], s) == Step(s, t)
  {
    assert [t][1..] == [];
  }

  /** Closing a level that was opened on `turned` attaches its query there. */
  lemma CloseOpened(fs: seq<Frame>, turned: Frame, inner: Frame, g: Frame)
    requires fs != []
    ensures var end := WithTop(WithTop(fs, turned) + [inner], g);
            |end| > 1 && Pop(end) == WithTop(fs, Attach(turned, Wrap(g.neg, Close(g))))
  {
    var front := fs[..|fs| - 1];
    assert WithTop(fs, turned) + [inner] == front + [turned, inner];
    assert (front + [turned, inner])[..|fs|] == front + [turned];
    assert WithTop(WithTop(fs, turned) + [inner], g) == front + [turned, g];
    assert (front + [turned, g])[..|fs| - 1] == front;
  }

  /** A parenthesis attaches the query of its inside to the level around it. */
  lemma RunParen(e: Expr, s: State, g: Frame)
    requires s.frames != [] && g.neg == s.notMode
    requires Run(Print(e), Step(s, LParen)).frames == WithTop(Step(s, LParen).frames, g)
    ensures Run(PrintAtom(Paren(e)), s)
         == State(WithTop(s.frames, Attach(Turn(Top(s), s.orMode), Wrap(s.notMode, Close(g)))), false, false)
  {
    RunConcat([LParen] + Print(e), [RParen], s);
    RunConcat([LParen], Print(e), s);
    RunOne(LParen, s);
    RunOne(RParen, Run(Print(e), Step(s, LParen)));
    CloseOpened(s.frames, Turn(Top(s), s.orMode), Plain([], s.notMode), g);
  }

  lemma {:induction false} RunExpr(e: Expr, s: State, r: Record) returns (g: Frame)
    requires s.frames != [] && !s.orMode && Top(s).Plain? && Top(s).items == []
    ensures Run(Print(e), s).frames == WithTop(s.frames, g) && g.neg == Top(s).neg
    ensures Match(Close(g), r) == Means(e, s.notMode, r)
    decreases e, 0
  {
    if e.terms == [] {
      g := Top(s);
    } else {
      g := RunTerms(e.terms, s, r);
    }
  }

  lemma {:induction false} RunTerms(ts: seq<Term>, s: State, r: Record) returns (g: Frame)
    requires s.frames != [] && !s.orMode && Top(s).Plain? && Top(s).items == [] && ts != []
    ensures Run(PrintTerms(ts), s).frames == WithTop(s.frames, g) && g.neg == Top(s).neg
    ensures Whole(g) && Match(Close(g), r) == MeansTerms(ts, s.notMode, r)
    decreases ts, 0
  {
    var init, t := ts[..|ts| - 1], ts[|ts| - 1];
    if init == [] {
      if t.factors == [] {
        g := Top(s);
      } else {
        g := RunFactors(t.factors, s, r);
      }
    } else {
      g := RunTerms(init, s, r);
      var s1 := Run(PrintTerms(init), s);
      var s2 := Step(s1, OrToken);
      RunConcat(PrintTerms(init), [OrToken] + PrintFactors(t.factors), s);
      RunConcat([OrToken], PrintFactors(t.factors), s1);
      RunOne(OrToken, s1);
      if t.factors != [] {
        g := RunFactors(t.factors, s2, r);
        MatchDisjunction(g, r);
      }
    }
  }

  lemma MatchDisjunction(g: Frame, r: Record)
    requires g.Ored? && g.last.Some?
    ensures Match(Close(g), r) == (Match(g.first, r) || Match(g.last.value, r))
  {
    var o := Or([g.first, g.last.value]);
    assert g.first in o.queries && g.last.value in o.queries;
    assert o in [o];
  }

  /** Attaching to a level adds a conjunct to what is growing there. */
  lemma MatchAttach(f: Frame, q: Query, r: Record)
    ensures f.Plain? ==> Match(Close(Attach(f, q)), r) == (Match(Close(f), r) && Match(q, r))
    ensures f.Ored? && f.last.Some? ==>
              Match(Attach(f, q).last.value, r) == (Match(f.last.value, r) && Match(q, r))
  {
    match f
    case Plain(items, _) =>
      ConcatMatch(items, [q], r);
      ConsMatch(q, [], r);
      assert [q] + [] == [q];
    case Ored(_, Some(last), _) =>
      ConcatMatch(Conjuncts(last), [q], r);
      ConsMatch(q, [], r);
      ConsMatch(last, [], r);
      assert [q] + [] == [q] && [last] + [] == [last];
    case _ =>
  }

  lemma {:induction false} RunFactors(fs: seq<Factor>, s: State, r: Record) returns (g: Frame)
    requires s.frames != [] && fs != []
    requires if s.orMode then !s.notMode else Top(s).Plain?
    ensures Run(PrintFactors(fs), s) == State(WithTop(s.frames, g), false, s.orMode && ModeAfter(fs))
    ensures g.neg == Top(s).neg && g.Plain? == !s.orMode && Whole(g)
    ensures s.orMode ==> g.first == Close(Top(s)) && Match(g.last.value, r) == MeansLater(fs, r)
    ensures !s.orMode ==> Match(Close(g), r) == (Match(Close(Top(s)), r) && MeansFirst(fs, s.notMode, r))
    decreases fs, 0
  {
    var init, f := fs[..|fs| - 1], fs[|fs| - 1];
    if init == [] {
      assert PrintFactors(fs) == PrintFactor(f);
      var q := RunFactor(f, s, r);
      g := Attach(Turn(Top(s), s.orMode), q);
      MatchAttach(Top(s), q, r);
    } else {
      var h := RunFactors(init, s, r);
      var s1 := Run(PrintFactors(init), s);
      RunConcat(PrintFactors(init), PrintFactor(f), s);
      var q := RunFactor(f, s1, r);
      g := Attach(h, q);
      MatchAttach(h, q, r);
    }
  }

  /** ---- The main results ---- */

  /** For every expression there is, the machine builds a query that matches exactly what `Means` says. */
  lemma ParsedMeans(e: Expr, r: Record)
    ensures Match(Parsed(Print(e)), r) == Means(e, false, r)
    ensures Match(Optimize(Parsed(Print(e))), r) == Means(e, false, r)
  {
    var g := RunExpr(e, START, r);
    assert Run(Print(e), START).frames == [g];
    OptimizeKeepsMatch(Parsed(Print(e)), r);
  }

  /** For every well-formed expression, it matches exactly the records the grammar accepts. */
  lemma ParsedAsWritten(e: Expr, r: Record)
    requires WellFormed(e)
    ensures Match(Parsed(Print(e)), r) == Accepts(e, r)
    ensures Match(Optimize(Parsed(Print(e))), r) == Accepts(e, r)
  {
    ParsedMeans(e, r);
    MeansAsWritten(e, r);
  }

  lemma {:induction false} MeansAsWritten(e: Expr, r: Record)
    requires WellFormed(e)
    ensures Means(e, false, r) == Accepts(e, r)
    decreases e, 0
  {
    TermsAsWritten(e.terms, r);
  }

  lemma {:induction false} TermsAsWritten(ts: seq<Term>, r: Record)
    requires ts != [] && WellFormedTerms(ts)
    ensures MeansTerms(ts, false, r) == AnyTerm(ts, r)
    decreases ts, 0
  {
    var init, fs := ts[..|ts| - 1], ts[|ts| - 1].factors;
    FactorsAsWritten(fs, r);
    if init != [] {
      TermsAsWritten(init, r);
    }
  }

  lemma {:induction false} FactorsAsWritten(fs: seq<Factor>, r: Record)
    requires WellFormedFactors(fs)
    ensures MeansFirst(fs, false, r) == AllFactors(fs, r)
    ensures NothingLeaks(fs) ==> MeansLater(fs, r) == AllFactors(fs, r)
    ensures ModeAfter(fs) && NothingLeaks(fs) ==> Odd(fs[|fs| - 1])
    decreases fs, 0
  {
    if fs != [] {
      var init, f := fs[..|fs| - 1], fs[|fs| - 1];
      FactorsAsWritten(init, r);
      FactorAsWritten(f, r);
      if NothingLeaks(fs) {
        assert forall j :: 0 < j < |init| ==> init[j] == fs[j];
        assert !ModeAfter(init);
      }
    }
  }

  lemma {:induction false} FactorAsWritten(f: Factor, r: Record)
    requires WellFormedFactor(f)
    ensures MeansFactor(f, Odd(f), false, r) == AcceptsFactor(f, r)
    ensures f.atom.Word? ==> forall m :: MeansFactor(f, Odd(f), m, r) == AcceptsFactor(f, r)
    decreases f, 0
  {
    if f.atom.Paren? {
      MeansAsWritten(f.atom.expr, r);
    }
  }

  /** The shortest query whose NOT leaks: `a OR b NOT c d`. */
  function Leaking(a: Matchers.Leaf, b: Matchers.Leaf, c: Matchers.Leaf, d: Matchers.Leaf): Expr {
    Expr([Term([Factor(0, Word(a, false))]),
          Term([Factor(0, Word(b, false)), Factor(1, Word(c, false)), Factor(0, Word(d, false))])])
  }

  /** It is read as `a OR b NOT c NOT d`, so it goes wrong on exactly the records that match `b` but
    * neither `a` nor `c`. */
  lemma NotLeaks(a: Matchers.Leaf, b: Matchers.Leaf, c: Matchers.Leaf, d: Matchers.Leaf, r: Record)
    ensures var e := Leaking(a, b, c, d);
            && Accepts(e, r) == (LeafMatch(a, r) || (LeafMatch(b, r) && !LeafMatch(c, r) && LeafMatch(d, r)))
            && (Match(Parsed(Print(e)), r) != Accepts(e, r) <==>
                LeafMatch(b, r) && !LeafMatch(a, r) && !LeafMatch(c, r))
  {
    var e := Leaking(a, b, c, d);
    var fb, fc, fd := Factor(0, Word(b, false)), Factor(1, Word(c, false)), Factor(0, Word(d, false));
    LaterMeans(fb, fc, fd, r);
    OneTerm(Factor(0, Word(a, false)), r);
    assert e.terms[..1] == [e.terms[0]];
    ParsedMeans(e, r);
  }

  lemma WordMeans(f: Factor, turned: bool, m: bool, r: Record)
    requires f.atom.Word?
    ensures MeansFactor(f, turned, m, r) == (AcceptsAtom(f.atom, r) != turned)
    ensures AcceptsFactor(f, r) == (AcceptsAtom(f.atom, r) != Odd(f))
  {
  }

  lemma LaterMeans(fb: Factor, fc: Factor, fd: Factor, r: Record)
    requires fb.nots == 0 && fc.nots == 1 && fd.nots == 0 && fb.atom.Word? && fc.atom.Word? && fd.atom.Word?
    ensures MeansLater([fb, fc, fd], r) == (AcceptsAtom(fb.atom, r) && !AcceptsAtom(fc.atom, r) && !AcceptsAtom(fd.atom, r))
    ensures AllFactors([fb, fc, fd], r) == (AcceptsAtom(fb.atom, r) && !AcceptsAtom(fc.atom, r) && AcceptsAtom(fd.atom, r))
  {
    assert [fb, fc, fd][..2] == [fb, fc] && [fb, fc][..1] == [fb] && [fb][..0] == [];
    WordMeans(fb, false, false, r);
    WordMeans(fc, true, true, r);
    WordMeans(fd, true, true, r);
    assert MeansLater([fb], r) == MeansFactor(fb, false, false, r);
    assert ModeAfter([fb, fc]);
    assert MeansLater([fb, fc], r) == (MeansLater([fb], r) && MeansFactor(fc, true, true, r));
    assert AllFactors([fb], r) == AcceptsFactor(fb, r);
    assert AllFactors([fb, fc], r) == (AllFactors([fb], r) && AcceptsFactor(fc, r));
  }

  lemma OneTerm(f: Factor, r: Record)
    requires f.nots == 0 && f.atom.Word?
    ensures MeansTerms([Term([f])], false, r) == AcceptsAtom(f.atom, r) == AnyTerm([Term([f])], r)
  {
    var t := Term([f]);
    assert [t][..0] == [] && [f][..0] == [];
    WordMeans(f, false, false, r);
    assert MeansFirst([f], false, r) == MeansFactor(f, false, false, r);
    assert AllFactors([f], r) == AcceptsFactor(f, r);
    assert !AnyTerm([], r);
  }
}
