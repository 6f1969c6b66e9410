/** internal/query/query.go: parentheses that do not pair up. */
module QueryParens {
  import opened Common
  import opened Matchers
  import opened Query
  import opened QueryMachine
  import opened QueryGrammar

  /** The parentheses open behind some tokens, `d` being open in front of them; one too many closes nothing. */
  function Open(ts: seq<Token>, d: nat): nat {
    if ts == [] then d
    else if ts[0] == LParen then Open(ts[1..], d + 1)
    else if ts[0] == RParen && d > 0 then Open(ts[1..], d - 1)
    else Open(ts[1..], d)
  }

  /** No parenthesis of the tokens is one too many, `d` being open in front of them. */
  predicate Paired(ts: seq<Token>, d: nat) {
    ts == [] ||
    if ts[0] == LParen then Paired(ts[1..], d + 1)
    else if ts[0] == RParen then d > 0 && Paired(ts[1..], d - 1)
    else Paired(ts[1..], d)
  }

  /** ---- The stack is as deep as parentheses are open ---- */

  lemma StepDepth(s: State, t: Token)
    requires s.frames != []
    ensures var n := |s.frames|;
            |Step(s, t).frames| == if t == LParen then n + 1 else if t == RParen && n > 1 then n - 1 else n
  {
  }

  lemma {:induction false} StackDepth(ts: seq<Token>, s: State)
    requires s.frames != []
    ensures |Run(ts, s).frames| == 1 + Open(ts, |s.frames| - 1)
  {
    if ts != [] {
      StepDepth(s, ts[0]);
      StackDepth(ts[1..], Step(s, ts[0]));
    }
  }

  lemma TopAbove(below: seq<Frame>, fs: seq<Frame>, f: Frame)
    requires fs != []
    ensures (below + fs)[|below| + |fs| - 1] == fs[|fs| - 1]
    ensures WithTop(below + fs, f) == below + WithTop(fs, f)
    ensures |fs| > 1 ==> Pop(below + fs) == below + Pop(fs)
  {
    var n, m := |fs|, |below|;
    assert (below + fs)[..m + n - 1] == below + fs[..n - 1];
    if n > 1 {
      assert (below + fs)[..m + n - 2] == below + fs[..n - 2];
      assert (below + fs)[m + n - 2] == fs[n - 2];
    }
  }

  /** What lies below the levels that the tokens open and close stays as it is. */
  lemma StepAbove(below: seq<Frame>, s: State, t: Token)
    requires s.frames != [] && (t == RParen ==> |s.frames| > 1)
    ensures Step(s.(frames := below + s.frames), t) == Step(s, t).(frames := below + Step(s, t).frames)
  {
    var turned := Turn(Top(s), s.orMode);
    match t {
      case Keyword(l, negated) => TopAbove(below, s.frames, Attach(turned, Wrap(s.notMode, Wrap(negated, Query.Leaf(l)))));
      case LParen =>
        TopAbove(below, s.frames, turned);
        assert below + WithTop(s.frames, turned) + [Plain([], s.notMode)] == below + (WithTop(s.frames, turned) + [Plain([], s.notMode)]);
      case _ => TopAbove(below, s.frames, turned);
    }
  }

  lemma {:induction false} RunAbove(below: seq<Frame>, ts: seq<Token>, s: State)
    requires s.frames != [] && Paired(ts, |s.frames| - 1)
    ensures Run(ts, s.(frames := below + s.frames)) == Run(ts, s).(frames := below + Run(ts, s).frames)
  {
    if ts != [] {
      StepAbove(below, s, ts[0]);
      RunAbove(below, ts[1..], Step(s, ts[0]));
    }
  }

  /** ---- One too many ---- */

  /** Closing the bottom level is closing a level on top of an empty one. */
  lemma CloseBottom(f: Frame, orMode: bool, notMode: bool)
    requires !f.neg
    ensures Step(State([f], orMode, notMode), RParen) == Step(State([Plain([], false), f], orMode, notMode), RParen)
  {
    assert [] + [Close(f)] == [Close(f)];
    assert Pop([Plain([], false), f]) == [Plain([Close(f)], false)];
  }

  lemma Opened()
    ensures START.frames == [Plain([], false)]
    ensures Step(START, LParen) == START.(frames := [Plain([], false)] + START.frames)
  {
  }

  /** The tokens run alike at the bottom and in a parenthesis. */
  lemma RunInside(ts: seq<Token>) returns (f: Frame)
    requires Paired(ts, 0) && Open(ts, 0) == 0
    ensures !f.neg && Run(ts, START).frames == [f]
    ensures Run(ts, Step(START, LParen)) == Run(ts, START).(frames := [Plain([], false), f])
  {
    var frames := Run(ts, START).frames;
    f := frames[0];
    StackDepth(ts, START);
    BottomKept(ts, START);
    Opened();
    RunAbove([Plain([], false)], ts, START);
    assert [Plain([], false)] + frames == [Plain([], false), f];
  }

  /** A parenthesis too many is read as if it had been opened at the very beginning: all that is in front of it becomes
    * one part of what follows. */
  lemma StrayParen(ts: seq<Token>, us: seq<Token>)
    requires Paired(ts, 0) && Open(ts, 0) == 0
    ensures Parsed(ts + [RParen] + us) == Parsed([LParen] + ts + [RParen] + us)
  {
    var f := RunInside(ts);
    CloseBottom(f, Run(ts, START).orMode, Run(ts, START).notMode);
    RunFour(ts, us);
  }

  /** The bottom level is never negated. */
  lemma {:induction false} BottomKept(ts: seq<Token>, s: State)
    requires s.frames != [] && !s.frames[0].neg
    ensures !Run(ts, s).frames[0].neg
  {
    if ts != [] {
      BottomKept(ts[1..], Step(s, ts[0]));
    }
  }

  lemma RunFour(ts: seq<Token>, us: seq<Token>)
    ensures Run(ts + [RParen] + us, START) == Run(us, Step(Run(ts, START), RParen))
    ensures Run([LParen] + ts + [RParen] + us, START) == Run(us, Step(Run(ts, Step(START, LParen)), RParen))
  {
    RunConcat(ts + [RParen], us, START);
    RunConcat(ts, [RParen], START);
    RunOne(RParen, Run(ts, START));
    RunConcat([LParen] + ts + [RParen], us, START);
    RunConcat([LParen] + ts, [RParen], START);
    RunConcat([LParen], ts, START);
    RunOne(LParen, START);
    RunOne(RParen, Run(ts, Step(START, LParen)));
  }

  /** ---- One too few ---- */

  /** A parenthesis left open is read as if it was closed at the end. */
  lemma OpenParen(ts: seq<Token>)
    requires Open(ts, 0) > 0
    ensures Parsed(ts) == Parsed(ts + [RParen])
  {
    StackDepth(ts, START);
    RunConcat(ts, [RParen], START);
    RunOne(RParen, Run(ts, START));
  }

  function RParens(n: nat): seq<Token> {
    if n == 0 then [] else [RParen] + RParens(n - 1)
  }

  lemma {:induction false} OpenSnoc(ts: seq<Token>, d: nat)
    ensures Open(ts + [RParen], d) == if Open(ts, d) > 0 then Open(ts, d) - 1 else 0
  {
    if ts == [] {
      assert ts + [RParen] == [RParen] && [RParen][1..] == [];
    } else {
      assert (ts + [RParen])[1..] == ts[1..] + [RParen];
      OpenSnoc(ts[1..], if ts[0] == LParen then d + 1 else if ts[0] == RParen && d > 0 then d - 1 else d);
    }
  }

  /** However many are left open, they are all closed at the end. */
  lemma {:induction false} OpenParens(ts: seq<Token>, n: nat)
    requires n <= Open(ts, 0)
    ensures Parsed(ts) == Parsed(ts + RParens(n))
    decreases n
  {
    if n == 0 {
      assert ts + RParens(n) == ts;
    } else {
      OpenParen(ts);
      OpenSnoc(ts, 0);
      OpenParens(ts + [RParen], n - 1);
      assert ts + RParens(n) == ts + [RParen] + RParens(n - 1);
    }
  }

  /** ---- Written expressions ---- */

  lemma {:induction false} OpenConcat(a: seq<Token>, b: seq<Token>, d: nat)
    ensures Open(a + b, d) == Open(b, Open(a, d))
    ensures Paired(a + b, d) <==> Paired(a, d) && Paired(b, Open(a, d))
  {
    if a == [] {
      assert a + b == b;
    } else {
      assert (a + b)[1..] == a[1..] + b;
      if a[0] == LParen {
        OpenConcat(a[1..], b, d + 1);
      } else if a[0] == RParen && d > 0 {
        OpenConcat(a[1..], b, d - 1);
      } else {
        OpenConcat(a[1..], b, d);
      }
    }
  }

  /** The tokens open and close nothing but what they open themselves. */
  ghost predicate Balanced(ts: seq<Token>) {
    forall d: nat :: Paired(ts, d) && Open(ts, d) == d
  }

  lemma BalancedConcat(a: seq<Token>, b: seq<Token>)
    requires Balanced(a) && Balanced(b)
    ensures Balanced(a + b)
  {
    forall d: nat
      ensures Paired(a + b, d) && Open(a + b, d) == d
    {
      OpenConcat(a, b, d);
    }
  }

  lemma BalancedOne(t: Token)
    requires t != LParen && t != RParen
    ensures Balanced([t])
  {
    assert [t][1..] == [];
  }

  lemma {:induction false} BalancedNots(n: nat)
    ensures Balanced(NotTokens(n))
  {
    if n > 0 {
      BalancedNots(n - 1);
      BalancedOne(NotToken);
      BalancedConcat([NotToken], NotTokens(n - 1));
    }
  }

  lemma BalancedInside(ts: seq<Token>)
    requires Balanced(ts)
    ensures Balanced([LParen] + ts + [RParen])
  {
    forall d: nat
      ensures Paired([LParen] + ts + [RParen], d) && Open([LParen] + ts + [RParen], d) == d
    {
      OpenConcat([LParen] + ts, [RParen], d);
      OpenConcat([LParen], ts, d);
      assert [LParen][1..] == [] && [RParen][1..] == [];
    }
  }

  lemma {:induction false} BalancedAtom(a: Atom)
    ensures Balanced(PrintAtom(a))
    decreases a, 0
  {
    match a
    case Word(l, negated) => BalancedOne(Keyword(l, negated));
    case Paren(e) =>
      BalancedExpr(e);
      BalancedInside(Print(e));
  }

  lemma {:induction false} BalancedFactors(fs: seq<Factor>)
    ensures Balanced(PrintFactors(fs))
    decreases fs, 0
  {
    if fs != [] {
      BalancedFactors(fs[..|fs| - 1]);
      BalancedFactor(fs[|fs| - 1]);
      BalancedConcat(PrintFactors(fs[..|fs| - 1]), PrintFactor(fs[|fs| - 1]));
    }
  }

  lemma {:induction false} BalancedFactor(f: Factor)
    ensures Balanced(PrintFactor(f))
    decreases f, 0
  {
    BalancedNots(f.nots);
    BalancedAtom(f.atom);
    BalancedConcat(NotTokens(f.nots), PrintAtom(f.atom));
  }

  lemma {:induction false} BalancedTerms(ts: seq<Term>)
    ensures Balanced(PrintTerms(ts))
    decreases ts, 0
  {
    if ts != [] {
      var last := PrintFactors(ts[|ts| - 1].factors);
      BalancedTerm(ts[|ts| - 1]);
      if |ts| > 1 {
        BalancedTerms(ts[..|ts| - 1]);
        BalancedOne(OrToken);
        BalancedConcat([OrToken], last);
        BalancedConcat(PrintTerms(ts[..|ts| - 1]), [OrToken] + last);
      }
    }
  }

  lemma {:induction false} BalancedTerm(t: Term)
    ensures Balanced(PrintFactors(t.factors))
    decreases t, 0
  {
    BalancedFactors(t.factors);
  }

  lemma {:induction false} BalancedExpr(e: Expr)
    ensures Balanced(Print(e))
    decreases e, 0
  {
    BalancedTerms(e.terms);
  }

  /** Behind a written expression, a parenthesis too many is read as if the expression stood in parentheses. */
  lemma StrayBehind(e: Expr, us: seq<Token>, r: Record)
    ensures Match(Parsed(Print(e) + [RParen] + us), r) == Match(Parsed([LParen] + Print(e) + [RParen] + us), r)
  {
    BalancedExpr(e);
    StrayParen(Print(e), us);
  }

  /** With factors behind it, these and the expression must all accept the record. */
  lemma StrayMeans(e: Expr, fs: seq<Factor>, r: Record)
    ensures Match(Parsed(Print(e) + [RParen] + PrintFactors(fs)), r) == (Means(e, false, r) && MeansFirst(fs, false, r))
  {
    var first := Factor(0, Paren(e));
    var all := [first] + fs;
    StrayBehind(e, PrintFactors(fs), r);
    PrintCons(first, fs);
    assert PrintFactor(first) == [LParen] + Print(e) + [RParen];
    FirstCons(first, fs, r);
    var t := Term(all);
    assert [t][..0] == [];
    ParsedMeans(Expr([t]), r);
  }

  lemma {:induction false} PrintCons(f: Factor, fs: seq<Factor>)
    ensures PrintFactors([f] + fs) == PrintFactor(f) + PrintFactors(fs)
  {
    if fs == [] {
      assert [f] + fs == [f] && [f][..0] == [];
    } else {
      var n := |fs| - 1;
      PrintCons(f, fs[..n]);
      assert ([f] + fs)[..n + 1] == [f] + fs[..n] && ([f] + fs)[n + 1] == fs[n];
      Regroup(PrintFactor(f), PrintFactors(fs[..n]), PrintFactor(fs[n]));
    }
  }

  lemma {:induction false} FirstCons(f: Factor, fs: seq<Factor>, r: Record)
    ensures MeansFirst([f] + fs, false, r) == (MeansFactor(f, Odd(f), false, r) && MeansFirst(fs, false, r))
  {
    if fs == [] {
      assert [f] + fs == [f] && [f][..0] == [];
    } else {
      var n := |fs| - 1;
      FirstCons(f, fs[..n], r);
      assert ([f] + fs)[..n + 1] == [f] + fs[..n];
    }
  }
}
