/** internal/query/query.go: the stack machine of `ParseQuery`, on query values. */
module QueryMachine {
  import opened Common
  import opened Matchers
  import opened Query

  datatype Token = LParen | RParen | OrToken | NotToken | Keyword(leaf: Matchers.Leaf, negated: bool)

  /** A level of the stack: a conjunction, or a disjunction with a last disjunct that is still growing
    * (absent while it is a parenthesis not closed yet). `neg` tells whether the level is negated in
    * the level below. */
  datatype Frame =
    | Plain(items: seq<Query>, neg: bool)
    | Ored(first: Query, last: Option<Query>, neg: bool)

  datatype State = State(frames: seq<Frame>, orMode: bool, notMode: bool)

  const START := State([Plain([], false)], false, false)

  function Wrap(neg: bool, q: Query): Query {
    if neg then Not(q) else q
  }

  /** The query of a level. */
  function Close(f: Frame): Query {
    match f
    case Plain(items, _) => And(items)
    case Ored(first, Some(last), _) => And([Or([first, last])])
    case Ored(first, None, _) => And([Or([first])])
  }

  /** An And grows; anything else becomes the first part of a new And. */
  function Conjuncts(q: Query): seq<Query> {
    if q.And? then q.queries else [q]
  }

  function Attach(f: Frame, q: Query): Frame {
    match f
    case Plain(items, neg) => Plain(items + [q], neg)
    case Ored(first, None, neg) => Ored(first, Some(q), neg)
    case Ored(first, Some(last), neg) => Ored(first, Some(And(Conjuncts(last) + [q])), neg)
  }

  /** After OR, what the level holds becomes the first of two disjuncts. */
  function Turn(f: Frame, orMode: bool): Frame {
    if orMode then Ored(Close(f), None, f.neg) else f
  }

  function Top(s: State): Frame
    requires s.frames != []
  {
    s.frames[|s.frames| - 1]
  }

  function WithTop(fs: seq<Frame>, f: Frame): seq<Frame>
    requires fs != []
  {
    fs[..|fs| - 1] + [f]
  }

  /** Growing the last disjunct leaves both modes as they are; every other push clears them. */
  predicate KeepsModes(s: State)
    requires s.frames != []
  {
    !s.orMode && Top(s).Ored?
  }

  /** Attaches the top level to the one below. */
  function Pop(fs: seq<Frame>): (r: seq<Frame>)
    requires |fs| >= 2
    ensures |r| == |fs| - 1
  {
    var n := |fs|;
    fs[..n - 2] + [Attach(fs[n - 2], Wrap(fs[n - 1].neg, Close(fs[n - 1])))]
  }

  function Step(s: State, t: Token): (s': State)
    requires s.frames != []
    ensures s'.frames != []
  {
    var turned := Turn(Top(s), s.orMode);
    var notMode := KeepsModes(s) && s.notMode;
    match t
    case Keyword(l, negated) =>
      State(WithTop(s.frames, Attach(turned, Wrap(s.notMode, Wrap(negated, Query.Leaf(l))))), false, notMode)
    case LParen =>
      State(WithTop(s.frames, turned) + [Plain([], s.notMode)], false, notMode)
    case RParen =>
      State(if |s.frames| > 1 then Pop(s.frames) else [Plain([Close(s.frames[0])], false)], false, false)
    case OrToken => s.(orMode := true, notMode := false)
    case NotToken => s.(notMode := !s.notMode)
  }

  function Run(ts: seq<Token>, s: State): (s': State)
    requires s.frames != []
    ensures s'.frames != []
  {
    if ts == [] then s else Run(ts[1..], Step(s, ts[0]))
  }

  /** The query of a stack: levels still open are closed. */
  function Collapse(fs: seq<Frame>): Query
    requires fs != []
    decreases |fs|
  {
    if |fs| == 1 then Close(fs[0]) else Collapse(Pop(fs))
  }

  /** The query a token stream is parsed to, before it is optimized. */
  function Parsed(ts: seq<Token>): Query {
    Collapse(Run(ts, START).frames)
  }

  lemma {:induction false} RunConcat(a: seq<Token>, b: seq<Token>, s: State)
    requires s.frames != []
    ensures Run(a + b, s) == Run(b, Run(a, s))
  {
    if a == [] {
      assert a + b == b;
    } else {
      assert (a + b)[0] == a[0] && (a + b)[1..] == a[1..] + b;
      RunConcat(a[1..], b, Step(s, a[0]));
    }
  }
}
