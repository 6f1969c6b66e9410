/** internal/query/query.go: query trees, what they match, and their optimization. */
module Query {
  import opened Matchers

  datatype Query =
    | Leaf(leaf: Matchers.Leaf)
    | And(queries: seq<Query>)
    | Or(queries: seq<Query>)
    | Not(query: Query)

  ghost predicate Match(q: Query, r: Record) {
    match q
    case Leaf(l) => LeafMatch(l, r)
    case And(qs) => forall x :: x in qs ==> Match(x, r)
    case Or(qs) => exists x :: x in qs && Match(x, r)
    case Not(x) => !Match(x, r)
  }

  /** ---- Termination: a weight, exponential in what is negated, that optimizing never increases ---- */

  function Pow2(n: nat): (p: nat)
    ensures p >= 1
    ensures n >= 1 ==> p >= 2
  {
    if n == 0 then 1 else 2 * Pow2(n - 1)
  }

  function Weight(q: Query): (w: nat)
    ensures w >= 1
    decreases q, 1
  {
    match q
    case Leaf(_) => 1
    case And(qs) => 1 + Weights(qs)
    case Or(qs) => 1 + Weights(qs)
    case Not(x) => Pow2(Weight(x))
  }

  function Weights(qs: seq<Query>): nat
    decreases qs, 0
  {
    if qs == [] then 0 else Weight(qs[0]) + Weights(qs[1..])
  }

  lemma {:induction false} WeightsConcat(a: seq<Query>, b: seq<Query>)
    ensures Weights(a + b) == Weights(a) + Weights(b)
  {
    if a == [] {
      assert a + b == b;
    } else {
      assert (a + b)[1..] == a[1..] + b;
      WeightsConcat(a[1..], b);
    }
  }

  lemma Doubled(x: nat, y: nat)
    ensures (2 * x) * y == 2 * (x * y)
  {
  }

  lemma {:induction false} Pow2Sum(a: nat, b: nat)
    ensures Pow2(a + b) == Pow2(a) * Pow2(b)
  {
    if a > 0 {
      Pow2Sum(a - 1, b);
      Doubled(Pow2(a - 1), Pow2(b));
      assert Pow2(a + b) == 2 * Pow2(a - 1 + b);
    }
  }

  lemma {:induction false} Pow2Monotone(a: nat, b: nat)
    requires a <= b
    ensures Pow2(a) <= Pow2(b)
  {
    if a < b {
      Pow2Monotone(a, b - 1);
    }
  }

  lemma {:induction false} BelowPow2(n: nat)
    ensures n < Pow2(n)
  {
    if n > 0 {
      BelowPow2(n - 1);
    }
  }

  lemma SumBelowProduct(x: nat, y: nat)
    requires x >= 2 && y >= 2
    ensures x + y <= x * y
  {
    assert (x - 1) * (y - 1) >= 1;
  }

  function Nots(qs: seq<Query>): (ns: seq<Query>)
    ensures |ns| == |qs| && forall i :: 0 <= i < |qs| ==> ns[i] == Not(qs[i])
  {
    if qs == [] then [] else [Not(qs[0])] + Nots(qs[1..])
  }

  /** Negating the parts weighs less than negating the whole. */
  lemma {:induction false} NotsLighter(qs: seq<Query>)
    ensures Weights(Nots(qs)) <= Pow2(Weights(qs))
    ensures 1 + Weights(Nots(qs)) < Pow2(1 + Weights(qs))
  {
    if qs != [] {
      var x, rest := Weight(qs[0]), Weights(qs[1..]);
      NotsLighter(qs[1..]);
      assert Nots(qs)[1..] == Nots(qs[1..]);
      assert Weights(Nots(qs)) == Pow2(x) + Weights(Nots(qs[1..]));
      Pow2Sum(x, rest);
      if qs[1..] != [] {
        SumBelowProduct(Pow2(x), Pow2(rest));
      }
    }
  }

  /** Takes the parts of a nested node of the same kind in place of the node. */
  function Parts(isAnd: bool, o: Query): (ps: seq<Query>)
    ensures Weights(ps) <= Weight(o)
  {
    match o
    case And(ps) => if isAnd then ps else [o]
    case Or(ps) => if isAnd then [o] else ps
    case _ => [o]
  }

  /** ---- The optimizer ---- */

  function Optimize(q: Query): (o: Query)
    ensures Weight(o) <= Weight(q)
    decreases Weight(q), 1
  {
    match q
    case Leaf(_) => q
    case And(qs) =>
      var ps := Flatten(true, qs);
      if |ps| == 1 then ps[0] else And(ps)
    case Or(qs) => Or(Flatten(false, qs))
    case Not(x) =>
      BelowPow2(Weight(x));
      var o := Optimize(x);
      Pow2Monotone(Weight(o), Weight(x));
      if o.Leaf? then Not(o) else Invert(o)
  }

  /** The parts of an And (or an Or), each optimized, those of the same kind merged in. */
  function Flatten(isAnd: bool, qs: seq<Query>): (ps: seq<Query>)
    ensures Weights(ps) <= Weights(qs)
    decreases Weights(qs), 2, |qs|
  {
    if qs == [] then []
    else
      var o := Optimize(qs[0]);
      var rest := Flatten(isAnd, qs[1..]);
      WeightsConcat(Parts(isAnd, o), rest);
      Parts(isAnd, o) + rest
  }

  /** The negation of an optimized And, Or or Not. */
  function Invert(q: Query): (o: Query)
    requires !q.Leaf?
    ensures Weight(o) <= Pow2(Weight(q))
    decreases Pow2(Weight(q)), 0
  {
    match q
    case And(qs) =>
      NotsLighter(qs);
      Optimize(Or(Nots(qs)))
    case Or(qs) =>
      NotsLighter(qs);
      Optimize(And(Nots(qs)))
    case Not(x) =>
      BelowPow2(Weight(x));
      BelowPow2(Pow2(Weight(x)));
      x
  }

  /** Optimizing changes nothing a query matches. */
  lemma {:induction false} OptimizeKeepsMatch(q: Query, r: Record)
    ensures Match(Optimize(q), r) == Match(q, r)
    decreases Weight(q), 1
  {
    match q
    case Leaf(_) =>
    case And(qs) => FlattenKeepsMatch(true, qs, r);
    case Or(qs) => FlattenKeepsMatch(false, qs, r);
    case Not(x) =>
      BelowPow2(Weight(x));
      OptimizeKeepsMatch(x, r);
      var o := Optimize(x);
      if !o.Leaf? {
        Pow2Monotone(Weight(o), Weight(x));
        InvertNegates(o, r);
      }
  }

  lemma {:induction false} FlattenKeepsMatch(isAnd: bool, qs: seq<Query>, r: Record)
    ensures isAnd ==> Match(And(Flatten(true, qs)), r) == Match(And(qs), r)
    ensures !isAnd ==> Match(Or(Flatten(false, qs)), r) == Match(Or(qs), r)
    decreases Weights(qs), 2, |qs|
  {
    if qs != [] {
      OptimizeKeepsMatch(qs[0], r);
      FlattenKeepsMatch(isAnd, qs[1..], r);
      ConcatMatch(Parts(isAnd, Optimize(qs[0])), Flatten(isAnd, qs[1..]), r);
      ConsMatch(qs[0], qs[1..], r);
      assert qs == [qs[0]] + qs[1..];
      PartsMatch(isAnd, Optimize(qs[0]), r);
    }
  }

  lemma PartsMatch(isAnd: bool, o: Query, r: Record)
    ensures isAnd ==> Match(And(Parts(true, o)), r) == Match(o, r)
    ensures !isAnd ==> Match(Or(Parts(false, o)), r) == Match(o, r)
  {
  }

  lemma {:induction false} InvertNegates(q: Query, r: Record)
    requires !q.Leaf?
    ensures Match(Invert(q), r) == !Match(q, r)
    decreases Pow2(Weight(q)), 0
  {
    match q
    case And(qs) =>
      NotsLighter(qs);
      OptimizeKeepsMatch(Or(Nots(qs)), r);
      NotsMatch(qs, r);
    case Or(qs) =>
      NotsLighter(qs);
      OptimizeKeepsMatch(And(Nots(qs)), r);
      NotsMatch(qs, r);
    case Not(x) =>
  }

  /** De Morgan. */
  lemma NotsMatch(qs: seq<Query>, r: Record)
    ensures Match(Or(Nots(qs)), r) == !Match(And(qs), r)
    ensures Match(And(Nots(qs)), r) == !Match(Or(qs), r)
  {
    var ns := Nots(qs);
    forall x | x in qs
      ensures Not(x) in ns && Match(Not(x), r) == !Match(x, r)
    {
      var i :| 0 <= i < |qs| && qs[i] == x;
      assert ns[i] == Not(x);
    }
    forall n | n in ns
      ensures n.Not? && n.query in qs
    {
    }
  }

  lemma ConsMatch(q: Query, qs: seq<Query>, r: Record)
    ensures Match(And([q] + qs), r) <==> Match(q, r) && Match(And(qs), r)
    ensures Match(Or([q] + qs), r) <==> Match(q, r) || Match(Or(qs), r)
  {
  }

  lemma ConcatMatch(a: seq<Query>, b: seq<Query>, r: Record)
    ensures Match(And(a + b), r) <==> Match(And(a), r) && Match(And(b), r)
    ensures Match(Or(a + b), r) <==> Match(Or(a), r) || Match(Or(b), r)
  {
  }

  /** ---- Normal form ---- */

  /** Not only above leaves, no node directly in one of its own kind, no And of a single part. */
  predicate Normal(q: Query) {
    match q
    case Leaf(_) => true
    case And(qs) => |qs| != 1 && forall x :: x in qs ==> Normal(x) && !x.And?
    case Or(qs) => forall x :: x in qs ==> Normal(x) && !x.Or?
    case Not(x) => x.Leaf?
  }

  lemma {:induction false} OptimizeNormal(q: Query)
    ensures Normal(Optimize(q))
    decreases Weight(q), 1
  {
    match q
    case Leaf(_) =>
    case And(qs) => FlattenNormal(true, qs);
    case Or(qs) => FlattenNormal(false, qs);
    case Not(x) =>
      BelowPow2(Weight(x));
      OptimizeNormal(x);
      var o := Optimize(x);
      if !o.Leaf? {
        Pow2Monotone(Weight(o), Weight(x));
        InvertNormal(o);
      }
  }

  lemma {:induction false} FlattenNormal(isAnd: bool, qs: seq<Query>)
    ensures forall x :: x in Flatten(isAnd, qs) ==> Normal(x) && !(if isAnd then x.And? else x.Or?)
    decreases Weights(qs), 2, |qs|
  {
    if qs != [] {
      OptimizeNormal(qs[0]);
      FlattenNormal(isAnd, qs[1..]);
    }
  }

  lemma {:induction false} InvertNormal(q: Query)
    requires !q.Leaf? && Normal(q)
    ensures Normal(Invert(q))
    decreases Pow2(Weight(q)), 0
  {
    match q
    case And(qs) =>
      NotsLighter(qs);
      OptimizeNormal(Or(Nots(qs)));
    case Or(qs) =>
      NotsLighter(qs);
      OptimizeNormal(And(Nots(qs)));
    case Not(x) =>
  }

  /** A query in normal form is left as it is. */
  lemma {:induction false} NormalIsOptimal(q: Query)
    requires Normal(q)
    ensures Optimize(q) == q
    decreases Weight(q), 1
  {
    match q
    case Leaf(_) =>
    case And(qs) => NormalFlat(true, qs);
    case Or(qs) => NormalFlat(false, qs);
    case Not(x) =>
  }

  lemma {:induction false} NormalFlat(isAnd: bool, qs: seq<Query>)
    requires forall x :: x in qs ==> Normal(x) && !(if isAnd then x.And? else x.Or?)
    ensures Flatten(isAnd, qs) == qs
    decreases Weights(qs), 2, |qs|
  {
    if qs != [] {
      NormalIsOptimal(qs[0]);
      NormalFlat(isAnd, qs[1..]);
    }
  }

  /** Optimizing twice is optimizing once. */
  lemma OptimizeIdempotent(q: Query)
    ensures Optimize(Optimize(q)) == Optimize(q)
  {
    OptimizeNormal(q);
    NormalIsOptimal(Optimize(q));
  }
}
