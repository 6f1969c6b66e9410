/** internal/query/query.go: `ParseQuery` on mutable nodes, the open ones shared by the stack and the tree. */
module QueryParser {
  import opened Common
  import opened Matchers
  import opened Query
  import opened QueryMachine

  datatype Kind = AndKind | OrKind | NotKind | LeafKind(leaf: Matchers.Leaf)

  class Node {
    const kind: Kind
    var queries: seq<Node>

    constructor (kind: Kind, queries: seq<Node>)
      ensures this.kind == kind && this.queries == queries
    {
      this.kind, this.queries := kind, queries;
    }
  }

  /** The queries of the nodes that will not change any more. */
  type Values = map<Node, Query>

  /** The nodes stand for the queries, one by one. */
  ghost predicate Has(ns: seq<Node>, qs: seq<Query>, val: Values) {
    |ns| == |qs| && forall i :: 0 <= i < |ns| ==> ns[i] in val && val[ns[i]] == qs[i]
  }

  ghost predicate Consistent(n: Node, q: Query, val: Values)
    reads n
  {
    match n.kind
    case AndKind => q.And? && Has(n.queries, q.queries, val)
    case OrKind => q.Or? && Has(n.queries, q.queries, val)
    case NotKind => q.Not? && Has(n.queries, [q.query], val)
    case LeafKind(l) => q == Query.Leaf(l)
  }

  ghost predicate AllConsistent(val: Values)
    reads val.Keys
  {
    forall n :: n in val.Keys ==> Consistent(n, val[n], val)
  }

  ghost predicate Extends(val: Values, val': Values) {
    forall n :: n in val ==> n in val' && val'[n] == val[n]
  }

  /** The nodes stand for the queries, followed by a pending node if there is one. */
  ghost predicate Lists(ns: seq<Node>, qs: seq<Query>, pend: Option<Node>, val: Values) {
    match pend
    case None => Has(ns, qs, val)
    case Some(x) => |ns| > 0 && ns[|ns| - 1] == x && Has(ns[..|ns| - 1], qs, val)
  }

  /** The nodes of a level that may still change: its And node `a`, the node `x` by which the level below
    * holds it, and what is growing. */
  datatype Cell = Cell(a: Node, x: Node, own: set<Node>)

  /** `l` is the last disjunct of a level. */
  ghost predicate LastOk(l: Node, last: Option<Query>, pend: Option<Node>, c: Cell, val: Values)
    reads c.own
  {
    match last
    case None => pend == Some(l)
    case Some(q) =>
      if l.kind.AndKind? then
        l in c.own && l != c.a && Lists(l.queries, Conjuncts(q), pend, val) && (pend == None ==> q.And?)
      else
        pend == None && l in val && val[l] == q && !q.And?
  }

  ghost predicate OrOk(o: Node, first: Query, last: Option<Query>, pend: Option<Node>, c: Cell, val: Values)
    reads c.own
  {
    && o in c.own && o.kind.OrKind? && |o.queries| == 2
    && o.queries[0] in val && val[o.queries[0]] == first
    && LastOk(o.queries[1], last, pend, c, val)
  }

  /** The nodes of a level hold the frame, and behind it the pending level above if there is one. */
  ghost predicate FrameOk(f: Frame, c: Cell, pend: Option<Node>, val: Values)
    reads c.own
  {
    && c.own !! val.Keys
    && c.a in c.own && c.x in c.own && c.a.kind.AndKind?
    && (if f.neg then c.x.kind.NotKind? && c.x.queries == [c.a] else c.x == c.a)
    && match f
       case Plain(items, _) => (forall q :: q in items ==> !q.Or?) && Lists(c.a.queries, items, pend, val)
       case Ored(first, last, _) =>
         |c.a.queries| == 1 && OrOk(c.a.queries[0], first, last, pend, c, val)
  }

  lemma SettleOne(n: Node, q: Query, val: Values)
    requires AllConsistent(val) && n !in val && Consistent(n, q, val)
    ensures AllConsistent(val[n := q]) && Extends(val, val[n := q])
  {
    var val' := val[n := q];
    forall m | m in val'.Keys
      ensures Consistent(m, val'[m], val')
    {
      if m != n {
        assert Consistent(m, val[m], val);
      }
    }
  }

  /** What a level holds it holds still when more nodes are settled elsewhere. */
  lemma FrameExtends(f: Frame, c: Cell, pend: Option<Node>, val: Values, val': Values)
    requires FrameOk(f, c, pend, val) && Extends(val, val') && c.own !! val'.Keys
    ensures FrameOk(f, c, pend, val')
  {
  }

  /** Settles what hangs below the And node of a level: then that node stands for the level's query. */
  ghost function Settle(f: Frame, c: Cell, val: Values): (val': Values)
    requires FrameOk(f, c, None, val)
    reads c.own
  {
    match f
    case Plain(_, _) => val
    case Ored(first, Some(q), _) =>
      var o := c.a.queries[0];
      var l := o.queries[1];
      var val1 := if l.kind.AndKind? then val[l := q] else val;
      val1[o := Or([first, q])]
    case Ored(_, None, _) => val
  }

  lemma SettleKeeps(f: Frame, c: Cell, val: Values)
    requires FrameOk(f, c, None, val) && AllConsistent(val)
    ensures var val' := Settle(f, c, val);
            && Extends(val, val') && AllConsistent(val') && val'.Keys <= val.Keys + c.own
            && c.a !in val'.Keys && c.x !in val'.Keys
            && Has(c.a.queries, Close(f).queries, val')
  {
    match f
    case Plain(_, _) =>
    case Ored(first, Some(q), _) =>
      var o := c.a.queries[0];
      var l := o.queries[1];
      if l.kind.AndKind? {
        SettleOne(l, q, val);
      }
      SettleOne(o, Or([first, q]), if l.kind.AndKind? then val[l := q] else val);
    case _ =>
  }

  /** A last disjunct that is an And and has `x` behind it. */
  lemma GrowingOk(f: Frame, c: Cell, o: Node, l: Node, ns: seq<Node>, x: Node, val: Values)
    requires c.own !! val.Keys && c.a in c.own && c.x in c.own && c.a.kind.AndKind?
    requires if f.neg then c.x.kind.NotKind? && c.x.queries == [c.a] else c.x == c.a
    requires f.Ored? && f.last.Some? && c.a.queries == [o]
    requires o in c.own && o.kind.OrKind? && |o.queries| == 2 && o.queries[1] == l
    requires o.queries[0] in val && val[o.queries[0]] == f.first
    requires l in c.own && l != c.a && l.kind.AndKind? && l.queries == ns + [x] && Has(ns, Conjuncts(f.last.value), val)
    ensures FrameOk(f, c, Some(x), val)
  {
  }

  lemma PlainOk(f: Frame, c: Cell, ns: seq<Node>, x: Node, val: Values)
    requires c.own !! val.Keys && c.a in c.own && c.x in c.own && c.a.kind.AndKind?
    requires if f.neg then c.x.kind.NotKind? && c.x.queries == [c.a] else c.x == c.a
    requires f.Plain? && (forall q :: q in f.items ==> !q.Or?) && c.a.queries == ns + [x] && Has(ns, f.items, val)
    ensures FrameOk(f, c, Some(x), val)
  {
  }

  /** An or node at the end of a level is there exactly after an OR. */
  lemma EndsInOr(f: Frame, c: Cell, val: Values)
    requires FrameOk(f, c, None, val) && AllConsistent(val)
    ensures f.Ored? <==> |c.a.queries| >= 1 && c.a.queries[|c.a.queries| - 1].kind.OrKind?
  {
    if f.Plain? && |c.a.queries| >= 1 {
      var n := c.a.queries[|c.a.queries| - 1];
      assert Consistent(n, val[n], val);
    }
  }

  /** Puts `x` at the end of a level: the part of `pushQuery` behind the NOT. `x` is pending there. */
  method AttachNode(a: Node, x: Node, orMode: bool, ghost f: Frame, ghost c: Cell, ghost val: Values)
    returns (kept: bool, ghost c': Cell, ghost val': Values)
    requires a == c.a && FrameOk(f, c, None, val) && AllConsistent(val)
    modifies c.own
    ensures kept == (!orMode && f.Ored?)
    ensures FrameOk(Turn(f, orMode), c', Some(x), val') && c'.a == c.a && c'.x == c.x
    ensures Extends(val, val') && AllConsistent(val')
    ensures forall n :: n in c'.own && n !in c.own ==> fresh(n)
    ensures forall n :: n in val' && n !in val && n !in c.own ==> fresh(n)
  {
    if orMode {
      kept, c', val' := AttachAfterOr(a, x, f, c, val);
      return;
    }
    val' := val;
    EndsInOr(f, c, val);
    if |a.queries| >= 1 && a.queries[|a.queries| - 1].kind.OrKind? {
      c' := AttachToLast(a.queries[|a.queries| - 1], x, f, c, val);
      return true, c', val';
    }
    c' := c;
    ghost var ns := a.queries;
    a.queries := a.queries + [x];
    PlainOk(f, c, ns, x, val);
    kept := false;
  }

  /** Puts `x` at the end of the last disjunct of `o`. */
  method AttachToLast(o: Node, x: Node, ghost f: Frame, ghost c: Cell, ghost val: Values) returns (ghost c': Cell)
    requires FrameOk(f, c, None, val) && f.Ored? && o == c.a.queries[0]
    modifies c.own - {c.a, c.x}
    ensures FrameOk(f, c', Some(x), val) && c'.a == c.a && c'.x == c.x
    ensures forall n :: n in c'.own && n !in c.own ==> fresh(n)
  {
    var last := o.queries[|o.queries| - 1];
    if last.kind.AndKind? {
      ghost var ns := last.queries;
      last.queries := last.queries + [x];
      c' := c;
      GrowingOk(f, c', o, last, ns, x, val);
    } else {
      var both := new Node(AndKind, [last, x]);
      o.queries := o.queries[|o.queries| - 1 := both];
      c' := c.(own := c.own + {both});
      GrowingOk(f, c', o, both, [last], x, val);
    }
  }

  method AttachAfterOr(a: Node, x: Node, ghost f: Frame, ghost c: Cell, ghost val: Values)
    returns (kept: bool, ghost c': Cell, ghost val': Values)
    requires a == c.a && FrameOk(f, c, None, val) && AllConsistent(val)
    modifies c.a
    ensures !kept
    ensures FrameOk(Turn(f, true), c', Some(x), val') && c'.a == c.a && c'.x == c.x
    ensures Extends(val, val') && AllConsistent(val')
    ensures forall n :: n in c'.own && n !in c.own ==> fresh(n)
    ensures forall n :: n in val' && n !in val && n !in c.own ==> fresh(n)
  {
    SettleKeeps(f, c, val);
    ghost var val1 := Settle(f, c, val);
    var first := new Node(AndKind, a.queries);
    var o := new Node(OrKind, [first, x]);
    a.queries := [o];
    SettleOne(first, Close(f), val1);
    val' := val1[first := Close(f)];
    c' := Cell(c.a, c.x, {c.a, c.x, o});
    kept := false;
    TurnedOk(f, c', first, o, x, val');
  }

  lemma TurnedOk(f: Frame, c: Cell, first: Node, o: Node, x: Node, val: Values)
    requires c.own == {c.a, c.x, o} && c.own !! val.Keys && c.a.kind.AndKind? && o.kind.OrKind?
    requires if f.neg then c.x.kind.NotKind? && c.x.queries == [c.a] else c.x == c.a
    requires c.a.queries == [o] && o.queries == [first, x] && first in val && val[first] == Close(f)
    ensures FrameOk(Turn(f, true), c, Some(x), val)
  {
  }

  /** A pending node that is settled is attached. */
  lemma Attached(g: Frame, c: Cell, x: Node, val: Values)
    requires FrameOk(g, c, Some(x), val) && AllConsistent(val) && x in val && !val[x].Or?
    requires g.Ored? && g.last == None ==> !val[x].And?
    ensures FrameOk(Attach(g, val[x]), c, None, val)
  {
    assert Consistent(x, val[x], val);
    match g
    case Plain(items, _) => ListsAttach(c.a.queries, items, x, val);
    case Ored(_, None, _) =>
    case Ored(_, Some(q), _) => ListsAttach(c.a.queries[0].queries[1].queries, Conjuncts(q), x, val);
  }

  lemma ListsAttach(ns: seq<Node>, qs: seq<Query>, x: Node, val: Values)
    requires Lists(ns, qs, Some(x), val) && x in val
    ensures Has(ns, qs + [val[x]], val)
  {
  }

  /** Settles a whole level. */
  lemma SettleLevel(h: Frame, d: Cell, val: Values) returns (val': Values)
    requires FrameOk(h, d, None, val) && AllConsistent(val)
    ensures AllConsistent(val') && Extends(val, val') && val'.Keys <= val.Keys + d.own
    ensures d.a in val' && val'[d.a] == Close(h)
    ensures d.x in val' && val'[d.x] == Wrap(h.neg, Close(h))
  {
    SettleKeeps(h, d, val);
    var val1 := Settle(h, d, val);
    SettleOne(d.a, Close(h), val1);
    val' := val1[d.a := Close(h)];
    if h.neg {
      assert Has(d.x.queries, [Close(h)], val');
      SettleOne(d.x, Not(Close(h)), val');
      val' := val'[d.x := Not(Close(h))];
    }
  }

  /** Closing a level attaches its query to the level below. Its nodes do not change: those that cannot
    * be reached from the level below any more are settled, and a bare parenthesis that is the whole of a
    * last disjunct goes on growing there. */
  lemma CloseLevel(g: Frame, c: Cell, h: Frame, d: Cell, val: Values) returns (c': Cell, val': Values)
    requires FrameOk(g, c, Some(d.x), val) && FrameOk(h, d, None, val) && AllConsistent(val)
    requires c.own !! d.own && c.own !! val.Keys
    ensures FrameOk(Attach(g, Wrap(h.neg, Close(h))), c', None, val') && AllConsistent(val') && Extends(val, val')
    ensures c'.a == c.a && c'.x == c.x && c'.own <= c.own + d.own && val'.Keys <= val.Keys + d.own
  {
    if g.Ored? && g.last == None && !h.neg {
      SettleKeeps(h, d, val);
      c', val' := c.(own := c.own + {d.a}), Settle(h, d, val);
      FrameExtends(g, c, Some(d.x), val, val');
      BareParenthesis(g, c, h, d, val');
    } else {
      c' := c;
      val' := SettleLevel(h, d, val);
      FrameExtends(g, c, Some(d.x), val, val');
      Attached(g, c, d.x, val');
    }
  }

  lemma BareParenthesis(g: Frame, c: Cell, h: Frame, d: Cell, val: Values)
    requires FrameOk(g, c, Some(d.x), val) && g.Ored? && g.last == None
    requires d.x == d.a && d.a.kind.AndKind? && d.a !in c.own && d.a !in val && Has(d.a.queries, Close(h).queries, val)
    ensures FrameOk(Attach(g, Close(h)), c.(own := c.own + {d.a}), None, val)
  {
  }

  /** ---- The stack ---- */

  ghost function Owned(cells: seq<Cell>): set<Node> {
    if cells == [] then {} else Owned(cells[..|cells| - 1]) + cells[|cells| - 1].own
  }

  /** The levels below a level that is held by the node `x`. */
  ghost predicate Lower(frames: seq<Frame>, cells: seq<Cell>, x: Node, val: Values)
    reads Owned(cells)
  {
    |frames| == |cells| &&
    (cells == [] ||
      var n := |cells| - 1;
      && FrameOk(frames[n], cells[n], Some(x), val)
      && Lower(frames[..n], cells[..n], cells[n].x, val)
      && Owned(cells[..n]) !! cells[n].own)
  }

  /** The nodes on the stack hold the frames: `c` the top one, `cells` those below. */
  ghost predicate StackOk(stack: seq<Node>, frames: seq<Frame>, cells: seq<Cell>, c: Cell, val: Values)
    reads Owned(cells), c.own, val.Keys
  {
    && |stack| == |frames| == |cells| + 1 && stack[|cells|] == c.a && (forall i :: 0 <= i < |cells| ==> stack[i] == cells[i].a)
    && Lower(frames[..|cells|], cells, c.x, val)
    && FrameOk(frames[|cells|], c, None, val)
    && Owned(cells) !! c.own && Owned(cells) !! val.Keys
    && AllConsistent(val)
  }

  lemma {:induction false} LowerExtends(frames: seq<Frame>, cells: seq<Cell>, x: Node, val: Values, val': Values)
    requires Lower(frames, cells, x, val) && Extends(val, val') && Owned(cells) !! val'.Keys
    ensures Lower(frames, cells, x, val')
    decreases |cells|
  {
    if cells != [] {
      var n := |cells| - 1;
      FrameExtends(frames[n], cells[n], Some(x), val, val');
      LowerExtends(frames[..n], cells[..n], cells[n].x, val, val');
    }
  }

  /** Puts the growing level with `x` pending in place of the top level. */
  method AttachToTop(stack: seq<Node>, x: Node, orMode: bool,
                     ghost frames: seq<Frame>, ghost cells: seq<Cell>, ghost below: set<Node>, ghost c: Cell, ghost val: Values)
    returns (kept: bool, ghost c': Cell, ghost val': Values)
    requires StackOk(stack, frames, cells, c, val) && below == Owned(cells)
    modifies c.own
    ensures kept == (!orMode && frames[|cells|].Ored?)
    ensures FrameOk(Turn(frames[|cells|], orMode), c', Some(x), val') && c'.a == c.a && c'.x == c.x
    ensures Lower(frames[..|cells|], cells, c.x, val') && Owned(cells) !! val'.Keys && Owned(cells) !! c'.own
    ensures AllConsistent(val') && Extends(val, val')
    ensures forall n :: n in c'.own && n !in c.own ==> fresh(n)
    ensures forall n :: n in val' && n !in val && n !in c.own ==> fresh(n)
  {
    kept, c', val' := AttachNode(stack[|stack| - 1], x, orMode, frames[|cells|], c, val);
    LowerExtends(frames[..|cells|], cells, c.x, val, val');
  }

  /** The nodes of a keyword, negated by its own operator and by a pending NOT. */
  method NewKeyword(leaf: Matchers.Leaf, negated: bool, notMode: bool, ghost val: Values) returns (x: Node, ghost val': Values)
    requires AllConsistent(val)
    ensures fresh(x) && x in val' && val'[x] == Wrap(notMode, Wrap(negated, Query.Leaf(leaf)))
    ensures Extends(val, val') && AllConsistent(val')
    ensures forall n :: n in val' && n !in val ==> fresh(n)
  {
    x := new Node(LeafKind(leaf), []);
    val' := val[x := Query.Leaf(leaf)];
    if negated {
      x, val' := NewNot(x, val');
    }
    if notMode {
      x, val' := NewNot(x, val');
    }
  }

  method NewNot(y: Node, ghost val: Values) returns (x: Node, ghost val': Values)
    requires AllConsistent(val) && y in val
    ensures fresh(x) && x in val' && val'[x] == Not(val[y])
    ensures Extends(val, val') && AllConsistent(val')
    ensures forall n :: n in val' && n !in val ==> n == x
  {
    x := new Node(NotKind, [y]);
    val' := val[x := Not(val[y])];
    assert Consistent(x, val'[x], val');
  }

  method PushKeyword(stack: seq<Node>, leaf: Matchers.Leaf, negated: bool, orMode: bool, notMode: bool,
                     ghost frames: seq<Frame>, ghost cells: seq<Cell>, ghost below: set<Node>, ghost c: Cell, ghost val: Values)
    returns (kept: bool, ghost c': Cell, ghost val': Values)
    requires StackOk(stack, frames, cells, c, val) && below == Owned(cells)
    modifies c.own
    ensures kept == (!orMode && frames[|cells|].Ored?)
    ensures var q := Wrap(notMode, Wrap(negated, Query.Leaf(leaf)));
            StackOk(stack, WithTop(frames, Attach(Turn(frames[|cells|], orMode), q)), cells, c', val')
    ensures forall n :: n in c'.own && n !in c.own ==> fresh(n)
  {
    var x;
    ghost var val1;
    x, val1 := NewKeyword(leaf, negated, notMode, val);
    FrameExtends(frames[|cells|], c, None, val, val1);
    LowerExtends(frames[..|cells|], cells, c.x, val, val1);
    kept, c', val' := AttachToTop(stack, x, orMode, frames, cells, below, c, val1);
    Attached(Turn(frames[|cells|], orMode), c', x, val');
  }

  /** The node of a parenthesis and the node by which it is held. */
  method NewParen(notMode: bool) returns (and: Node, x: Node)
    ensures fresh({and, x}) && and.kind.AndKind? && and.queries == []
    ensures if notMode then x.kind.NotKind? && x.queries == [and] else x == and
  {
    and := new Node(AndKind, []);
    x := and;
    if notMode {
      x := new Node(NotKind, [and]);
    }
  }

  /** Puts a new parenthesis at the end of the top level; its nodes are nowhere else. */
  method AttachParen(stack: seq<Node>, orMode: bool, notMode: bool,
                     ghost frames: seq<Frame>, ghost cells: seq<Cell>, ghost below: set<Node>, ghost c: Cell, ghost val: Values)
    returns (kept: bool, and: Node, ghost x: Node, ghost c': Cell, ghost val': Values)
    requires StackOk(stack, frames, cells, c, val) && below == Owned(cells)
    modifies c.own
    ensures kept == (!orMode && frames[|cells|].Ored?)
    ensures FrameOk(Turn(frames[|cells|], orMode), c', Some(x), val') && c'.a == c.a && c'.x == c.x
    ensures Lower(frames[..|cells|], cells, c.x, val') && Owned(cells) !! val'.Keys && Owned(cells) !! c'.own
    ensures AllConsistent(val') && forall n :: n in c'.own && n !in c.own ==> fresh(n)
    ensures fresh({and, x}) && {and, x} !! c'.own && {and, x} !! val'.Keys
    ensures FrameOk(Plain([], notMode), Cell(and, x, {and, x}), None, val')
  {
    var held;
    and, held := NewParen(notMode);
    x := held;
    kept, c', val' := AttachToTop(stack, held, orMode, frames, cells, below, c, val);
    FreshLevel(Cell(and, x, {and, x}), notMode, val');
  }

  method OpenParen(stack: seq<Node>, orMode: bool, notMode: bool,
                   ghost frames: seq<Frame>, ghost cells: seq<Cell>, ghost below: set<Node>, ghost c: Cell, ghost val: Values)
    returns (kept: bool, stack': seq<Node>, ghost cells': seq<Cell>, ghost c': Cell, ghost val': Values)
    requires StackOk(stack, frames, cells, c, val) && below == Owned(cells)
    modifies c.own
    ensures kept == (!orMode && frames[|cells|].Ored?)
    ensures StackOk(stack', WithTop(frames, Turn(frames[|cells|], orMode)) + [Plain([], notMode)], cells', c', val')
    ensures fresh(c'.own) && forall n :: n in Owned(cells') && n !in below && n !in c.own ==> fresh(n)
  {
    var and;
    ghost var x, c1;
    kept, and, x, c1, val' := AttachParen(stack, orMode, notMode, frames, cells, below, c, val);
    stack' := stack + [and];
    cells' := cells + [c1];
    c' := Cell(and, x, {and, x});
    OneMore(stack, frames, cells, c1, c', Turn(frames[|cells|], orMode), notMode, val');
  }

  lemma FreshLevel(d: Cell, neg: bool, val: Values)
    requires d.own == {d.a, d.x} && d.own !! val.Keys && d.a.kind.AndKind? && d.a.queries == []
    requires if neg then d.x.kind.NotKind? && d.x.queries == [d.a] else d.x == d.a
    ensures FrameOk(Plain([], neg), d, None, val)
  {
  }

  /** A fresh level on top of one that has it pending. */
  lemma OneMore(stack: seq<Node>, frames: seq<Frame>, cells: seq<Cell>, c: Cell, d: Cell, f: Frame, neg: bool, val: Values)
    requires |stack| == |frames| == |cells| + 1 && stack[|cells|] == c.a && forall i :: 0 <= i < |cells| ==> stack[i] == cells[i].a
    requires Lower(frames[..|cells|], cells, c.x, val) && FrameOk(f, c, Some(d.x), val) && FrameOk(Plain([], neg), d, None, val)
    requires AllConsistent(val) && Owned(cells) !! c.own && Owned(cells) !! val.Keys
    requires d.own !! Owned(cells) && d.own !! c.own && d.own !! val.Keys
    ensures Owned(cells + [c]) == Owned(cells) + c.own
    ensures StackOk(stack + [d.a], WithTop(frames, f) + [Plain([], neg)], cells + [c], d, val)
  {
    var frames' := WithTop(frames, f) + [Plain([], neg)];
    assert frames'[..|cells| + 1] == WithTop(frames, f) && WithTop(frames, f)[..|cells|] == frames[..|cells|];
    assert (cells + [c])[..|cells|] == cells;
    assert c.own !! val.Keys;
  }

  /** Taking the top level off the stack attaches its query to the level below. */
  lemma PopLevel(stack: seq<Node>, frames: seq<Frame>, cells: seq<Cell>, c: Cell, val: Values) returns (c': Cell, val': Values)
    requires StackOk(stack, frames, cells, c, val) && |stack| > 1
    ensures StackOk(stack[..|cells|], Pop(frames), cells[..|cells| - 1], c', val') && Extends(val, val')
    ensures c'.own <= Owned(cells) + c.own && Owned(cells[..|cells| - 1]) <= Owned(cells)
  {
    var n := |cells| - 1;
    assert frames[..|cells|][n] == frames[n] && frames[..|cells|][..n] == frames[..n];
    c', val' := CloseLevel(frames[n], cells[n], frames[n + 1], c, val);
    LowerExtends(frames[..n], cells[..n], cells[n].x, val, val');
    assert Pop(frames)[..n] == frames[..n];
  }

  /** Closing every level that is still open makes the bottom node stand for the query of the stack. */
  lemma CloseAll(stack: seq<Node>, frames: seq<Frame>, cells: seq<Cell>, c: Cell, val: Values) returns (val': Values)
    requires StackOk(stack, frames, cells, c, val)
    ensures AllConsistent(val') && stack[0] in val' && val'[stack[0]] == Collapse(frames)
    decreases |stack|
  {
    if |stack| == 1 {
      val' := SettleLevel(frames[0], c, val);
    } else {
      var c', val1 := PopLevel(stack, frames, cells, c, val);
      val' := CloseAll(stack[..|cells|], Pop(frames), cells[..|cells| - 1], c', val1);
    }
  }

  method CloseParen(stack: seq<Node>, ghost frames: seq<Frame>, ghost cells: seq<Cell>, ghost c: Cell, ghost val: Values)
    returns (stack': seq<Node>, ghost cells': seq<Cell>, ghost c': Cell, ghost val': Values)
    requires StackOk(stack, frames, cells, c, val)
    ensures StackOk(stack', if |stack| > 1 then Pop(frames) else [Plain([Close(frames[0])], false)], cells', c', val')
    ensures Owned(cells') <= Owned(cells)
    ensures forall n :: n in c'.own && n !in Owned(cells) && n !in c.own ==> fresh(n)
  {
    if |stack| > 1 {
      c', val' := PopLevel(stack, frames, cells, c, val);
      stack', cells' := stack[..|stack| - 1], cells[..|cells| - 1];
    } else {
      val' := SettleLevel(frames[0], c, val);
      var and := new Node(AndKind, [stack[0]]);
      stack', cells', c' := [and], [], Cell(and, and, {and});
      WrapLevel(c', Close(frames[0]), val');
    }
  }

  lemma WrapLevel(d: Cell, q: Query, val: Values)
    requires d.own == {d.a} && d.x == d.a && d.a !in val && d.a.kind.AndKind?
    requires Has(d.a.queries, [q], val) && !q.Or?
    ensures FrameOk(Plain([q], false), d, None, val)
  {
  }

  /** The query a settled node stands for. */
  method ReadTree(n: Node, ghost val: Values) returns (q: Query)
    requires AllConsistent(val) && n in val
    ensures q == val[n]
    decreases val[n], 1
  {
    assert Consistent(n, val[n], val);
    match n.kind
    case LeafKind(l) =>
      q := Query.Leaf(l);
    case AndKind =>
      var qs := ReadTrees(n.queries, val[n].queries, val);
      q := And(qs);
    case OrKind =>
      var qs := ReadTrees(n.queries, val[n].queries, val);
      q := Or(qs);
    case NotKind =>
      var x := ReadTree(n.queries[0], val);
      q := Not(x);
  }

  method ReadTrees(ns: seq<Node>, ghost want: seq<Query>, ghost val: Values) returns (qs: seq<Query>)
    requires AllConsistent(val) && Has(ns, want, val)
    ensures qs == want
    decreases want, 0
  {
    qs := [];
    for i := 0 to |ns|
      invariant qs == want[..i]
    {
      var q := ReadTree(ns[i], val);
      qs := qs + [q];
    }
  }

  /** The nodes of a stack that may still change. */
  ghost function Open(cells: seq<Cell>, c: Cell): set<Node> {
    Owned(cells) + c.own
  }

  /** One round of the loop over the tokens. */
  method StepToken(t: Token, stack: seq<Node>, orMode: bool, notMode: bool,
                   ghost frames: seq<Frame>, ghost cells: seq<Cell>, ghost open: set<Node>, ghost c: Cell, ghost val: Values)
    returns (stack': seq<Node>, orMode': bool, notMode': bool, ghost cells': seq<Cell>, ghost c': Cell, ghost val': Values)
    requires StackOk(stack, frames, cells, c, val) && open == Open(cells, c)
    modifies open
    ensures var s' := Step(State(frames, orMode, notMode), t);
            StackOk(stack', s'.frames, cells', c', val') && orMode' == s'.orMode && notMode' == s'.notMode
    ensures forall n :: n in Open(cells', c') && n !in open ==> fresh(n)
  {
    stack', orMode', notMode', cells', c', val' := stack, orMode, notMode, cells, c, val;
    var kept;
    match t
    case LParen =>
      kept, stack', cells', c', val' := OpenParen(stack, orMode, notMode, frames, cells, open - c.own, c, val);
      orMode', notMode' := false, kept && notMode;
    case RParen =>
      stack', cells', c', val' := CloseParen(stack, frames, cells, c, val);
      orMode', notMode' := false, false;
    case OrToken =>
      orMode', notMode' := true, false;
    case NotToken =>
      notMode' := !notMode;
    case Keyword(leaf, negated) =>
      kept, c', val' := PushKeyword(stack, leaf, negated, orMode, notMode, frames, cells, open - c.own, c, val);
      orMode', notMode' := false, kept && notMode;
  }

  /** `ParseQuery`. Open parentheses sit both on the stack and in the tree, and a closed one may go on
    * growing as the last disjunct; still, for every token stream the tree is the one of the machine on values. */
  method ParseQuery(tokens: seq<Token>) returns (q: Query)
    ensures q == Optimize(Parsed(tokens))
  {
    var root := new Node(AndKind, []);
    var stack := [root];
    var orMode, notMode := false, false;
    ghost var frames: seq<Frame> := START.frames;
    ghost var cells: seq<Cell>, c, val: Values := [], Cell(root, root, {root}), map[];
    FreshLevel(c, false, val);
    for i := 0 to |tokens|
      invariant fresh(Open(cells, c))
      invariant StackOk(stack, frames, cells, c, val)
      invariant Run(tokens[i..], State(frames, orMode, notMode)) == Run(tokens, START)
    {
      assert tokens[i..][0] == tokens[i] && tokens[i..][1..] == tokens[i + 1..];
      ghost var s' := Step(State(frames, orMode, notMode), tokens[i]);
      stack, orMode, notMode, cells, c, val :=
        StepToken(tokens[i], stack, orMode, notMode, frames, cells, Open(cells, c), c, val);
      frames := s'.frames;
    }
    assert tokens[|tokens|..] == [];
    val := CloseAll(stack, frames, cells, c, val);
    var tree := ReadTree(stack[0], val);
    q := Optimize(tree);
  }
}
