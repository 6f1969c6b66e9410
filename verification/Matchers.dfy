/** The leaves of a query: internal/query/valuematcher.go and the leaf cases of internal/query/query.go. */
module Matchers {
  import opened Common
  import Glob

  datatype Operator = Includes | Equal | LessThan | GreaterThan | LessEqual | GreaterEqual

  /** The bits of an operator: Includes has none of them. */
  predicate HasEqual(op: Operator) { op in {Equal, LessEqual, GreaterEqual} }
  predicate HasLess(op: Operator) { op in {LessThan, LessEqual} }
  predicate HasGreater(op: Operator) { op in {GreaterThan, GreaterEqual} }

  /** A field of a record. A text carries the time it reads as, if any, and a number the instant it stands for. */
  datatype Value = Instant(t: Time) | Text(s: string, asTime: Option<Time>) | Number(n: int, asInstant: Time) | Other

  datatype ValueMatcher =
    | TimeMatcher(op: Operator, value: Time, resolution: Time, str: string)
    | AnyMatcher
    | OtherMatcher(accepts: iset<Value>)

  datatype Record = Record(time: Time, status: Value, latency: Value, target: Value, message: Value,
                           extra: map<string, seq<Value>>)

  datatype Leaf = Simple(value: ValueMatcher) | Field(key: Glob.StringMatcher, fieldValue: ValueMatcher)

  /** A time literal covers `resolution` nanoseconds from `base` on. The matcher of `>` and `<=` is
    * anchored at the last of them, that of the other operators at the first. */
  function TimeLiteral(op: Operator, base: Time, resolution: Time, str: string): ValueMatcher {
    TimeMatcher(op, if op == GreaterThan || op == LessEqual then base + resolution - 1 else base, resolution, str)
  }

  /** `timeValueMatcher.Match` on an instant. */
  predicate TimeMatch(op: Operator, value: Time, resolution: Time, t: Time) {
    if HasEqual(op) && t == value then true
    else if HasLess(op) then t < value
    else if HasGreater(op) then t > value
    else value <= t < value + resolution
  }

  ghost predicate ValueMatch(m: ValueMatcher, v: Value) {
    match m
    case AnyMatcher => true
    case OtherMatcher(accepts) => v in accepts
    case TimeMatcher(op, value, resolution, str) =>
      match v
      case Instant(t) => TimeMatch(op, value, resolution, t)
      case Text(s, asTime) =>
        || (op == Includes && exists k :: Glob.OccursAt(s, str, k))
        || (asTime.Some? && TimeMatch(op, value, resolution, asTime.value))
      case Number(_, t) => TimeMatch(op, value, resolution, t)
      case Other => false
  }

  ghost predicate KeyMatch(key: Glob.StringMatcher, name: string) {
    Glob.Splits(key.Meaning(), name)
  }

  ghost predicate LeafMatch(l: Leaf, r: Record) {
    match l
    case Simple(m) =>
      || ValueMatch(m, Instant(r.time))
      || ValueMatch(m, r.status)
      || ValueMatch(m, r.latency)
      || ValueMatch(m, r.target)
      || ValueMatch(m, r.message)
    case Field(key, m) =>
      || (KeyMatch(key, "time") && ValueMatch(m, Instant(r.time)))
      || (KeyMatch(key, "status") && ValueMatch(m, r.status))
      || (KeyMatch(key, "latency") && ValueMatch(m, r.latency))
      || (KeyMatch(key, "target") && ValueMatch(m, r.target))
      || (KeyMatch(key, "message") && ValueMatch(m, r.message))
      || exists k, v :: k in r.extra && KeyMatch(key, k) && v in r.extra[k] && ValueMatch(m, v)
  }

  /** The value is an instant, a number that stands for one, or a text that reads as one. */
  predicate StandsFor(v: Value, t: Time) {
    match v
    case Instant(u) => u == t
    case Number(_, u) => u == t
    case Text(_, asTime) => asTime == Some(t)
    case Other => false
  }

  /** The operators on one literal: `<`, `=` and `>` split the instants into those before the literal's
    * interval, in it and behind it, and `<=` and `>=` complement `>` and `<`. Without an operator the literal is also
    * looked for as a text. */
  lemma LiteralPartition(base: Time, resolution: Time, t: Time, str: string, v: Value)
    requires resolution > 0 && StandsFor(v, t)
    ensures var M := op => ValueMatch(TimeLiteral(op, base, resolution, str), v);
            && (M(LessThan) <==> t < base)
            && (M(Equal) <==> base <= t < base + resolution)
            && (M(Includes) <==> M(Equal) || (v.Text? && exists k :: Glob.OccursAt(v.s, str, k)))
            && (M(GreaterThan) <==> base + resolution <= t)
            && (M(LessEqual) <==> !M(GreaterThan))
            && (M(GreaterEqual) <==> !M(LessThan))
  {
  }

  /** A value that stands for no instant is matched by a literal without an operator at most, as a text. */
  lemma LiteralOnOthers(op: Operator, base: Time, resolution: Time, str: string, v: Value)
    requires v == Other || (v.Text? && v.asTime == None)
    ensures ValueMatch(TimeLiteral(op, base, resolution, str), v) <==>
            op == Includes && v.Text? && exists k :: Glob.OccursAt(v.s, str, k)
  {
  }

  /** ---- The instants a leaf confines a record to ---- */

  datatype Range = Range(start: Option<Time>, end: Option<Time>)

  const EVERYTHING := Range(None, None)

  predicate InRange(rg: Range, t: Time) {
    && (rg.start.Some? ==> rg.start.value <= t)
    && (rg.end.Some? ==> t <= rg.end.value)
  }

  function MatcherRange(op: Operator, value: Time, resolution: Time): Range {
    match op
    case Equal => Range(Some(value), Some(value + resolution - 1))
    case Includes => Range(Some(value), Some(value + resolution - 1))
    case LessThan => Range(None, Some(value - 1))
    case LessEqual => Range(None, Some(value))
    case GreaterThan => Range(Some(value + 1), None)
    case GreaterEqual => Range(Some(value), None)
  }

  /** The range of a matcher holds exactly the instants it matches. */
  lemma MatcherRangeExact(op: Operator, value: Time, resolution: Time, t: Time)
    requires resolution > 0
    ensures InRange(MatcherRange(op, value, resolution), t) <==> TimeMatch(op, value, resolution, t)
  {
  }

  ghost function LeafRange(l: Leaf): Range {
    match l
    case Simple(TimeMatcher(op, value, resolution, _)) => MatcherRange(op, value, resolution)
    case Field(key, TimeMatcher(op, value, resolution, _)) =>
      if KeyMatch(key, "time") then MatcherRange(op, value, resolution) else EVERYTHING
    case _ => EVERYTHING
  }

  predicate PositiveResolution(l: Leaf) {
    var m := if l.Simple? then l.value else l.fieldValue;
    m.TimeMatcher? ==> m.resolution > 0
  }

  /** A time condition on exactly the field `time`. */
  predicate ExactTimeLeaf(l: Leaf) {
    l.Field? && l.key == Glob.Exact("time") && l.fieldValue.TimeMatcher? && l.fieldValue.resolution > 0
  }

  /** Such a leaf matches exactly the records in its range. */
  lemma TimeLeafExact(l: Leaf, r: Record)
    requires ExactTimeLeaf(l) && "time" !in r.extra
    ensures LeafMatch(l, r) <==> InRange(LeafRange(l), r.time)
  {
    forall name: string
      ensures KeyMatch(l.key, name) <==> name == "time"
    {
      Glob.ExactSplits("time", name);
    }
    var m := l.fieldValue;
    MatcherRangeExact(m.op, m.value, m.resolution, r.time);
    assert "status" != "time" && "latency" != "time" && "target" != "time" && "message" != "time" by {
      assert |"status"| == 6 && |"latency"| == 7 && |"target"| == 6 && |"message"| == 7 && |"time"| == 4;
    }
  }

  const NAMED: set<string> := {"time", "status", "latency", "target", "message"}

  function NamedField(r: Record, name: string): Value
    requires name in NAMED
  {
    if name == "time" then Instant(r.time)
    else if name == "status" then r.status
    else if name == "latency" then r.latency
    else if name == "target" then r.target
    else r.message
  }

  /** A condition on exactly one of the named fields, which the record does not have twice, is about that field alone. */
  lemma NamedFieldExact(name: string, m: ValueMatcher, r: Record)
    requires name in NAMED && name !in r.extra
    ensures LeafMatch(Field(Glob.Exact(name), m), r) <==> ValueMatch(m, NamedField(r, name))
  {
    NamesDiffer();
    forall other: string
      ensures KeyMatch(Glob.Exact(name), other) <==> name == other
    {
      Glob.ExactSplits(name, other);
    }
  }

  /** A condition on exactly another field is met by the records of which some value under that key meets it. */
  lemma ExtraFieldExact(key: string, m: ValueMatcher, r: Record)
    requires key !in NAMED
    ensures LeafMatch(Field(Glob.Exact(key), m), r) <==> key in r.extra && exists v :: v in r.extra[key] && ValueMatch(m, v)
  {
    forall other: string
      ensures KeyMatch(Glob.Exact(key), other) <==> key == other
    {
      Glob.ExactSplits(key, other);
    }
  }

  lemma NamesDiffer()
    ensures var names := ["time", "status", "latency", "target", "message"];
            forall i, j :: 0 <= i < j < |names| ==> names[i] != names[j]
  {
    assert |"status"| == 6 && |"latency"| == 7 && |"target"| == 6 && |"message"| == 7 && |"time"| == 4;
    assert "status"[0] != "target"[0] && "latency"[0] != "message"[0];
  }

  /** A record a leaf does not match is outside the leaf's range, whatever its key, when the range has one side. */
  lemma UnmatchedOutside(l: Leaf, r: Record)
    requires PositiveResolution(l) && !LeafMatch(l, r)
    ensures LeafRange(l) == EVERYTHING || !InRange(LeafRange(l), r.time)
  {
    if LeafRange(l) != EVERYTHING {
      var m := if l.Simple? then l.value else l.fieldValue;
      MatcherRangeExact(m.op, m.value, m.resolution, r.time);
    }
  }
}
