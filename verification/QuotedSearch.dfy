/** From the text of a query to its matches: internal/query/tokenizer.go and internal/query/query.go together. */
module QuotedSearch {
  import opened Common
  import Glob
  import opened Matchers
  import opened Query
  import opened QueryMachine
  import opened QueryGrammar
  import Tokenizers
  import opened QuotedTokens
  import opened GlobBuilders

  /** What the model does not look into: which texts can be ordered, that is read as a number, a duration or a time,
    * and what their matchers are; how a value that is no text is printed; and the matcher of a field's name. */
  datatype Builders = Builders(canOrder: string -> bool, ordered: (string, Operator) -> ValueMatcher,
                               shown: Value -> string, key: Glob.Pattern -> Glob.StringMatcher)

  /** The text that a value is matched by. */
  function TextOf(v: Value, b: Builders): string {
    match v
    case Text(s, _) => s
    case _ => b.shown(v)
  }

  /** ---- The matcher of a value ---- */

  /** The pattern of a text condition: without an operator the text may stand anywhere. */
  function TextPattern(parts: Glob.Pattern, op: Operator): Glob.Pattern {
    if op == Includes then [None] + parts + [None] else parts
  }

  /** The values with a text that the pattern splits; a pattern of empty literals only is taken for a star. */
  ghost function Splitting(pattern: Glob.Pattern, b: Builders): iset<Value> {
    iset v: Value | OnlyEmptyLiterals(pattern) || Glob.Splits(pattern, TextOf(v, b))
  }

  /** The matcher of what the lexer found. */
  ghost function MatcherOf(value: Tokenizers.ValueSpec, b: Builders): ValueMatcher {
    match value
    case AnyValue => AnyMatcher
    case ValueOf(parts, op) =>
      if |parts| == 1 && parts[0].Some? && b.canOrder(parts[0].value) then b.ordered(parts[0].value, op)
      else OtherMatcher(Splitting(TextPattern(parts, op), b))
  }

  /** The matcher that is built for a text condition accepts just those values. */
  method NewStringValueMatcher(parts: Glob.Pattern, op: Operator, b: Builders) returns (m: Glob.StringMatcher)
    ensures m.Valid()
    ensures forall v :: Glob.Splits(m.Meaning(), TextOf(v, b)) <==> v in Splitting(TextPattern(parts, op), b)
  {
    m := NewStringMatcher(TextPattern(parts, op));
  }

  /** ---- From tokens to conditions ---- */

  /** The parser's token. */
  ghost function Compile(t: Tokenizers.Token, b: Builders): Token {
    match t
    case LParen => LParen
    case RParen => RParen
    case OrToken => OrToken
    case NotToken => NotToken
    case SimpleKeyword(not, value) => Keyword(Simple(MatcherOf(value, b)), not)
    case FieldKeyword(key, not, value) => Keyword(Field(b.key(key), MatcherOf(value, b)), not)
  }

  ghost function CompileAll(ts: seq<Tokenizers.Token>, b: Builders): seq<Token> {
    if ts == [] then [] else [Compile(ts[0], b)] + CompileAll(ts[1..], b)
  }

  /** The condition that a record contains a text. */
  ghost function TextLeaf(text: string, b: Builders): Leaf {
    Simple(MatcherOf(Tokenizers.ValueOf([Some(text)], Includes), b))
  }

  ghost function WordOf(text: string, b: Builders): Factor {
    Factor(0, Word(TextLeaf(text, b), false))
  }

  ghost function Words(texts: seq<string>, b: Builders): seq<Factor> {
    if texts == [] then [] else Words(texts[..|texts| - 1], b) + [WordOf(texts[|texts| - 1], b)]
  }

  lemma FactorsSnoc(fs: seq<Factor>, text: string, b: Builders, r: Record)
    ensures PrintFactors(fs + [WordOf(text, b)]) == PrintFactors(fs) + [Keyword(TextLeaf(text, b), false)]
    ensures WellFormedFactors(fs + [WordOf(text, b)]) == WellFormedFactors(fs)
    ensures AllFactors(fs + [WordOf(text, b)], r) == (AllFactors(fs, r) && LeafMatch(TextLeaf(text, b), r))
  {
    var f := WordOf(text, b);
    assert (fs + [f])[..|fs|] == fs && (fs + [f])[|fs|] == f;
    assert PrintFactor(f) == [Keyword(TextLeaf(text, b), false)];
    assert AcceptsFactor(f, r) == LeafMatch(TextLeaf(text, b), r);
  }

  lemma {:induction false} KeywordsSnoc(texts: seq<string>, text: string, b: Builders)
    ensures CompileAll(Keywords(texts + [text]), b) ==
            CompileAll(Keywords(texts), b) + [Keyword(TextLeaf(text, b), false)]
  {
    if texts == [] {
      assert (texts + [text])[1..] == [];
    } else {
      KeywordsSnoc(texts[1..], text, b);
      assert (texts + [text])[1..] == texts[1..] + [text];
    }
  }

  lemma {:induction false} WordsPrinted(texts: seq<string>, b: Builders, r: Record)
    ensures PrintFactors(Words(texts, b)) == CompileAll(Keywords(texts), b)
    ensures WellFormedFactors(Words(texts, b))
  {
    if texts != [] {
      var init, last := texts[..|texts| - 1], texts[|texts| - 1];
      WordsPrinted(init, b, r);
      KeywordsSnoc(init, last, b);
      FactorsSnoc(Words(init, b), last, b, r);
      assert texts == init + [last];
    }
  }

  /** The record matches each of the texts. */
  ghost predicate Found(texts: seq<string>, b: Builders, r: Record) {
    forall i :: 0 <= i < |texts| ==> LeafMatch(TextLeaf(texts[i], b), r)
  }

  lemma FoundSnoc(texts: seq<string>, text: string, b: Builders, r: Record)
    ensures Found(texts + [text], b, r) == (Found(texts, b, r) && LeafMatch(TextLeaf(text, b), r))
  {
    var all := texts + [text];
    assert all[|texts|] == text && forall i :: 0 <= i < |texts| ==> all[i] == texts[i];
  }

  lemma {:induction false} WordsAccept(texts: seq<string>, b: Builders, r: Record)
    ensures AllFactors(Words(texts, b), r) == Found(texts, b, r)
  {
    if texts != [] {
      var init, last := texts[..|texts| - 1], texts[|texts| - 1];
      assert texts == init + [last];
      WordsAccept(init, b, r);
      FactorsSnoc(Words(init, b), last, b, r);
      FoundSnoc(init, last, b, r);
    }
  }

  /** An expression without OR. */
  lemma OneTerm(factors: seq<Factor>, r: Record)
    requires WellFormedFactors(factors)
    ensures var e := Expr([Term(factors)]);
            WellFormed(e) && Print(e) == PrintFactors(factors) && Accepts(e, r) == AllFactors(factors, r)
  {
    var term := Term(factors);
    var before := [term][..0];
    assert before == [] && [term][|[term]| - 1] == term;
    assert WellFormedTerms(before) && !AnyTerm(before, r);
    assert AnyTerm([term], r) == AllFactors(factors, r);
  }

  /** ---- What a text finds ---- */

  /** The fields that a condition without a field name looks at. */
  function FieldsOf(r: Record): set<Value> {
    {Instant(r.time), r.status, r.latency, r.target, r.message}
  }

  ghost predicate Contains(s: string, text: string) {
    exists k :: Glob.OccursAt(s, text, k)
  }

  /** A text that cannot be ordered is found where it occurs in a field. */
  lemma TextFound(text: string, b: Builders, r: Record)
    requires !b.canOrder(text)
    ensures LeafMatch(TextLeaf(text, b), r) <==> exists v :: v in FieldsOf(r) && Contains(TextOf(v, b), text)
  {
    var pattern: Glob.Pattern := [None, Some(text), None];
    assert TextPattern([Some(text)], Includes) == pattern;
    forall v: Value
      ensures v in Splitting(pattern, b) <==> Contains(TextOf(v, b), text)
    {
      assert pattern[0] == None;
      Glob.IncludeSplits(text, TextOf(v, b));
    }
  }

  /** Each of the texts is found: by its own matcher when it can be ordered, and in some field when it cannot. */
  ghost predicate AllFound(texts: seq<string>, b: Builders, r: Record) {
    forall i :: 0 <= i < |texts| ==>
      if b.canOrder(texts[i]) then LeafMatch(Simple(b.ordered(texts[i], Includes)), r)
      else exists v :: v in FieldsOf(r) && Contains(TextOf(v, b), texts[i])
  }

  /** A query of texts in quotes finds exactly the records in which each of the texts is found, whatever the texts
    * hold: lexer, parser, matchers and optimizer together. */
  lemma QuotedTextsFound(texts: seq<string>, b: Builders, r: Record)
    requires forall i :: 0 <= i < |texts| ==> texts[i] != ""
    ensures var tokens := CompileAll(Tokenizers.Tokens(Printed(texts), Tokenizers.LParen, b.canOrder), b);
            Match(Optimize(Parsed(tokens)), r) <==> AllFound(texts, b, r)
  {
    TokensPrinted(texts, Tokenizers.LParen, b.canOrder);
    WordsPrinted(texts, b, r);
    WordsAccept(texts, b, r);
    OneTerm(Words(texts, b), r);
    ParsedAsWritten(Expr([Term(Words(texts, b))]), r);
    forall i | 0 <= i < |texts| && !b.canOrder(texts[i])
      ensures LeafMatch(TextLeaf(texts[i], b), r) <==> exists v :: v in FieldsOf(r) && Contains(TextOf(v, b), texts[i])
    {
      TextFound(texts[i], b, r);
    }
  }
}
