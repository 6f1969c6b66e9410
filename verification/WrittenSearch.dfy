/** What written queries find: internal/query/tokenizer.go and internal/query/query.go together. */
module WrittenSearch {
  import opened Common
  import Glob
  import opened Matchers
  import opened Query
  import opened QueryMachine
  import opened QueryGrammar
  import Tokenizers
  import opened QuotedTokens
  import opened QuotedSearch
  import opened WrittenWords
  import W = WrittenTokens

  /** The record is found by the query with this text. */
  ghost predicate Finds(s: string, b: Builders, r: Record) {
    Match(Optimize(Parsed(CompileAll(Tokenizers.Tokens(s, Tokenizers.LParen, b.canOrder), b))), r)
  }

  /** A written query of which the tokens are those of an expression finds what the expression accepts. */
  lemma WrittenFound(ws: seq<W.Spaced>, e: Expr, b: Builders, r: Record)
    requires W.WellSpaced(ws) && WellFormed(e)
    requires CompileAll(W.TokensFor(ws, Tokenizers.LParen, b.canOrder), b) == Print(e)
    ensures Finds(W.TextOf(ws), b, r) <==> Accepts(e, r)
  {
    W.WrittenScanned(ws, Tokenizers.LParen, b.canOrder);
    ParsedAsWritten(e, r);
  }

  /** ---- One word ---- */

  lemma CompiledOne(t: Tokenizers.Token, b: Builders)
    ensures CompileAll([t], b) == [Compile(t, b)]
  {
    assert [t][1..] == [];
  }

  lemma FactorAdded(fs: seq<Factor>, nots: nat, l: Leaf, negated: bool, r: Record)
    requires nots < 2
    ensures var f := Factor(nots, Word(l, negated));
            && PrintFactors(fs + [f]) == PrintFactors(fs) + (if nots == 0 then [] else [NotToken]) + [Keyword(l, negated)]
            && WellFormedFactors(fs + [f]) == WellFormedFactors(fs)
            && AllFactors(fs + [f], r) == (AllFactors(fs, r) && ((LeafMatch(l, r) != negated) == (nots == 0)))
  {
    var f := Factor(nots, Word(l, negated));
    assert (fs + [f])[..|fs|] == fs && (fs + [f])[|fs|] == f;
    assert NotTokens(0) == [] && NotTokens(1) == [NotToken] + NotTokens(0);
    assert PrintFactor(f) == (if nots == 0 then [] else [NotToken]) + [Keyword(l, negated)];
    assert AcceptsFactor(f, r) == ((LeafMatch(l, r) != negated) == (nots == 0));
  }

  lemma OneKeyword(l: Leaf, negated: bool, r: Record)
    ensures var e := Expr([Term([Factor(0, Word(l, negated))])]);
            WellFormed(e) && Print(e) == [Keyword(l, negated)] && (Accepts(e, r) <==> LeafMatch(l, r) != negated)
  {
    var f := Factor(0, Word(l, negated));
    FactorAdded([], 0, l, negated, r);
    assert [] + [f] == [f] && PrintFactors([f]) == [Keyword(l, negated)];
    QuotedSearch.OneTerm([f], r);
  }

  lemma TextOfOne(w: Written)
    ensures W.TextOf([W.Spaced(W.Term(w), "")]) == WordText(w)
  {
    var ws := [W.Spaced(W.Term(w), "")];
    assert ws[1..] == [] && W.TextOf([]) == "";
    assert "" + "" == "" && WordText(w) + "" == WordText(w);
  }

  lemma OneItem(w: Written, canOrder: string -> bool)
    requires W.ProperItem(W.Term(w))
    ensures var ws := [W.Spaced(W.Term(w), "")];
            W.WellSpaced(ws) && W.TokensFor(ws, Tokenizers.LParen, canOrder) == [TokenOf(w, canOrder)]
  {
    var ws := [W.Spaced(W.Term(w), "")];
    assert ws[1..] == [] && W.TextOf([]) == "" && "" + "" == "";
  }

  /** A word alone finds what its keyword does. */
  lemma WordFinds(w: Written, b: Builders, r: Record)
    requires W.ProperItem(W.Term(w))
    ensures var t := Compile(TokenOf(w, b.canOrder), b);
            t.Keyword? && (Finds(WordText(w), b, r) <==> LeafMatch(t.leaf, r) != t.negated)
  {
    var t := Compile(TokenOf(w, b.canOrder), b);
    assert t.Keyword?;
    TextOfOne(w);
    OneItem(w, b.canOrder);
    CompiledOne(TokenOf(w, b.canOrder), b);
    OneKeyword(t.leaf, t.negated, r);
    WrittenFound([W.Spaced(W.Term(w), "")], Expr([Term([Factor(0, Word(t.leaf, t.negated))])]), b, r);
  }

  /** ---- Conditions on fields ---- */

  /** `!=` and `<>` find exactly the records that `=` does not, whatever the key and the value are. */
  lemma NegationFinds(key: seq<Part>, m: Mark, value: seq<Part>, b: Builders, r: Record)
    requires W.ProperItem(W.Term(Condition(key, m, value))) && Negates(m)
    requires Pattern(key, "") != [] || Pattern(value, "") != []
    ensures Finds(WordText(Condition(key, m, value)), b, r) <==> !Finds(WordText(Condition(key, Is, value)), b, r)
  {
    WordFinds(Condition(key, m, value), b, r);
    WordFinds(Condition(key, Is, value), b, r);
  }

  lemma QuotedItem(k: string, m: Mark, v: string)
    requires k != "" && v != ""
    ensures var w := Condition([InQuotes(k)], m, [InQuotes(v)]);
            && W.ProperItem(W.Term(w)) && WordText(w) == Quoted(k) + MarkText(m) + Quoted(v)
            && Pattern([InQuotes(k)], "") == [Some(k)] && Pattern([InQuotes(v)], "") == [Some(v)]
  {
    SpelledOne(InQuotes(k));
    SpelledOne(InQuotes(v));
    OneText(k);
    OneText(v);
  }

  /** `"k"!="v"` finds exactly the records that `"k"="v"` does not. */
  lemma QuotedNegation(k: string, m: Mark, v: string, b: Builders, r: Record)
    requires k != "" && v != "" && Negates(m)
    ensures Finds(Quoted(k) + MarkText(m) + Quoted(v), b, r) <==> !Finds(Quoted(k) + "=" + Quoted(v), b, r)
  {
    QuotedItem(k, m, v);
    QuotedItem(k, Is, v);
    NegationFinds([InQuotes(k)], m, [InQuotes(v)], b, r);
  }

  lemma FieldToken(k: string, m: Mark, v: string, canOrder: string -> bool)
    requires k != "" && v != "" && (MarkOp(m) == Equal || canOrder(v))
    ensures TokenOf(Condition([InQuotes(k)], m, [InQuotes(v)]), canOrder) ==
            Tokenizers.FieldKeyword([Some(k)], Negates(m), Tokenizers.ValueOf([Some(v)], MarkOp(m)))
  {
    OneText(k);
    OneText(v);
  }

  /** A condition on exactly one of the named fields compares that field with the value by the operator, if the operator
    * is an equality or the value can be ordered. */
  lemma FieldFinds(k: string, m: Mark, v: string, b: Builders, r: Record)
    requires k in NAMED && k !in r.extra && v != "" && b.key([Some(k)]) == Glob.Exact(k)
    requires MarkOp(m) == Equal || b.canOrder(v)
    ensures Finds(Quoted(k) + MarkText(m) + Quoted(v), b, r) <==>
            ValueMatch(MatcherOf(Tokenizers.ValueOf([Some(v)], MarkOp(m)), b), NamedField(r, k)) != Negates(m)
  {
    var w := Condition([InQuotes(k)], m, [InQuotes(v)]);
    QuotedItem(k, m, v);
    WordFinds(w, b, r);
    FieldToken(k, m, v, b.canOrder);
    NamedFieldExact(k, MatcherOf(Tokenizers.ValueOf([Some(v)], MarkOp(m)), b), r);
  }

  /** With a text that cannot be ordered it asks whether the text of the field is the value, or is not. */
  lemma FieldTextFinds(k: string, m: Mark, v: string, b: Builders, r: Record)
    requires k in NAMED && k !in r.extra && v != "" && b.key([Some(k)]) == Glob.Exact(k)
    requires MarkOp(m) == Equal && !b.canOrder(v)
    ensures Finds(Quoted(k) + MarkText(m) + Quoted(v), b, r) <==> (TextOf(NamedField(r, k), b) == v) != Negates(m)
  {
    FieldFinds(k, m, v, b, r);
    var pattern: Glob.Pattern := [Some(v)];
    assert pattern[0] == Some(v);
    Glob.ExactSplits(v, TextOf(NamedField(r, k), b));
  }

  /** ---- An `and` at the end ---- */

  const NOT_WORD := W.Spaced(W.NotWord("not"), " ")
  const AND_WORD := W.Spaced(W.AndWord("and"), " ")

  lemma LastAnd(t: Tokenizers.Token, canOrder: string -> bool)
    ensures W.WellSpaced([AND_WORD]) && W.TextOf([AND_WORD]) == "and " && W.TokensFor([AND_WORD], t, canOrder) == [t]
  {
    var last := [AND_WORD];
    assert last[1..] == [] && W.TextOf([]) == "";
    assert " " + "" == " " && "and" + " " == "and ";
  }

  lemma TermAnd(w: Written, buf: Tokenizers.Token, canOrder: string -> bool)
    requires W.ProperItem(W.Term(w)) && W.Follows(W.Term(w), " ")
    ensures var ws := [W.Spaced(W.Term(w), " "), AND_WORD];
            var t := TokenOf(w, canOrder);
            && W.WellSpaced(ws) && W.TextOf(ws) == WordText(w) + " and " && W.TokensFor(ws, buf, canOrder) == [t, t]
  {
    var ws, t := [W.Spaced(W.Term(w), " "), AND_WORD], TokenOf(w, canOrder);
    LastAnd(t, canOrder);
    var rest := " " + "and ";
    assert ws[1..] == [AND_WORD] && rest == " and ";
    assert rest[0] == ' ' && W.Follows(W.Term(w), rest);
    assert [t] + [t] == [t, t];
  }

  lemma TrailingTokens(w: Written, canOrder: string -> bool)
    requires W.ProperItem(W.Term(w)) && W.Follows(W.Term(w), " ")
    ensures var ws := [NOT_WORD, W.Spaced(W.Term(w), " "), AND_WORD];
            var t := TokenOf(w, canOrder);
            && W.WellSpaced(ws) && W.TextOf(ws) == "not " + WordText(w) + " and "
            && W.TokensFor(ws, Tokenizers.LParen, canOrder) == [Tokenizers.NotToken, t, t]
  {
    TermAnd(w, Tokenizers.NotToken, canOrder);
    var tail := [W.Spaced(W.Term(w), " "), AND_WORD];
    var ws := [NOT_WORD, W.Spaced(W.Term(w), " "), AND_WORD];
    assert ws[1..] == tail;
    assert W.TextOf(ws) == "not" + (" " + (WordText(w) + " and "));
  }

  /** A word that must and must not match. */
  lemma Contradiction(l: Leaf, negated: bool, r: Record)
    ensures var e := Expr([Term([Factor(1, Word(l, negated)), Factor(0, Word(l, negated))])]);
            WellFormed(e) && Print(e) == [NotToken, Keyword(l, negated), Keyword(l, negated)] && !Accepts(e, r)
  {
    var a, c := Factor(1, Word(l, negated)), Factor(0, Word(l, negated));
    FactorAdded([], 1, l, negated, r);
    assert [] + [a] == [a];
    FactorAdded([a], 0, l, negated, r);
    assert [a] + [c] == [a, c];
    QuotedSearch.OneTerm([a, c], r);
  }

  /** At the end of the input `and` repeats the token before it. Behind a negated word that is a contradiction: such a
    * query finds nothing. */
  lemma TrailingAnd(w: Written, b: Builders, r: Record)
    requires W.ProperItem(W.Term(w)) && W.Follows(W.Term(w), " ")
    ensures !Finds("not " + WordText(w) + " and ", b, r)
  {
    var token := TokenOf(w, b.canOrder);
    var t := Compile(token, b);
    assert t.Keyword?;
    TrailingTokens(w, b.canOrder);
    CompiledThree(Tokenizers.NotToken, token, token, b);
    Contradiction(t.leaf, t.negated, r);
    WrittenFound([NOT_WORD, W.Spaced(W.Term(w), " "), AND_WORD],
                 Expr([Term([Factor(1, Word(t.leaf, t.negated)), Factor(0, Word(t.leaf, t.negated))])]), b, r);
  }

  lemma CompiledThree(x: Tokenizers.Token, y: Tokenizers.Token, z: Tokenizers.Token, b: Builders)
    ensures CompileAll([x, y, z], b) == [Compile(x, b), Compile(y, b), Compile(z, b)]
  {
    assert [x, y, z][1..] == [y, z] && [y, z][1..] == [z];
    CompiledOne(z, b);
  }
}
