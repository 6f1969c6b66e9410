/** internal/query/tokenizer.go: words as they may be written, and the keywords they are. */
module WrittenWords {
  import opened Common
  import opened Matchers
  import opened Glob
  import opened Tokenizers
  import opened QuotedTokens

  /** A part of a pattern: a star, a text in quotes, a text without them, or one character behind a backslash. */
  datatype Part = Star | InQuotes(text: string) | Unquoted(text: string) | Escape(c: char)

  /** A character without a meaning of its own. */
  predicate BareChar(c: char) {
    !EndsWord(c) && c != '\\' && c != '"' && c != '*' && c != '<' && c != '>' && c != '=' && c != '!'
  }

  predicate ProperPart(p: Part) {
    p.Unquoted? ==> p.text != "" && forall c :: c in p.text ==> BareChar(c)
  }

  predicate Proper(parts: seq<Part>) {
    forall p :: p in parts ==> ProperPart(p)
  }

  function PartText(p: Part): string {
    match p
    case Star => "*"
    case InQuotes(text) => Quoted(text)
    case Unquoted(text) => text
    case Escape(c) => ['\\', c]
  }

  function Spelled(parts: seq<Part>): string {
    if parts == [] then "" else PartText(parts[0]) + Spelled(parts[1..])
  }

  /** The text that a part says. */
  function Said(p: Part): string
    requires p != Star
  {
    match p
    case InQuotes(text) => text
    case Unquoted(text) => text
    case Escape(c) => if c == 'n' then "\n" else if c == 't' then "\t" else if c == 'r' then "\r" else [c]
  }

  /** The pattern that the parts say, behind a text: texts side by side are one. */
  function Pattern(parts: seq<Part>, text: string): Glob.Pattern {
    if parts == [] then Held(text)
    else if parts[0] == Star then Held(text) + [None] + Pattern(parts[1..], "")
    else Pattern(parts[1..], text + Said(parts[0]))
  }

  function Held(text: string): Glob.Pattern {
    if text == "" then [] else [Some(text)]
  }

  /** The operators as they are written. */
  datatype Mark = Is | IsIs | IsNot | Angles | Under | UnderOrIs | Over | OverOrIs

  function MarkText(m: Mark): string {
    match m
    case Is => "="
    case IsIs => "=="
    case IsNot => "!="
    case Angles => "<>"
    case Under => "<"
    case UnderOrIs => "<="
    case Over => ">"
    case OverOrIs => ">="
  }

  function MarkOp(m: Mark): Operator {
    match m
    case Is => Equal
    case IsIs => Equal
    case IsNot => Equal
    case Angles => Equal
    case Under => LessThan
    case UnderOrIs => LessEqual
    case Over => GreaterThan
    case OverOrIs => GreaterEqual
  }

  predicate Negates(m: Mark) {
    m == IsNot || m == Angles
  }

  /** ---- What the parts of a word are cut into ---- */

  function Bares(text: string): seq<Symbol> {
    if text == "" then [] else [Bare(text[0])] + Bares(text[1..])
  }

  function PartSymbols(p: Part): seq<Symbol> {
    match p
    case Star => [Bare('*')]
    case InQuotes(text) => [Quote] + Plains(text) + [Quote]
    case Unquoted(text) => Bares(text)
    case Escape(c) => [Plain(Unescaped(c))]
  }

  function SymbolsOf(parts: seq<Part>): seq<Symbol> {
    if parts == [] then [] else PartSymbols(parts[0]) + SymbolsOf(parts[1..])
  }

  predicate NoQuotes(text: string) {
    forall i :: 0 <= i < |text| ==> !EndsWord(text[i]) && text[i] != '\\' && text[i] != '"'
  }

  lemma {:induction false} BareSymbols(text: string, rest: string)
    requires NoQuotes(text)
    ensures Symbols(text + rest, false, false) == Bares(text) + Symbols(rest, false, false)
    ensures WordLength(text + rest, false, false) == |text| + WordLength(rest, false, false)
  {
    if text == "" {
      assert text + rest == rest;
    } else {
      var c, tail := text[0], text[1..];
      BareSymbols(tail, rest);
      BareFirst(c, tail + rest);
      ConsText(text, rest);
      Behind([Bare(c)], Bares(tail), Symbols(rest, false, false));
    }
  }

  lemma ConsText(text: string, rest: string)
    requires text != ""
    ensures text + rest == [text[0]] + (text[1..] + rest)
  {
  }

  lemma BareFirst(c: char, rest: string)
    requires !EndsWord(c) && c != '\\' && c != '"'
    ensures Symbols([c] + rest, false, false) == [Bare(c)] + Symbols(rest, false, false)
    ensures WordLength([c] + rest, false, false) == 1 + WordLength(rest, false, false)
  {
    assert ([c] + rest)[1..] == rest;
  }

  lemma PartRead(p: Part, rest: string)
    requires ProperPart(p)
    ensures Symbols(PartText(p) + rest, false, false) == PartSymbols(p) + Symbols(rest, false, false)
    ensures WordLength(PartText(p) + rest, false, false) == |PartText(p)| + WordLength(rest, false, false)
  {
    match p {
      case Star => BareSymbols("*", rest);
      case InQuotes(text) => QuotedSymbols(text, rest);
      case Unquoted(text) =>
        assert forall i :: 0 <= i < |text| ==> text[i] in text;
        BareSymbols(text, rest);
      case Escape(c) =>
        var s := PartText(p) + rest;
        assert s[0] == '\\' && s[1..][0] == c && s[1..][1..] == rest;
    }
  }

  lemma {:induction false} PartsRead(parts: seq<Part>, rest: string)
    requires Proper(parts)
    ensures Symbols(Spelled(parts) + rest, false, false) == SymbolsOf(parts) + Symbols(rest, false, false)
    ensures WordLength(Spelled(parts) + rest, false, false) == |Spelled(parts)| + WordLength(rest, false, false)
  {
    if parts == [] {
      assert Spelled(parts) + rest == rest;
    } else {
      var first, tail := PartText(parts[0]), Spelled(parts[1..]);
      PartsRead(parts[1..], rest);
      PartRead(parts[0], tail + rest);
      Behind(first, tail, rest);
      Behind(PartSymbols(parts[0]), SymbolsOf(parts[1..]), Symbols(rest, false, false));
    }
  }

  /** ---- The pieces of a pattern ---- */

  /** What the parts are cut into, behind a literal that is held back. */
  function Cut(parts: seq<Part>, star: bool, text: string): seq<Piece> {
    if parts == [] then Flush(star, text)
    else if parts[0] == Star then Flush(star, text) + Cut(parts[1..], true, "")
    else Cut(parts[1..], star, text + Said(parts[0]))
  }

  lemma {:induction false} BarePieces(text: string, syms: seq<Symbol>, star: bool, before: string)
    requires forall c :: c in text ==> BareChar(c)
    ensures Pieces(Bares(text) + syms, star, before) == Pieces(syms, star, before + text)
    decreases text
  {
    var all := Bares(text) + syms;
    if text == "" {
      assert all == syms && before + text == before;
    } else {
      assert all[0] == Bare(text[0]) && all[1..] == Bares(text[1..]) + syms;
      assert text[0] in text && BareChar(text[0]);
      PiecesText(all, star, before);
      BarePieces(text[1..], syms, star, before + [text[0]]);
      assert before + [text[0]] + text[1..] == before + text;
    }
  }

  lemma LiteralPieces(p: Part, syms: seq<Symbol>, star: bool, before: string)
    requires ProperPart(p) && p != Star
    ensures Pieces(PartSymbols(p) + syms, star, before) == Pieces(syms, star, before + Said(p))
  {
    match p {
      case InQuotes(text) => QuotedPieces(text, syms, star, before);
      case Unquoted(text) => BarePieces(text, syms, star, before);
      case Escape(c) =>
        var all := PartSymbols(p) + syms;
        assert all[1..] == syms;
        PiecesText(all, star, before);
    }
  }

  /** The word ends, or an operator follows. */
  predicate PatternEnds(syms: seq<Symbol>) {
    syms == [] || LeadingOp(syms).Some?
  }

  lemma {:induction false} PartsCut(parts: seq<Part>, syms: seq<Symbol>, star: bool, text: string)
    requires Proper(parts) && PatternEnds(syms)
    ensures Pieces(SymbolsOf(parts) + syms, star, text) == Cut(parts, star, text) + Pieces(syms, false, "")
  {
    var all := SymbolsOf(parts) + syms;
    if parts == [] {
      assert all == syms;
      CutAtEnd(syms, star, text);
    } else {
      var rest := SymbolsOf(parts[1..]) + syms;
      assert all == PartSymbols(parts[0]) + rest;
      if parts[0] == Star {
        assert all[1..] == rest;
        PiecesStar(all, star, text);
        PartsCut(parts[1..], syms, true, "");
      } else {
        LiteralPieces(parts[0], rest, star, text);
        PartsCut(parts[1..], syms, star, text + Said(parts[0]));
      }
    }
  }

  lemma CutAtEnd(syms: seq<Symbol>, star: bool, text: string)
    requires PatternEnds(syms)
    ensures Pieces(syms, star, text) == Flush(star, text) + Pieces(syms, false, "")
  {
    if syms != [] {
      PiecesOp(syms, star, text);
      PiecesOp(syms, false, "");
      assert Flush(false, "") == [];
    }
  }

  lemma {:induction false} ValuesConcat(a: seq<Piece>, b: seq<Piece>)
    ensures Values(a + b) == Values(a) + Values(b)
  {
    if b == [] {
      assert a + b == a;
    } else {
      var init, last := b[..|b| - 1], b[|b| - 1];
      ValuesConcat(a, init);
      assert (a + b)[..|a + b| - 1] == a + init && (a + b)[|a + b| - 1] == last;
      Behind(Values(a), Values(init), last.Values());
    }
  }

  lemma ValuesOne(p: Piece)
    ensures Values([p]) == p.Values()
  {
    assert [p][..0] == [];
  }

  function Stars(star: bool): Glob.Pattern {
    if star then [None] else []
  }

  lemma FlushValues(star: bool, text: string)
    ensures Values(Flush(star, text)) == Stars(star) + Held(text)
    ensures forall p :: p in Flush(star, text) ==> p.Literal? && p.parts != []
  {
    if star || text != "" {
      ValuesOne(Flush(star, text)[0]);
    }
  }

  /** The pieces of a pattern say the pattern. */
  lemma {:induction false} CutValues(parts: seq<Part>, star: bool, text: string)
    ensures Values(Cut(parts, star, text)) == Stars(star) + Pattern(parts, text)
    decreases parts
  {
    if parts == [] {
      FlushValues(star, text);
    } else if parts[0] == Star {
      CutValues(parts[1..], true, "");
      CutAtStar(Flush(star, text), Cut(parts[1..], true, ""), star, text, Pattern(parts[1..], ""));
    } else {
      CutValues(parts[1..], star, text + Said(parts[0]));
    }
  }

  lemma CutAtStar(flush: seq<Piece>, cut: seq<Piece>, star: bool, text: string, rest: Glob.Pattern)
    requires flush == Flush(star, text) && Values(cut) == Stars(true) + rest
    ensures Values(flush + cut) == Stars(star) + (Held(text) + [None] + rest)
  {
    FlushValues(star, text);
    ValuesConcat(flush, cut);
    assert Stars(true) == [None];
    Regroup(Stars(star), Held(text), [None], rest);
  }

  lemma Regroup<T>(a: seq<T>, b: seq<T>, c: seq<T>, d: seq<T>)
    ensures a + b + (c + d) == a + (b + c + d)
  {
  }

  /** Each of the pieces says something. */
  lemma {:induction false} CutLiterals(parts: seq<Part>, star: bool, text: string)
    ensures forall p :: p in Cut(parts, star, text) ==> p.Literal? && p.parts != []
    decreases parts
  {
    if parts == [] {
      FlushValues(star, text);
    } else if parts[0] == Star {
      FlushValues(star, text);
      CutLiterals(parts[1..], true, "");
    } else {
      CutLiterals(parts[1..], star, text + Said(parts[0]));
    }
  }

  lemma {:induction false} ManyValues(pieces: seq<Piece>)
    requires forall p :: p in pieces ==> p.Literal? && p.parts != []
    ensures |Values(pieces)| >= |pieces|
  {
    if pieces != [] {
      ManyValues(pieces[..|pieces| - 1]);
    }
  }

  /** Pieces that say a pattern: none say none, and one says it all. */
  ghost predicate Says(pieces: seq<Piece>, pattern: Glob.Pattern) {
    && (forall p :: p in pieces ==> p.Literal? && p.parts != [])
    && Values(pieces) == pattern
    && (pieces == [] <==> pattern == [])
    && (|pattern| == 1 || |pieces| == 1 ==> pieces == [Literal(pattern)])
  }

  lemma CutSays(parts: seq<Part>)
    ensures Says(Cut(parts, false, ""), Pattern(parts, ""))
  {
    var pieces := Cut(parts, false, "");
    CutValues(parts, false, "");
    assert Stars(false) + Pattern(parts, "") == Pattern(parts, "");
    CutLiterals(parts, false, "");
    ManyValues(pieces);
    if pieces != [] {
      ValuesOne(pieces[0]);
      assert |pieces| == 1 ==> pieces == [pieces[0]];
    }
  }

  /** ---- The operator in between ---- */

  lemma NoMarkContinued(parts: seq<Part>)
    requires Proper(parts)
    ensures SymbolsOf(parts) == [] || SymbolsOf(parts)[0] !in {Bare('='), Bare('>')}
  {
    if parts != [] {
      var p := parts[0];
      assert p in parts;
      if p.Unquoted? {
        assert p.text[0] in p.text;
      }
    }
  }

  lemma MarkSymbols(m: Mark)
    ensures var t := MarkText(m);
            Bares(t) == if |t| == 1 then [Bare(t[0])] else [Bare(t[0]), Bare(t[1])]
  {
    var t := MarkText(m);
    assert Bares("") == [];
    assert |t| == 1 ==> t[1..] == "";
    assert |t| == 2 ==> t[1..] == [t[1]] && t[1..][1..] == "";
  }

  lemma MarkLeads(m: Mark, syms: seq<Symbol>)
    requires syms == [] || syms[0] !in {Bare('='), Bare('>')}
    ensures var op := OpPiece(Op(MarkOp(m), Negates(m)), MarkText(m));
            LeadingOp(Bares(MarkText(m)) + syms) == Some(op)
            && (Bares(MarkText(m)) + syms)[|MarkText(m)|..] == syms
  {
    MarkSymbols(m);
  }

  lemma MarkRead(m: Mark, rest: string)
    ensures Symbols(MarkText(m) + rest, false, false) == Bares(MarkText(m)) + Symbols(rest, false, false)
    ensures WordLength(MarkText(m) + rest, false, false) == |MarkText(m)| + WordLength(rest, false, false)
  {
    BareSymbols(MarkText(m), rest);
  }

  /** ---- Words ---- */

  /** A pattern alone, or a condition: an operator between a key, perhaps none, and a value. */
  datatype Written = Phrase(parts: seq<Part>) | Condition(key: seq<Part>, mark: Mark, value: seq<Part>)

  function WordText(w: Written): string {
    match w
    case Phrase(parts) => Spelled(parts)
    case Condition(key, mark, value) => Spelled(key) + MarkText(mark) + Spelled(value)
  }

  predicate ProperWord(w: Written) {
    match w
    case Phrase(parts) => parts != [] && Proper(parts)
    case Condition(key, _, value) => Proper(key) && Proper(value)
  }

  predicate Orderable(v: Glob.Pattern, canOrder: string -> bool) {
    |v| == 1 && v[0].Some? && canOrder(v[0].value)
  }

  /** The keyword that a word is. A comparison with what cannot be ordered is none: it is a text to look for, as is an
    * operator with nothing on either side. */
  function TokenOf(w: Written, canOrder: string -> bool): Token {
    match w
    case Phrase(parts) =>
      if Pattern(parts, "") == [] then SimpleKeyword(false, AnyValue) else SimpleKeyword(false, ValueOf(Pattern(parts, ""), Includes))
    case Condition(key, m, value) =>
      var k, v := Pattern(key, ""), Pattern(value, "");
      if (k != [] || v != []) && (MarkOp(m) == Equal || Orderable(v, canOrder)) then
        if key == [] then SimpleKeyword(Negates(m), ValueOf(v, MarkOp(m)))
        else FieldKeyword(k, Negates(m), ValueOf(v, MarkOp(m)))
      else SimpleKeyword(false, ValueOf(k + [Some(MarkText(m))] + v, Includes))
  }

  /** What follows a word. */
  lemma WordEnds(rest: string)
    requires Boundary(rest)
    ensures Symbols(rest, false, false) == [] && WordLength(rest, false, false) == 0
  {
  }

  lemma PhraseSymbols(parts: seq<Part>, rest: string)
    requires Proper(parts) && Boundary(rest)
    ensures Symbols(Spelled(parts) + rest, false, false) == SymbolsOf(parts)
    ensures WordLength(Spelled(parts) + rest, false, false) == |Spelled(parts)|
  {
    WordEnds(rest);
    PartsRead(parts, rest);
    assert SymbolsOf(parts) + [] == SymbolsOf(parts);
  }

  lemma PhrasePieces(parts: seq<Part>)
    requires Proper(parts)
    ensures Pieces(SymbolsOf(parts), false, "") == Cut(parts, false, "")
  {
    PartsCut(parts, [], false, "");
    assert SymbolsOf(parts) + [] == SymbolsOf(parts);
    assert Cut(parts, false, "") + [] == Cut(parts, false, "");
  }

  lemma PhraseCut(parts: seq<Part>, rest: string)
    requires Proper(parts) && Boundary(rest)
    ensures Pieces(Symbols(Spelled(parts) + rest, false, false), false, "") == Cut(parts, false, "")
    ensures WordLength(Spelled(parts) + rest, false, false) == |Spelled(parts)|
  {
    PhraseSymbols(parts, rest);
    PhrasePieces(parts);
  }

  /** The operator and the value behind it. */
  lemma MarkPieces(m: Mark, value: seq<Part>)
    requires Proper(value)
    ensures var syms := Bares(MarkText(m)) + SymbolsOf(value);
            PatternEnds(syms) && Pieces(syms, false, "") ==
              [OpPiece(Op(MarkOp(m), Negates(m)), MarkText(m))] + Cut(value, false, "")
  {
    NoMarkContinued(value);
    MarkLeads(m, SymbolsOf(value));
    PhrasePieces(value);
    OpFirst(Bares(MarkText(m)) + SymbolsOf(value), OpPiece(Op(MarkOp(m), Negates(m)), MarkText(m)), SymbolsOf(value));
  }

  lemma OpFirst(syms: seq<Symbol>, op: Piece, rest: seq<Symbol>)
    requires op.OpPiece? && LeadingOp(syms) == Some(op) && syms[|op.text|..] == rest
    ensures Pieces(syms, false, "") == [op] + Pieces(rest, false, "")
  {
    PiecesOp(syms, false, "");
    assert Flush(false, "") == [];
  }

  lemma ConditionSymbols(key: seq<Part>, m: Mark, value: seq<Part>, rest: string)
    requires Proper(key) && Proper(value) && Boundary(rest)
    ensures var s := Spelled(key) + MarkText(m) + Spelled(value);
            && Symbols(s + rest, false, false) == SymbolsOf(key) + (Bares(MarkText(m)) + SymbolsOf(value))
            && WordLength(s + rest, false, false) == |s|
  {
    var last := Spelled(value) + rest;
    var mid := MarkText(m) + last;
    assert Spelled(key) + MarkText(m) + Spelled(value) + rest == Spelled(key) + mid;
    PhraseSymbols(value, rest);
    MarkRead(m, last);
    PartsRead(key, mid);
  }

  lemma ConditionCut(key: seq<Part>, m: Mark, value: seq<Part>, rest: string)
    requires Proper(key) && Proper(value) && Boundary(rest)
    ensures var s := Spelled(key) + MarkText(m) + Spelled(value);
            && Pieces(Symbols(s + rest, false, false), false, "") ==
               Cut(key, false, "") + [OpPiece(Op(MarkOp(m), Negates(m)), MarkText(m))] + Cut(value, false, "")
            && WordLength(s + rest, false, false) == |s|
  {
    ConditionSymbols(key, m, value, rest);
    MarkPieces(m, value);
    PartsCut(key, Bares(MarkText(m)) + SymbolsOf(value), false, "");
    Behind(Cut(key, false, ""), [OpPiece(Op(MarkOp(m), Negates(m)), MarkText(m))], Cut(value, false, ""));
  }

  lemma Behind<T>(a: seq<T>, b: seq<T>, c: seq<T>)
    ensures a + (b + c) == a + b + c
  {
  }

  /** ---- The keyword of a word ---- */

  lemma {:induction false} NoEqualityIn(pieces: seq<Piece>, rest: seq<Piece>)
    requires forall p :: p in pieces ==> p.Literal?
    ensures FirstEquality(pieces + rest) == |pieces| + FirstEquality(rest)
  {
    if pieces == [] {
      assert pieces + rest == rest;
    } else {
      assert (pieces + rest)[1..] == pieces[1..] + rest;
      assert pieces[0] in pieces && (pieces + rest)[0] == pieces[0];
      NoEqualityIn(pieces[1..], rest);
    }
  }

  lemma PhraseKeyword(pieces: seq<Piece>, pattern: Glob.Pattern, quoted: bool, canOrder: string -> bool)
    requires Says(pieces, pattern)
    ensures Keyword(pieces, quoted, canOrder) ==
            SimpleKeyword(false, if pattern == [] then AnyValue else ValueOf(pattern, Includes))
  {
    NoEqualityIn(pieces, []);
    assert pieces + [] == pieces;
    if |pieces| > 1 {
      assert pieces[|pieces| - 2] in pieces;
    }
  }

  /** A condition of pieces that say key and value. */
  lemma ConditionValues(k: seq<Piece>, op: Piece, v: seq<Piece>)
    requires op.OpPiece?
    ensures Values(k + [op] + v) == Values(k) + [Some(op.text)] + Values(v)
  {
    ValuesConcat(k + [op], v);
    ValuesConcat(k, [op]);
    ValuesOne(op);
  }

  lemma ConditionEquality(k: seq<Piece>, op: Piece, v: seq<Piece>)
    requires op.OpPiece? && (forall p :: p in k ==> p.Literal?) && (forall p :: p in v ==> p.Literal?)
    ensures var pieces := k + [op] + v;
            FirstEquality(pieces) == if op.op.base == Equal then |k| else |pieces|
  {
    NoEqualityIn(v, []);
    assert v + [] == v;
    var last := [op] + v;
    assert last[0] == op && last[1..] == v;
    Behind(k, [op], v);
    NoEqualityIn(k, last);
  }

  lemma ConditionSides<T>(k: seq<T>, op: T, v: seq<T>)
    ensures var pieces := k + [op] + v;
            pieces[..|k|] == k && pieces[|k|] == op && pieces[|k| + 1..] == v
  {
  }

  /** The last piece can be ordered and is right behind the operator exactly when the value is a text that can be. */
  lemma LastOrderable(k: seq<Piece>, op: Piece, v: seq<Piece>, key: Glob.Pattern, value: Glob.Pattern, canOrder: string -> bool)
    requires op.OpPiece? && Says(k, key) && Says(v, value)
    ensures var pieces := k + [op] + v;
            var n := |pieces|;
            && (n > 1 && pieces[n - 2].OpPiece? && CanOrder(pieces[n - 1], canOrder) <==> Orderable(value, canOrder))
            && (Orderable(value, canOrder) ==> pieces[..n - 2] == k && pieces[n - 2] == op && pieces[n - 1] == Literal(value))
  {
    var pieces := k + [op] + v;
    var n := |pieces|;
    if |v| >= 2 {
      assert pieces[n - 2] == v[|v| - 2] && v[|v| - 2] in v;
    } else if |v| == 1 {
      assert pieces[n - 2] == op && pieces[n - 1] == v[0];
    } else {
      assert pieces[n - 1] == op;
    }
  }

  lemma ConditionKeyword(k: seq<Piece>, op: Piece, v: seq<Piece>, key: Glob.Pattern, value: Glob.Pattern, quoted: bool,
                         canOrder: string -> bool)
    requires op.OpPiece? && Says(k, key) && Says(v, value)
    ensures Keyword(k + [op] + v, quoted, canOrder) ==
            if (key != [] || value != []) && (op.op.base == Equal || Orderable(value, canOrder)) then
              if key != [] || quoted then FieldKeyword(key, op.op.not, ValueOf(value, op.op.base))
              else SimpleKeyword(op.op.not, ValueOf(value, op.op.base))
            else SimpleKeyword(false, ValueOf(key + [Some(op.text)] + value, Includes))
  {
    ConditionValues(k, op, v);
    ConditionEquality(k, op, v);
    ConditionSides(k, op, v);
    LastOrderable(k, op, v, key, value, canOrder);
  }

  /** A condition begins with a quote, or with something that makes its key no empty one, if it has a key at all. */
  lemma QuoteOrKey(key: seq<Part>, m: Mark, value: seq<Part>, rest: string)
    requires Proper(key)
    ensures var s := Spelled(key) + MarkText(m) + Spelled(value) + rest;
            key != [] <==> Pattern(key, "") != [] || s[0] == '"'
  {
    if key != [] && Pattern(key, "") == [] {
      FirstSaid(key);
    }
  }

  lemma {:induction false} TextKept(parts: seq<Part>, text: string)
    requires text != ""
    ensures Pattern(parts, text) != []
  {
    if parts != [] && parts[0] != Star {
      TextKept(parts[1..], text + Said(parts[0]));
    }
  }

  lemma FirstSaid(key: seq<Part>)
    requires Proper(key) && key != [] && Pattern(key, "") == []
    ensures key[0] == InQuotes("")
  {
    var p := key[0];
    assert p in key;
    if p != Star && Said(p) != "" {
      assert "" + Said(p) == Said(p);
      TextKept(key[1..], Said(p));
    }
  }

  lemma ConditionRead(key: seq<Part>, m: Mark, value: seq<Part>, rest: string, canOrder: string -> bool)
    requires Proper(key) && Proper(value) && Boundary(rest)
    ensures var s := Spelled(key) + MarkText(m) + Spelled(value) + rest;
            Word(s, canOrder) == TokenOf(Condition(key, m, value), canOrder)
  {
    ConditionCut(key, m, value, rest);
    QuoteOrKey(key, m, value, rest);
    CutSays(key);
    CutSays(value);
    var s := Spelled(key) + MarkText(m) + Spelled(value) + rest;
    ConditionKeyword(Cut(key, false, ""), OpPiece(Op(MarkOp(m), Negates(m)), MarkText(m)), Cut(value, false, ""),
                     Pattern(key, ""), Pattern(value, ""), s[0] == '"', canOrder);
  }

  /** A written word is read to its end, as the keyword that it is. */
  lemma WordRead(w: Written, rest: string, canOrder: string -> bool)
    requires ProperWord(w) && Boundary(rest)
    ensures WordLength(WordText(w) + rest, false, false) == |WordText(w)|
    ensures Word(WordText(w) + rest, canOrder) == TokenOf(w, canOrder)
  {
    match w {
      case Phrase(parts) =>
        var s := Spelled(parts) + rest;
        PhraseCut(parts, rest);
        CutSays(parts);
        PhraseKeyword(Cut(parts, false, ""), Pattern(parts, ""), s != "" && s[0] == '"', canOrder);
      case Condition(key, m, value) =>
        ConditionCut(key, m, value, rest);
        ConditionRead(key, m, value, rest, canOrder);
    }
  }

  /** A condition on a field, key and value in quotes: every operator in every spelling. */
  lemma QuotedCondition(k: string, m: Mark, v: string, rest: string, canOrder: string -> bool)
    requires k != "" && v != "" && Boundary(rest)
    ensures var s := Quoted(k) + MarkText(m) + Quoted(v);
            && WordLength(s + rest, false, false) == |s|
            && Word(s + rest, canOrder) ==
               if MarkOp(m) == Equal || canOrder(v) then FieldKeyword([Some(k)], Negates(m), ValueOf([Some(v)], MarkOp(m)))
               else SimpleKeyword(false, ValueOf([Some(k), Some(MarkText(m)), Some(v)], Includes))
  {
    var w := Condition([InQuotes(k)], m, [InQuotes(v)]);
    WordRead(w, rest, canOrder);
    SpelledOne(InQuotes(k));
    SpelledOne(InQuotes(v));
    OneText(k);
    OneText(v);
    assert [Some(k)] + [Some(MarkText(m))] + [Some(v)] == [Some(k), Some(MarkText(m)), Some(v)];
  }

  lemma SpelledOne(p: Part)
    ensures Spelled([p]) == PartText(p)
  {
    assert [p][1..] == [];
  }

  lemma OneText(text: string)
    requires text != ""
    ensures Pattern([InQuotes(text)], "") == [Some(text)]
  {
    assert [InQuotes(text)][1..] == [] && "" + text == text;
  }
}
