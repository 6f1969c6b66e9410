/** internal/query/tokenizer.go: the lexer of queries. */
module Tokenizers {
  import opened Common
  import opened Matchers
  import opened Glob

  /** An operator, possibly negated: `!=` and `<>` are the negation of `=`. */
  datatype Op = Op(base: Operator, not: bool)

  const NO_OP := Op(Includes, false)
  const EQUALS := Op(Equal, false)
  const NOT_EQUALS := Op(Equal, true)

  /** What `newValueMatcher` is given: the parts of a pattern (a star is None) and an operator. */
  datatype ValueSpec = AnyValue | ValueOf(parts: Pattern, op: Operator)

  datatype Token =
    | LParen
    | RParen
    | OrToken
    | NotToken
    | SimpleKeyword(not: bool, value: ValueSpec)
    | FieldKeyword(key: Pattern, not: bool, value: ValueSpec)

  /** A piece of a word: a literal with stars in it, or an operator with its text. */
  datatype Piece = Literal(parts: Pattern) | OpPiece(op: Op, text: string) {
    function Values(): Pattern {
      match this
      case Literal(parts) => parts
      case OpPiece(_, text) => [Some(text)]
    }
  }

  /** ---- What a word means, in three passes ---- */

  /** A character of a word: written bare, or quoted or escaped and so without a meaning of its own; or a quote,
    * which only keeps its neighbours apart. */
  datatype Symbol = Bare(c: char) | Plain(c: char) | Quote

  function Unescaped(c: char): char {
    match c
    case 'n' => '\n'
    case 't' => '\t'
    case 'r' => '\r'
    case _ => c
  }

  predicate IsSpace(c: char) {
    c == ' ' || c == '\t' || c == '\n'
  }

  predicate EndsWord(c: char) {
    IsSpace(c) || c == '(' || c == ')'
  }

  /** First pass: quotes and escapes. A word ends at a bare blank or parenthesis, or where the input ends. */
  function Symbols(s: string, escape: bool, quote: bool): seq<Symbol> {
    if s == "" then []
    else if escape then [Plain(Unescaped(s[0]))] + Symbols(s[1..], false, quote)
    else if s[0] == '\\' then Symbols(s[1..], true, quote)
    else if s[0] == '"' then [Quote] + Symbols(s[1..], false, !quote)
    else if quote then [Plain(s[0])] + Symbols(s[1..], false, quote)
    else if EndsWord(s[0]) then []
    else [Bare(s[0])] + Symbols(s[1..], false, quote)
  }

  function WordLength(s: string, escape: bool, quote: bool): (n: nat)
    ensures n <= |s|
  {
    if s == "" then 0
    else if escape then 1 + WordLength(s[1..], false, quote)
    else if s[0] == '\\' then 1 + WordLength(s[1..], true, quote)
    else if s[0] == '"' then 1 + WordLength(s[1..], false, !quote)
    else if quote then 1 + WordLength(s[1..], false, quote)
    else if EndsWord(s[0]) then 0
    else 1 + WordLength(s[1..], false, quote)
  }

  /** The operator that the symbols begin with, if any. */
  function LeadingOp(syms: seq<Symbol>): (r: Option<Piece>)
    ensures r.Some? ==> r.value.OpPiece? && 1 <= |r.value.text| <= |syms|
  {
    if syms == [] || !syms[0].Bare? then None
    else
      var c, next := syms[0].c, if |syms| > 1 && syms[1].Bare? then Some(syms[1].c) else None;
      if (c == '!' && next == Some('=')) || (c == '<' && next == Some('>'))
      then Some(OpPiece(NOT_EQUALS, [c, syms[1].c]))
      else if c == '<' then Some(if next == Some('=') then OpPiece(Op(LessEqual, false), "<=") else OpPiece(Op(LessThan, false), "<"))
      else if c == '>' then Some(if next == Some('=') then OpPiece(Op(GreaterEqual, false), ">=") else OpPiece(Op(GreaterThan, false), ">"))
      else if c == '=' then Some(if next == Some('=') then OpPiece(EQUALS, "==") else OpPiece(EQUALS, "="))
      else None
  }

  /** The literal held back: perhaps a star, perhaps a text. */
  function Flush(star: bool, text: string): seq<Piece> {
    var stars: Pattern := if star then [None] else [];
    var parts := stars + if text != "" then [Some(text)] else [];
    if parts == [] then [] else [Literal(parts)]
  }

  /** Second pass: operators and stars. */
  function Pieces(syms: seq<Symbol>, star: bool, text: string): seq<Piece>
    decreases |syms|
  {
    if syms == [] then Flush(star, text)
    else
      var op := LeadingOp(syms);
      if op.Some? then
        Flush(star, text) + [op.value] + Pieces(syms[|op.value.text|..], false, "")
      else if syms[0] == Bare('*') then Flush(star, text) + Pieces(syms[1..], true, "")
      else Pieces(syms[1..], star, if syms[0].Quote? then text else text + [syms[0].c])
  }

  function Values(pieces: seq<Piece>): Pattern {
    if pieces == [] then [] else Values(pieces[..|pieces| - 1]) + pieces[|pieces| - 1].Values()
  }

  predicate IsEquality(p: Piece) {
    p.OpPiece? && p.op.base == Equal
  }

  /** The first `=` or `!=`, or the number of pieces. */
  function FirstEquality(pieces: seq<Piece>): (k: nat)
    ensures k <= |pieces| && (k < |pieces| ==> IsEquality(pieces[k]))
    ensures forall i :: 0 <= i < k ==> !IsEquality(pieces[i])
  {
    if pieces == [] then 0 else if IsEquality(pieces[0]) then 0 else 1 + FirstEquality(pieces[1..])
  }

  /** Third pass: the first equality splits key and value; else a comparison before the last piece does, when that
    * piece is a text that can be ordered; else everything is the text to find. */
  function Keyword(pieces: seq<Piece>, quoted: bool, canOrder: string -> bool): Token {
    var n, k := |pieces|, FirstEquality(pieces);
    if n == 0 then SimpleKeyword(false, AnyValue)
    else if n > 1 && k < n then
      KeywordOf(Values(pieces[..k]), quoted, pieces[k].op, Values(pieces[k + 1..]))
    else if n > 1 && pieces[n - 2].OpPiece? && CanOrder(pieces[n - 1], canOrder) then
      KeywordOf(Values(pieces[..n - 2]), quoted, pieces[n - 2].op, pieces[n - 1].parts)
    else SimpleKeyword(false, ValueOf(Values(pieces), Includes))
  }

  /** A key to the left, or a quote in front, makes it a condition on a field. */
  function KeywordOf(left: Pattern, quoted: bool, op: Op, right: Pattern): Token {
    if left != [] || quoted then FieldKeyword(left, op.not, ValueOf(right, op.base))
    else SimpleKeyword(op.not, ValueOf(right, op.base))
  }

  /** A single text that reads as a number, a duration or a time. */
  predicate CanOrder(p: Piece, canOrder: string -> bool) {
    p.Literal? && |p.parts| == 1 && p.parts[0].Some? && canOrder(p.parts[0].value)
  }

  /** ---- One symbol at a time ---- */

  lemma PiecesText(syms: seq<Symbol>, star: bool, text: string)
    requires syms != [] && LeadingOp(syms).None? && syms[0] != Bare('*')
    ensures Pieces(syms, star, text) == Pieces(syms[1..], star, if syms[0].Quote? then text else text + [syms[0].c])
  {
  }

  lemma PiecesStar(syms: seq<Symbol>, star: bool, text: string)
    requires syms != [] && syms[0] == Bare('*')
    ensures Pieces(syms, star, text) == Flush(star, text) + Pieces(syms[1..], true, "")
  {
  }

  lemma PiecesOp(syms: seq<Symbol>, star: bool, text: string)
    requires LeadingOp(syms).Some?
    ensures var op := LeadingOp(syms).value;
            Pieces(syms, star, text) == Flush(star, text) + [op] + Pieces(syms[|op.text|..], false, "")
  {
  }

  /** What is left of a word at `i`, and what it makes of the text held back. */
  ghost function Rest(s: string, i: nat, escape: bool, quote: bool, star: bool, text: string): seq<Piece>
    requires i <= |s|
  {
    Pieces(Symbols(s[i..], escape, quote), star, text)
  }

  lemma SymbolsAt(s: string, i: nat, escape: bool, quote: bool)
    requires i < |s|
    ensures Symbols(s[i..], escape, quote) ==
            if escape then [Plain(Unescaped(s[i]))] + Symbols(s[i + 1..], false, quote)
            else if s[i] == '\\' then Symbols(s[i + 1..], true, quote)
            else if s[i] == '"' then [Quote] + Symbols(s[i + 1..], false, !quote)
            else if quote then [Plain(s[i])] + Symbols(s[i + 1..], false, quote)
            else if EndsWord(s[i]) then []
            else [Bare(s[i])] + Symbols(s[i + 1..], false, quote)
  {
    assert s[i..][0] == s[i] && s[i..][1..] == s[i + 1..];
  }

  lemma LengthAt(s: string, i: nat, escape: bool, quote: bool)
    requires i < |s|
    ensures WordLength(s[i..], escape, quote) ==
            if escape then 1 + WordLength(s[i + 1..], false, quote)
            else if s[i] == '\\' then 1 + WordLength(s[i + 1..], true, quote)
            else if s[i] == '"' then 1 + WordLength(s[i + 1..], false, !quote)
            else if !quote && EndsWord(s[i]) then 0
            else 1 + WordLength(s[i + 1..], false, quote)
  {
    assert s[i..][0] == s[i] && s[i..][1..] == s[i + 1..];
  }

  /** An escaped or quoted character, a quote or a backslash: no operator begins there. */
  lemma RestPlain(s: string, i: nat, escape: bool, quote: bool, star: bool, text: string)
    requires i < |s| && (escape || quote || s[i] == '\\' || s[i] == '"')
    ensures Rest(s, i, escape, quote, star, text) ==
            if escape then Rest(s, i + 1, false, quote, star, text + [Unescaped(s[i])])
            else if s[i] == '\\' then Rest(s, i + 1, true, quote, star, text)
            else if s[i] == '"' then Rest(s, i + 1, false, !quote, star, text)
            else Rest(s, i + 1, false, quote, star, text + [s[i]])
  {
    SymbolsAt(s, i, escape, quote);
    var syms := Symbols(s[i..], escape, quote);
    if escape || s[i] != '\\' {
      PiecesText(syms, star, text);
      assert syms[1..] == Symbols(s[i + 1..], false, if !escape && s[i] == '"' then !quote else quote);
    }
  }

  /** The operator written at `i`, outside quotes: the first two characters decide. */
  function OpAt(s: string, i: nat): Option<Piece>
    requires i < |s|
  {
    var c, next := s[i], if i + 1 < |s| then Some(s[i + 1]) else None;
    if (c == '!' && next == Some('=')) || (c == '<' && next == Some('>')) then Some(OpPiece(NOT_EQUALS, s[i..i + 2]))
    else if c == '<' then Some(if next == Some('=') then OpPiece(Op(LessEqual, false), "<=") else OpPiece(Op(LessThan, false), "<"))
    else if c == '>' then Some(if next == Some('=') then OpPiece(Op(GreaterEqual, false), ">=") else OpPiece(Op(GreaterThan, false), ">"))
    else if c == '=' then Some(if next == Some('=') then OpPiece(EQUALS, "==") else OpPiece(EQUALS, "="))
    else None
  }

  lemma LeadingIsWritten(s: string, i: nat)
    requires i < |s| && s[i] != '\\' && s[i] != '"' && !EndsWord(s[i])
    ensures LeadingOp(Symbols(s[i..], false, false)) == OpAt(s, i)
    ensures OpAt(s, i).Some? ==>
              var n := |OpAt(s, i).value.text|;
              i + n <= |s| && Symbols(s[i..], false, false)[n..] == Symbols(s[i + n..], false, false)
              && WordLength(s[i..], false, false) == n + WordLength(s[i + n..], false, false)
  {
    SymbolsAt(s, i, false, false);
    LengthAt(s, i, false, false);
    var syms, rest := Symbols(s[i..], false, false), Symbols(s[i + 1..], false, false);
    assert syms[0] == Bare(s[i]) && syms[1..] == rest;
    if i + 1 < |s| {
      SymbolsAt(s, i + 1, false, false);
      LengthAt(s, i + 1, false, false);
      assert s[i..i + 2] == [s[i], s[i + 1]];
      if OpAt(s, i).Some? && |OpAt(s, i).value.text| == 2 {
        assert syms[2..] == rest[1..] == Symbols(s[i + 2..], false, false);
      }
    }
  }

  lemma RestOp(s: string, i: nat, star: bool, text: string)
    requires i < |s| && OpAt(s, i).Some?
    ensures var op := OpAt(s, i).value; var n := |op.text|;
            && i + n <= |s|
            && Rest(s, i, false, false, star, text) == Flush(star, text) + [op] + Rest(s, i + n, false, false, false, "")
            && WordLength(s[i..], false, false) == n + WordLength(s[i + n..], false, false)
  {
    LeadingIsWritten(s, i);
    PiecesOp(Symbols(s[i..], false, false), star, text);
  }

  lemma RestBare(s: string, i: nat, star: bool, text: string)
    requires i < |s| && OpAt(s, i).None? && s[i] != '\\' && s[i] != '"'
    ensures Rest(s, i, false, false, star, text) ==
            if EndsWord(s[i]) then Flush(star, text)
            else if s[i] == '*' then Flush(star, text) + Rest(s, i + 1, false, false, true, "")
            else Rest(s, i + 1, false, false, star, text + [s[i]])
  {
    SymbolsAt(s, i, false, false);
    var syms := Symbols(s[i..], false, false);
    if !EndsWord(s[i]) {
      LeadingIsWritten(s, i);
      assert syms[0] == Bare(s[i]) && syms[1..] == Symbols(s[i + 1..], false, false);
      if s[i] == '*' {
        PiecesStar(syms, star, text);
      } else {
        PiecesText(syms, star, text);
      }
    } else {
      assert Pieces([], star, text) == Flush(star, text);
    }
  }

  /** ---- The word scanner ---- */

  method CloseBuf(tokens: seq<Piece>, strings: Pattern, buf: string) returns (tokens': seq<Piece>)
    requires strings == [] || strings == [None]
    ensures tokens' == tokens + Flush(strings != [], buf)
  {
    var strings' := if |buf| > 0 then strings + [Some(buf)] else strings;
    assert strings + [] == strings;
    tokens' := if |strings'| > 0 then tokens + [Literal(strings')] else tokens;
  }

  /** The operator that begins at `i`, outside quotes. */
  method ReadOp(s: string, i: nat) returns (op: Option<Piece>)
    requires i < |s|
    ensures op == OpAt(s, i)
  {
    var c := s[i];
    assert |s| > i + 1 ==> s[i..i + 2] == [c, s[i + 1]];
    if |s| > i + 1 && (s[i..i + 2] == "!=" || s[i..i + 2] == "<>") {
      return Some(OpPiece(NOT_EQUALS, s[i..i + 2]));
    }
    assert s[i..i + 1] == [c];
    if c == '<' || c == '>' || c == '=' {
      var base, text := if c == '<' then LessThan else if c == '>' then GreaterThan else Equal, s[i..i + 1];
      if |s| > i + 1 && s[i + 1] == '=' {
        base := if c == '<' then LessEqual else if c == '>' then GreaterEqual else Equal;
        text := text + "=";
        assert text == [c, '='];
      }
      return Some(OpPiece(Op(base, false), text));
    }
    return None;
  }

  predicate HasOp(pieces: seq<Piece>) {
    exists k :: 0 <= k < |pieces| && pieces[k].OpPiece?
  }

  /** Closing the literal held back adds no operator. */
  lemma HasOpAfter(pieces: seq<Piece>, star: bool, text: string, op: Piece)
    requires op.OpPiece?
    ensures HasOp(pieces + Flush(star, text)) == HasOp(pieces)
    ensures HasOp(pieces + Flush(star, text) + [op])
  {
    var closed := pieces + Flush(star, text);
    if HasOp(pieces) {
      var k :| 0 <= k < |pieces| && pieces[k].OpPiece?;
      assert closed[k].OpPiece?;
    }
    assert (closed + [op])[|closed|].OpPiece?;
  }

  /** A word cut up to `i`: the pieces so far, with what the rest makes of the literal held back, are all pieces. */
  ghost predicate CutTo(s: string, i: nat, escape: bool, quote: bool, star: bool, text: string, tokens: seq<Piece>) {
    && i <= |s| && tokens + Rest(s, i, escape, quote, star, text) == Rest(s, 0, false, false, false, "")
    && i + WordLength(s[i..], escape, quote) == WordLength(s, false, false)
  }

  /** A character that is escaped, quoted, a quote or a backslash. */
  method CutPlain(s: string, i: nat, escape: bool, quote: bool, buf: string, ghost star: bool, ghost tokens: seq<Piece>)
    returns (escape': bool, quote': bool, buf': string)
    requires CutTo(s, i, escape, quote, star, buf, tokens)
    requires i < |s| && (escape || quote || s[i] == '\\' || s[i] == '"')
    ensures CutTo(s, i + 1, escape', quote', star, buf', tokens)
  {
    LengthAt(s, i, escape, quote);
    RestPlain(s, i, escape, quote, star, buf);
    var c := s[i];
    escape', quote', buf' := false, quote, buf;
    if escape {
      match c {
        case 'n' => buf' := buf + ['\n'];
        case 't' => buf' := buf + ['\t'];
        case 'r' => buf' := buf + ['\r'];
        case _ => buf' := buf + [c];
      }
    } else if c == '\\' {
      escape' := true;
    } else if c == '"' {
      quote' := !quote;
    } else {
      buf' := buf + [c];
    }
  }

  /** An operator, with the literal before it. */
  lemma CutOp(s: string, i: nat, star: bool, text: string, tokens: seq<Piece>)
    requires i < |s| && CutTo(s, i, false, false, star, text, tokens) && OpAt(s, i).Some?
    ensures var op := OpAt(s, i).value;
            CutTo(s, i + |op.text|, false, false, false, "", tokens + Flush(star, text) + [op])
  {
    RestOp(s, i, star, text);
    var op := OpAt(s, i).value;
    var rest := Rest(s, i + |op.text|, false, false, false, "");
    assert tokens + (Flush(star, text) + [op] + rest) == tokens + Flush(star, text) + [op] + rest;
  }

  lemma CutBare(s: string, i: nat, star: bool, text: string, tokens: seq<Piece>)
    requires i < |s| && CutTo(s, i, false, false, star, text, tokens)
    requires OpAt(s, i).None? && s[i] != '\\' && s[i] != '"' && !EndsWord(s[i])
    ensures if s[i] == '*' then CutTo(s, i + 1, false, false, true, "", tokens + Flush(star, text))
            else CutTo(s, i + 1, false, false, star, text + [s[i]], tokens)
  {
    LengthAt(s, i, false, false);
    RestBare(s, i, star, text);
    if s[i] == '*' {
      var rest := Rest(s, i + 1, false, false, true, "");
      assert tokens + (Flush(star, text) + rest) == tokens + Flush(star, text) + rest;
    }
  }

  lemma CutEnd(s: string, i: nat, escape: bool, quote: bool, star: bool, text: string, tokens: seq<Piece>)
    requires CutTo(s, i, escape, quote, star, text, tokens) && (i == |s| || (!escape && !quote && EndsWord(s[i])))
    ensures tokens + Flush(star, text) == Pieces(Symbols(s, false, false), false, "") && i == WordLength(s, false, false)
  {
    assert s[0..] == s;
    if i < |s| {
      SymbolsAt(s, i, escape, quote);
      LengthAt(s, i, escape, quote);
    }
  }

  /** A bare character: an operator, a star, or text. */
  method CutSpecial(s: string, i: nat, strings: Pattern, buf: string, tokens: seq<Piece>, hasOp: bool)
    returns (i': nat, strings': Pattern, buf': string, tokens': seq<Piece>, hasOp': bool)
    requires i < |s| && s[i] != '\\' && s[i] != '"' && !EndsWord(s[i])
    requires strings == [] || strings == [None]
    requires CutTo(s, i, false, false, strings != [], buf, tokens) && hasOp == HasOp(tokens)
    ensures i < i' && (strings' == [] || strings' == [None])
    ensures CutTo(s, i', false, false, strings' != [], buf', tokens') && hasOp' == HasOp(tokens')
  {
    i', strings', buf', tokens', hasOp' := i + 1, strings, buf, tokens, hasOp;
    var op := ReadOp(s, i);
    if op.Some? {
      CutOp(s, i, strings != [], buf, tokens);
      HasOpAfter(tokens, strings != [], buf, op.value);
      tokens' := CloseBuf(tokens, strings, buf);
      tokens', hasOp' := tokens' + [op.value], true;
      strings', buf', i' := [], "", i + |op.value.text|;
    } else {
      CutBare(s, i, strings != [], buf, tokens);
      if s[i] == '*' {
        HasOpAfter(tokens, strings != [], buf, OpPiece(EQUALS, "="));
        tokens' := CloseBuf(tokens, strings, buf);
        strings', buf' := [None], "";
      } else {
        buf' := buf + [s[i]];
      }
    }
  }

  /** Cuts a word into its pieces in one pass over its bytes. */
  method CutWord(s: string) returns (tokens: seq<Piece>, hasOp: bool, startWithQuote: bool, i: nat)
    ensures tokens == Pieces(Symbols(s, false, false), false, "")
    ensures i == WordLength(s, false, false)
    ensures startWithQuote == (s != "" && s[0] == '"')
    ensures hasOp == HasOp(tokens)
  {
    tokens, hasOp, startWithQuote, i := [], false, false, 0;
    var buf: string, strings: Pattern := "", [];
    var escape, quote := false, false;
    assert s[0..] == s;
    while i < |s|
      invariant i <= |s| && (strings == [] || strings == [None])
      invariant CutTo(s, i, escape, quote, strings != [], buf, tokens)
      invariant startWithQuote == (i > 0 && s[0] == '"')
      invariant i == 0 ==> !escape
      invariant hasOp == HasOp(tokens)
      decreases |s| - i
    {
      var c := s[i];
      if escape || quote || c == '\\' || c == '"' {
        if !escape && c == '"' && i == 0 {
          startWithQuote := true;
        }
        escape, quote, buf := CutPlain(s, i, escape, quote, buf, strings != [], tokens);
        i := i + 1;
      } else if EndsWord(c) {
        break;
      } else {
        i, strings, buf, tokens, hasOp := CutSpecial(s, i, strings, buf, tokens, hasOp);
      }
    }
    CutEnd(s, i, escape, quote, strings != [], buf, tokens);
    HasOpAfter(tokens, strings != [], buf, OpPiece(EQUALS, "="));
    tokens := CloseBuf(tokens, strings, buf);
  }

  /** ---- The token of a word ---- */

  /** A literal right behind another one begins with a star, and only `=` is ever negated. */
  ghost predicate WellCut(pieces: seq<Piece>) {
    && (forall i :: 0 < i < |pieces| && pieces[i - 1].Literal? && pieces[i].Literal? ==> StartsWithStar(pieces[i]))
    && (forall i :: 0 <= i < |pieces| && pieces[i].OpPiece? ==> ProperOp(pieces[i].op))
  }

  predicate StartsWithStar(p: Piece) {
    p.Literal? && p.parts != [] && p.parts[0] == None
  }

  predicate ProperOp(op: Op) {
    op.base != Includes && (op.not ==> op.base == Equal)
  }

  lemma {:induction false} PiecesWellCut(syms: seq<Symbol>, star: bool, text: string)
    ensures WellCut(Pieces(syms, star, text))
    ensures star ==> Pieces(syms, star, text) != [] && StartsWithStar(Pieces(syms, star, text)[0])
    decreases |syms|
  {
    if syms != [] {
      var op := LeadingOp(syms);
      if op.Some? {
        PiecesWellCut(syms[|op.value.text|..], false, "");
      } else if syms[0] == Bare('*') {
        PiecesWellCut(syms[1..], true, "");
      } else {
        PiecesWellCut(syms[1..], star, if syms[0].Quote? then text else text + [syms[0].c]);
      }
    }
  }

  /** Puts together the values of some pieces. */
  method AppendValues(pieces: seq<Piece>, from: nat, to: nat) returns (parts: Pattern)
    requires from <= to <= |pieces|
    ensures parts == Values(pieces[from..to])
  {
    parts := [];
    for i := from to to
      invariant parts == Values(pieces[from..i])
    {
      assert pieces[from..i + 1][..i - from] == pieces[from..i];
      parts := parts + pieces[i].Values();
    }
  }

  lemma EqualityOps(p: Piece)
    ensures IsEquality(p) <==> p.OpPiece? && (p.op == EQUALS || p.op == NOT_EQUALS)
  {
    if IsEquality(p) {
      assert p.op == Op(Equal, true) || p.op == Op(Equal, false);
    }
  }

  /** The first equality, or -1. */
  method FindEquality(pieces: seq<Piece>) returns (k: int)
    ensures if k == -1 then FirstEquality(pieces) == |pieces| else k == FirstEquality(pieces) < |pieces|
  {
    for i := 0 to |pieces|
      invariant forall j :: 0 <= j < i ==> !IsEquality(pieces[j])
    {
      EqualityOps(pieces[i]);
      if pieces[i].OpPiece? && (pieces[i].op == EQUALS || pieces[i].op == NOT_EQUALS) {
        return i;
      }
    }
    return -1;
  }

  method AssembleKeyword(pieces: seq<Piece>, hasOp: bool, startWithQuote: bool, canOrder: string -> bool) returns (t: Token)
    requires WellCut(pieces) && hasOp == HasOp(pieces)
    ensures t == Keyword(pieces, startWithQuote, canOrder)
  {
    var n := |pieces|;
    if n == 0 {
      return SimpleKeyword(false, AnyValue);
    }
    assert pieces[0..n] == pieces;
    assert n > 1 && pieces[n - 2].Literal? && pieces[n - 1].Literal? ==> StartsWithStar(pieces[n - 1]);
    assert n > 1 && pieces[n - 2].OpPiece? ==> ProperOp(pieces[n - 2].op);
    var left: Pattern, right: Pattern, op := [], [], NO_OP;
    if n > 1 {
      var k := FindEquality(pieces);
      if k != -1 {
        op := pieces[k].op;
        left := AppendValues(pieces, 0, k);
        right := AppendValues(pieces, k + 1, n);
        assert pieces[0..k] == pieces[..k] && pieces[k + 1..n] == pieces[k + 1..];
        assert ProperOp(pieces[k].op);
      }
    }
    if op == NO_OP {
      if !hasOp || pieces[n - 1].OpPiece? {
        right := AppendValues(pieces, 0, n);
      } else {
        op := if pieces[n - 2].OpPiece? then pieces[n - 2].op else NO_OP;
        if CanOrder(pieces[n - 1], canOrder) {
          left := AppendValues(pieces, 0, n - 2);
          right := pieces[n - 1].parts;
          assert pieces[0..n - 2] == pieces[..n - 2];
        } else {
          op := NO_OP;
          right := AppendValues(pieces, 0, n);
        }
      }
    }
    if |left| != 0 || (op.base != Includes && startWithQuote) {
      t := FieldKeyword(left, op == NOT_EQUALS, ValueOf(right, op.base));
    } else {
      t := SimpleKeyword(op == NOT_EQUALS, ValueOf(right, op.base));
    }
  }

  /** ---- The tokens of a query ---- */

  function ToLower(c: char): char {
    if 'A' <= c <= 'Z' then (c as int + 32) as char else c
  }

  /** The input begins with the word, in any case, and a blank or parenthesis. */
  predicate Check(remain: string, word: string) {
    && |remain| >= |word| + 1
    && (forall i :: 0 <= i < |word| ==> ToLower(remain[i]) == word[i])
    && (remain[|word|] == ' ' || remain[|word|] == '(' || remain[|word|] == ')')
  }

  function Word(s: string, canOrder: string -> bool): Token {
    Keyword(Pieces(Symbols(s, false, false), false, ""), s != "" && s[0] == '"', canOrder)
  }

  lemma WordNotEmpty(s: string)
    requires s != "" && !EndsWord(s[0])
    ensures WordLength(s, false, false) >= 1
  {
  }

  datatype Scanned = Scanned(ok: bool, remain: string, buf: Token)

  /** One scan: blanks and `and` are skipped. Whatever is found consumes input. */
  function ScanOf(remain: string, buf: Token, canOrder: string -> bool): (r: Scanned)
    ensures r.ok ==> |r.remain| < |remain|
    ensures !r.ok ==> r.buf == buf && r.remain == "" && forall c :: c in remain ==> IsSpace(c)
    decreases |remain|
  {
    if remain == "" then Scanned(false, remain, buf)
    else if IsSpace(remain[0]) then ScanOf(remain[1..], buf, canOrder)
    else
      var c := ToLower(remain[0]);
      if c == '(' then Scanned(true, remain[1..], LParen)
      else if c == ')' then Scanned(true, remain[1..], RParen)
      else if c == 'a' && Check(remain, "and") then ScanOf(remain[3..], buf, canOrder).(ok := true)
      else if c == 'o' && Check(remain, "or") then Scanned(true, remain[2..], OrToken)
      else if c == '-' || c == '!' then Scanned(true, remain[1..], NotToken)
      else if c == 'n' && Check(remain, "not") then Scanned(true, remain[3..], NotToken)
      else
        WordNotEmpty(remain);
        Scanned(true, remain[WordLength(remain, false, false)..], Word(remain, canOrder))
  }

  class Tokenizer {
    /** Whether a text reads as a number, a duration or a time. */
    const canOrder: string -> bool
    var remain: string
    var buf: Token

    constructor (input: string, canOrder: string -> bool)
      ensures remain == input && this.canOrder == canOrder && buf == LParen
    {
      this.canOrder, remain, buf := canOrder, input, LParen;
    }

    method ScanKeyword()
      modifies this
      ensures buf == Word(old(remain), canOrder) && remain == old(remain)[WordLength(old(remain), false, false)..]
    {
      var pieces, hasOp, startWithQuote, i := CutWord(remain);
      PiecesWellCut(Symbols(remain, false, false), false, "");
      buf := AssembleKeyword(pieces, hasOp, startWithQuote, canOrder);
      remain := remain[i..];
    }

    /** Finds the next token; tells whether there was one. */
    method Scan() returns (ok: bool)
      modifies this
      ensures Scanned(ok, remain, buf) == ScanOf(old(remain), old(buf), canOrder)
      decreases |remain|
    {
      if |remain| == 0 {
        return false;
      }
      while IsSpace(remain[0])
        invariant remain != "" && buf == old(buf) && |remain| <= |old(remain)|
        invariant ScanOf(remain, buf, canOrder) == ScanOf(old(remain), old(buf), canOrder)
        decreases |remain|
      {
        remain := remain[1..];
        if |remain| == 0 {
          return false;
        }
      }
      var c := ToLower(remain[0]);
      if c == '(' {
        buf := LParen;
        remain := remain[1..];
      } else if c == ')' {
        buf := RParen;
        remain := remain[1..];
      } else if c == 'a' && Check(remain, "and") {
        remain := remain[3..];
        var _ := Scan();
      } else if c == 'o' && Check(remain, "or") {
        buf := OrToken;
        remain := remain[2..];
      } else if c == '-' || c == '!' {
        buf := NotToken;
        remain := remain[1..];
      } else if c == 'n' && Check(remain, "not") {
        buf := NotToken;
        remain := remain[3..];
      } else {
        ScanKeyword();
      }
      ok := true;
    }
  }

  /** The tokens of an input. */
  function Tokens(remain: string, buf: Token, canOrder: string -> bool): seq<Token>
    decreases |remain|
  {
    var r := ScanOf(remain, buf, canOrder);
    if r.ok then [r.buf] + Tokens(r.remain, r.buf, canOrder) else []
  }

  /** Scans to the end. */
  method ScanAll(input: string, canOrder: string -> bool) returns (tokens: seq<Token>)
    ensures tokens == Tokens(input, LParen, canOrder)
  {
    var t := new Tokenizer(input, canOrder);
    tokens := [];
    var ok := true;
    while ok
      invariant fresh(t) && t.canOrder == canOrder
      invariant tokens + (if ok then Tokens(t.remain, t.buf, canOrder) else []) == Tokens(input, LParen, canOrder)
      decreases ok, |t.remain|
    {
      ok := t.Scan();
      if ok {
        tokens := tokens + [t.buf];
      }
    }
  }
}
