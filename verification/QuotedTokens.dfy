/** internal/query/tokenizer.go: texts written in quotes come back as they were. */
module QuotedTokens {
  import opened Common
  import opened Matchers
  import opened Glob
  import opened Tokenizers

  /** A backslash goes before every quote and backslash. */
  function Escaped(text: string): string {
    if text == "" then ""
    else EscapedChar(text[0]) + Escaped(text[1..])
  }

  function Quoted(text: string): string {
    "\"" + Escaped(text) + "\""
  }

  /** The texts in quotes, with a blank between them. */
  function Printed(texts: seq<string>): string {
    if texts == [] then ""
    else if |texts| == 1 then Quoted(texts[0])
    else Quoted(texts[0]) + " " + Printed(texts[1..])
  }

  function Plains(text: string): seq<Symbol> {
    if text == "" then [] else [Plain(text[0])] + Plains(text[1..])
  }

  /** What follows a word. */
  predicate Boundary(rest: string) {
    rest == "" || EndsWord(rest[0])
  }

  function EscapedChar(c: char): string {
    if c == '"' || c == '\\' then ['\\', c] else [c]
  }

  lemma CharInQuotes(c: char, s: string)
    ensures Symbols(EscapedChar(c) + s, false, true) == [Plain(c)] + Symbols(s, false, true)
    ensures WordLength(EscapedChar(c) + s, false, true) == |EscapedChar(c)| + WordLength(s, false, true)
  {
    var t := EscapedChar(c) + s;
    if |EscapedChar(c)| == 2 {
      assert t[0] == '\\' && t[1..][0] == c && t[1..][1..] == s;
    } else {
      assert t[0] == c && t[1..] == s;
    }
  }

  lemma {:induction false} InQuotes(text: string, rest: string)
    ensures Symbols(Escaped(text) + "\"" + rest, false, true) == Plains(text) + [Quote] + Symbols(rest, false, false)
    ensures WordLength(Escaped(text) + "\"" + rest, false, true) == |Escaped(text)| + 1 + WordLength(rest, false, false)
  {
    var s := Escaped(text) + "\"" + rest;
    if text == "" {
      assert s[0] == '"' && s[1..] == rest;
    } else {
      var tail := Escaped(text[1..]) + "\"" + rest;
      InQuotes(text[1..], rest);
      assert s == EscapedChar(text[0]) + tail;
      CharInQuotes(text[0], tail);
    }
  }

  lemma {:induction false} PlainPieces(text: string, syms: seq<Symbol>, star: bool, before: string)
    ensures Pieces(Plains(text) + syms, star, before) == Pieces(syms, star, before + text)
    decreases text
  {
    var all := Plains(text) + syms;
    if text == "" {
      assert all == syms && before + text == before;
    } else {
      assert all[0] == Plain(text[0]) && all[1..] == Plains(text[1..]) + syms;
      PlainPieces(text[1..], syms, star, before + [text[0]]);
      assert before + [text[0]] + text[1..] == before + text;
    }
  }

  /** A text in quotes, whatever follows it. */
  lemma QuotedSymbols(text: string, rest: string)
    ensures Symbols(Quoted(text) + rest, false, false) == [Quote] + Plains(text) + [Quote] + Symbols(rest, false, false)
    ensures WordLength(Quoted(text) + rest, false, false) == |Quoted(text)| + WordLength(rest, false, false)
  {
    var s := Quoted(text) + rest;
    assert s[0] == '"' && s[1..] == Escaped(text) + "\"" + rest;
    InQuotes(text, rest);
    var syms := Symbols(rest, false, false);
    assert [Quote] + (Plains(text) + [Quote] + syms) == [Quote] + Plains(text) + [Quote] + syms;
  }

  lemma QuotedPieces(text: string, syms: seq<Symbol>, star: bool, before: string)
    ensures Pieces([Quote] + Plains(text) + [Quote] + syms, star, before) == Pieces(syms, star, before + text)
  {
    var all, tail := [Quote] + Plains(text) + [Quote] + syms, [Quote] + syms;
    assert all[1..] == Plains(text) + tail && tail[1..] == syms;
    PlainPieces(text, tail, star, before);
  }

  lemma OneLiteral(text: string, canOrder: string -> bool)
    ensures Keyword([Literal([Some(text)])], true, canOrder) == SimpleKeyword(false, ValueOf([Some(text)], Includes))
  {
    var piece := Literal([Some(text)]);
    assert [piece][..0] == [] && Values([piece]) == [Some(text)];
  }

  /** A quoted text is one word, and one keyword with that text. */
  lemma QuotedWord(text: string, rest: string, canOrder: string -> bool)
    requires Boundary(rest) && text != ""
    ensures WordLength(Quoted(text) + rest, false, false) == |Quoted(text)|
    ensures Word(Quoted(text) + rest, canOrder) == SimpleKeyword(false, ValueOf([Some(text)], Includes))
  {
    QuotedSymbols(text, rest);
    QuotedPieces(text, [], false, "");
    assert Symbols(rest, false, false) == [] && WordLength(rest, false, false) == 0;
    assert "" + text == text;
    var none: Pattern := [];
    assert none + [Some(text)] == [Some(text)];
    OneLiteral(text, canOrder);
  }

  lemma QuotedScan(text: string, rest: string, buf: Token, canOrder: string -> bool)
    requires Boundary(rest) && text != ""
    ensures ScanOf(Quoted(text) + rest, buf, canOrder) ==
            Scanned(true, rest, SimpleKeyword(false, ValueOf([Some(text)], Includes)))
  {
    QuotedWord(text, rest, canOrder);
    var s := Quoted(text) + rest;
    assert s[0] == '"' && s[|Quoted(text)|..] == rest;
  }

  function Keywords(texts: seq<string>): seq<Token> {
    if texts == [] then [] else [SimpleKeyword(false, ValueOf([Some(texts[0])], Includes))] + Keywords(texts[1..])
  }

  lemma {:induction false} TokensPrinted(texts: seq<string>, buf: Token, canOrder: string -> bool)
    requires forall i :: 0 <= i < |texts| ==> texts[i] != ""
    ensures Tokens(Printed(texts), buf, canOrder) == Keywords(texts)
    decreases |texts|
  {
    if texts != [] {
      var first, rest := texts[0], if |texts| == 1 then "" else " " + Printed(texts[1..]);
      var keyword := SimpleKeyword(false, ValueOf([Some(first)], Includes));
      assert Printed(texts) == Quoted(first) + rest;
      QuotedScan(first, rest, buf, canOrder);
      if |texts| > 1 {
        assert rest[0] == ' ' && rest[1..] == Printed(texts[1..]);
        assert ScanOf(rest, keyword, canOrder) == ScanOf(Printed(texts[1..]), keyword, canOrder);
      }
      assert Tokens(rest, keyword, canOrder) == Tokens(Printed(texts[1..]), keyword, canOrder);
      TokensPrinted(texts[1..], keyword, canOrder);
    }
  }

  /** Scanning texts in quotes gives one keyword for each, holding just that text. */
  method ScanPrinted(texts: seq<string>, canOrder: string -> bool) returns (tokens: seq<Token>)
    requires forall i :: 0 <= i < |texts| ==> texts[i] != ""
    ensures |tokens| == |texts|
    ensures forall i :: 0 <= i < |texts| ==> tokens[i] == SimpleKeyword(false, ValueOf([Some(texts[i])], Includes))
  {
    TokensPrinted(texts, LParen, canOrder);
    KeywordsAt(texts);
    tokens := ScanAll(Printed(texts), canOrder);
  }

  lemma {:induction false} KeywordsAt(texts: seq<string>)
    ensures |Keywords(texts)| == |texts|
    ensures forall i :: 0 <= i < |texts| ==> Keywords(texts)[i] == SimpleKeyword(false, ValueOf([Some(texts[i])], Includes))
  {
    if texts != [] {
      KeywordsAt(texts[1..]);
    }
  }
}
