/** internal/query/tokenizer.go: a query as it may be written, and its tokens. */
module WrittenTokens {
  import opened Common
  import opened Matchers
  import opened Glob
  import opened Tokenizers
  import opened QuotedTokens
  import opened WrittenWords

  /** What a query is written of. The words of the syntax are written in either case. */
  datatype Item = Opening | Closing | AndWord(text: string) | OrWord(text: string) | NotWord(text: string) | Sign(c: char)
                | Term(word: Written)

  /** An item with the blanks behind it. */
  datatype Spaced = Spaced(item: Item, gap: string)

  predicate SameWord(text: string, word: string) {
    |text| == |word| && forall i :: 0 <= i < |word| ==> text[i] == word[i] || text[i] as int + 32 == word[i] as int
  }

  /** A word that begins without quotes begins with no sign. */
  predicate NoSign(parts: seq<Part>) {
    parts != [] && parts[0].Unquoted? ==>
      parts[0].text != "" && parts[0].text[0] != '-' && (|parts| > 1 ==> !parts[1].Unquoted?)
  }

  predicate IsSyntax(text: string) {
    SameWord(text, "and") || SameWord(text, "or") || SameWord(text, "not")
  }

  predicate Parted(rest: string) {
    rest != "" && (rest[0] == ' ' || rest[0] == '(' || rest[0] == ')')
  }

  predicate ProperItem(i: Item) {
    match i
    case Opening => true
    case Closing => true
    case AndWord(text) => SameWord(text, "and")
    case OrWord(text) => SameWord(text, "or")
    case NotWord(text) => SameWord(text, "not")
    case Sign(c) => c == '-' || c == '!'
    case Term(Phrase(parts)) => ProperWord(i.word) && NoSign(parts)
    case Term(Condition(key, m, _)) => ProperWord(i.word) && NoSign(key) && (key == [] ==> m != IsNot)
  }

  function ItemText(i: Item): string {
    match i
    case Opening => "("
    case Closing => ")"
    case AndWord(text) => text
    case OrWord(text) => text
    case NotWord(text) => text
    case Sign(c) => [c]
    case Term(word) => WordText(word)
  }

  /** The words of the syntax have a blank or a parenthesis behind them. Other words may also end the query or have
    * another space behind them, and where they do, even these words are none of the syntax. */
  predicate Follows(i: Item, rest: string) {
    match i
    case AndWord(_) => Parted(rest)
    case OrWord(_) => Parted(rest)
    case NotWord(_) => Parted(rest)
    case Term(Phrase(parts)) =>
      Boundary(rest) && (|parts| == 1 && parts[0].Unquoted? && IsSyntax(parts[0].text) ==> !Parted(rest))
    case Term(Condition(_, _, _)) => Boundary(rest)
    case _ => true
  }

  function TextOf(ws: seq<Spaced>): string {
    if ws == [] then "" else ItemText(ws[0].item) + (ws[0].gap + TextOf(ws[1..]))
  }

  predicate WellSpaced(ws: seq<Spaced>) {
    ws != [] ==>
      && ProperItem(ws[0].item) && (forall c :: c in ws[0].gap ==> IsSpace(c))
      && Follows(ws[0].item, ws[0].gap + TextOf(ws[1..])) && WellSpaced(ws[1..])
  }

  /** The token of an item other than `and`. */
  function ItemToken(i: Item, canOrder: string -> bool): Token
    requires !i.AndWord?
  {
    match i
    case Opening => LParen
    case Closing => RParen
    case OrWord(_) => OrToken
    case NotWord(_) => NotToken
    case Sign(_) => NotToken
    case Term(word) => TokenOf(word, canOrder)
  }

  /** The tokens of a query: `and` is none, but at the end it repeats the token before it. */
  function TokensFor(ws: seq<Spaced>, buf: Token, canOrder: string -> bool): seq<Token> {
    if ws == [] then []
    else if ws[0].item.AndWord? then (if |ws| == 1 then [buf] else TokensFor(ws[1..], buf, canOrder))
    else
      var t := ItemToken(ws[0].item, canOrder);
      [t] + TokensFor(ws[1..], t, canOrder)
  }

  /** ---- Words of the syntax ---- */

  predicate IsLetter(c: char) {
    'a' <= c <= 'z' || 'A' <= c <= 'Z'
  }

  predicate LowerCase(word: string) {
    forall c :: c in word ==> 'a' <= c <= 'z'
  }

  lemma LowerIs(c: char, l: char)
    requires 'a' <= l <= 'z'
    ensures ToLower(c) == l <==> c == l || c as int + 32 == l as int
  {
  }

  /** Of such a text exactly the word itself is taken for the word. */
  lemma SyntaxChecked(text: string, rest: string, word: string)
    requires LowerCase(word) && SameWord(text, word)
    requires Parted(rest)
    ensures Check(text + rest, word)
  {
    forall i | 0 <= i < |word|
      ensures ToLower((text + rest)[i]) == word[i]
    {
      assert word[i] in word;
      LowerIs(text[i], word[i]);
    }
  }

  lemma SyntaxNotChecked(text: string, more: string, word: string)
    requires LowerCase(word) && (SameWord(text, word) ==> !Parted(more))
    requires forall c :: c in text ==> BareChar(c)
    requires more == "" || !IsLetter(more[0])
    ensures !Check(text + more, word)
  {
    var s, n := text + more, |text|;
    if n > |word| {
      assert s[|word|] == text[|word|] && text[|word|] in text;
    } else if n == |word| && !SameWord(text, word) {
      var i :| 0 <= i < n && text[i] != word[i] && text[i] as int + 32 != word[i] as int;
      assert s[i] == text[i] && word[i] in word;
      LowerIs(s[i], word[i]);
    } else if more != "" {
      assert s[n] == more[0];
      if n < |word| {
        assert word[n] in word;
        LowerIs(s[n], word[n]);
      }
    }
  }

  lemma FirstLetter(text: string, word: string)
    requires word != "" && LowerCase(word) && SameWord(text, word)
    ensures ToLower(text[0]) == word[0] && !IsSpace(text[0])
  {
    assert word[0] in word;
    LowerIs(text[0], word[0]);
  }

  /** ---- One item ---- */

  lemma SyntaxScanned(i: Item, rest: string, buf: Token, canOrder: string -> bool)
    requires ProperItem(i) && !i.Term? && !i.AndWord? && Follows(i, rest)
    ensures ScanOf(ItemText(i) + rest, buf, canOrder) == Scanned(true, rest, ItemToken(i, canOrder))
  {
    var text := ItemText(i);
    var s := text + rest;
    match i {
      case OrWord(_) =>
        FirstLetter(text, "or");
        SyntaxChecked(text, rest, "or");
        assert s[0] == text[0] && s[2..] == rest;
      case NotWord(_) =>
        FirstLetter(text, "not");
        SyntaxChecked(text, rest, "not");
        assert s[0] == text[0] && s[3..] == rest;
      case Opening => assert s[0] == text[0] && s[1..] == rest;
      case Closing => assert s[0] == text[0] && s[1..] == rest;
      case Sign(_) => assert s[0] == text[0] && s[1..] == rest;
    }
  }

  lemma AndScanned(text: string, rest: string, buf: Token, canOrder: string -> bool)
    requires ProperItem(AndWord(text)) && Follows(AndWord(text), rest)
    ensures ScanOf(text + rest, buf, canOrder) == ScanOf(rest, buf, canOrder).(ok := true)
  {
    var s := text + rest;
    FirstLetter(text, "and");
    SyntaxChecked(text, rest, "and");
    assert s[0] == text[0] && s[3..] == rest;
  }

  /** A text that is read as a word: it does not begin like anything else. */
  predicate BeginsWord(s: string) {
    && s != "" && !EndsWord(s[0]) && s[0] != '-' && s[0] != '!'
    && !Check(s, "and") && !Check(s, "or") && !Check(s, "not")
  }

  lemma KeywordScanned(s: string, buf: Token, canOrder: string -> bool)
    requires BeginsWord(s)
    ensures ScanOf(s, buf, canOrder) == Scanned(true, s[WordLength(s, false, false)..], Word(s, canOrder))
  {
  }

  /** What stands behind an unquoted text of a word. */
  lemma NoLetter(parts: seq<Part>, more: string)
    requires parts == [] || !parts[0].Unquoted?
    requires parts == [] ==> more == "" || !IsLetter(more[0])
    ensures Spelled(parts) + more == "" || !IsLetter((Spelled(parts) + more)[0])
    ensures parts != [] ==> !Parted(Spelled(parts) + more)
  {
    if parts != [] {
      var first := PartText(parts[0]);
      Behind(first, Spelled(parts[1..]), more);
      assert first[0] == '*' || first[0] == '"' || first[0] == '\\';
      assert (Spelled(parts) + more)[0] == first[0];
    }
  }

  lemma UnquotedBegins(text: string, behind: string)
    requires text != "" && (forall c :: c in text ==> BareChar(c)) && text[0] != '-'
    requires IsSyntax(text) ==> !Parted(behind)
    requires behind == "" || !IsLetter(behind[0])
    ensures BeginsWord(text + behind)
  {
    assert text[0] in text && (text + behind)[0] == text[0];
    SyntaxNotChecked(text, behind, "and");
    SyntaxNotChecked(text, behind, "or");
    SyntaxNotChecked(text, behind, "not");
  }

  lemma MarkedBegins(s: string)
    requires s != "" && (s[0] == '*' || s[0] == '"' || s[0] == '\\')
    ensures BeginsWord(s)
  {
    NoWord(s);
  }

  lemma PartsBegin(parts: seq<Part>, more: string)
    requires Proper(parts) && NoSign(parts) && parts != [] && (more == "" || !IsLetter(more[0]))
    requires |parts| == 1 && parts[0].Unquoted? && IsSyntax(parts[0].text) ==> !Parted(more)
    ensures BeginsWord(Spelled(parts) + more)
  {
    var p, behind := parts[0], Spelled(parts[1..]) + more;
    assert p in parts;
    Behind(PartText(p), Spelled(parts[1..]), more);
    if p.Unquoted? {
      NoLetter(parts[1..], more);
      assert |parts| == 1 ==> Spelled(parts[1..]) == "" && behind == more;
      UnquotedBegins(p.text, behind);
    } else {
      assert (PartText(p) + behind)[0] == PartText(p)[0];
      MarkedBegins(PartText(p) + behind);
    }
  }

  /** A text that begins with no letter is no word of the syntax. */
  lemma NoWord(s: string)
    requires s != "" && !IsLetter(s[0])
    ensures !Check(s, "and") && !Check(s, "or") && !Check(s, "not")
  {
    LowerIs(s[0], 'a');
    LowerIs(s[0], 'o');
    LowerIs(s[0], 'n');
  }

  lemma MarkBegins(m: Mark)
    ensures var c := MarkText(m)[0];
            && !IsLetter(c) && c != ' ' && c != '(' && c != ')'
            && (m != IsNot ==> c == '=' || c == '<' || c == '>')
  {
    match m {
      case Is =>
      case IsIs =>
      case IsNot =>
      case Angles =>
      case Under =>
      case UnderOrIs =>
      case Over =>
      case OverOrIs =>
    }
  }

  lemma OperatorBegins(s: string)
    requires s != "" && (s[0] == '=' || s[0] == '<' || s[0] == '>')
    ensures BeginsWord(s)
  {
    NoWord(s);
  }

  lemma ConditionBegins(key: seq<Part>, m: Mark, tail: string)
    requires Proper(key) && NoSign(key) && (key == [] ==> m != IsNot)
    ensures BeginsWord(Spelled(key) + (MarkText(m) + tail))
  {
    var more := MarkText(m) + tail;
    MarkBegins(m);
    assert more[0] == MarkText(m)[0];
    if key == [] {
      OperatorBegins(more);
      assert Spelled(key) + more == more;
    } else {
      PartsBegin(key, more);
    }
  }

  lemma TermBegins(w: Written, rest: string)
    requires ProperItem(Term(w)) && Follows(Term(w), rest)
    ensures BeginsWord(WordText(w) + rest)
  {
    match w {
      case Phrase(parts) => PartsBegin(parts, rest);
      case Condition(key, m, value) =>
        ConditionBegins(key, m, Spelled(value) + rest);
        Regrouped(Spelled(key), MarkText(m), Spelled(value), rest);
    }
  }

  lemma Regrouped(a: string, b: string, c: string, d: string)
    ensures a + b + c + d == a + (b + (c + d))
  {
  }

  /** An item is scanned as its token, and what follows it is left. */
  lemma ItemScanned(i: Item, rest: string, buf: Token, canOrder: string -> bool)
    requires ProperItem(i) && !i.AndWord? && Follows(i, rest)
    ensures ScanOf(ItemText(i) + rest, buf, canOrder) == Scanned(true, rest, ItemToken(i, canOrder))
  {
    if i.Term? {
      var s := WordText(i.word) + rest;
      TermBegins(i.word, rest);
      WordRead(i.word, rest, canOrder);
      KeywordScanned(s, buf, canOrder);
      assert s[|WordText(i.word)|..] == rest;
    } else {
      SyntaxScanned(i, rest, buf, canOrder);
    }
  }

  /** ---- The whole query ---- */

  lemma {:induction false} GapSkipped(gap: string, rest: string, buf: Token, canOrder: string -> bool)
    requires forall c :: c in gap ==> IsSpace(c)
    ensures ScanOf(gap + rest, buf, canOrder) == ScanOf(rest, buf, canOrder)
  {
    if gap == "" {
      assert gap + rest == rest;
    } else {
      assert (gap + rest)[1..] == gap[1..] + rest;
      GapSkipped(gap[1..], rest, buf, canOrder);
    }
  }

  lemma SomethingScanned(ws: seq<Spaced>, buf: Token, canOrder: string -> bool)
    requires ws != [] && WellSpaced(ws)
    ensures ScanOf(TextOf(ws), buf, canOrder).ok
  {
    var i, rest := ws[0].item, ws[0].gap + TextOf(ws[1..]);
    if i.AndWord? {
      AndScanned(i.text, rest, buf, canOrder);
    } else {
      ItemScanned(i, rest, buf, canOrder);
    }
  }

  lemma TokensAlike(a: string, b: string, buf: Token, canOrder: string -> bool)
    requires ScanOf(a, buf, canOrder) == ScanOf(b, buf, canOrder)
    ensures Tokens(a, buf, canOrder) == Tokens(b, buf, canOrder)
  {
  }

  lemma TokensFrom(s: string, buf: Token, canOrder: string -> bool, rest: string, t: Token)
    requires ScanOf(s, buf, canOrder) == Scanned(true, rest, t)
    ensures Tokens(s, buf, canOrder) == [t] + Tokens(rest, t, canOrder)
  {
  }

  /** Scanning a written query to its end yields the tokens of its items. */
  lemma {:induction false} WrittenScanned(ws: seq<Spaced>, buf: Token, canOrder: string -> bool)
    requires WellSpaced(ws)
    ensures Tokens(TextOf(ws), buf, canOrder) == TokensFor(ws, buf, canOrder)
    decreases |ws|
  {
    if ws != [] {
      var i, gap, tail := ws[0].item, ws[0].gap, TextOf(ws[1..]);
      GapSkipped(gap, tail, buf, canOrder);
      if i.AndWord? {
        AndScanned(i.text, gap + tail, buf, canOrder);
        if |ws| == 1 {
          TokensFrom(TextOf(ws), buf, canOrder, "", buf);
        } else {
          SomethingScanned(ws[1..], buf, canOrder);
          TokensAlike(TextOf(ws), tail, buf, canOrder);
          WrittenScanned(ws[1..], buf, canOrder);
        }
      } else {
        var t := ItemToken(i, canOrder);
        ItemScanned(i, gap + tail, buf, canOrder);
        TokensFrom(TextOf(ws), buf, canOrder, gap + tail, t);
        GapSkipped(gap, tail, t, canOrder);
        TokensAlike(gap + tail, tail, t, canOrder);
        WrittenScanned(ws[1..], t, canOrder);
      }
    }
  }

  /** Scans a written query to its end. */
  method ScanWritten(ws: seq<Spaced>, canOrder: string -> bool) returns (tokens: seq<Token>)
    requires WellSpaced(ws)
    ensures tokens == TokensFor(ws, LParen, canOrder)
  {
    WrittenScanned(ws, LParen, canOrder);
    tokens := ScanAll(TextOf(ws), canOrder);
  }
}
