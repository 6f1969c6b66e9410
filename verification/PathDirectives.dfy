/** internal/store/pattern.go: reading a pattern with time directives into fragments. */
module PathDirectives {
  import opened Common
  import opened Calendar
  import opened Decimals
  import opened PathMatching
  import opened PathPatterns

  /** What a pattern stands for: a character as it is, or a field of the time. */
  datatype Item = Text(c: char) | Time(f: Fragment)

  function Texts(s: string): seq<Item> {
    if s == "" then [] else Texts(s[..|s| - 1]) + [Text(s[|s| - 1])]
  }

  function Directive(c: char): Option<Fragment> {
    match c
    case 'Y' => Some(YearFragment(false))
    case 'y' => Some(YearFragment(true))
    case 'm' => Some(MonthFragment)
    case 'd' => Some(DayFragment)
    case 'H' => Some(HourFragment)
    case 'M' => Some(MinuteFragment)
    case _ => None
  }

  /** A byte converted as if it was a code point: beyond ASCII that makes two bytes of it. */
  function AsRune(c: char): string {
    if c < 128 as char then [c]
    else [(192 + c as int / 64 % 4) as char, (128 + c as int % 64) as char]
  }

  /** What a percent sign and the character behind it stand for, unless that is another percent sign. */
  function DirectiveItems(c: char): seq<Item> {
    if Directive(c).Some? then [Time(Directive(c).value)] else Texts("%" + AsRune(c))
  }

  /** The items of a pattern: `%%` is a percent sign, an unknown directive stays as it is written, and so does a
    * percent sign at the end. */
  function Items(s: string): seq<Item> {
    if s == "" then []
    else if s[0] != '%' || |s| == 1 then [Text(s[0])] + Items(s[1..])
    else if s[1] == '%' then [Text('%')] + Items(s[2..])
    else DirectiveItems(s[1]) + Items(s[2..])
  }

  function ItemsOf(f: Fragment): seq<Item> {
    if f.ConstFragment? then Texts(f.text) else [Time(f)]
  }

  function Flatten(fragments: seq<Fragment>): seq<Item> {
    if fragments == [] then [] else Flatten(fragments[..|fragments| - 1]) + ItemsOf(fragments[|fragments| - 1])
  }

  /** The name that the items stand for at a time. */
  function Rendered(items: seq<Item>, t: Civil): string
    requires t.Rough()
  {
    if items == [] then ""
    else
      var last := items[|items| - 1];
      Rendered(items[..|items| - 1], t) + if last.Text? then [last.c] else last.f.Build(t)
  }

  lemma {:induction false} TextsConcat(a: string, b: string)
    ensures Texts(a + b) == Texts(a) + Texts(b)
  {
    if b == "" {
      assert a + b == a;
    } else {
      TextsConcat(a, b[..|b| - 1]);
      assert (a + b)[..|a + b| - 1] == a + b[..|b| - 1];
    }
  }

  lemma FlattenSnoc(fragments: seq<Fragment>, f: Fragment)
    ensures Flatten(fragments + [f]) == Flatten(fragments) + ItemsOf(f)
  {
    assert (fragments + [f])[..|fragments|] == fragments;
  }

  /** Appends a text to the fragments, unless it is empty. */
  method AddText(fragments: seq<Fragment>, text: string) returns (fragments': seq<Fragment>)
    ensures Flatten(fragments') == Flatten(fragments) + Texts(text)
  {
    FlattenSnoc(fragments, ConstFragment(text));
    fragments' := if text != "" then fragments + [ConstFragment(text)] else fragments;
  }

  /** A directive, or a text that stands for itself, ends the text before it. */
  method AddDirective(fragments: seq<Fragment>, c: char) returns (fragments': seq<Fragment>, buf: string)
    ensures Flatten(fragments') + Texts(buf) == Flatten(fragments) + DirectiveItems(c)
  {
    buf := "";
    if Directive(c).Some? {
      FlattenSnoc(fragments, Directive(c).value);
    }
    match c {
      case 'Y' => fragments' := fragments + [YearFragment(false)];
      case 'y' => fragments' := fragments + [YearFragment(true)];
      case 'm' => fragments' := fragments + [MonthFragment];
      case 'd' => fragments' := fragments + [DayFragment];
      case 'H' => fragments' := fragments + [HourFragment];
      case 'M' => fragments' := fragments + [MinuteFragment];
      case _ => fragments', buf := fragments, "%" + AsRune(c);
    }
  }

  /** What the bytes from `k` on begin with. */
  lemma NextItems(s: string, k: nat)
    requires k < |s|
    ensures Items(s[k..]) ==
            if s[k] != '%' || k + 1 == |s| then [Text(s[k])] + Items(s[k + 1..])
            else if s[k + 1] == '%' then [Text('%')] + Items(s[k + 2..])
            else DirectiveItems(s[k + 1]) + Items(s[k + 2..])
  {
    assert s[k..][0] == s[k] && s[k..][1..] == s[k + 1..];
    if k + 1 < |s| {
      assert s[k..][1] == s[k + 1] && s[k..][2..] == s[k + 2..];
    }
  }

  lemma TextsSnoc(text: string, c: char)
    ensures Texts(text + [c]) == Texts(text) + [Text(c)]
  {
    assert (text + [c])[..|text|] == text;
  }

  /** The pattern is read up to `i`: into fragments, with some text after them. */
  ghost predicate ReadTo(s: string, i: nat, fragments: seq<Fragment>, text: string) {
    i <= |s| && Flatten(fragments) + Texts(text) + Items(s[i..]) == Items(s)
  }

  lemma ReadChar(s: string, i: nat, fragments: seq<Fragment>, text: string)
    requires ReadTo(s, i, fragments, text) && i < |s| && (s[i] != '%' || i + 1 == |s|)
    ensures ReadTo(s, i + 1, fragments, text + [s[i]])
  {
    NextItems(s, i);
    TextsSnoc(text, s[i]);
  }

  lemma ReadPercent(s: string, i: nat, fragments: seq<Fragment>, text: string)
    requires ReadTo(s, i, fragments, text) && i + 1 < |s| && s[i] == '%' && s[i + 1] == '%'
    ensures ReadTo(s, i + 2, fragments, text + "%")
  {
    NextItems(s, i);
    TextsSnoc(text, '%');
  }

  lemma ReadDirective(s: string, i: nat, fragments: seq<Fragment>, text: string, fragments': seq<Fragment>, buf: string)
    requires ReadTo(s, i, fragments, text) && i + 1 < |s| && s[i] == '%' && s[i + 1] != '%'
    requires Flatten(fragments') + Texts(buf) == Flatten(fragments) + Texts(text) + DirectiveItems(s[i + 1])
    ensures ReadTo(s, i + 2, fragments', buf)
  {
    NextItems(s, i);
    Regroup(Flatten(fragments) + Texts(text), DirectiveItems(s[i + 1]), Items(s[i + 2..]));
  }

  /** Reads `%` and the character behind it: the text before it, then what it stands for. */
  method ReadField(s: string, i: nat, left: nat, buf: string, fragments: seq<Fragment>)
    returns (fragments': seq<Fragment>, buf': string)
    requires left <= i && i + 1 < |s| && s[i] == '%' && s[i + 1] != '%'
    requires ReadTo(s, i, fragments, buf + s[left..i])
    ensures ReadTo(s, i + 2, fragments', buf')
  {
    ghost var text := buf + s[left..i];
    fragments' := AddText(fragments, buf + s[left..i]);
    fragments', buf' := AddDirective(fragments', s[i + 1]);
    ReadDirective(s, i, fragments, text, fragments', buf');
  }

  lemma TextGrows(buf: string, s: string, left: nat, i: nat)
    requires left <= i < |s|
    ensures buf + s[left..i + 1] == buf + s[left..i] + [s[i]]
  {
  }

  /** One turn of the loop: `left` is where the text not yet taken over begins. A percent sign at the end is text. */
  method ReadNext(s: string, i: nat, left: nat, buf: string, fragments: seq<Fragment>)
    returns (i': nat, left': nat, buf': string, fragments': seq<Fragment>)
    requires left <= i < |s| && ReadTo(s, i, fragments, buf + s[left..i])
    ensures left' <= i' <= |s| && i < i' && ReadTo(s, i', fragments', buf' + s[left'..i'])
  {
    i', left', buf', fragments' := i + 1, left, buf, fragments;
    TextGrows(buf, s, left, i);
    if s[i] == '%' && i' < |s| {
      if s[i'] == '%' {
        ReadPercent(s, i, fragments, buf + s[left..i]);
        buf' := buf + s[left..i'];
      } else {
        fragments', buf' := ReadField(s, i, left, buf, fragments);
      }
      left', i' := i' + 1, i' + 1;
      assert buf' + s[left'..i'] == buf';
    } else {
      ReadChar(s, i, fragments, buf + s[left..i]);
    }
  }

  /** Reads a pattern into fragments: texts between directives. */
  method ParsePathPattern(s: string) returns (fragments: seq<Fragment>)
    ensures Flatten(fragments) == Items(s)
  {
    fragments := [];
    var buf, left, i := "", 0, 0;
    assert buf + s[left..i] == "";
    while i < |s|
      invariant 0 <= left <= i <= |s| && ReadTo(s, i, fragments, buf + s[left..i])
    {
      i, left, buf, fragments := ReadNext(s, i, left, buf, fragments);
    }
    assert s[left..] == s[left..i];
    Finish(s, fragments, buf + s[left..]);
    fragments := AddText(fragments, buf + s[left..]);
  }

  lemma Finish(s: string, fragments: seq<Fragment>, text: string)
    requires ReadTo(s, |s|, fragments, text)
    ensures Flatten(fragments) + Texts(text) == Items(s)
  {
  }

  /** ---- A parsed pattern prints what its text says ---- */

  lemma {:induction false} RenderedConcat(a: seq<Item>, b: seq<Item>, t: Civil)
    requires t.Rough()
    ensures Rendered(a + b, t) == Rendered(a, t) + Rendered(b, t)
  {
    if b == [] {
      assert a + b == a;
    } else {
      RenderedConcat(a, b[..|b| - 1], t);
      assert (a + b)[..|a + b| - 1] == a + b[..|b| - 1];
    }
  }

  lemma {:induction false} RenderedTexts(text: string, t: Civil)
    requires t.Rough()
    ensures Rendered(Texts(text), t) == text
  {
    if text != "" {
      RenderedTexts(text[..|text| - 1], t);
      assert text == text[..|text| - 1] + [text[|text| - 1]];
      assert Texts(text)[..|Texts(text)| - 1] == Texts(text[..|text| - 1]);
    }
  }

  lemma RenderedFragment(f: Fragment, t: Civil)
    requires t.Rough()
    ensures Rendered(ItemsOf(f), t) == f.Build(t)
  {
    if f.ConstFragment? {
      RenderedTexts(f.text, t);
    } else {
      assert ItemsOf(f)[..0] == [];
    }
  }

  lemma {:induction false} BuiltSnoc(fragments: seq<Fragment>, f: Fragment, t: Civil)
    requires t.Rough()
    ensures Built(fragments + [f], t) == Built(fragments, t) + f.Build(t)
  {
    if fragments == [] {
      assert Built([f][1..], t) == "";
    } else {
      BuiltSnoc(fragments[1..], f, t);
      assert (fragments + [f])[1..] == fragments[1..] + [f];
    }
  }

  lemma RenderedSnoc(fragments: seq<Fragment>, f: Fragment, t: Civil)
    requires t.Rough()
    ensures Rendered(Flatten(fragments + [f]), t) == Rendered(Flatten(fragments), t) + f.Build(t)
  {
    FlattenSnoc(fragments, f);
    RenderedConcat(Flatten(fragments), ItemsOf(f), t);
    RenderedFragment(f, t);
  }

  /** The name built is the pattern's text with its directives replaced. */
  lemma {:induction false} BuiltRendered(fragments: seq<Fragment>, t: Civil)
    requires t.Rough()
    ensures Built(fragments, t) == Rendered(Flatten(fragments), t)
  {
    if fragments != [] {
      var init, last := fragments[..|fragments| - 1], fragments[|fragments| - 1];
      assert fragments == init + [last];
      calc {
        Built(init + [last], t);
      == { BuiltSnoc(init, last, t); }
        Built(init, t) + last.Build(t);
      == { BuiltRendered(init, t); }
        Rendered(Flatten(init), t) + last.Build(t);
      == { RenderedSnoc(init, last, t); }
        Rendered(Flatten(init + [last]), t);
      }
    }
  }

  /** The fields of the fragments are the directives in the pattern's text. */
  lemma {:induction false} FieldsOfItems(fragments: seq<Fragment>, f: Field)
    ensures f in Fields(fragments) <==> exists g :: Time(g) in Flatten(fragments) && !g.ConstFragment? && g.Slot() == f
  {
    if fragments != [] {
      var init, last := fragments[..|fragments| - 1], fragments[|fragments| - 1];
      FieldsOfItems(init, f);
      assert fragments == init + [last];
      assert f in Fields(fragments) <==> f in Fields(init) || (!last.ConstFragment? && last.Slot() == f);
      TextsOnly(if last.ConstFragment? then last.text else "");
      if f in Fields(init) {
        var g :| Time(g) in Flatten(init) && !g.ConstFragment? && g.Slot() == f;
        assert Time(g) in Flatten(fragments);
      } else if f in Fields(fragments) {
        assert Time(last) in Flatten(fragments);
      } else {
        forall g | Time(g) in Flatten(fragments) && !g.ConstFragment?
          ensures g.Slot() != f
        {
          assert Time(g) in Flatten(init) || Time(g) in ItemsOf(last);
        }
      }
    }
  }

  lemma {:induction false} TextsOnly(text: string)
    ensures forall x :: x in Texts(text) ==> x.Text?
  {
    if text != "" {
      TextsOnly(text[..|text| - 1]);
    }
  }

  /** What each directive puts into a name. */
  lemma DirectiveRendered(c: char, rest: string, t: Civil)
    requires t.Rough()
    ensures Rendered(Items(['%', c] + rest), t) ==
            (if c == 'Y' then Itoa(t.year) else if c == 'y' then Two(t.year % 100)
             else if c == 'm' then Two(t.month) else if c == 'd' then Two(t.day)
             else if c == 'H' then Two(t.hour) else if c == 'M' then Two(t.minute)
             else if c == '%' then "%" else "%" + AsRune(c)) + Rendered(Items(rest), t)
  {
    var s := ['%', c] + rest;
    assert s[2..] == rest;
    if c == '%' {
      RenderedConcat([Text('%')], Items(rest), t);
      assert [Text('%')][..0] == [];
    } else {
      RenderedConcat(DirectiveItems(c), Items(rest), t);
      if Directive(c).Some? {
        RenderedFragment(Directive(c).value, t);
      } else {
        RenderedTexts("%" + AsRune(c), t);
      }
    }
  }

  lemma PlainItems(s: string)
    requires s != "" && s[0] != '%'
    ensures Items(s) == [Text(s[0])] + Items(s[1..])
  {
  }

  lemma PlainRendered(c: char, rest: string, t: Civil)
    requires t.Rough() && c != '%'
    ensures Rendered(Items([c] + rest), t) == [c] + Rendered(Items(rest), t)
  {
    var s := [c] + rest;
    assert s[1..] == rest;
    PlainItems(s);
    RenderedConcat([Text(c)], Items(rest), t);
    assert [Text(c)][..0] == [];
  }

  /** The pattern stands for a name. */
  ghost predicate Names(s: string, t: Civil, name: string)
    requires t.Rough()
  {
    forall items {:trigger IsItems(items)} :: IsItems(items) && items == Items(s) ==> Rendered(items, t) == name
  }

  /** It serves as a trigger: items are looked into only where some are named, so that names of long patterns stay cheap. */
  predicate IsItems(items: seq<Item>) {
    true
  }

  lemma NamesDirective(c: char, rest: string, t: Civil, name: string)
    requires t.Rough() && Names(rest, t, name) && c in "YymdHM%"
    ensures Names(['%', c] + rest, t,
                  (if c == 'Y' then Itoa(t.year) else if c == 'y' then Two(t.year % 100)
                   else if c == 'm' then Two(t.month) else if c == 'd' then Two(t.day)
                   else if c == 'H' then Two(t.hour) else if c == 'M' then Two(t.minute) else "%") + name)
  {
    assert IsItems(Items(rest));
    DirectiveRendered(c, rest, t);
  }

  lemma NamesPlain(c: char, rest: string, t: Civil, name: string)
    requires t.Rough() && Names(rest, t, name) && c != '%'
    ensures Names([c] + rest, t, [c] + name)
  {
    assert IsItems(Items(rest));
    PlainRendered(c, rest, t);
  }

  lemma MinuteNamed(t: Civil)
    requires t.Rough() && Two(t.minute) == "06"
    ensures Names("%M%%", t, "06%")
  {
    NamesDirective('%', "", t, "");
    NamesDirective('M', "%%", t, "%");
    assert ['%', '%'] + "" == "%%" && ['%', 'M'] + "%%" == "%M%%" && "06" + "%" == "06%";
  }

  lemma ClockNamed(t: Civil)
    requires t.Rough() && Two(t.hour) == "15" && Names("%M%%", t, "06%")
    ensures Names("_%H%M%%", t, "_1506%")
  {
    NamesDirective('H', "%M%%", t, "06%");
    NamesPlain('_', "%H%M%%", t, "1506%");
    assert ['%', 'H'] + "%M%%" == "%H%M%%" && "15" + "06%" == "1506%";
    assert ['_'] + "%H%M%%" == "_%H%M%%" && ['_'] + "1506%" == "_1506%";
  }

  lemma DayNamed(t: Civil)
    requires t.Rough() && Two(t.month) == "03" && Two(t.day) == "04" && Names("_%H%M%%", t, "_1506%")
    ensures Names("%m%d_%H%M%%", t, "0304_1506%")
  {
    NamesDirective('d', "_%H%M%%", t, "_1506%");
    NamesDirective('m', "%d_%H%M%%", t, "04_1506%");
    assert ['%', 'd'] + "_%H%M%%" == "%d_%H%M%%" && ['%', 'm'] + "%d_%H%M%%" == "%m%d_%H%M%%";
    assert "04" + "_1506%" == "04_1506%" && "03" + "04_1506%" == "0304_1506%";
  }

  lemma KnownDigits()
    ensures Itoa(2022) == "2022" && Two(3) == "03" && Two(4) == "04" && Two(15) == "15" && Two(6) == "06"
  {
  }

  /** A pattern with the time down to the minute stands for this name. */
  lemma KnownName(t: Civil)
    requires t == Civil(2022, 3, 4, 15, 6, 17, 0)
    ensures Names("%Y%m%d_%H%M%%", t, "20220304_1506%")
  {
    KnownDigits();
    MinuteNamed(t);
    ClockNamed(t);
    DayNamed(t);
    NamesDirective('Y', "%m%d_%H%M%%", t, "0304_1506%");
    assert ['%', 'Y'] + "%m%d_%H%M%%" == "%Y%m%d_%H%M%%" && "2022" + "0304_1506%" == "20220304_1506%";
  }

  /** The name that a pattern stands for is the one that is built. */
  lemma NameBuilt(s: string, fragments: seq<Fragment>, t: Civil, name: string)
    requires Flatten(fragments) == Items(s) && t.Rough() && Names(s, t, name)
    ensures Built(fragments, t) == name
  {
    assert IsItems(Items(s));
    BuiltRendered(fragments, t);
  }

  /** The fields of the time that a pattern's text has directives for. */
  ghost function FieldsIn(items: seq<Item>): set<Field> {
    set x | x in items && x.Time? && !x.f.ConstFragment? :: x.f.Slot()
  }

  /** A store whose path is read from a pattern's text finds the file of every time, for every period around it,
    * exactly when the directives in the text leave no field out between a coarser and a finer one. */
  lemma TextNeverLostIff(s: string, fragments: seq<Fragment>)
    requires Flatten(fragments) == Items(s)
    ensures NeverLost(fragments) <==> GapFree(FieldsIn(Items(s)))
  {
    forall f
      ensures f in Fields(fragments) <==> f in FieldsIn(Items(s))
    {
      FieldsOfItems(fragments, f);
      if f in FieldsIn(Items(s)) {
        var x :| x in Items(s) && x.Time? && !x.f.ConstFragment? && x.f.Slot() == f;
        assert Time(x.f) in Flatten(fragments);
      }
    }
    assert Fields(fragments) == FieldsIn(Items(s));
    NeverLostIff(fragments);
  }
}
