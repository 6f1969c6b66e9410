/** internal/query/stringmatcher.go: building the matcher of a pattern. */
module GlobBuilders {
  import opened Common
  import opened Glob

  ghost predicate Equivalent(a: Pattern, b: Pattern) {
    forall s :: Splits(a, s) <==> Splits(b, s)
  }

  /** Concatenating patterns concatenates texts. */
  lemma {:induction false} SplitsConcat(a: Pattern, b: Pattern, s: string)
    ensures Splits(a + b, s) <==> exists k: nat :: k <= |s| && Splits(a, s[..k]) && Splits(b, s[k..])
    decreases |a|, 1
  {
    if a == [] {
      assert a + b == b;
      assert s[0..] == s;
      assert forall k: nat :: k <= |s| && s[..k] == "" ==> k == 0;
      if Splits(b, s) {
        assert Splits(a, s[..0]) && Splits(b, s[0..]);
      }
    } else {
      assert (a + b)[1..] == a[1..] + b && (a + b)[0] == a[0];
      match a[0]
      case Some(lit) => LiteralConcat(lit, a, b, s);
      case None => StarConcat(a, b, s);
    }
  }

  lemma {:induction false} LiteralConcat(lit: string, a: Pattern, b: Pattern, s: string)
    requires a != [] && a[0] == Some(lit)
    ensures Splits([Some(lit)] + (a[1..] + b), s) <==> exists k: nat :: k <= |s| && Splits(a, s[..k]) && Splits(b, s[k..])
    decreases |a|, 0
  {
    var ts := [Some(lit)] + (a[1..] + b);
    assert ts[1..] == a[1..] + b;
    if lit <= s {
      var u := s[|lit|..];
      SplitsConcat(a[1..], b, u);
      if Splits(ts, s) {
        var j: nat :| j <= |u| && Splits(a[1..], u[..j]) && Splits(b, u[j..]);
        var k := |lit| + j;
        assert s[..k][|lit|..] == u[..j] && s[k..] == u[j..];
        assert Splits(a, s[..k]) && Splits(b, s[k..]);
      }
    }
    forall k: nat | k <= |s| && Splits(a, s[..k]) && Splits(b, s[k..])
      ensures Splits(ts, s)
    {
      var u, j := s[|lit|..], k - |lit|;
      assert lit <= s[..k] && lit <= s;
      assert s[..k][|lit|..] == u[..j] && s[k..] == u[j..];
    }
  }

  lemma {:induction false} StarConcat(a: Pattern, b: Pattern, s: string)
    requires a != [] && a[0] == None
    ensures Splits([None] + (a[1..] + b), s) <==> exists k: nat :: k <= |s| && Splits(a, s[..k]) && Splits(b, s[k..])
    decreases |a|, 0
  {
    var ts: Pattern := [None] + (a[1..] + b);
    assert ts[1..] == a[1..] + b;
    if Splits(ts, s) {
      var i: nat :| i <= |s| && Splits(ts[1..], s[i..]);
      var u := s[i..];
      SplitsConcat(a[1..], b, u);
      var j: nat :| j <= |u| && Splits(a[1..], u[..j]) && Splits(b, u[j..]);
      var k := i + j;
      assert s[..k][i..] == u[..j] && s[k..] == u[j..];
      assert Splits(a, s[..k]) && Splits(b, s[k..]);
    }
    forall k: nat | k <= |s| && Splits(a, s[..k]) && Splits(b, s[k..])
      ensures Splits(ts, s)
    {
      var i: nat :| i <= k && Splits(a[1..], s[..k][i..]);
      var u, j := s[i..], k - i;
      assert s[..k][i..] == u[..j] && s[k..] == u[j..];
      SplitsConcat(a[1..], b, u);
      assert Splits(ts[1..], s[i..]);
    }
  }

  lemma EquivalentConcat(a: Pattern, b: Pattern, c: Pattern)
    requires Equivalent(a, b)
    ensures Equivalent(a + c, b + c)
  {
    forall s
      ensures Splits(a + c, s) <==> Splits(b + c, s)
    {
      SplitsConcat(a, c, s);
      SplitsConcat(b, c, s);
    }
  }

  lemma EquivalentAfter(c: Pattern, a: Pattern, b: Pattern)
    requires Equivalent(a, b)
    ensures Equivalent(c + a, c + b)
  {
    forall s
      ensures Splits(c + a, s) <==> Splits(c + b, s)
    {
      SplitsConcat(c, a, s);
      SplitsConcat(c, b, s);
    }
  }

  /** Two stars are one star, an empty literal is nothing, and two literals are one. */
  lemma StarStar()
    ensures Equivalent([None, None], [None])
  {
    forall s
      ensures Splits([None, None], s) && Splits([None], s)
    {
      var two: Pattern := [None, None];
      assert two[1..] == [None];
      StarSplits(s);
      StarSplits(s[|s|..]);
      assert Splits(two[1..], s[|s|..]);
    }
  }

  lemma EmptyLiteral()
    ensures Equivalent([Some("")], [])
  {
    forall s
      ensures Splits([Some("")], s) <==> Splits([], s)
    {
      ExactSplits("", s);
    }
  }

  lemma JoinLiterals(a: string, b: string)
    ensures Equivalent([Some(a), Some(b)], [Some(a + b)])
  {
    forall s
      ensures Splits([Some(a), Some(b)], s) <==> Splits([Some(a + b)], s)
    {
      var two := [Some(a), Some(b)];
      assert two[1..] == [Some(b)];
      ExactSplits(a + b, s);
      if a <= s {
        ExactSplits(b, s[|a|..]);
        assert s == a + s[|a|..];
      }
      if a + b == s {
        assert s[..|a|] == a;
      }
    }
  }

  lemma {:induction false} StarredAppend(chunks: seq<string>, c: string)
    ensures Starred(chunks + [c]) == Starred(chunks) + [None, Some(c)]
    ensures Total(chunks + [c]) == Total(chunks) + |c|
  {
    if chunks == [] {
      assert chunks + [c] == [c];
      assert [c][1..] == [];
    } else {
      assert (chunks + [c])[0] == chunks[0] && (chunks + [c])[1..] == chunks[1..] + [c];
      StarredAppend(chunks[1..], c);
    }
  }

  /** The pattern made of what a builder holds. */
  ghost function Held(prefix: string, chunks: seq<string>, star: bool): Pattern {
    [Some(prefix)] + Starred(chunks) + if star then [None] else []
  }

  /** An empty literal in front may be dropped. */
  lemma DropEmptyPrefix(ts: Pattern)
    ensures Equivalent([Some("")] + ts, ts)
  {
    EmptyLiteral();
    EquivalentConcat([Some("")], [], ts);
    assert [] + ts == ts;
  }

  lemma StarAfter(closed: bool, prefix: string, chunks: seq<string>, star: bool)
    requires !closed ==> prefix == "" && chunks == []
    ensures Equivalent(Held(prefix, chunks, true), (if closed then Held(prefix, chunks, star) else []) + [None])
  {
    if !closed {
      var star: Pattern := [None];
      DropEmptyPrefix(star);
      assert Held(prefix, chunks, true) == [Some("")] + star;
      assert [] + star == star;
    } else if star {
      var front := [Some(prefix)] + Starred(chunks);
      StarStar();
      EquivalentAfter(front, [None, None], [None]);
      assert Held(prefix, chunks, star) + [None] == front + [None, None];
    } else {
      assert Held(prefix, chunks, false) + [None] == Held(prefix, chunks, true);
    }
  }

  /** What each specialised matcher means is what the builder held. */
  lemma ExactHeld(prefix: string)
    ensures Equivalent(Exact(prefix).Meaning(), Held(prefix, [], false))
    ensures Equivalent(Prefix(prefix).Meaning(), Held(prefix, [], true))
  {
    assert Held(prefix, [], false) == [Some(prefix)];
    assert Held(prefix, [], true) == [Some(prefix), None];
  }

  lemma SuffixHeld(suffix: string)
    ensures Equivalent(Suffix(suffix).Meaning(), Held("", [suffix], false))
  {
    DropEmptyPrefix([None, Some(suffix)]);
    assert [suffix][1..] == [];
    assert Starred([suffix]) == [None, Some(suffix)];
    assert Held("", [suffix], false) == [Some("")] + [None, Some(suffix)];
  }

  lemma IncludeHeld(chunk: string)
    ensures Equivalent(Include(chunk).Meaning(), Held("", [chunk], true))
  {
    DropEmptyPrefix([None, Some(chunk), None]);
    assert [chunk][1..] == [];
    assert Starred([chunk]) == [None, Some(chunk)];
    assert Held("", [chunk], true) == [Some("")] + [None, Some(chunk), None];
  }

  lemma GlobHeld(prefix: string, suffix: string, chunks: seq<string>, length: int)
    ensures var m := StringMatcher.Glob(prefix, suffix, chunks, length);
            Equivalent(m.Meaning(), if suffix == "" then Held(prefix, chunks, true) else Held(prefix, chunks + [suffix], false))
  {
    var front := [Some(prefix)] + Starred(chunks);
    if suffix == "" {
      EmptyLiteral();
      EquivalentAfter(front + [None], [Some("")], []);
      assert front + [None, Some(suffix)] == front + [None] + [Some("")];
      assert front + [None] + [] == Held(prefix, chunks, true);
    } else {
      StarredAppend(chunks, suffix);
      assert Held(prefix, chunks + [suffix], false) == front + [None, Some(suffix)];
    }
  }

  class GlobBuilder {
    var prefixClosed: bool
    var prefix: string
    var noSuffix: bool
    var chunks: seq<string>
    var chunksLength: int

    ghost predicate Valid()
      reads this
    {
      && chunksLength == Total(chunks)
      && (forall c :: c in chunks ==> c != "")
      && (!prefixClosed ==> prefix == "" && chunks == [] && !noSuffix)
      && (prefixClosed && prefix == "" && chunks == [] ==> noSuffix)
    }

    /** The pattern fed so far, up to equivalence. */
    ghost function Fed(): Pattern
      reads this
    {
      if prefixClosed then Held(prefix, chunks, noSuffix) else []
    }

    constructor ()
      ensures Valid() && Fed() == [] && !prefixClosed
    {
      prefixClosed, prefix, noSuffix, chunks, chunksLength := false, "", false, [], 0;
    }

    /** A literal behind another one is kept apart from it by a star, and the empty literal is what the
      * invariant cannot bear: `NewStringMatcher` feeds neither. */
    method FeedLiteral(s: string)
      requires chunksLength == Total(chunks) && (prefixClosed || chunks == [])
      modifies this
      ensures chunksLength == Total(chunks) && prefixClosed && !noSuffix
      ensures Fed() == old(Fed()) + if old(prefixClosed && !noSuffix) then [None, Some(s)] else [Some(s)]
      ensures old(Valid()) ==> (Valid() <==> s != "")
    {
      noSuffix := false;
      if prefixClosed {
        StarredAppend(chunks, s);
        chunks := chunks + [s];
        chunksLength := chunksLength + |s|;
        assert s in chunks;
      } else {
        prefix := s;
        prefixClosed := true;
      }
    }

    method FeedStar()
      requires Valid()
      modifies this
      ensures Valid() && prefixClosed && noSuffix
      ensures Equivalent(Fed(), old(Fed()) + [None])
    {
      StarAfter(prefixClosed, prefix, chunks, noSuffix);
      noSuffix := true;
      prefixClosed := true;
    }

    /** The matcher of what was fed; a builder fed nothing gives the matcher of everything. */
    method Build() returns (m: StringMatcher)
      requires Valid()
      modifies this
      ensures m.Valid()
      ensures old(prefixClosed) ==> Equivalent(m.Meaning(), old(Fed()))
      ensures !old(prefixClosed) ==> m == StringMatcher.Glob("", "", [], 0)
    {
      var suffix := "";
      if |chunks| > 0 && !noSuffix {
        suffix := chunks[|chunks| - 1];
        assert suffix in chunks;
        chunks := chunks[..|chunks| - 1];
        StarredAppend(chunks, suffix);
        assert old(chunks) == chunks + [suffix];
        chunksLength := chunksLength - |suffix|;
      }

      if |chunks| == 0 {
        if prefix != "" && suffix == "" {
          ExactHeld(prefix);
          if noSuffix {
            return Prefix(prefix);
          } else {
            return Exact(prefix);
          }
        }
        if prefix == "" && suffix != "" {
          SuffixHeld(suffix);
          return Suffix(suffix);
        }
      }

      if prefix == "" && suffix == "" && |chunks| == 1 {
        IncludeHeld(chunks[0]);
        assert chunks == [chunks[0]];
        return Include(chunks[0]);
      }

      GlobHeld(prefix, suffix, chunks, chunksLength);
      return StringMatcher.Glob(prefix, suffix, chunks, chunksLength);
    }
  }

  /** The patterns with literals but no text and no star; the lexer never produces them. */
  predicate OnlyEmptyLiterals(query: Pattern) {
    query != [] && NoText(query)
  }

  predicate NoText(query: Pattern) {
    forall i :: 0 <= i < |query| ==> query[i] == Some("")
  }

  /** The matcher of a pattern. It matches what the pattern means for every pattern except those made
    * of empty literals only, which it takes for a star. */
  method NewStringMatcher(query: Pattern) returns (m: StringMatcher)
    ensures m.Valid()
    ensures Equivalent(m.Meaning(), query) <==> !OnlyEmptyLiterals(query)
    ensures OnlyEmptyLiterals(query) ==> forall s :: Splits(m.Meaning(), s)
  {
    if |query| == 0 {
      EmptyLiteral();
      return Exact("");
    }

    var glob := new GlobBuilder();
    var buf := "";
    EmptyLiteral();
    for i := 0 to |query|
      invariant glob.Valid() && fresh(glob)
      invariant glob.prefixClosed ==> glob.noSuffix
      invariant Equivalent(glob.Fed() + [Some(buf)], query[..i])
      invariant !glob.prefixClosed && buf == "" <==> NoText(query[..i])
    {
      assert query[..i + 1] == query[..i] + [query[i]];
      EquivalentConcat(glob.Fed() + [Some(buf)], query[..i], [query[i]]);
      match query[i]
      case None =>
        ghost var fed := glob.Fed();
        if |buf| > 0 {
          glob.FeedLiteral(buf);
          buf := "";
        } else {
          EmptyLiteralLast(fed);
          EquivalentConcat(fed + [Some("")], fed, [None]);
        }
        glob.FeedStar();
        EmptyLiteralLast(glob.Fed());
      case Some(s) =>
        ghost var fed := glob.Fed();
        JoinLiterals(buf, s);
        EquivalentAfter(fed, [Some(buf), Some(s)], [Some(buf + s)]);
        assert fed + [Some(buf)] + [Some(s)] == fed + [Some(buf), Some(s)];
        buf := buf + s;
    }
    assert query[..|query|] == query;
    ghost var fed := glob.Fed();
    if |buf| > 0 {
      glob.FeedLiteral(buf);
    } else {
      EmptyLiteralLast(fed);
    }
    fed := glob.Fed();
    m := glob.Build();
    if OnlyEmptyLiterals(query) {
      EverythingNotEmpty(query);
    }
  }

  lemma EmptyLiteralLast(ts: Pattern)
    ensures Equivalent(ts + [Some("")], ts)
  {
    EmptyLiteral();
    EquivalentAfter(ts, [Some("")], []);
    assert ts + [] == ts;
  }

  /** The matcher of everything is not that of empty literals. */
  lemma EverythingNotEmpty(query: Pattern)
    requires OnlyEmptyLiterals(query)
    ensures !Equivalent(StringMatcher.Glob("", "", [], 0).Meaning(), query)
    ensures forall s :: Splits(StringMatcher.Glob("", "", [], 0).Meaning(), s)
  {
    forall s
      ensures Splits(StringMatcher.Glob("", "", [], 0).Meaning(), s)
    {
      GlobSplits("", "", [], s);
    }
    EmptyOnly(query, "x");
  }

  lemma {:induction false} EmptyOnly(query: Pattern, s: string)
    requires NoText(query)
    ensures Splits(query, s) <==> s == ""
  {
    if query != [] {
      EmptyOnly(query[1..], s);
    }
  }
}
