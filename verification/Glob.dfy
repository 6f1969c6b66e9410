/** internal/query/stringmatcher.go: glob patterns, built as specialised matchers and matched greedily. */
module Glob {
  import opened Common

  /** A pattern is a list of literals and stars; a star is None. */
  type Pattern = seq<Option<string>>

  /** The meaning of a pattern: `s` is cut into the literals, with any text at each star. */
  ghost predicate Splits(ts: Pattern, s: string) {
    if ts == [] then s == ""
    else match ts[0]
      case Some(lit) => lit <= s && Splits(ts[1..], s[|lit|..])
      case None => exists k: nat :: k <= |s| && Splits(ts[1..], s[k..])
  }

  datatype StringMatcher =
    | Exact(str: string)
    | Prefix(str: string)
    | Suffix(str: string)
    | Include(str: string)
    | Glob(prefix: string, suffix: string, chunks: seq<string>, chunksLength: int)
  {
    ghost predicate Valid() {
      Glob? ==> chunksLength == Total(chunks)
    }

    /** The pattern a matcher stands for. */
    ghost function Meaning(): Pattern {
      match this
      case Exact(str) => [Some(str)]
      case Prefix(str) => [Some(str), None]
      case Suffix(str) => [None, Some(str)]
      case Include(str) => [None, Some(str), None]
      case Glob(prefix, suffix, chunks, _) => [Some(prefix)] + Starred(chunks) + [None, Some(suffix)]
    }

    method Match(s: string) returns (b: bool)
      requires Valid()
      ensures b <==> Splits(Meaning(), s)
    {
      match this
      case Exact(str) =>
        b := str == s;
        ExactSplits(str, s);
      case Prefix(str) =>
        b := str <= s;
        PrefixSplits(str, s);
      case Suffix(str) =>
        b := |str| <= |s| && s[|s| - |str|..] == str;
        SuffixSplits(str, s);
      case Include(str) =>
        var i := Index(s, str);
        b := i != -1;
        IncludeSplits(str, s);
      case Glob(prefix, suffix, chunks, chunksLength) =>
        b := MatchGlob(prefix, suffix, chunks, chunksLength, s);
        GlobSplits(prefix, suffix, chunks, s);
    }
  }

  function Total(chunks: seq<string>): nat {
    if chunks == [] then 0 else |chunks[0]| + Total(chunks[1..])
  }

  ghost function Starred(chunks: seq<string>): Pattern {
    if chunks == [] then [] else [None, Some(chunks[0])] + Starred(chunks[1..])
  }

  ghost predicate OccursAt(s: string, sub: string, k: int) {
    0 <= k && k + |sub| <= |s| && s[k..k + |sub|] == sub
  }

  /** The chunks occur in `t` one behind the other. */
  ghost predicate Fits(chunks: seq<string>, t: string) {
    chunks == [] || exists k :: OccursAt(t, chunks[0], k) && Fits(chunks[1..], t[k + |chunks[0]|..])
  }

  /** `t` ends with the suffix, and the chunks fit in what is before it. */
  ghost predicate EndsAndFits(chunks: seq<string>, suffix: string, t: string) {
    |suffix| <= |t| && t[|t| - |suffix|..] == suffix && Fits(chunks, t[..|t| - |suffix|])
  }

  /** What fits in a tail fits in a longer tail. */
  lemma FitsEarlier(chunks: seq<string>, t: string, j: nat)
    requires j <= |t| && Fits(chunks, t[j..])
    ensures Fits(chunks, t)
  {
    if chunks != [] {
      var c := chunks[0];
      var k :| OccursAt(t[j..], c, k) && Fits(chunks[1..], t[j..][k + |c|..]);
      assert t[j..][k + |c|..] == t[j + k + |c|..];
      assert t[j..][k..k + |c|] == t[j + k..j + k + |c|];
      assert OccursAt(t, c, j + k);
    }
  }

  lemma {:induction false} FitsLength(chunks: seq<string>, t: string)
    requires Fits(chunks, t)
    ensures Total(chunks) <= |t|
  {
    if chunks != [] {
      var k :| OccursAt(t, chunks[0], k) && Fits(chunks[1..], t[k + |chunks[0]|..]);
      FitsLength(chunks[1..], t[k + |chunks[0]|..]);
    }
  }

  /** `strings.Index`: the leftmost occurrence, or -1. */
  method Index(s: string, sub: string) returns (i: int)
    ensures Leftmost(s, sub, i)
  {
    i := 0;
    while i + |sub| <= |s|
      invariant 0 <= i
      invariant forall k :: OccursAt(s, sub, k) ==> i <= k
    {
      if s[i..i + |sub|] == sub {
        return;
      }
      i := i + 1;
    }
    return -1;
  }

  /** Leftmost-greedy search without backtracking misses nothing: each chunk is looked for only as far
    * as the later ones leave room for. */
  method MatchGlob(prefix: string, suffix: string, chunks: seq<string>, chunksLength: int, s: string) returns (b: bool)
    requires chunksLength == Total(chunks)
    ensures b <==> prefix <= s && EndsAndFits(chunks, suffix, s[|prefix|..])
  {
    if |s| < |prefix| + chunksLength + |suffix| {
      if prefix <= s && EndsAndFits(chunks, suffix, s[|prefix|..]) {
        FitsLength(chunks, s[|prefix|..][..|s| - |prefix| - |suffix|]);
      }
      return false;
    }

    if s[..|prefix|] != prefix || s[|s| - |suffix|..] != suffix {
      assert s[|s| - |suffix|..] == s[|prefix|..][|s| - |prefix| - |suffix|..];
      return false;
    }

    var left := |prefix|;
    var right := |s| - chunksLength - |suffix|;
    ghost var end := |s| - |suffix|;
    Middle(chunks, s, |prefix|, suffix);

    for i := 0 to |chunks|
      invariant 0 <= left <= right == end - Total(chunks[i..])
      invariant Fits(chunks, s[|prefix|..end]) <==> Fits(chunks[i..], s[left..end])
    {
      var chunk := chunks[i];
      assert chunks[i..][0] == chunk && chunks[i..][1..] == chunks[i + 1..];
      right := right + |chunk|;
      var idx := Index(s[left..right], chunk);
      assert s[left..end][..right - left] == s[left..right];
      GreedyStep(chunks[i..], s[left..end], right - left, idx);
      if idx == -1 {
        return false;
      }
      assert s[left..end][idx + |chunk|..] == s[left + idx + |chunk|..end];
      left := left + idx + |chunk|;
    }
    return true;
  }

  lemma Middle(chunks: seq<string>, s: string, p: nat, suffix: string)
    requires p + |suffix| <= |s| && s[|s| - |suffix|..] == suffix
    ensures EndsAndFits(chunks, suffix, s[p..]) <==> Fits(chunks, s[p..|s| - |suffix|])
  {
    var u := s[p..];
    assert u[..|u| - |suffix|] == s[p..|s| - |suffix|];
    assert u[|u| - |suffix|..] == s[|s| - |suffix|..];
  }

  lemma OccursInWindow(t: string, sub: string, window: nat, k: int)
    requires window <= |t|
    ensures OccursAt(t[..window], sub, k) <==> OccursAt(t, sub, k) && k + |sub| <= window
  {
    if 0 <= k && k + |sub| <= window {
      assert t[..window][k..k + |sub|] == t[k..k + |sub|];
    }
  }

  /** A fit starts no further on than the later chunks leave room for; and the chunks also fit behind
    * any earlier occurrence of the first one. */
  lemma FitMoves(chunks: seq<string>, t: string, window: nat, k: int, idx: int)
    requires chunks != [] && window <= |t| && window == |t| - Total(chunks[1..])
    requires OccursAt(t, chunks[0], k) && Fits(chunks[1..], t[k + |chunks[0]|..])
    ensures OccursAt(t[..window], chunks[0], k)
    ensures 0 <= idx <= k ==> Fits(chunks[1..], t[idx + |chunks[0]|..])
  {
    var c := |chunks[0]|;
    FitsLength(chunks[1..], t[k + c..]);
    OccursInWindow(t, chunks[0], window, k);
    if 0 <= idx <= k {
      assert t[idx + c..][k - idx..] == t[k + c..];
      FitsEarlier(chunks[1..], t[idx + c..], k - idx);
    }
  }

  ghost predicate FitsFrom(chunks: seq<string>, t: string, k: int)
    requires chunks != []
  {
    OccursAt(t, chunks[0], k) && Fits(chunks[1..], t[k + |chunks[0]|..])
  }

  /** `idx` is the leftmost occurrence, or -1. */
  ghost predicate Leftmost(s: string, sub: string, idx: int) {
    && (idx == -1 ==> forall k :: !OccursAt(s, sub, k))
    && (idx != -1 ==> OccursAt(s, sub, idx) && forall k :: OccursAt(s, sub, k) ==> idx <= k)
  }

  /** Taking the leftmost occurrence of the first chunk in the window decides whether the chunks fit. */
  lemma GreedyStep(chunks: seq<string>, t: string, window: nat, idx: int)
    requires chunks != [] && window <= |t| && window == |t| - Total(chunks[1..])
    requires Leftmost(t[..window], chunks[0], idx)
    ensures Fits(chunks, t) <==> idx != -1 && FitsFrom(chunks, t, idx)
  {
    if Fits(chunks, t) {
      var k :| OccursAt(t, chunks[0], k) && Fits(chunks[1..], t[k + |chunks[0]|..]);
      FitMoves(chunks, t, window, k, idx);
    }
    OccursInWindow(t, chunks[0], window, idx);
  }

  /** ---- What the patterns of the matchers mean ---- */

  lemma ExactSplits(str: string, s: string)
    ensures Splits([Some(str)], s) <==> str == s
  {
    if str <= s {
      assert s == str + s[|str|..];
    }
  }

  lemma StarSplits(s: string)
    ensures Splits([None], s)
  {
    assert Splits([], s[|s|..]);
  }

  lemma PrefixSplits(str: string, s: string)
    ensures Splits([Some(str), None], s) <==> str <= s
  {
    assert [Some(str), None][1..] == [None];
    if str <= s {
      StarSplits(s[|str|..]);
    }
  }

  lemma {:induction false} StarredSplits(chunks: seq<string>, suffix: string, t: string)
    ensures Splits(Starred(chunks) + [None, Some(suffix)], t) <==> EndsAndFits(chunks, suffix, t)
  {
    var ts := Starred(chunks) + [None, Some(suffix)];
    if chunks == [] {
      assert ts == [None, Some(suffix)] && ts[1..] == [Some(suffix)];
      forall k: nat | k <= |t|
        ensures Splits(ts[1..], t[k..]) <==> suffix == t[k..]
      {
        ExactSplits(suffix, t[k..]);
      }
    } else {
      var rest := Starred(chunks[1..]) + [None, Some(suffix)];
      assert ts[0] == None && ts[1..] == [Some(chunks[0])] + rest;
      forall k: nat | k <= |t|
        ensures Splits(ts[1..], t[k..]) <==> ChunkThenRest(chunks, suffix, t, k)
      {
        assert ts[1..][1..] == rest;
        if chunks[0] <= t[k..] {
          StarredSplits(chunks[1..], suffix, t[k..][|chunks[0]|..]);
        }
        ChunkStep(chunks, suffix, t, k);
      }
      var end := |t| - |suffix|;
      if 0 <= end && t[end..] == suffix && Fits(chunks, t[..end]) {
        var k :| OccursAt(t[..end], chunks[0], k) && Fits(chunks[1..], t[..end][k + |chunks[0]|..]);
        assert ChunkThenRest(chunks, suffix, t, k) && Splits(ts[1..], t[k..]);
      }
    }
  }

  /** The first chunk at `k`, the others behind it, and the suffix at the end. */
  ghost predicate ChunkThenRest(chunks: seq<string>, suffix: string, t: string, k: nat)
    requires chunks != []
  {
    && |suffix| <= |t| && t[|t| - |suffix|..] == suffix
    && OccursAt(t[..|t| - |suffix|], chunks[0], k)
    && Fits(chunks[1..], t[..|t| - |suffix|][k + |chunks[0]|..])
  }

  /** A part cut out of what is in front of `end`, cut out of what is behind `k`. */
  lemma CutBehind(t: string, k: nat, n: nat, end: nat)
    requires k + n <= end <= |t|
    ensures t[..end][k..k + n] == t[k..][..n] && t[..end][k + n..] == t[k..][n..][..end - k - n]
    ensures t[k..][n..][end - k - n..] == t[end..]
  {
  }

  lemma ChunkStep(chunks: seq<string>, suffix: string, t: string, k: nat)
    requires chunks != [] && k <= |t|
    ensures ChunkThenRest(chunks, suffix, t, k) <==>
            chunks[0] <= t[k..] && EndsAndFits(chunks[1..], suffix, t[k..][|chunks[0]|..])
  {
    var c := chunks[0];
    var end := |t| - |suffix|;
    if k + |c| <= end {
      CutBehind(t, k, |c|, end);
      var u := t[k..][|c|..];
      assert |u| - |suffix| == end - k - |c|;
      assert c <= t[k..] <==> t[k..][..|c|] == c;
    }
  }

  lemma SuffixSplits(str: string, s: string)
    ensures Splits([None, Some(str)], s) <==> |str| <= |s| && s[|s| - |str|..] == str
  {
    assert Starred([]) + [None, Some(str)] == [None, Some(str)];
    StarredSplits([], str, s);
  }

  lemma IncludeSplits(str: string, s: string)
    ensures Splits([None, Some(str), None], s) <==> exists k :: OccursAt(s, str, k)
  {
    var ts: Pattern := [None, Some(str), None];
    assert ts[1..] == [Some(str), None];
    forall k: nat | k <= |s|
      ensures Splits(ts[1..], s[k..]) <==> OccursAt(s, str, k)
    {
      PrefixSplits(str, s[k..]);
      if k + |str| <= |s| {
        assert s[k..][..|str|] == s[k..k + |str|];
      }
    }
  }

  lemma LiteralFirst(lit: string, rest: Pattern, s: string)
    ensures Splits([Some(lit)] + rest, s) <==> lit <= s && Splits(rest, s[|lit|..])
  {
    assert ([Some(lit)] + rest)[1..] == rest;
  }

  lemma GlobSplits(prefix: string, suffix: string, chunks: seq<string>, s: string)
    ensures Splits([Some(prefix)] + Starred(chunks) + [None, Some(suffix)], s)
            <==> prefix <= s && EndsAndFits(chunks, suffix, s[|prefix|..])
  {
    var rest := Starred(chunks) + [None, Some(suffix)];
    assert [Some(prefix)] + Starred(chunks) + [None, Some(suffix)] == [Some(prefix)] + rest;
    LiteralFirst(prefix, rest, s);
    if prefix <= s {
      StarredSplits(chunks, suffix, s[|prefix|..]);
    }
  }
}
