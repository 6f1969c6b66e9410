/** A log file: bytes cut into lines by '\n', read through a seekable handle.
  * A byte is a `char`; only '\n' and '{' are ever looked at directly. */
module LogFile {
  import opened Common

  /** Every line is ended by a newline, as the writer leaves the file. */
  predicate Terminated(f: string) {
    f == "" || f[|f| - 1] == '\n'
  }

  predicate IsLineStart(f: string, p: int) {
    0 <= p <= |f| && (p == 0 || f[p - 1] == '\n')
  }

  ghost predicate EndsLine(f: string, p: int, e: int) {
    && p <= e <= |f|
    && (forall k :: p <= k < e ==> k < 0 || f[k] != '\n')
    && (e < |f| ==> e < 0 || f[e] == '\n')
  }

  lemma LineEndExists(f: string, p: nat)
    requires p <= |f|
    ensures exists e :: EndsLine(f, p, e)
    decreases |f| - p
  {
    if p == |f| || f[p] == '\n' {
      assert EndsLine(f, p, p);
    } else {
      LineEndExists(f, p + 1);
      var e :| EndsLine(f, p + 1, e);
      assert EndsLine(f, p, e);
    }
  }

  /** Position of the first newline at or after `p`, or `|f|` when there is none. */
  ghost function LineEnd(f: string, p: nat): (e: nat)
    requires p <= |f|
    ensures EndsLine(f, p, e)
  {
    LineEndExists(f, p);
    var e :| EndsLine(f, p, e);
    e
  }

  /** The bytes from `p` up to the newline. */
  ghost function LineAt(f: string, p: nat): string
    requires p <= |f|
  {
    f[p..LineEnd(f, p)]
  }

  lemma TerminatedLineEnd(f: string, p: nat)
    requires Terminated(f) && p < |f|
    ensures LineEnd(f, p) < |f|
  {
    assert f[|f| - 1] == '\n';
  }

  /** The first newline of a chunk read at `p` is the end of the line at `p`. */
  lemma ChunkLine(f: string, p: nat, chunk: string, idx: nat)
    requires p + |chunk| <= |f| && chunk == f[p..p + |chunk|]
    requires idx < |chunk| && chunk[idx] == '\n'
    requires forall k :: 0 <= k < idx ==> chunk[k] != '\n'
    ensures LineEnd(f, p) == p + idx && LineAt(f, p) == chunk[..idx]
  {
    assert forall k :: 0 <= k <= idx ==> f[p + k] == chunk[k];
    assert forall k :: p <= k < p + idx ==> f[k] == chunk[k - p];
    assert f[p..p + idx] == chunk[..idx];
  }

  /** A chunk read at `p` without a newline is not all that is left of the file. */
  lemma ChunkWithoutNewline(f: string, p: nat, chunk: string)
    requires Terminated(f) && p + |chunk| <= |f| && chunk == f[p..p + |chunk|] && chunk != ""
    requires forall k :: 0 <= k < |chunk| ==> chunk[k] != '\n'
    ensures p + |chunk| < |f|
  {
    assert chunk[|chunk| - 1] == f[p + |chunk| - 1];
  }

  /** Between a position and the end of its line no other line starts. */
  lemma NoLineStartInside(f: string, p: nat, q: nat)
    requires p <= |f| && p < q <= LineEnd(f, p)
    ensures !IsLineStart(f, q)
  {
    assert f[q - 1] != '\n';
  }

  /** A seekable file opened for reading. */
  class ReadSeeker {
    const data: string
    var pos: nat

    constructor (data: string)
      ensures this.data == data && pos == 0
    {
      this.data := data;
      pos := 0;
    }

    method Seek(p: nat)
      modifies `pos
      ensures pos == p
    {
      pos := p;
    }

    /** Reads up to `n` bytes; an empty result is the end of the file. */
    method Read(n: nat) returns (b: string)
      requires n > 0
      modifies `pos
      ensures b == if old(pos) >= |data| then "" else data[old(pos)..Min(old(pos) + n, |data|)]
      ensures pos == old(pos) + |b|
    {
      if pos >= |data| {
        b := "";
      } else {
        b := data[pos..Min(pos + n, |data|)];
        pos := pos + |b|;
      }
    }
  }

  /** Index of the first newline in `b`, if any. */
  method IndexNewline(b: string) returns (idx: int)
    ensures -1 <= idx < |b|
    ensures idx >= 0 ==> b[idx] == '\n' && forall k :: 0 <= k < idx ==> b[k] != '\n'
    ensures idx == -1 ==> forall k :: 0 <= k < |b| ==> b[k] != '\n'
  {
    idx := 0;
    while idx < |b|
      invariant 0 <= idx <= |b|
      invariant forall k :: 0 <= k < idx ==> b[k] != '\n'
    {
      if b[idx] == '\n' {
        return;
      }
      idx := idx + 1;
    }
    idx := -1;
  }
}
