/** The deep archive of decisions (internal/core/decision_archive.go): a move from the rows of the
    database to a line of an append-only log, in separate commits, with a crash at any point. */
module Archive {
  import opened Bytes
  import opened Options

  /** All rows of an item: its references, and the number of deliveries that wait for an
      acknowledgement. body stands for every other column of its rows. */
  datatype Record = Record(id: nat, reference: nat, revision: nat, body: int, queued: nat)

  /** The encoding of a record as a line, without its newline, and the decoding of a line that
      carries the record marker. */
  datatype Codec = Codec(enc: Record -> Bytes, dec: Bytes -> Option<Record>)

  /** What the proofs take from the encoding: a line has no newline in it, decodes to its record,
      and no other stretch of it decodes (section 4 of RFC 8259: an object text ends with the brace
      that closes it, and a quote inside a string is escaped). */
  ghost predicate Good(c: Codec) {
    && (forall r :: c.dec(c.enc(r)) == Some(r) && NEWLINE !in c.enc(r) && c.enc(r) != [])
    && (forall r, i: nat, j: nat {:trigger c.enc(r)[i..j]} ::
          i <= j <= |c.enc(r)| && c.dec(c.enc(r)[i..j]) != None ==> i == 0 && j == |c.enc(r)|)
  }

  // The log

  /** Where the line that starts at p ends: its newline, or the end of the file. */
  function LineEnd(b: Bytes, p: nat): (e: nat)
    requires p <= |b|
    ensures p <= e <= |b| && (e < |b| ==> b[e] == NEWLINE)
    ensures forall i :: p <= i < e ==> b[i] != NEWLINE
    decreases |b| - p
  {
    if p == |b| || b[p] == NEWLINE then p else LineEnd(b, p + 1)
  }

  lemma LineEndIs(b: Bytes, p: nat, e: nat)
    requires p <= e <= |b| && (e < |b| ==> b[e] == NEWLINE)
    requires forall i :: p <= i < e ==> b[i] != NEWLINE
    ensures LineEnd(b, p) == e
  {
  }

  function Segment(b: Bytes, p: nat): Bytes
    requires p <= |b|
  {
    b[p..LineEnd(b, p)]
  }

  /** readDecisionLine: the complete line at an offset, without its newline, or None. */
  function LineAt(b: Bytes, p: nat): Option<Bytes> {
    if p <= |b| && LineEnd(b, p) < |b| then Some(Segment(b, p)) else None
  }

  /** A stretch of a record's line. */
  ghost predicate Stretch(c: Codec, x: Bytes) {
    exists r, i: nat, j: nat :: i <= j <= |c.enc(r)| && x == c.enc(r)[i..j]
  }

  /** A log holds nothing but stretches of lines, torn or whole, and newlines. */
  ghost predicate Lines(c: Codec, b: Bytes) {
    forall p: nat :: p <= |b| ==> Stretch(c, Segment(b, p))
  }

  lemma Slice(b: Bytes, i: nat, j: nat, k: nat)
    requires i <= j <= |b| && k <= j - i
    ensures b[i..j][..k] == b[i..i + k]
  {
  }

  /** Only a whole line decodes. */
  lemma StretchDecodes(c: Codec, x: Bytes, n: nat)
    requires Good(c) && Stretch(c, x) && n <= |x| && c.dec(x[..n]) != None
    ensures n == |x| && x == c.enc(c.dec(x[..n]).value)
  {
    var r, i: nat, j: nat :| i <= j <= |c.enc(r)| && x == c.enc(r)[i..j];
    Slice(c.enc(r), i, j, n);
    assert c.enc(r)[0..|c.enc(r)|] == c.enc(r);
    assert x[..|x|] == x;
  }

  lemma StretchPrefix(c: Codec, x: Bytes, n: nat)
    requires Stretch(c, x) && n <= |x|
    ensures Stretch(c, x[..n])
  {
    var r, i: nat, j: nat :| i <= j <= |c.enc(r)| && x == c.enc(r)[i..j];
    Slice(c.enc(r), i, j, n);
  }

  lemma Empty(c: Codec)
    requires Good(c)
    ensures Stretch(c, []) && c.dec([]) == None
  {
    var r := Record(0, 0, 0, 0, 0);
    assert c.enc(r)[0..0] == [];
  }

  /** Only a crash leaves a tail: what the last line of a log holds, a prefix of the line of r. */
  ghost predicate Tail(c: Codec, b: Bytes, at: nat, r: Record, n: nat) {
    && |b| == at + n && n <= |c.enc(r)| && (at > 0 ==> b[at - 1] == NEWLINE)
    && b[at..] == c.enc(r)[..n]
  }

  lemma TailSegment(c: Codec, b: Bytes, at: nat, r: Record, n: nat, p: nat)
    requires Good(c) && Tail(c, b, at, r, n) && at <= p <= |b|
    ensures LineEnd(b, p) == |b| && Segment(b, p) == c.enc(r)[p - at..n]
  {
    forall i | p <= i < |b|
      ensures b[i] != NEWLINE
    {
      assert b[i] == b[at..][i - at] == c.enc(r)[i - at];
    }
    LineEndIs(b, p, |b|);
    assert b[p..] == b[at..][p - at..];
  }

  /** Where p's line ended before the end of the file, it still does. */
  lemma AppendKeeps(b: Bytes, x: Bytes, p: nat)
    requires p <= |b| && LineEnd(b, p) < |b|
    ensures LineEnd(b + x, p) == LineEnd(b, p) && Segment(b + x, p) == Segment(b, p)
  {
    LineEndIs(b + x, p, LineEnd(b, p));
  }

  lemma LineBefore(b: Bytes, p: nat, at: nat)
    requires p < at <= |b| && b[at - 1] == NEWLINE
    ensures LineEnd(b, p) < at
  {
  }

  lemma NewlineKeeps(b: Bytes, p: nat)
    requires p <= |b|
    ensures Segment(b + [NEWLINE], p) == Segment(b, p)
    ensures LineEnd(b + [NEWLINE], p) == LineEnd(b, p)
  {
    LineEndIs(b + [NEWLINE], p, LineEnd(b, p));
  }

  lemma NewlineLines(c: Codec, b: Bytes)
    requires Good(c) && Lines(c, b)
    ensures Lines(c, b + [NEWLINE])
  {
    forall p: nat | p <= |b| + 1
      ensures Stretch(c, Segment(b + [NEWLINE], p))
    {
      if p <= |b| {
        NewlineKeeps(b, p);
      } else {
        Empty(c);
      }
    }
  }

  lemma TailGrows(c: Codec, b: Bytes, at: nat, r: Record, n: nat)
    requires Good(c) && Tail(c, b, at, r, n) && n < |c.enc(r)|
    ensures Tail(c, b + [c.enc(r)[n]], at, r, n + 1)
  {
    var g := b + [c.enc(r)[n]];
    assert g[at..] == b[at..] + [c.enc(r)[n]];
    assert c.enc(r)[..n + 1] == c.enc(r)[..n] + [c.enc(r)[n]];
  }

  lemma TailLines(c: Codec, b: Bytes, at: nat, r: Record, n: nat)
    requires Good(c) && Lines(c, b) && Tail(c, b, at, r, n) && n < |c.enc(r)|
    ensures Lines(c, b + [c.enc(r)[n]])
  {
    var g := b + [c.enc(r)[n]];
    TailGrows(c, b, at, r, n);
    forall p: nat | p <= |g|
      ensures Stretch(c, Segment(g, p))
    {
      if p < at {
        LineBefore(b, p, at);
        AppendKeeps(b, [c.enc(r)[n]], p);
      } else {
        TailSegment(c, g, at, r, n + 1, p);
      }
    }
  }

  lemma CutEnd(b: Bytes, n: nat, p: nat)
    requires p <= n <= |b|
    ensures LineEnd(b[..n], p) == if LineEnd(b, p) < n then LineEnd(b, p) else n
    ensures Segment(b[..n], p) == Segment(b, p)[..LineEnd(b[..n], p) - p]
  {
    var e := if LineEnd(b, p) < n then LineEnd(b, p) else n;
    LineEndIs(b[..n], p, e);
    Slice(b, p, LineEnd(b, p), e - p);
    assert b[..n][p..e] == b[p..e];
  }

  lemma CutLines(c: Codec, b: Bytes, n: nat)
    requires Lines(c, b) && n <= |b|
    ensures Lines(c, b[..n])
  {
    forall p: nat | p <= n
      ensures Stretch(c, Segment(b[..n], p))
    {
      CutEnd(b, n, p);
      StretchPrefix(c, Segment(b, p), LineEnd(b[..n], p) - p);
    }
  }
}
