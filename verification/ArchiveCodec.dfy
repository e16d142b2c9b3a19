/** The contract of the record encoding can be met: a simple encoding meets it. */
module ArchiveCodec {
  import opened Bytes
  import opened Options
  import opened Archive

  const OPEN: byte := 255
  const CLOSE: byte := 254

  function Repeat(b: byte, n: nat): (s: Bytes)
    ensures |s| == n && forall i :: 0 <= i < n ==> s[i] == b
  {
    seq(n, i => b)
  }

  /** Each field in a digit of its own, between the marks. */
  function Fields(r: Record): Bytes {
    Repeat(1, r.id) + Repeat(2, r.reference) + Repeat(3, r.revision)
    + (if r.body >= 0 then Repeat(4, r.body) else Repeat(5, -r.body)) + Repeat(6, r.queued)
  }

  function Encode(r: Record): Bytes {
    [OPEN] + Fields(r) + [CLOSE]
  }

  ghost function Decode(b: Bytes): Option<Record> {
    if exists r :: Encode(r) == b then Some(var r :| Encode(r) == b; r) else None
  }

  function CountOf(s: Bytes, b: byte): nat {
    if s == [] then 0 else CountOf(s[..|s| - 1], b) + if s[|s| - 1] == b then 1 else 0
  }

  lemma {:induction false} CountConcat(s: Bytes, t: Bytes, b: byte)
    ensures CountOf(s + t, b) == CountOf(s, b) + CountOf(t, b)
    decreases |t|
  {
    if t == [] {
      assert s + t == s;
    } else {
      assert (s + t)[..|s + t| - 1] == s + t[..|t| - 1];
      CountConcat(s, t[..|t| - 1], b);
    }
  }

  lemma {:induction false} CountRepeat(c: byte, n: nat, b: byte)
    ensures CountOf(Repeat(c, n), b) == if b == c then n else 0
  {
    if n > 0 {
      assert Repeat(c, n)[..n - 1] == Repeat(c, n - 1);
      CountRepeat(c, n - 1, b);
    }
  }

  lemma CountFields(r: Record, b: byte)
    ensures CountOf(Fields(r), b) ==
            if b == 1 then r.id else if b == 2 then r.reference else if b == 3 then r.revision
            else if b == 4 then if r.body >= 0 then r.body else 0
            else if b == 5 then if r.body < 0 then -r.body else 0
            else if b == 6 then r.queued else 0
  {
    var body := if r.body >= 0 then Repeat(4, r.body) else Repeat(5, -r.body);
    CountRepeat(1, r.id, b);
    CountRepeat(2, r.reference, b);
    CountRepeat(3, r.revision, b);
    if r.body >= 0 {
      CountRepeat(4, r.body, b);
    } else {
      CountRepeat(5, -r.body, b);
    }
    CountRepeat(6, r.queued, b);
    CountConcat(Repeat(1, r.id), Repeat(2, r.reference), b);
    CountConcat(Repeat(1, r.id) + Repeat(2, r.reference), Repeat(3, r.revision), b);
    CountConcat(Repeat(1, r.id) + Repeat(2, r.reference) + Repeat(3, r.revision), body, b);
    CountConcat(Repeat(1, r.id) + Repeat(2, r.reference) + Repeat(3, r.revision) + body, Repeat(6, r.queued), b);
  }

  lemma Injective(r: Record, q: Record)
    requires Encode(r) == Encode(q)
    ensures r == q
  {
    assert Fields(r) == Encode(r)[1..|Encode(r)| - 1] == Fields(q);
    CountFields(r, 1);
    CountFields(q, 1);
    CountFields(r, 2);
    CountFields(q, 2);
    CountFields(r, 3);
    CountFields(q, 3);
    CountFields(r, 4);
    CountFields(q, 4);
    CountFields(r, 5);
    CountFields(q, 5);
    CountFields(r, 6);
    CountFields(q, 6);
  }

  lemma Marks(r: Record)
    ensures forall i :: 0 < i < |Encode(r)| - 1 ==> 1 <= Encode(r)[i] <= 6
    ensures |Encode(r)| >= 2 && Encode(r)[0] == OPEN && Encode(r)[|Encode(r)| - 1] == CLOSE
  {
    forall i | 0 < i < |Encode(r)| - 1
      ensures 1 <= Encode(r)[i] <= 6
    {
      assert Encode(r)[i] == Fields(r)[i - 1];
    }
  }

  lemma OnlyWhole(r: Record, i: nat, j: nat)
    requires i <= j <= |Encode(r)| && Decode(Encode(r)[i..j]) != None
    ensures i == 0 && j == |Encode(r)|
  {
    var q :| Encode(q) == Encode(r)[i..j];
    Marks(r);
    Marks(q);
    assert Encode(q)[0] == Encode(r)[i] && Encode(q)[|Encode(q)| - 1] == Encode(r)[j - 1];
  }

  lemma CodecExists()
    ensures exists c :: Good(c)
  {
    var c := Codec(r => Encode(r), b => Decode(b));
    forall r
      ensures c.dec(c.enc(r)) == Some(r) && NEWLINE !in c.enc(r) && c.enc(r) != []
    {
      var q :| Encode(q) == Encode(r) && Decode(Encode(r)) == Some(q);
      Injective(q, r);
      Marks(r);
    }
    forall r, i: nat, j: nat | i <= j <= |c.enc(r)| && c.dec(c.enc(r)[i..j]) != None
      ensures i == 0 && j == |c.enc(r)|
    {
      OnlyWhole(r, i, j);
    }
    assert Good(c);
  }
}
