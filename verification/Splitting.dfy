/** Splitting a sequence at a separator, as strings.Split and bytes.Split do. */
module Splitting {

  /** The parts of s between its separators; at least one. */
  function Split<T(==)>(s: seq<T>, sep: T): (parts: seq<seq<T>>)
    ensures |parts| > 0
    ensures forall i :: 0 <= i < |parts| ==> sep !in parts[i]
  {
    if s == [] then [[]] else Push(s[0], Split(s[1..], sep), sep)
  }

  /** The parts of a sequence that starts with x, from the parts of the rest. */
  function Push<T(==)>(x: T, parts: seq<seq<T>>, sep: T): (r: seq<seq<T>>)
    requires |parts| > 0
    ensures |r| > 0
  {
    if x == sep then [[]] + parts else [[x] + parts[0]] + parts[1..]
  }

  function Join<T>(parts: seq<seq<T>>, sep: T): seq<T>
    requires |parts| > 0
  {
    if |parts| == 1 then parts[0] else parts[0] + [sep] + Join(parts[1..], sep)
  }

  lemma {:induction false} JoinOfSplit<T>(s: seq<T>, sep: T)
    ensures Join(Split(s, sep), sep) == s
  {
    if s != [] {
      JoinOfSplit(s[1..], sep);
      var rest := Split(s[1..], sep);
      assert s == [s[0]] + s[1..];
      if s[0] == sep {
        assert ([[]] + rest)[1..] == rest;
      } else {
        assert ([[s[0]] + rest[0]] + rest[1..])[1..] == rest[1..];
      }
    }
  }

  lemma PushOfConcat<T>(x: T, a: seq<seq<T>>, b: seq<seq<T>>, sep: T)
    requires |a| > 0
    ensures Push(x, a + b, sep) == Push(x, a, sep) + b
  {
    assert (a + b)[1..] == a[1..] + b;
  }

  lemma {:induction false} SplitOfConcat<T>(a: seq<T>, b: seq<T>, sep: T)
    ensures Split(a + [sep] + b, sep) == Split(a, sep) + Split(b, sep)
  {
    var s := a + [sep] + b;
    if a == [] {
      assert s[1..] == b;
    } else {
      SplitOfConcat(a[1..], b, sep);
      assert s[1..] == a[1..] + [sep] + b;
      PushOfConcat(a[0], Split(a[1..], sep), Split(b, sep), sep);
    }
  }

  lemma {:induction false} JoinOfConcat<T>(a: seq<seq<T>>, b: seq<seq<T>>, sep: T)
    requires |a| > 0 && |b| > 0
    ensures Join(a + b, sep) == Join(a, sep) + [sep] + Join(b, sep)
  {
    if |a| == 1 {
      assert (a + b)[1..] == b;
    } else {
      JoinOfConcat(a[1..], b, sep);
      assert (a + b)[1..] == a[1..] + b;
      assert Join(a + b, sep) == a[0] + [sep] + (Join(a[1..], sep) + [sep] + Join(b, sep));
    }
  }

  /** The parts of a tail, without its first (which may be cut), are the last parts of the
      whole. */
  lemma {:induction false} SplitOfTail<T>(a: seq<T>, b: seq<T>, sep: T)
    ensures |Split(a + b, sep)| >= |Split(b, sep)|
    ensures Split(a + b, sep)[|Split(a + b, sep)| - |Split(b, sep)| + 1..] == Split(b, sep)[1..]
  {
    if a == [] {
      assert a + b == b;
    } else {
      SplitOfTail(a[1..], b, sep);
      assert (a + b)[1..] == a[1..] + b;
      var rest, whole := Split(a[1..] + b, sep), Split(a + b, sep);
      assert whole == Push(a[0], rest, sep);
      var n := |rest| - |Split(b, sep)| + 1;
      if a[0] == sep {
        assert whole[n + 1..] == rest[n..];
      } else {
        assert whole[n..] == rest[n..];
      }
    }
  }

  /** A sequence has one part exactly when it has no separator. */
  lemma {:induction false} OnePart<T>(s: seq<T>, sep: T)
    ensures |Split(s, sep)| == 1 <==> sep !in s
  {
    if s != [] {
      OnePart(s[1..], sep);
      assert s == [s[0]] + s[1..];
    }
  }
}
