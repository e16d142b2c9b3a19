/** Claim resources (internal/core/claims.go): which keys are valid, when two of them overlap,
    and the bundle of keys that one claim takes. */
module Resources {
  import opened Options
  import opened Splitting

  datatype Kind = Writer | Path | Exact | Unknown

  datatype Resource = Resource(kind: Kind, key: string)

  const MAX_RESOURCES := 8
  const MAX_TEXT := 512

  function Utf8Width(c: char): nat {
    if c < '\U{80}' then 1 else if c < '\U{800}' then 2 else if c < '\U{10000}' then 3 else 4
  }

  function Utf8Length(s: string): nat {
    if s == "" then 0 else Utf8Width(s[0]) + Utf8Length(s[1..])
  }

  predicate CheckText(s: string) {
    s != "" && Utf8Length(s) <= MAX_TEXT
  }

  predicate IsControl(c: char) {
    c < ' ' || '\U{7f}' <= c <= '\U{9f}'
  }

  predicate IsHex(c: char) {
    '0' <= c <= '9' || 'a' <= c <= 'f'
  }

  predicate CheckWorkId(s: string) {
    |s| == 32 && forall i :: 0 <= i < |s| ==> IsHex(s[i])
  }

  predicate GoodComponent(part: string) {
    part != "" && part != "." && part != ".." && '/' !in part
  }

  /** checkResource: "." is the whole repository and the only dot spelling. */
  predicate CheckResource(r: Resource) {
    && r.kind != Unknown
    && CheckText(r.key)
    && '\\' !in r.key
    && (forall i :: 0 <= i < |r.key| ==> !IsControl(r.key[i]))
    && (r.kind == Writer ==> CheckWorkId(r.key))
    && (r.kind == Path && r.key != "." ==>
          forall i :: 0 <= i < |Split(r.key, '/')| ==>
            var part := Split(r.key, '/')[i]; part != "" && part != "." && part != "..")
  }

  predicate HasPrefix(s: string, prefix: string) {
    prefix <= s
  }

  predicate Overlaps(a: Resource, b: Resource) {
    if a.kind != b.kind then false
    else if a.kind != Path then a.key == b.key
    else
      || a.key == b.key
      || a.key == "."
      || b.key == "."
      || HasPrefix(a.key, b.key + "/")
      || HasPrefix(b.key, a.key + "/")
  }

  /** The component list that a path key names; "." names the repository's root. */
  function Components(key: string): seq<string> {
    if key == "." then [] else Split(key, '/')
  }

  /** A path of the repository, as its components. */
  ghost predicate RepositoryPath(p: seq<string>) {
    forall i :: 0 <= i < |p| ==> GoodComponent(p[i])
  }

  /** A repository path lies under a key when the key's components start it. */
  ghost predicate Under(p: seq<string>, key: string) {
    Components(key) <= p
  }

  /** The string test of a proper ancestor is the test on components. */
  lemma PrefixTestIsComponentPrefix(a: string, b: string)
    ensures HasPrefix(a, b + "/") <==> Split(b, '/') < Split(a, '/')
  {
    if HasPrefix(a, b + "/") {
      var rest := a[|b| + 1..];
      assert a == b + "/" + rest;
      assert a == b + ['/'] + rest;
      SplitOfConcat(b, rest, '/');
    }
    if Split(b, '/') < Split(a, '/') {
      var tail := Split(a, '/')[|Split(b, '/')|..];
      assert Split(a, '/') == Split(b, '/') + tail;
      JoinOfConcat(Split(b, '/'), tail, '/');
      JoinOfSplit(a, '/');
      JoinOfSplit(b, '/');
      assert a == b + "/" + Join(tail, '/');
    }
  }

  /** Two path keys overlap exactly when the components of one start those of the other. */
  lemma OverlapsIsComponentPrefix(a: string, b: string)
    ensures Overlaps(Resource(Path, a), Resource(Path, b)) <==>
            Components(a) <= Components(b) || Components(b) <= Components(a)
  {
    PrefixTestIsComponentPrefix(a, b);
    PrefixTestIsComponentPrefix(b, a);
    if && a != "." && b != "." && |Split(a, '/')| == |Split(b, '/')|
       && (Split(a, '/') <= Split(b, '/') || Split(b, '/') <= Split(a, '/'))
    {
      assert Split(a, '/') == Split(b, '/');
      JoinOfSplit(a, '/');
      JoinOfSplit(b, '/');
    }
  }

  /** A key's text: 1 to 512 bytes of UTF-8 without a backslash or a control character. */
  ghost predicate Plain(key: string) {
    && 1 <= Utf8Length(key) <= 512
    && forall i :: 0 <= i < |key| ==> key[i] != '\\' && key[i] >= ' ' && !('\U{7f}' <= key[i] <= '\U{9f}')
  }

  /** The key spells the path. */
  ghost predicate Spells(p: seq<string>, key: string) {
    p != [] && RepositoryPath(p) && Join(p, '/') == key
  }

  lemma {:induction false} SplitOfJoin(p: seq<string>)
    requires p != [] && RepositoryPath(p)
    ensures Split(Join(p, '/'), '/') == p
  {
    OnePart(p[0], '/');
    JoinOfSplit(p[0], '/');
    assert Split(p[0], '/') == [p[0]];
    if |p| > 1 {
      SplitOfJoin(p[1..]);
      JoinOfConcat([p[0]], p[1..], '/');
      assert p == [p[0]] + p[1..];
      SplitOfConcat(p[0], Join(p[1..], '/'), '/');
    }
  }

  /** A path key is accepted if and only if it is "." or spells a path of the repository, in at most 512
      bytes of plain text; and then it spells that path only. */
  lemma PathKeyIsPath(key: string)
    ensures CheckResource(Resource(Path, key)) <==> Plain(key) && (key == "." || exists p :: Spells(p, key))
    ensures forall p, q :: Spells(p, key) && Spells(q, key) ==> p == q
  {
    forall p | Spells(p, key)
      ensures Split(key, '/') == p
    {
      SplitOfJoin(p);
    }
    if CheckResource(Resource(Path, key)) && key != "." {
      JoinOfSplit(key, '/');
      assert Spells(Split(key, '/'), key);
    }
  }

  /** Two claimed path keys overlap exactly when some path of the repository lies under both. */
  lemma OverlapsIsCommonPath(a: string, b: string)
    requires CheckResource(Resource(Path, a)) && CheckResource(Resource(Path, b))
    ensures Overlaps(Resource(Path, a), Resource(Path, b)) <==>
            exists p :: RepositoryPath(p) && Under(p, a) && Under(p, b)
  {
    OverlapsIsComponentPrefix(a, b);
    assert RepositoryPath(Components(a)) && RepositoryPath(Components(b));
    if Components(a) <= Components(b) {
      assert Under(Components(b), a) && Under(Components(b), b);
    }
    if Components(b) <= Components(a) {
      assert Under(Components(a), a) && Under(Components(a), b);
    }
  }

  lemma OverlapsIsSymmetric(a: Resource, b: Resource)
    ensures Overlaps(a, b) == Overlaps(b, a)
  {
  }

  /** A longer last component is another path: auth never overlaps authorization. */
  lemma LongerNameIsDisjoint(a: string, more: string)
    requires CheckResource(Resource(Path, a)) && a != "."
    requires more != "" && '/' !in more
    ensures !Overlaps(Resource(Path, a), Resource(Path, a + more))
  {
    assert |a + more| == |a| + |more|;
    assert (a + more)[|a|] == more[0] && (a + "/")[|a|] == '/';
  }

  /** claimBundle: the writer claim for a work item, then the optional resources in order. It
      is refused exactly when there are too many, one is not a valid path or exact key, or two
      are equal. */
  method ClaimBundle(workId: string, optional: seq<Resource>) returns (keys: Option<seq<Resource>>)
    ensures keys.Some? <==> GoodOptional(optional)
    ensures keys.Some? ==> keys.value == [Resource(Writer, workId)] + optional
  {
    if |optional| > MAX_RESOURCES {
      return None;
    }
    var result := [Resource(Writer, workId)];
    for i := 0 to |optional|
      invariant result == [Resource(Writer, workId)] + optional[..i]
      invariant forall j :: 0 <= j < i ==> GoodKey(optional[j])
      invariant forall j, k :: 0 <= j < k < i ==> optional[j] != optional[k]
    {
      var r := optional[i];
      if r.kind != Path && r.kind != Exact {
        return None;
      }
      if !CheckResource(r) {
        return None;
      }
      for j := 0 to |result|
        invariant forall k :: 0 <= k < j ==> result[k] != r
      {
        if result[j] == r {
          assert j > 0 && optional[j - 1] == optional[i];
          return None;
        }
      }
      assert forall k :: 0 <= k < i ==> optional[k] == result[k + 1];
      result := result + [r];
    }
    assert optional[..|optional|] == optional;
    return Some(result);
  }

  predicate GoodKey(r: Resource) {
    (r.kind == Path || r.kind == Exact) && CheckResource(r)
  }

  predicate GoodOptional(optional: seq<Resource>) {
    && |optional| <= 8
    && (forall j :: 0 <= j < |optional| ==> GoodKey(optional[j]))
    && (forall j, k :: 0 <= j < k < |optional| ==> optional[j] != optional[k])
  }

  predicate BundlesOverlap(a: seq<Resource>, b: seq<Resource>) {
    exists i, j :: 0 <= i < |a| && 0 <= j < |b| && Overlaps(a[i], b[j])
  }
}
