/** Keyset paging of an in-memory dashboard view (internal/core/dashboard_sort.go and
    dashboardMemory in internal/core/dashboard_data.go). A page is a position in a total order,
    so that rows added or removed between two pages move no other row across it. */
module Keyset {
  import opened Options

  const PAGE := 50

  datatype Value = Text(text: string) | Number(number: int)

  datatype Column = Repository | StoreId | Head | Entries | Logical | Consumers | Debt

  datatype StoreSummary = StoreSummary(repository: string, storeId: string, head: int, entries: int, logical: int,
                                       consumers: int, overdueDebt: int, endDebt: int, verdictDebt: int)

  datatype Order = Order(column: Column, desc: bool)

  // compareValues and before

  function CompareText(a: string, b: string): int {
    if a == "" && b == "" then 0
    else if a == "" then -1
    else if b == "" then 1
    else if a[0] < b[0] then -1
    else if a[0] > b[0] then 1
    else CompareText(a[1..], b[1..])
  }

  function CompareOne(a: Value, b: Value): int
    requires a.Text? == b.Text?
  {
    if a.Text? then CompareText(a.text, b.text)
    else if a.number < b.number then -1 else if a.number > b.number then 1 else 0
  }

  /** Keys of the same terms. */
  predicate SameTerms(a: seq<Value>, b: seq<Value>) {
    |a| == |b| && forall i :: 0 <= i < |a| ==> a[i].Text? == b[i].Text?
  }

  function CompareValues(a: seq<Value>, b: seq<Value>): int
    requires SameTerms(a, b)
  {
    if a == [] then 0
    else
      var c := CompareOne(a[0], b[0]);
      if c != 0 then c else CompareValues(a[1..], b[1..])
  }

  predicate Before(order: Order, a: seq<Value>, b: seq<Value>)
    requires SameTerms(a, b)
  {
    if order.desc then CompareValues(a, b) > 0 else CompareValues(a, b) < 0
  }

  lemma {:induction false} TextOrder(a: string, b: string, c: string)
    ensures CompareText(a, b) == 0 <==> a == b
    ensures CompareText(a, b) < 0 <==> CompareText(b, a) > 0
    ensures CompareText(a, b) <= 0 && CompareText(b, c) <= 0 ==> CompareText(a, c) <= 0
    ensures CompareText(a, b) <= 0 && CompareText(b, c) <= 0 && (a != b || b != c) ==> CompareText(a, c) < 0
  {
    if a != "" && b != "" {
      assert a == [a[0]] + a[1..] && b == [b[0]] + b[1..];
      TextOrder(a[1..], b[1..], if c == "" then "" else c[1..]);
      if c != "" {
        assert c == [c[0]] + c[1..];
      }
    }
  }

  lemma {:induction false} KeyOrder(a: seq<Value>, b: seq<Value>, c: seq<Value>)
    requires SameTerms(a, b) && SameTerms(b, c)
    ensures SameTerms(a, c) && SameTerms(b, a)
    ensures CompareValues(a, b) == 0 <==> a == b
    ensures CompareValues(a, b) < 0 <==> CompareValues(b, a) > 0
    ensures CompareValues(a, b) <= 0 && CompareValues(b, c) <= 0 ==> CompareValues(a, c) <= 0
    ensures CompareValues(a, b) <= 0 && CompareValues(b, c) <= 0 && (a != b || b != c) ==> CompareValues(a, c) < 0
  {
    if a != [] {
      assert a == [a[0]] + a[1..] && b == [b[0]] + b[1..] && c == [c[0]] + c[1..];
      KeyOrder(a[1..], b[1..], c[1..]);
      if a[0].Text? {
        TextOrder(a[0].text, b[0].text, c[0].text);
        TextOrder(b[0].text, a[0].text, c[0].text);
      }
    }
  }

  /** before is a strict total order of keys, in either direction. */
  lemma BeforeOrder(order: Order, a: seq<Value>, b: seq<Value>, c: seq<Value>)
    requires SameTerms(a, b) && SameTerms(b, c)
    ensures SameTerms(a, c) && SameTerms(b, a) && SameTerms(a, a)
    ensures !Before(order, a, a)
    ensures Before(order, a, b) && Before(order, b, c) ==> Before(order, a, c)
    ensures Before(order, a, b) ==> !Before(order, b, a)
    ensures a != b ==> Before(order, a, b) || Before(order, b, a)
  {
    KeyOrder(a, b, c);
    KeyOrder(b, a, b);
    KeyOrder(c, b, a);
    KeyOrder(a, c, a);
    KeyOrder(c, a, c);
    KeyOrder(a, a, a);
  }

  // storeSortKey

  function StoreSortKey(column: Column, item: StoreSummary): seq<Value> {
    var value := match column
      case Repository => Text(item.repository)
      case StoreId => Text(item.storeId)
      case Head => Number(item.head)
      case Entries => Number(item.entries)
      case Logical => Number(item.logical)
      case Consumers => Number(item.consumers)
      case Debt => Number(item.overdueDebt + item.endDebt + item.verdictDebt);
    [value, Text(item.repository)]
  }

  /** A row's position is before another's. */
  predicate RowBefore(order: Order, a: StoreSummary, b: StoreSummary) {
    Before(order, StoreSortKey(order.column, a), StoreSortKey(order.column, b))
  }

  /** The cursor of a page: the last listed row's key, or none for the first page. */
  predicate PastCursor(order: Order, after: Option<seq<Value>>, item: StoreSummary)
    requires GoodCursor(order, after)
  {
    after.None? || Before(order, after.value, StoreSortKey(order.column, item))
  }

  /** decodeCursor accepts only a key of the column's terms. */
  predicate GoodCursor(order: Order, after: Option<seq<Value>>) {
    after.Some? ==>
      && |after.value| == 2
      && after.value[0].Text? == (order.column == Repository || order.column == StoreId)
      && after.value[1].Text?
  }

  /** The rows of a view name different repositories. */
  ghost predicate Distinct(rows: seq<StoreSummary>) {
    forall i, j :: 0 <= i < j < |rows| ==> rows[i].repository != rows[j].repository
  }

  ghost predicate Ordered(order: Order, rows: seq<StoreSummary>) {
    forall i, j :: 0 <= i < j < |rows| ==> RowBefore(order, rows[i], rows[j])
  }

  lemma RowOrder(order: Order, a: StoreSummary, b: StoreSummary, c: StoreSummary)
    ensures !RowBefore(order, a, a)
    ensures RowBefore(order, a, b) && RowBefore(order, b, c) ==> RowBefore(order, a, c)
    ensures a.repository != b.repository ==> RowBefore(order, a, b) || RowBefore(order, b, a)
  {
    var ka, kb, kc := StoreSortKey(order.column, a), StoreSortKey(order.column, b), StoreSortKey(order.column, c);
    BeforeOrder(order, ka, kb, kc);
    assert a.repository != b.repository ==> ka[1] != kb[1];
  }

  // The order that a page's reader sees

  /** Lexicographic: the first difference, or the shorter text. */
  ghost predicate TextBefore(a: string, b: string) {
    exists n :: DiffersAt(a, b, n)
  }

  predicate DiffersAt(a: string, b: string, n: int) {
    && 0 <= n <= |a| && n < |b| && (forall i :: 0 <= i < n ==> a[i] == b[i])
    && (n < |a| ==> a[n] < b[n])
  }

  lemma {:induction false} TextIs(a: string, b: string)
    ensures CompareText(a, b) < 0 <==> TextBefore(a, b)
  {
    if b == "" {
    } else if a == "" {
      assert DiffersAt(a, b, 0);
    } else if a[0] != b[0] {
      FirstDiffers(a, b);
    } else {
      TextIs(a[1..], b[1..]);
      RestDiffers(a, b);
    }
  }

  lemma FirstDiffers(a: string, b: string)
    requires a != "" && b != "" && a[0] != b[0]
    ensures TextBefore(a, b) <==> a[0] < b[0]
  {
    if a[0] < b[0] {
      assert DiffersAt(a, b, 0);
    }
  }

  lemma RestDiffers(a: string, b: string)
    requires a != "" && b != "" && a[0] == b[0]
    ensures TextBefore(a, b) <==> TextBefore(a[1..], b[1..])
  {
    forall n: int
      ensures DiffersAt(a, b, n + 1) <==> DiffersAt(a[1..], b[1..], n)
    {
      if DiffersAt(a, b, n + 1) {
        assert forall i :: 0 <= i < n ==> a[1..][i] == a[i + 1] && b[1..][i] == b[i + 1];
      }
    }
    if TextBefore(a, b) {
      var n :| DiffersAt(a, b, n);
      assert n != 0;
      assert DiffersAt(a[1..], b[1..], n - 1);
    }
    if TextBefore(a[1..], b[1..]) {
      var n :| DiffersAt(a[1..], b[1..], n);
      assert DiffersAt(a, b, n + 1);
    }
  }

  /** The number that a numeric column shows; a store's debt is the sum of its three. */
  function Shown(column: Column, item: StoreSummary): int {
    match column
    case Head => item.head
    case Entries => item.entries
    case Logical => item.logical
    case Consumers => item.consumers
    case Debt => item.overdueDebt + item.endDebt + item.verdictDebt
    case _ => 0
  }

  /** Ascending, by the named column, and by the repository where that is equal. */
  ghost predicate Ascends(column: Column, a: StoreSummary, b: StoreSummary) {
    match column
    case Repository => TextBefore(a.repository, b.repository)
    case StoreId =>
      TextBefore(a.storeId, b.storeId) || (a.storeId == b.storeId && TextBefore(a.repository, b.repository))
    case _ =>
      || Shown(column, a) < Shown(column, b)
      || (Shown(column, a) == Shown(column, b) && TextBefore(a.repository, b.repository))
  }

  /** A row is before another if and only if it ascends to it, or in a descending order the other to it. */
  lemma RowBeforeIs(order: Order, a: StoreSummary, b: StoreSummary)
    ensures RowBefore(order, a, b) <==> if order.desc then Ascends(order.column, b, a) else Ascends(order.column, a, b)
  {
    var x, y := if order.desc then b else a, if order.desc then a else b;
    var kx, ky := StoreSortKey(order.column, x), StoreSortKey(order.column, y);
    KeyOrder(kx, ky, kx);
    KeyOrder(ky, kx, ky);
    AscendsIs(order.column, x, y);
  }

  lemma AscendsIs(column: Column, x: StoreSummary, y: StoreSummary)
    ensures CompareValues(StoreSortKey(column, x), StoreSortKey(column, y)) < 0 <==> Ascends(column, x, y)
  {
    var kx, ky := StoreSortKey(column, x), StoreSortKey(column, y);
    TextIs(x.repository, y.repository);
    TextIs(x.storeId, y.storeId);
    TextOrder(x.repository, y.repository, x.repository);
    TextOrder(x.storeId, y.storeId, x.storeId);
    TwoTerms(kx, ky);
  }

  lemma TwoTerms(a: seq<Value>, b: seq<Value>)
    requires |a| == 2 && SameTerms(a, b)
    ensures CompareValues(a, b) ==
              if CompareOne(a[0], b[0]) != 0 then CompareOne(a[0], b[0]) else CompareOne(a[1], b[1])
  {
    assert CompareValues(a[1..], b[1..]) == CompareOne(a[1], b[1]);
  }

  // The stable sort, by insertion from the end: equal keys keep their order.

  function Insert(order: Order, item: StoreSummary, rows: seq<StoreSummary>): (r: seq<StoreSummary>)
    ensures multiset(r) == multiset{item} + multiset(rows)
  {
    if rows == [] || !RowBefore(order, rows[0], item) then [item] + rows
    else
      assert rows == [rows[0]] + rows[1..];
      [rows[0]] + Insert(order, item, rows[1..])
  }

  function SortStable(order: Order, rows: seq<StoreSummary>): (r: seq<StoreSummary>)
    ensures multiset(r) == multiset(rows)
  {
    if rows == [] then []
    else
      assert rows == [rows[0]] + rows[1..];
      Insert(order, rows[0], SortStable(order, rows[1..]))
  }

  lemma {:induction false} InsertOrders(order: Order, item: StoreSummary, rows: seq<StoreSummary>)
    requires Ordered(order, rows) && forall i :: 0 <= i < |rows| ==> rows[i].repository != item.repository
    ensures Ordered(order, Insert(order, item, rows))
  {
    var r := Insert(order, item, rows);
    if rows == [] {
    } else if !RowBefore(order, rows[0], item) {
      forall i | 0 <= i < |rows|
        ensures RowBefore(order, item, rows[i])
      {
        RowOrder(order, item, rows[0], rows[i]);
        RowOrder(order, rows[0], item, item);
      }
    } else {
      var rest := Insert(order, item, rows[1..]);
      InsertOrders(order, item, rows[1..]);
      forall j | 0 <= j < |rest|
        ensures RowBefore(order, rows[0], rest[j])
      {
        assert rest[j] in multiset(rest);
        assert rest[j] == item || rest[j] in rows[1..];
      }
    }
  }

  lemma {:induction false} SortOrders(order: Order, rows: seq<StoreSummary>)
    requires Distinct(rows)
    ensures Ordered(order, SortStable(order, rows))
  {
    if rows != [] {
      var rest := SortStable(order, rows[1..]);
      SortOrders(order, rows[1..]);
      forall i | 0 <= i < |rest|
        ensures rest[i].repository != rows[0].repository
      {
        assert rest[i] in multiset(rest);
        var j :| 0 <= j < |rows[1..]| && rows[1..][j] == rest[i];
        assert rows[j + 1] == rest[i];
      }
      InsertOrders(order, rows[0], rest);
    }
  }

  // dashboardMemory

  function Filter(order: Order, after: Option<seq<Value>>, rows: seq<StoreSummary>): seq<StoreSummary>
    requires GoodCursor(order, after)
  {
    if rows == [] then []
    else
      var rest := Filter(order, after, rows[..|rows| - 1]);
      if PastCursor(order, after, rows[|rows| - 1]) then rest + [rows[|rows| - 1]] else rest
  }

  datatype Page = Page(rows: seq<StoreSummary>, next: Option<seq<Value>>)

  function PageOf(order: Order, after: Option<seq<Value>>, rows: seq<StoreSummary>): (p: Page)
    requires GoodCursor(order, after)
    ensures |p.rows| <= PAGE && GoodCursor(order, p.next)
  {
    var found := Filter(order, after, SortStable(order, rows));
    if |found| > PAGE then Page(found[..PAGE], Some(StoreSortKey(order.column, found[PAGE - 1])))
    else Page(found, None)
  }

  method DashboardMemory(order: Order, after: Option<seq<Value>>, all: seq<StoreSummary>) returns (page: Page)
    requires GoodCursor(order, after)
    ensures page == PageOf(order, after, all)
  {
    var sorted := SortStable(order, all);
    var result: seq<StoreSummary> := [];
    for i := 0 to |sorted|
      invariant result == Filter(order, after, sorted[..i])
    {
      assert sorted[..i + 1][..i] == sorted[..i];
      if after.None? || Before(order, after.value, StoreSortKey(order.column, sorted[i])) {
        result := result + [sorted[i]];
      }
    }
    assert sorted[..|sorted|] == sorted;
    var next := None;
    if |result| > PAGE {
      result := result[..PAGE];
      next := Some(StoreSortKey(order.column, result[|result| - 1]));
    }
    page := Page(result, next);
  }

  lemma {:induction false} FilterKeeps(order: Order, after: Option<seq<Value>>, rows: seq<StoreSummary>)
    requires GoodCursor(order, after) && Ordered(order, rows)
    ensures Ordered(order, Filter(order, after, rows))
    ensures forall r :: r in Filter(order, after, rows) <==> r in rows && PastCursor(order, after, r)
  {
    if rows != [] {
      var last := rows[|rows| - 1];
      var rest := Filter(order, after, rows[..|rows| - 1]);
      FilterKeeps(order, after, rows[..|rows| - 1]);
      assert rows == rows[..|rows| - 1] + [last];
      forall i | 0 <= i < |rest|
        ensures RowBefore(order, rest[i], last)
      {
        assert rest[i] in rows[..|rows| - 1];
      }
    }
  }

  /** Past a cursor that is itself past another is past both. */
  lemma PastTransitive(order: Order, after: Option<seq<Value>>, last: StoreSummary, r: StoreSummary)
    requires GoodCursor(order, after) && PastCursor(order, after, last)
    requires PastCursor(order, Some(StoreSortKey(order.column, last)), r)
    ensures PastCursor(order, after, r)
  {
    if after.Some? {
      BeforeOrder(order, after.value, StoreSortKey(order.column, last), StoreSortKey(order.column, r));
    }
  }

  /** The rows past a cursor, in order: exactly the view's rows past it. */
  lemma FoundRows(order: Order, after: Option<seq<Value>>, rows: seq<StoreSummary>)
    requires GoodCursor(order, after) && Distinct(rows)
    ensures
      var found := Filter(order, after, SortStable(order, rows));
      && Ordered(order, found)
      && forall r :: r in found <==> r in rows && PastCursor(order, after, r)
  {
    var sorted := SortStable(order, rows);
    SortOrders(order, rows);
    forall r
      ensures r in sorted <==> r in rows
    {
      assert r in multiset(sorted) <==> r in multiset(rows);
    }
    FilterKeeps(order, after, sorted);
  }

  /** Cutting an ordered list at its PAGE-th row is a cut by that row's key. */
  lemma CutIsCursor(order: Order, found: seq<StoreSummary>, r: StoreSummary)
    requires Ordered(order, found) && |found| > PAGE && r in found
    ensures r in found[..PAGE] <==> !PastCursor(order, Some(StoreSortKey(order.column, found[PAGE - 1])), r)
  {
    var last := found[PAGE - 1];
    var i :| 0 <= i < |found| && found[i] == r;
    RowOrder(order, last, r, last);
    if i < PAGE {
      assert r == found[..PAGE][i];
      assert !RowBefore(order, last, r);
    } else {
      assert RowBefore(order, last, r);
      RowOrder(order, r, r, r);
      forall j | 0 <= j < PAGE
        ensures found[..PAGE][j] != r
      {
        assert RowBefore(order, found[j], found[i]);
      }
    }
  }

  /** A page lists, in order, the first rows past its cursor; every other row past it comes
      after the next cursor, which is given exactly when there is one. */
  lemma PageIsPosition(order: Order, after: Option<seq<Value>>, rows: seq<StoreSummary>)
    requires GoodCursor(order, after) && Distinct(rows)
    ensures
      var p := PageOf(order, after, rows);
      && Ordered(order, p.rows)
      && (forall r :: r in p.rows <==>
            r in rows && PastCursor(order, after, r) && !(p.next.Some? && PastCursor(order, p.next, r)))
      && (p.next.Some? <==> exists r :: r in rows && PastCursor(order, after, r) && r !in p.rows)
      && (p.next.Some? ==> |p.rows| == 50 && p.next == Some(StoreSortKey(order.column, p.rows[49])))
      && |p.rows| <= 50
  {
    FoundRows(order, after, rows);
    var found, p := Filter(order, after, SortStable(order, rows)), PageOf(order, after, rows);
    if |found| > PAGE {
      var beyond := found[PAGE];
      forall r | r in found
        ensures r in p.rows <==> !PastCursor(order, p.next, r)
      {
        CutIsCursor(order, found, r);
      }
      assert forall r :: r in p.rows ==> r in found;
      assert RowBefore(order, found[PAGE - 1], beyond);
      assert beyond in found && beyond !in p.rows;
    }
  }

  /** The rows of a page ascend, or descend, by the named column. */
  lemma PageIsSorted(order: Order, after: Option<seq<Value>>, rows: seq<StoreSummary>)
    requires GoodCursor(order, after) && Distinct(rows)
    ensures
      var p := PageOf(order, after, rows);
      forall i, j :: 0 <= i < j < |p.rows| ==>
        if order.desc then Ascends(order.column, p.rows[j], p.rows[i]) else Ascends(order.column, p.rows[i], p.rows[j])
  {
    PageIsPosition(order, after, rows);
    var p := PageOf(order, after, rows);
    forall i, j | 0 <= i < j < |p.rows|
      ensures
        if order.desc then Ascends(order.column, p.rows[j], p.rows[i]) else Ascends(order.column, p.rows[i], p.rows[j])
    {
      RowBeforeIs(order, p.rows[i], p.rows[j]);
    }
  }

  // Walks

  /** A walk over the pages: the list that each page is made of, which may change from page to page,
      and the cursor that it is asked after. */
  datatype Walk = Walk(order: Order, lists: seq<seq<StoreSummary>>, afters: seq<Option<seq<Value>>>)

  /** The walk follows each page's next cursor to the end. */
  ghost predicate Walks(w: Walk) {
    && 0 < |w.lists| == |w.afters|
    && (forall i :: 0 <= i < |w.lists| ==> Distinct(w.lists[i]) && GoodCursor(w.order, w.afters[i]))
    && w.afters[0] == None
    && (forall i :: 0 < i < |w.lists| ==>
          w.afters[i].Some? && w.afters[i] == PageOf(w.order, w.afters[i - 1], w.lists[i - 1]).next)
    && PageOf(w.order, w.afters[|w.lists| - 1], w.lists[|w.lists| - 1]).next == None
  }

  ghost predicate Listed(w: Walk, i: nat, r: StoreSummary)
    requires i < |w.lists| == |w.afters| && GoodCursor(w.order, w.afters[i])
  {
    r in PageOf(w.order, w.afters[i], w.lists[i]).rows
  }

  lemma CursorMonotone(w: Walk, i: nat, j: nat, r: StoreSummary)
    requires Walks(w) && i < j < |w.lists|
    requires PastCursor(w.order, w.afters[j], r)
    ensures PastCursor(w.order, w.afters[i + 1], r)
    decreases j
  {
    if i + 1 < j {
      PageIsPosition(w.order, w.afters[j - 1], w.lists[j - 1]);
      var p := PageOf(w.order, w.afters[j - 1], w.lists[j - 1]);
      assert w.afters[j] == p.next;
      assert p.rows[PAGE - 1] in p.rows;
      PastTransitive(w.order, w.afters[j - 1], p.rows[PAGE - 1], r);
      CursorMonotone(w, i, j - 1, r);
    }
  }

  /** A walk never goes back: a row of an earlier page is before every row of a later page, as the
      lists had them, so no key is listed on two pages. */
  lemma NeverRepeats(w: Walk, i: nat, j: nat, r: StoreSummary, q: StoreSummary)
    requires Walks(w) && i < j < |w.lists| && Listed(w, i, r) && Listed(w, j, q)
    ensures RowBefore(w.order, r, q)
    ensures StoreSortKey(w.order.column, r) != StoreSortKey(w.order.column, q)
  {
    ListedUpTo(w, i, r);
    PageIsPosition(w.order, w.afters[j], w.lists[j]);
    CursorMonotone(w, i, j, q);
    AcrossCursor(w.order, w.afters[i + 1].value, r, q);
  }

  /** The rows of a page are not past its next cursor. */
  lemma ListedUpTo(w: Walk, i: nat, r: StoreSummary)
    requires Walks(w) && i + 1 < |w.lists| && Listed(w, i, r)
    ensures !PastCursor(w.order, w.afters[i + 1], r)
  {
    PageIsPosition(w.order, w.afters[i], w.lists[i]);
  }

  lemma AcrossCursor(order: Order, cursor: seq<Value>, r: StoreSummary, q: StoreSummary)
    requires GoodCursor(order, Some(cursor))
    requires !PastCursor(order, Some(cursor), r) && PastCursor(order, Some(cursor), q)
    ensures RowBefore(order, r, q) && StoreSortKey(order.column, r) != StoreSortKey(order.column, q)
  {
    BeforeOrder(order, StoreSortKey(order.column, r), cursor, StoreSortKey(order.column, q));
    BeforeOrder(order, StoreSortKey(order.column, r), StoreSortKey(order.column, q), StoreSortKey(order.column, r));
  }

  /** Every list has a row of one key: rs are those rows, whose other columns may change. */
  ghost predicate Stays(w: Walk, key: seq<Value>, rs: seq<StoreSummary>)
    requires |w.lists| == |w.afters|
  {
    && |rs| == |w.lists|
    && forall k :: 0 <= k < |rs| ==> rs[k] in w.lists[k] && StoreSortKey(w.order.column, rs[k]) == key
  }

  /** No walk skips a row that keeps its key. */
  lemma {:induction false} NeverSkips(w: Walk, from: nat, key: seq<Value>, rs: seq<StoreSummary>)
    returns (i: nat)
    requires Walks(w) && from < |w.lists| && Stays(w, key, rs) && PastCursor(w.order, w.afters[from], rs[from])
    ensures from <= i < |w.lists| && Listed(w, i, rs[i])
    decreases |w.lists| - from
  {
    PageIsPosition(w.order, w.afters[from], w.lists[from]);
    if Listed(w, from, rs[from]) {
      i := from;
    } else {
      assert PastCursor(w.order, w.afters[from + 1], rs[from]);
      assert StoreSortKey(w.order.column, rs[from + 1]) == key;
      i := NeverSkips(w, from + 1, key, rs);
    }
  }

  /** So a row that keeps its key through the walk is listed on exactly one page, and there once,
      whatever becomes of its other columns and of the rows around it. */
  lemma ListedExactlyOnce(w: Walk, key: seq<Value>, rs: seq<StoreSummary>)
    requires Walks(w) && Stays(w, key, rs)
    ensures exists i :: 0 <= i < |w.lists| && Listed(w, i, rs[i]) &&
              forall j, q :: 0 <= j < |w.lists| && Listed(w, j, q) && StoreSortKey(w.order.column, q) == key ==>
                j == i && q == rs[i]
  {
    var i := NeverSkips(w, 0, key, rs);
    forall j, q | 0 <= j < |w.lists| && Listed(w, j, q) && StoreSortKey(w.order.column, q) == key
      ensures j == i && q == rs[i]
    {
      if i < j { NeverRepeats(w, i, j, rs[i], q); }
      if j < i { NeverRepeats(w, j, i, q, rs[i]); }
      if j == i { SameKeyOnPage(w, i, q, rs[i]); }
    }
  }

  /** Rows of one key on a page are one row, because the key ends with the repository. */
  lemma SameKeyOnPage(w: Walk, i: nat, r: StoreSummary, q: StoreSummary)
    requires Walks(w) && i < |w.lists| && Listed(w, i, r) && Listed(w, i, q)
    requires StoreSortKey(w.order.column, r) == StoreSortKey(w.order.column, q)
    ensures r == q
  {
    PageIsPosition(w.order, w.afters[i], w.lists[i]);
    assert StoreSortKey(w.order.column, r)[1] == StoreSortKey(w.order.column, q)[1];
    var rows := w.lists[i];
    var a :| 0 <= a < |rows| && rows[a] == r;
    var b :| 0 <= b < |rows| && rows[b] == q;
  }
}
