/**
  When paging over a fixed table loses rows. Keys alone decide: whatever order the database gives rows of
  one key, a row is lost exactly when two rows of one key straddle a multiple of the page size.
*/
module PageLoss {
  import opened Options
  import opened AuditPages

  /** A full listing, in order, of the selected rows past a cursor. */
  ghost predicate IsListing(table: set<Row>, f: Filter, cursor: Option<Key>, order: seq<Row>) {
    Sorted(order) && forall r :: r in order <==> r in table && Selects(f, r) && Past(cursor, r)
  }

  predicate Straddles(order: seq<Row>, at: nat) {
    0 < at < |order| && order[at - 1].key == order[at].key
  }

  /** Cutting the listing into pages of a size, one page after the other, some cut falls between two rows of one key. */
  predicate CutsKey(order: seq<Row>, size: nat)
    requires size > 0
    decreases |order|
  {
    |order| > size && (Straddles(order, size) || CutsKey(order[size..], size))
  }

  ghost predicate Loses(order: seq<Row>, pages: seq<seq<Row>>) {
    exists r :: r in order && r !in Flatten(pages)
  }

  // Counting distinct rows.

  predicate Distinct(rows: seq<Row>) {
    forall j, k | 0 <= j < k < |rows| :: rows[j] != rows[k]
  }

  lemma {:induction false} DistinctCount(rows: seq<Row>)
    requires Distinct(rows)
    ensures |set r | r in rows| == |rows|
  {
    DistinctLength(rows, (set r | r in rows));
  }

  /** Distinct rows that are all among others are no more than those, and when as many, they are the same. */
  lemma Pigeonhole(a: seq<Row>, b: seq<Row>)
    requires Distinct(a) && Distinct(b) && forall r | r in a :: r in b
    ensures |a| <= |b|
    ensures |a| == |b| ==> forall r | r in b :: r in a
  {
    DistinctCount(a);
    DistinctCount(b);
    var s, t := set r | r in a, set r | r in b;
    assert s <= t;
    SubsetCount(s, t);
    if |a| == |b| {
      assert s == t;
      forall r | r in b
        ensures r in a
      {
        assert r in t;
      }
    }
  }

  lemma SubsetCount(s: set<Row>, t: set<Row>)
    requires s <= t
    ensures |s| <= |t| && (|s| == |t| ==> s == t)
  {
    assert t == s + (t - s);
    assert |t| == |s| + |t - s|;
  }

  // One answer.

  lemma SortedAt(rows: seq<Row>, j: nat, k: nat)
    requires Sorted(rows) && j <= k < |rows|
    ensures !KeyLess(rows[k].key, rows[j].key)
  {
    KeyOrder(rows[k].key, rows[k].key, rows[k].key);
  }

  lemma LaterIndex(rows: seq<Row>, j: nat, k: nat)
    requires Sorted(rows) && j < |rows| && k < |rows|
    ensures KeyLess(rows[j].key, rows[k].key) ==> j < k
  {
    if k <= j {
      SortedAt(rows, k, j);
    }
  }

  /** The last row of a page comes after no row of it. */
  lemma NotPastLast(rows: seq<Row>, size: nat, r: Row)
    requires Sorted(rows) && 0 < size <= |rows| && r in rows[..size]
    ensures !KeyLess(rows[size - 1].key, r.key)
  {
    var k :| 0 <= k < size && rows[k] == r;
    SortedAt(rows, k, size - 1);
  }

  /** The key at a position of an answer is not less than the one in the listing. */
  lemma AnswerNotBefore(table: set<Row>, f: Filter, cursor: Option<Key>, limit: nat, answer: seq<Row>, order: seq<Row>, j: nat)
    requires IsAnswer(table, f, cursor, limit, answer) && IsListing(table, f, cursor, order) && j < |answer| && j < |order|
    ensures !KeyLess(answer[j].key, order[j].key)
  {
    if KeyLess(answer[j].key, order[j].key) {
      forall r | r in answer[..j + 1]
        ensures r in order[..j]
      {
        var k :| 0 <= k <= j && answer[k] == r;
        assert r in answer;
        var m :| 0 <= m < |order| && order[m] == r;
        SortedAt(answer, k, j);
        KeyOrder(r.key, answer[j].key, order[j].key);
        KeyOrder(answer[j].key, r.key, order[j].key);
        LaterIndex(order, m, j);
      }
      Pigeonhole(answer[..j + 1], order[..j]);
    }
  }

  /** Nor greater: the rows listed up to there would all be in the answer before it. */
  lemma AnswerNotAfter(table: set<Row>, f: Filter, cursor: Option<Key>, limit: nat, answer: seq<Row>, order: seq<Row>, j: nat)
    requires IsAnswer(table, f, cursor, limit, answer) && IsListing(table, f, cursor, order) && j < |answer| && j < |order|
    ensures !KeyLess(order[j].key, answer[j].key)
  {
    if KeyLess(order[j].key, answer[j].key) {
      forall r | r in order[..j + 1]
        ensures r in answer[..j]
      {
        var k :| 0 <= k <= j && order[k] == r;
        assert r in order;
        SortedAt(order, k, j);
        KeyOrder(r.key, order[j].key, answer[j].key);
        KeyOrder(order[j].key, r.key, answer[j].key);
        assert KeyLess(r.key, answer[j].key) && answer[j] in answer;
        var m :| 0 <= m < |answer| && answer[m] == r;
        LaterIndex(answer, m, j);
      }
      Pigeonhole(order[..j + 1], answer[..j]);
    }
  }

  /** An answer has as many rows as the listing and the limit allow, with the keys of the listing. */
  lemma AnswerKeys(table: set<Row>, f: Filter, cursor: Option<Key>, limit: nat, answer: seq<Row>, order: seq<Row>)
    requires IsAnswer(table, f, cursor, limit, answer) && IsListing(table, f, cursor, order)
    ensures |answer| == if |order| < limit then |order| else limit
    ensures forall j | 0 <= j < |answer| :: answer[j].key == order[j].key
  {
    Pigeonhole(answer, order);
    if |answer| < limit {
      Pigeonhole(order, answer);
    }
    forall j | 0 <= j < |answer|
      ensures answer[j].key == order[j].key
    {
      AnswerNotBefore(table, f, cursor, limit, answer, order, j);
      AnswerNotAfter(table, f, cursor, limit, answer, order, j);
      KeyOrder(answer[j].key, order[j].key, order[j].key);
    }
  }

  // The walk.

  /** Past the last row of a page that ends between two keys lies the rest of the listing. */
  lemma RestOfListing(table: set<Row>, f: Filter, cursor: Option<Key>, order: seq<Row>, size: nat)
    requires IsListing(table, f, cursor, order) && 0 < size < |order| && order[size - 1].key != order[size].key
    ensures IsListing(table, f, Some(order[size - 1].key), order[size..])
  {
    var last := order[size - 1].key;
    assert last == order[size - 1].key && order[size - 1] in order;
    SortedAt(order, size - 1, size);
    KeyOrder(last, order[size].key, last);
    forall r
      ensures r in order[size..] <==> r in table && Selects(f, r) && Past(Some(last), r)
    {
      if r in order[size..] {
        var k :| size <= k < |order| && order[k] == r;
        SortedAt(order, size, k);
        KeyOrder(order[size].key, r.key, order[size].key);
        KeyOrder(last, order[size].key, r.key);
      }
      if r in table && Selects(f, r) && KeyLess(last, r.key) {
        if cursor.Some? {
          KeyOrder(cursor.value, last, r.key);
        }
        assert r in order;
        var k :| 0 <= k < |order| && order[k] == r;
        LaterIndex(order, size - 1, k);
        assert order[size..][k - size] == r;
      }
    }
  }

  /** The first page of a walk over a fixed table, and the walk behind it. */
  lemma FirstPage(table: set<Row>, tables: seq<set<Row>>, f: Filter, size: nat, cursor: Option<Key>, pages: seq<seq<Row>>, answer: seq<Row>)
    requires size > 0 && WalkOn(tables, f, size, cursor, pages, answer) && Constant(tables, table)
    ensures |pages| == |tables| > 0 && IsAnswer(table, f, cursor, size + 1, answer) && Sorted(answer)
    ensures pages[0] == answer[..if |answer| > size then size else |answer|] && Sorted(pages[0])
    ensures |answer| <= size ==> |pages| == 1
    ensures |answer| > size ==> |pages| > 1 && Walk(tables[1..], f, size, Some(answer[size - 1].key), pages[1..])
    ensures Constant(tables[1..], table)
  {
  }

  /** Of rows straddling the end of a page, one is not on it, and no later page has its key. */
  lemma StraddledRowLost(table: set<Row>, tables: seq<set<Row>>, f: Filter, size: nat, cursor: Option<Key>, pages: seq<seq<Row>>, answer: seq<Row>, order: seq<Row>)
    requires size > 0 && WalkOn(tables, f, size, cursor, pages, answer) && Constant(tables, table)
    requires IsListing(table, f, cursor, order) && Straddles(order, size)
    ensures Loses(order, pages)
  {
    hide Walk, WalkOn, IsAnswer, KeyLess;
    FirstPage(table, tables, f, size, cursor, pages, answer);
    AnswerKeys(table, f, cursor, size + 1, answer, order);
    LaterPagesPast(tables, f, size, cursor, pages, answer);
    var r := OneMissing(order[..size + 1], pages[0]);
    NotPastLast(order, size + 1, r);
    hide IsListing, Sorted;
    assert Flatten(pages) == pages[0] + Flatten(pages[1..]);
    assert r in order && r !in Flatten(pages);
  }

  lemma OneMissing(a: seq<Row>, b: seq<Row>) returns (r: Row)
    requires Sorted(a) && Sorted(b) && |a| > |b|
    ensures r in a && r !in b
  {
    if forall q | q in a :: q in b {
      Pigeonhole(a, b);
    }
    r :| r in a && r !in b;
  }

  lemma LaterPagesPast(tables: seq<set<Row>>, f: Filter, size: nat, cursor: Option<Key>, pages: seq<seq<Row>>, answer: seq<Row>)
    requires size > 0 && WalkOn(tables, f, size, cursor, pages, answer) && |answer| > size
    ensures |pages| > 1 && forall r | r in Flatten(pages[1..]) :: KeyLess(answer[size - 1].key, r.key)
  {
    WalkSorted(tables[1..], f, size, Some(answer[size - 1].key), pages[1..]);
  }

  lemma {:induction false} LosesExactlyWhen(table: set<Row>, tables: seq<set<Row>>, f: Filter, size: nat, cursor: Option<Key>, pages: seq<seq<Row>>, order: seq<Row>)
    requires size > 0 && Walk(tables, f, size, cursor, pages) && Constant(tables, table) && IsListing(table, f, cursor, order)
    ensures Loses(order, pages) <==> CutsKey(order, size)
    decreases |pages|
  {
    var answer: seq<Row> :| WalkOn(tables, f, size, cursor, pages, answer);
    hide Walk, WalkOn, IsAnswer, KeyLess, IsListing, Constant, Loses, Sorted;
    FirstPage(table, tables, f, size, cursor, pages, answer);
    AnswerKeys(table, f, cursor, size + 1, answer, order);
    if |order| <= size {
      ShortWalk(table, tables, f, size, cursor, pages, answer, order);
      return;
    }
    hide CutsKey;
    CutsFirst(order, size);
    if order[size - 1].key == order[size].key {
      StraddledRowLost(table, tables, f, size, cursor, pages, answer, order);
    } else {
      var last := answer[size - 1].key;
      RestOfListing(table, f, cursor, order, size);
      LosesExactlyWhen(table, tables[1..], f, size, Some(last), pages[1..], order[size..]);
      LossIsLater(table, tables, f, size, cursor, pages, answer, order);
    }
  }

  lemma CutsFirst(order: seq<Row>, size: nat)
    requires 0 < size < |order|
    ensures CutsKey(order, size) <==> Straddles(order, size) || CutsKey(order[size..], size)
  {
  }

  /** A single page holds everything. */
  lemma ShortWalk(table: set<Row>, tables: seq<set<Row>>, f: Filter, size: nat, cursor: Option<Key>, pages: seq<seq<Row>>, answer: seq<Row>, order: seq<Row>)
    requires size > 0 && WalkOn(tables, f, size, cursor, pages, answer) && Constant(tables, table)
    requires IsListing(table, f, cursor, order) && |answer| == |order| <= size
    ensures !Loses(order, pages)
  {
    assert Flatten(pages) == pages[0] == answer;
    Pigeonhole(answer, order);
  }

  /** Behind a page that ends between two keys, the same rows are lost as from the rest. */
  lemma LossIsLater(table: set<Row>, tables: seq<set<Row>>, f: Filter, size: nat, cursor: Option<Key>, pages: seq<seq<Row>>, answer: seq<Row>, order: seq<Row>)
    requires size > 0 && WalkOn(tables, f, size, cursor, pages, answer) && Constant(tables, table)
    requires IsListing(table, f, cursor, order) && |order| > size && order[size - 1].key != order[size].key
    ensures Loses(order, pages) <==> Loses(order[size..], pages[1..])
  {
    AnswerKeys(table, f, cursor, size + 1, answer, order);
    RestOfListing(table, f, cursor, order, size);
    FirstPageIs(table, f, cursor, answer, order, size);
    var last := order[size - 1].key;
    assert order == order[..size] + order[size..] && Flatten(pages) == pages[0] + Flatten(pages[1..]);
    forall r | r in pages[0]
      ensures r !in order[size..]
    {
      NotPastLast(answer, size, r);
    }
  }

  /** The page before a change of key holds exactly the rows listed up to there. */
  lemma FirstPageIs(table: set<Row>, f: Filter, cursor: Option<Key>, answer: seq<Row>, order: seq<Row>, size: nat)
    requires IsAnswer(table, f, cursor, size + 1, answer) && IsListing(table, f, cursor, order)
    requires 0 < size < |order| && order[size - 1].key != order[size].key && |answer| == size + 1 && answer[size - 1].key == order[size - 1].key
    ensures forall r :: r in answer[..size] <==> r in order[..size]
  {
    SortedAt(order, size - 1, size);
    var last := order[size - 1].key;
    KeyOrder(last, order[size].key, last);
    forall r | r in answer[..size]
      ensures r in order[..size]
    {
      var k :| 0 <= k < size && answer[k] == r;
      assert r in answer && r in order;
      SortedAt(answer, k, size - 1);
      var m :| 0 <= m < |order| && order[m] == r;
      if m >= size {
        SortedAt(order, size, m);
        KeyOrder(last, order[size].key, r.key);
        KeyOrder(order[size].key, r.key, last);
      }
    }
    Pigeonhole(answer[..size], order[..size]);
  }

  /** The cuts are the multiples of the page size. */
  lemma {:induction false} CutsAreMultiples(order: seq<Row>, size: nat)
    requires size > 0
    ensures CutsKey(order, size) <==> exists n: nat :: n > 0 && Straddles(order, n * size)
    decreases |order|
  {
    if |order| <= size {
      forall n: nat | n > 0
        ensures !Straddles(order, n * size)
      {
        NextMultiple(n, size);
      }
      return;
    }
    CutsAreMultiples(order[size..], size);
    if Straddles(order, size) {
      assert Straddles(order, 1 * size);
      return;
    }
    if n: nat :| n > 0 && Straddles(order[size..], n * size) {
      NextMultiple(n + 1, size);
      assert Straddles(order, (n + 1) * size);
    }
    if n: nat :| n > 0 && Straddles(order, n * size) {
      NextMultiple(n, size);
      assert n != 1;
      assert Straddles(order[size..], (n - 1) * size);
    }
  }

  lemma NextMultiple(n: nat, size: nat)
    requires n > 0
    ensures n * size >= size && n * size - size == (n - 1) * size && (n == 1 ==> n * size == size)
  {
  }

  /** Paging over a fixed table loses a row exactly when two rows of one key straddle a multiple of the page size. */
  lemma WalkLosesExactlyWhen(table: set<Row>, tables: seq<set<Row>>, f: Filter, size: nat, pages: seq<seq<Row>>, order: seq<Row>)
    requires size > 0 && Walk(tables, f, size, None, pages) && Constant(tables, table) && IsListing(table, f, None, order)
    ensures (exists r :: r in Matching(table, f) && r !in Flatten(pages)) <==> exists n: nat :: n > 0 && Straddles(order, n * size)
  {
    hide Walk, Constant;
    LosesExactlyWhen(table, tables, f, size, None, pages, order);
    CutsAreMultiples(order, size);
    hide CutsKey, Straddles, Sorted;
    forall r
      ensures r in order <==> r in Matching(table, f)
    {
    }
    if r :| r in Matching(table, f) && r !in Flatten(pages) {
      assert r in order;
    }
  }

  /** Every table has a listing: the answer without a limit. */
  method List(table: set<Row>, f: Filter) returns (order: seq<Row>)
    ensures IsListing(table, f, None, order)
  {
    var selected := set r | r in table && Selects(f, r);
    order := Query(selected, [], |selected| + 1);
    assert forall r | r in order :: r in selected;
    DistinctCount(order);
    SubsetCount((set r | r in order), selected);
    assert forall r | r in selected :: All([], r);
  }

  /** Two rows of one key, one to a page: the second page is empty and a row is lost. */
  lemma TwoRowsOfOneKey()
    ensures exists table: set<Row>, f: Filter, pages: seq<seq<Row>>, r: Row ::
      Walk([table, table], f, 1, None, pages) && r in Matching(table, f) && r !in Flatten(pages)
  {
    var key := Key(1, "e");
    var a, b := Row(0, key, "t", "u", "s"), Row(1, key, "t", "u", "s");
    var table := {a, b};
    var f := Filter(ZERO_TIME, ZERO_TIME, [], "", "");
    var pages: seq<seq<Row>> := [[a], []];
    TwoRowsAnswered(key, a, b);
    hide IsAnswer, KeyLess;
    assert [a, b][..1] == [a];
    assert WalkOn([table], f, 1, Some(key), [[]], []);
    assert [table, table][1..] == [table] && pages[1..] == [[]];
    assert WalkOn([table, table], f, 1, None, pages, [a, b]);
    hide Walk, WalkOn;
    assert pages[1..][1..] == [] && Flatten(pages) == [a] + ([] + []);
    assert b in Matching(table, f) && b !in Flatten(pages);
  }

  lemma TwoRowsAnswered(key: Key, a: Row, b: Row)
    requires a != b && a.key == b.key == key
    ensures var f := Filter(ZERO_TIME, ZERO_TIME, [], "", "");
      IsAnswer({a, b}, f, None, 2, [a, b]) && IsAnswer({a, b}, f, Some(key), 2, [])
  {
    KeyOrder(key, key, key);
    hide KeyLess;
  }
}
