/**
  Reading audit events page by page. The events table may change between pages; the database answers
  one query with the selected rows in (occurred_at, event_id) order, cut at a limit.
*/
module AuditPages {
  import opened Options
  import opened Orders

  type Time = int

  datatype Key = Key(time: Time, id: string)

  /** Two stored rows may carry the same key; number tells physical rows apart. */
  datatype Row = Row(number: nat, key: Key, eventType: string, actor: string, service: string)

  const ZERO_TIME: Time := 0
  const DEFAULT_PAGE := 50
  const MAX_PAGE := 200

  predicate KeyLess(a: Key, b: Key) {
    a.time < b.time || (a.time == b.time && Less(a.id, b.id))
  }

  lemma KeyOrder(a: Key, b: Key, c: Key)
    ensures !KeyLess(a, a)
    ensures KeyLess(a, b) || a == b || KeyLess(b, a)
    ensures KeyLess(a, b) && KeyLess(b, c) ==> KeyLess(a, c)
  {
    LessIrreflexive(a.id);
    LessTotal(a.id, b.id);
    if KeyLess(a, b) && KeyLess(b, c) && a.time == b.time == c.time {
      LessTransitive(a.id, b.id, c.id);
    }
  }

  // The where clause.

  datatype Filter = Filter(start: Time, end: Time, eventTypes: seq<string>, actor: string, service: string)

  datatype Condition =
    | AtOrAfter(time: Time)
    | Before(time: Time)
    | TypeIn(types: seq<string>)
    | ActorIs(actor: string)
    | ServiceIs(service: string)
    | KeyAfter(key: Key)

  predicate Satisfies(row: Row, c: Condition) {
    match c
    case AtOrAfter(time) => time <= row.key.time
    case Before(time) => row.key.time < time
    case TypeIn(types) => row.eventType in types
    case ActorIs(actor) => row.actor == actor
    case ServiceIs(service) => row.service == service
    case KeyAfter(key) => KeyLess(key, row.key)
  }

  /** What a filter means: an unset bound, an empty list or an empty name does not restrict. */
  predicate Selects(f: Filter, row: Row) {
    && (f.start == ZERO_TIME || f.start <= row.key.time)
    && (f.end == ZERO_TIME || row.key.time < f.end)
    && (f.eventTypes == [] || row.eventType in f.eventTypes)
    && (f.actor == "" || row.actor == f.actor)
    && (f.service == "" || row.service == f.service)
  }

  predicate Past(cursor: Option<Key>, row: Row) {
    cursor.Some? ==> KeyLess(cursor.value, row.key)
  }

  /** Page tokens are opaque text; encode and decode are the codec. */
  /** Windows include their start and exclude their end, so windows that meet select each row of their union once. */
  lemma WindowsTile(f: Filter, a: Time, b: Time, c: Time, row: Row)
    requires ZERO_TIME !in {a, b, c} && a <= b <= c
    ensures var first, second, whole := f.(start := a, end := b), f.(start := b, end := c), f.(start := a, end := c);
      && (Selects(whole, row) <==> Selects(first, row) || Selects(second, row))
      && !(Selects(first, row) && Selects(second, row))
      && (row.key.time == a < b ==> (Selects(first, row) <==> Selects(f.(start := ZERO_TIME, end := ZERO_TIME), row)))
  {
  }

  /** Without a window, a type, an actor or a service everything is selected, and each that is given narrows to its own. */
  lemma FilterNarrows(f: Filter, row: Row)
    ensures Selects(Filter(ZERO_TIME, ZERO_TIME, [], "", ""), row)
    ensures Selects(f, row) ==>
      && (f.eventTypes != [] ==> row.eventType in f.eventTypes) && (f.actor != "" ==> row.actor == f.actor)
      && (f.service != "" ==> row.service == f.service)
    ensures Selects(f.(start := ZERO_TIME, end := ZERO_TIME), row) <==>
      && (f.eventTypes == [] || exists t :: t in f.eventTypes && t == row.eventType)
      && f.actor in {"", row.actor} && f.service in {"", row.service}
  {
  }

  datatype Codec = Codec(encode: Key -> string, decode: string -> Option<Key>)

  ghost predicate RoundTrips(codec: Codec) {
    forall k :: codec.encode(k) != "" && codec.decode(codec.encode(k)) == Some(k)
  }

  /** The conditions of a where clause are joined by AND. */
  predicate All(conditions: seq<Condition>, row: Row) {
    forall c | c in conditions :: Satisfies(row, c)
  }

  function And(list: seq<Condition>, c: Condition): (longer: seq<Condition>)
    ensures forall row :: All(longer, row) <==> All(list, row) && Satisfies(row, c)
  {
    assert c in list + [c] && forall d | d in list :: d in list + [c];
    list + [c]
  }

  /** The five fields of a filter in the order the clause is built: whether one restricts, and how. */
  predicate Restricts(f: Filter, n: nat) {
    match n
    case 0 => f.start != ZERO_TIME
    case 1 => f.end != ZERO_TIME
    case 2 => f.eventTypes != []
    case 3 => f.actor != ""
    case 4 => f.service != ""
    case _ => false
  }

  function Restriction(f: Filter, n: nat): Condition {
    match n
    case 0 => AtOrAfter(f.start)
    case 1 => Before(f.end)
    case 2 => TypeIn(f.eventTypes)
    case 3 => ActorIs(f.actor)
    case _ => ServiceIs(f.service)
  }

  /** The list restricts rows by the first n fields of the filter. */
  ghost predicate Means(f: Filter, n: nat, list: seq<Condition>) {
    forall row ::
      All(list, row) <==> forall k: nat | k < n && Restricts(f, k) :: Satisfies(row, Restriction(f, k))
  }

  lemma NothingMeans(f: Filter)
    ensures Means(f, 0, [])
  {
  }

  lemma PastMeans(f: Filter, list: seq<Condition>, key: Key)
    requires forall row :: All(list, row) <==> Selects(f, row)
    ensures forall row :: All(And(list, KeyAfter(key)), row) <==> Selects(f, row) && KeyLess(key, row.key)
  {
    hide All, Selects;
  }

  lemma MeansNext(f: Filter, n: nat, list: seq<Condition>, longer: seq<Condition>)
    requires Means(f, n, list)
    requires longer == if Restricts(f, n) then And(list, Restriction(f, n)) else list
    ensures Means(f, n + 1, longer)
  {
    hide All, Satisfies, Restricts, Restriction;
  }

  lemma MeansSelects(f: Filter, list: seq<Condition>)
    requires Means(f, 5, list)
    ensures forall row :: All(list, row) <==> Selects(f, row)
  {
    hide All;
    forall row
      ensures All(list, row) <==> Selects(f, row)
    {
      if All(list, row) {
        ghost var each := (k: nat) => Restricts(f, k) ==> Satisfies(row, Restriction(f, k));
        assert each(0) && each(1) && each(2) && each(3) && each(4);
      }
    }
  }

  method BuildWhere(codec: Codec, f: Filter, token: string) returns (conditions: Option<seq<Condition>>)
    ensures conditions.None? <==> token != "" && codec.decode(token).None?
    ensures conditions.Some? ==> forall row ::
      All(conditions.value, row) <==> Selects(f, row) && (token != "" ==> KeyLess(codec.decode(token).value, row.key))
  {
    hide All, And, Satisfies, Selects, Means;
    var list: seq<Condition> := [];
    NothingMeans(f);
    if f.start != ZERO_TIME {
      list := And(list, AtOrAfter(f.start));
    }
    MeansNext(f, 0, [], list);
    ghost var before := list;
    if f.end != ZERO_TIME {
      list := And(list, Before(f.end));
    }
    MeansNext(f, 1, before, list);
    before := list;
    if f.eventTypes != [] {
      list := And(list, TypeIn(f.eventTypes));
    }
    MeansNext(f, 2, before, list);
    before := list;
    if f.actor != "" {
      list := And(list, ActorIs(f.actor));
    }
    MeansNext(f, 3, before, list);
    before := list;
    if f.service != "" {
      list := And(list, ServiceIs(f.service));
    }
    MeansNext(f, 4, before, list);
    MeansSelects(f, list);
    if token != "" {
      var key := codec.decode(token);
      if key.None? {
        return None;
      }
      before := list;
      list := And(list, KeyAfter(key.value));
      PastMeans(f, before, key.value);
    }
    conditions := Some(list);
  }

  // One query and one page.

  ghost predicate Sorted(rows: seq<Row>) {
    forall j, k | 0 <= j < k < |rows| :: !KeyLess(rows[k].key, rows[j].key) && rows[j] != rows[k]
  }

  /** The database's answer: the selected rows past the cursor in order, as many as the limit allows. */
  /** The order is by time, and within one time by identifier. */
  lemma SortedAscends(rows: seq<Row>, j: nat, k: nat)
    requires Sorted(rows) && j < k < |rows|
    ensures rows[j].key.time <= rows[k].key.time
    ensures rows[j].key.time == rows[k].key.time ==> rows[j].key.id == rows[k].key.id || Less(rows[j].key.id, rows[k].key.id)
  {
    LessTotal(rows[j].key.id, rows[k].key.id);
  }

  ghost predicate IsAnswer(table: set<Row>, f: Filter, cursor: Option<Key>, limit: nat, rows: seq<Row>) {
    && Sorted(rows) && |rows| <= limit
    && (forall r | r in rows :: r in table && Selects(f, r) && Past(cursor, r))
    && (forall r | r in table && Selects(f, r) && Past(cursor, r) ::
          r in rows || (|rows| == limit && forall q | q in rows :: !KeyLess(r.key, q.key)))
  }

  /** The same for a where clause. */
  ghost predicate IsQueried(table: set<Row>, conditions: seq<Condition>, limit: nat, rows: seq<Row>) {
    && Sorted(rows) && |rows| <= limit
    && (forall r | r in rows :: r in table && All(conditions, r))
    && (forall r | r in table && All(conditions, r) ::
          r in rows || (|rows| == limit && forall q | q in rows :: !KeyLess(r.key, q.key)))
  }

  method LeastRow(rows: set<Row>) returns (least: Row)
    requires rows != {}
    ensures least in rows && forall r | r in rows :: !KeyLess(r.key, least.key)
  {
    least :| least in rows;
    var rest := rows - {least};
    KeyOrder(least.key, least.key, least.key);
    while rest != {}
      invariant rest <= rows && least in rows && least !in rest
      invariant forall r | r in rows && r !in rest :: !KeyLess(r.key, least.key)
      decreases rest
    {
      var r :| r in rest;
      if KeyLess(r.key, least.key) {
        forall q | q in rows && q !in rest
          ensures !KeyLess(q.key, r.key)
        {
          KeyOrder(q.key, r.key, least.key);
        }
        least := r;
      }
      KeyOrder(r.key, r.key, r.key);
      rest := rest - {r};
    }
  }

  method Query(table: set<Row>, conditions: seq<Condition>, limit: nat) returns (rows: seq<Row>)
    ensures IsQueried(table, conditions, limit, rows)
  {
    hide All;
    var selected := set r | r in table && All(conditions, r);
    var rest := selected;
    rows := [];
    while rest != {} && |rows| < limit
      invariant rest <= selected && |rows| <= limit && Sorted(rows)
      invariant forall r :: r in rows <==> r in selected && r !in rest
      invariant forall p, q | p in rows && q in rest :: !KeyLess(q.key, p.key)
      decreases rest
    {
      var least := LeastRow(rest);
      rows := rows + [least];
      rest := rest - {least};
    }
  }

  function PageSize(requested: int): (size: nat)
    ensures 1 <= size <= MAX_PAGE
    ensures 1 <= requested <= MAX_PAGE ==> size == requested
    ensures requested <= 0 ==> size == 50
    ensures requested > 200 ==> size == 200
  {
    if requested <= 0 then DEFAULT_PAGE else if requested > MAX_PAGE then MAX_PAGE else requested
  }

  /** The rows answered and the token for the page after them; no token on the last page. */
  datatype Page = Page(items: seq<Row>, next: string)

  ghost predicate TokenIs(codec: Codec, token: string, cursor: Option<Key>) {
    if token == "" then cursor.None? else cursor.Some? && codec.decode(token) == cursor
  }

  ghost predicate PageIs(codec: Codec, size: nat, answer: seq<Row>, page: Page)
    requires size > 0
  {
    && page.items == answer[..if |answer| > size then size else |answer|]
    && page.next == if |answer| > size then codec.encode(answer[size - 1].key) else ""
  }

  /** One row more than a page is fetched, to learn whether there is a next page. */
  method ListEvents(codec: Codec, table: set<Row>, f: Filter, requested: int, token: string)
    returns (page: Option<Page>, ghost answer: seq<Row>)
    ensures page.None? <==> token != "" && codec.decode(token).None?
    ensures page.Some? ==> PageIs(codec, PageSize(requested), answer, page.value)
    ensures page.Some? ==> forall cursor :: TokenIs(codec, token, cursor) ==> IsAnswer(table, f, cursor, PageSize(requested) + 1, answer)
  {
    var conditions := BuildWhere(codec, f, token);
    answer := [];
    if conditions.None? {
      return None, answer;
    }
    var size := PageSize(requested);
    var rows := Query(table, conditions.value, size + 1);
    answer := rows;
    AnswerMeans(codec, table, f, token, conditions.value, size + 1, rows);
    var items: seq<Row> := [];
    for i := 0 to |rows|
      invariant items == rows[..i]
    {
      items := items + [rows[i]];
    }
    var next := "";
    if |items| > size {
      var last := items[size - 1];
      next := codec.encode(last.key);
      items := items[..size];
    }
    page := Some(Page(items, next));
  }

  lemma AnswerMeans(codec: Codec, table: set<Row>, f: Filter, token: string, conditions: seq<Condition>, limit: nat, rows: seq<Row>)
    requires IsQueried(table, conditions, limit, rows) && (token != "" ==> codec.decode(token).Some?)
    requires forall row :: All(conditions, row) <==> Selects(f, row) && (token != "" ==> KeyLess(codec.decode(token).value, row.key))
    ensures forall cursor :: TokenIs(codec, token, cursor) ==> IsAnswer(table, f, cursor, limit, rows)
  {
    hide All, Selects, Sorted, KeyLess;
  }

  ghost function Matching(table: set<Row>, f: Filter): set<Row> {
    set r | r in table && Selects(f, r)
  }

  /** The count uses the where clause without a page token. */
  method CountEvents(codec: Codec, table: set<Row>, f: Filter) returns (count: nat)
    ensures count == |Matching(table, f)|
  {
    var conditions := BuildWhere(codec, f, "");
    var counted := set r | r in table && All(conditions.value, r);
    assert counted == Matching(table, f);
    count := |counted|;
  }

  // Walking the pages.

  /** Page by page from a cursor to the end; tables[k] is what the database holds at page k. */
  ghost predicate Walk(tables: seq<set<Row>>, f: Filter, size: nat, cursor: Option<Key>, pages: seq<seq<Row>>)
    requires size > 0
    decreases |tables|, 1
  {
    exists answer :: WalkOn(tables, f, size, cursor, pages, answer)
  }

  ghost predicate WalkOn(tables: seq<set<Row>>, f: Filter, size: nat, cursor: Option<Key>, pages: seq<seq<Row>>, answer: seq<Row>)
    requires size > 0
    decreases |tables|, 0
  {
    && |pages| == |tables| > 0
    && PageOf(tables[0], f, size, cursor, answer, pages[0])
    && if |answer| <= size then |pages| == 1
       else |pages| > 1 && Walk(tables[1..], f, size, Some(answer[size - 1].key), pages[1..])
  }

  ghost predicate PageOf(table: set<Row>, f: Filter, size: nat, cursor: Option<Key>, answer: seq<Row>, page: seq<Row>) {
    IsAnswer(table, f, cursor, size + 1, answer) && page == answer[..if |answer| > size then size else |answer|]
  }

  function Flatten(pages: seq<seq<Row>>): seq<Row> {
    if pages == [] then [] else pages[0] + Flatten(pages[1..])
  }

  /** The output of a walk is in order, repeats no stored row, and is past the cursor it started from. */
  lemma {:induction false} WalkSorted(tables: seq<set<Row>>, f: Filter, size: nat, cursor: Option<Key>, pages: seq<seq<Row>>)
    requires size > 0 && Walk(tables, f, size, cursor, pages)
    ensures Sorted(Flatten(pages))
    ensures forall r | r in Flatten(pages) :: Past(cursor, r) && Selects(f, r)
  {
    var answer: seq<Row> :| WalkOn(tables, f, size, cursor, pages, answer);
    if |answer| <= size {
      assert Flatten(pages) == pages[0];
    } else {
      var last := answer[size - 1].key;
      WalkSorted(tables[1..], f, size, Some(last), pages[1..]);
      SortedJoin(pages[0], Flatten(pages[1..]), last);
      forall r | r in Flatten(pages)
        ensures Past(cursor, r) && Selects(f, r)
      {
        if r !in pages[0] && cursor.Some? {
          KeyOrder(cursor.value, last, r.key);
          assert answer[size - 1] in answer;
        }
      }
    }
  }

  ghost predicate DistinctKeys(table: set<Row>) {
    forall p, q | p in table && q in table && p.key == q.key :: p == q
  }

  ghost predicate Strict(rows: seq<Row>) {
    forall j, k | 0 <= j < k < |rows| :: KeyLess(rows[j].key, rows[k].key)
  }

  /**
    With distinct keys in each table, the output of a walk is strictly increasing: no key is output twice,
    even when its row is removed and added again between pages.
   */
  lemma {:induction false} WalkStrict(tables: seq<set<Row>>, f: Filter, size: nat, cursor: Option<Key>, pages: seq<seq<Row>>)
    requires size > 0 && Walk(tables, f, size, cursor, pages)
    requires forall k | 0 <= k < |tables| :: DistinctKeys(tables[k])
    ensures Strict(Flatten(pages))
  {
    var answer: seq<Row> :| WalkOn(tables, f, size, cursor, pages, answer);
    AnswerStrict(tables[0], f, cursor, size + 1, answer);
    if |answer| <= size {
      assert Flatten(pages) == pages[0];
    } else {
      var last := answer[size - 1].key;
      WalkStrict(tables[1..], f, size, Some(last), pages[1..]);
      WalkSorted(tables[1..], f, size, Some(last), pages[1..]);
      StrictJoin(pages[0], Flatten(pages[1..]), last);
    }
  }

  lemma AnswerStrict(table: set<Row>, f: Filter, cursor: Option<Key>, limit: nat, answer: seq<Row>)
    requires IsAnswer(table, f, cursor, limit, answer) && DistinctKeys(table)
    ensures Strict(answer)
  {
    forall j, k | 0 <= j < k < |answer|
      ensures KeyLess(answer[j].key, answer[k].key)
    {
      assert answer[j] in answer && answer[k] in answer;
      KeyOrder(answer[j].key, answer[k].key, answer[k].key);
    }
  }

  lemma StrictJoin(a: seq<Row>, b: seq<Row>, last: Key)
    requires Strict(a) && Strict(b) && a != [] && a[|a| - 1].key == last
    requires forall r | r in b :: KeyLess(last, r.key)
    ensures Strict(a + b)
  {
    forall j, k | 0 <= j < |a| <= k < |a + b|
      ensures KeyLess((a + b)[j].key, (a + b)[k].key)
    {
      assert b[k - |a|] in b;
      KeyOrder(a[j].key, last, b[k - |a|].key);
    }
  }

  lemma SortedJoin(a: seq<Row>, b: seq<Row>, last: Key)
    requires Sorted(a) && Sorted(b) && a != [] && a[|a| - 1].key == last
    requires forall r | r in b :: KeyLess(last, r.key)
    ensures Sorted(a + b)
  {
    forall j, k | 0 <= j < |a| <= k < |a + b|
      ensures !KeyLess((a + b)[k].key, (a + b)[j].key) && (a + b)[j] != (a + b)[k]
    {
      var p, q := a[j].key, b[k - |a|].key;
      assert b[k - |a|] in b;
      KeyOrder(q, p, last);
      KeyOrder(last, q, last);
      KeyOrder(p, last, q);
      KeyOrder(last, q, p);
    }
  }

  /** The row ends a page that is not the last. */
  ghost predicate EndsPage(pages: seq<seq<Row>>, k: nat, key: Key) {
    k < |pages| - 1 && pages[k] != [] && pages[k][|pages[k]| - 1].key == key
  }

  /**
    A row that is selected in every table of a walk is output, unless it shares its key with the row
    that ended some page, and did not fit that page.
   */
  lemma {:induction false} WalkCovers(tables: seq<set<Row>>, f: Filter, size: nat, cursor: Option<Key>, pages: seq<seq<Row>>, r: Row)
    requires size > 0 && Walk(tables, f, size, cursor, pages)
    requires Selects(f, r) && Past(cursor, r) && forall k | 0 <= k < |tables| :: r in tables[k]
    ensures r in Flatten(pages) || exists k: nat :: EndsPage(pages, k, r.key) && r !in pages[k]
  {
    var answer: seq<Row> :| WalkOn(tables, f, size, cursor, pages, answer);
    assert r in tables[0];
    if |answer| > size && r !in pages[0] {
      var last := answer[size - 1].key;
      KeyOrder(last, r.key, last);
      RestNotBefore(answer, size, r, tables[0], f, cursor);
      if r.key == last {
        assert EndsPage(pages, 0, r.key);
      } else {
        WalkCovers(tables[1..], f, size, Some(last), pages[1..], r);
        if k: nat :| EndsPage(pages[1..], k, r.key) && r !in pages[1..][k] {
          assert pages[1..][k] == pages[k + 1];
          assert EndsPage(pages, k + 1, r.key);
        }
      }
    }
  }

  /** A selected row left off a full page does not come before its last row. */
  lemma RestNotBefore(answer: seq<Row>, size: nat, r: Row, table: set<Row>, f: Filter, cursor: Option<Key>)
    requires size > 0 && |answer| > size && IsAnswer(table, f, cursor, size + 1, answer)
    requires r in table && Selects(f, r) && Past(cursor, r) && r !in answer[..size]
    ensures !KeyLess(r.key, answer[size - 1].key)
  {
    if r in answer {
      assert answer[..size] + [answer[size]] == answer;
      assert r == answer[size];
    } else {
      assert answer[size - 1] in answer;
    }
  }

  lemma {:induction false} PageRowsStored(tables: seq<set<Row>>, f: Filter, size: nat, cursor: Option<Key>, pages: seq<seq<Row>>, k: nat)
    requires size > 0 && Walk(tables, f, size, cursor, pages) && k < |pages|
    ensures |tables| == |pages| && forall r | r in pages[k] :: r in tables[k]
  {
    var answer: seq<Row> :| WalkOn(tables, f, size, cursor, pages, answer);
    if k > 0 {
      PageRowsStored(tables[1..], f, size, Some(answer[size - 1].key), pages[1..], k - 1);
    }
  }

  ghost predicate Once(rows: seq<Row>, r: Row) {
    exists j :: 0 <= j < |rows| && rows[j] == r && forall m | 0 <= m < |rows| && m != j :: rows[m] != r
  }

  /** With distinct keys, no other row shares the key of the row that ends a page. */
  lemma EndIsOnlyOne(table: set<Row>, pages: seq<seq<Row>>, k: nat, r: Row)
    requires DistinctKeys(table) && r in table && EndsPage(pages, k, r.key)
    requires forall q | q in pages[k] :: q in table
    ensures r in pages[k]
  {
    assert pages[k][|pages[k]| - 1] in pages[k];
  }

  /** With distinct keys, a row selected throughout a finished walk appears, and exactly once. */
  lemma PresentThroughoutAppears(tables: seq<set<Row>>, f: Filter, size: nat, pages: seq<seq<Row>>, r: Row)
    requires size > 0 && Walk(tables, f, size, None, pages)
    requires forall k | 0 <= k < |tables| :: DistinctKeys(tables[k]) && r in tables[k]
    requires Selects(f, r)
    ensures Once(Flatten(pages), r)
  {
    WalkCovers(tables, f, size, None, pages, r);
    WalkSorted(tables, f, size, None, pages);
    if k: nat :| EndsPage(pages, k, r.key) && r !in pages[k] {
      PageRowsStored(tables, f, size, None, pages, k);
      EndIsOnlyOne(tables[k], pages, k, r);
    }
  }

  // A table that does not change.

  ghost predicate Constant(tables: seq<set<Row>>, table: set<Row>) {
    forall k | 0 <= k < |tables| :: tables[k] == table
  }

  lemma {:induction false} FlattenIn(pages: seq<seq<Row>>, r: Row)
    ensures r in Flatten(pages) <==> exists k :: 0 <= k < |pages| && r in pages[k]
  {
    if pages != [] {
      FlattenIn(pages[1..], r);
      if k :| 0 <= k < |pages[1..]| && r in pages[1..][k] {
        assert r in pages[k + 1];
      }
      if k :| 0 <= k < |pages| && r in pages[k] {
        assert k > 0 ==> r in pages[1..][k - 1];
      }
    }
  }

  lemma {:induction false} DistinctLength(rows: seq<Row>, elements: set<Row>)
    requires forall j, k | 0 <= j < k < |rows| :: rows[j] != rows[k]
    requires forall r :: r in rows <==> r in elements
    ensures |rows| == |elements|
  {
    if rows == [] {
      assert elements == {};
    } else {
      var n := |rows| - 1;
      assert rows == rows[..n] + [rows[n]];
      DistinctLength(rows[..n], elements - {rows[n]});
    }
  }

  /** On a fixed table with distinct keys a finished walk lists exactly the matching rows, in order, and as many as counted. */
  lemma FixedTableWalk(table: set<Row>, tables: seq<set<Row>>, f: Filter, size: nat, pages: seq<seq<Row>>)
    requires size > 0 && Walk(tables, f, size, None, pages) && Constant(tables, table) && DistinctKeys(table)
    ensures forall r :: r in Flatten(pages) <==> r in Matching(table, f)
    ensures Sorted(Flatten(pages))
    ensures |Flatten(pages)| == |Matching(table, f)|
  {
    WalkSorted(tables, f, size, None, pages);
    forall r
      ensures r in Flatten(pages) <==> r in Matching(table, f)
    {
      FlattenIn(pages, r);
      if r in Flatten(pages) {
        var k :| 0 <= k < |pages| && r in pages[k];
        PageRowsStored(tables, f, size, None, pages, k);
      }
      if r in Matching(table, f) {
        PresentThroughoutAppears(tables, f, size, pages, r);
      }
    }
    DistinctLength(Flatten(pages), Matching(table, f));
  }

  /** Without distinct keys, a walk loses exactly the rows that shared a page's last key and did not fit. */
  lemma FixedTableLoss(table: set<Row>, tables: seq<set<Row>>, f: Filter, size: nat, pages: seq<seq<Row>>, r: Row)
    requires size > 0 && Walk(tables, f, size, None, pages) && Constant(tables, table) && r in Matching(table, f)
    ensures r !in Flatten(pages) <==> exists k: nat :: EndsPage(pages, k, r.key) && r !in pages[k]
  {
    WalkCovers(tables, f, size, None, pages, r);
    if k: nat :| EndsPage(pages, k, r.key) && r !in pages[k] {
      SharedKeyLost(tables, f, size, None, pages, k, r);
    }
  }

  lemma {:induction false} SharedKeyLost(tables: seq<set<Row>>, f: Filter, size: nat, cursor: Option<Key>, pages: seq<seq<Row>>, k: nat, r: Row)
    requires size > 0 && Walk(tables, f, size, cursor, pages) && EndsPage(pages, k, r.key) && r !in pages[k]
    ensures r !in Flatten(pages)
  {
    var answer: seq<Row> :| WalkOn(tables, f, size, cursor, pages, answer);
    var last := answer[size - 1].key;
    WalkSorted(tables[1..], f, size, Some(last), pages[1..]);
    if k == 0 {
      KeyOrder(last, last, last);
    } else {
      assert pages[1..][k - 1] == pages[k];
      SharedKeyLost(tables[1..], f, size, Some(last), pages[1..], k - 1, r);
      var end := pages[k][|pages[k]| - 1];
      FlattenIn(pages[1..], end);
      assert end in pages[1..][k - 1];
      if r in pages[0] {
        var m :| 0 <= m < size && answer[m] == r;
        KeyOrder(last, r.key, last);
        assert false;
      }
    }
  }

  ghost function Repeated(table: set<Row>, n: nat): seq<set<Row>> {
    seq(n, _ => table)
  }

  /**
    Following the tokens over a fixed table terminates, and what it collects is a walk: no token it got
    from a page is refused, and every page but the last outputs a full page of new rows. With distinct
    keys the rows collected are exactly those selected, in order and as many.
   */
  method FollowTokens(codec: Codec, table: set<Row>, f: Filter, requested: int) returns (pages: seq<seq<Row>>)
    requires RoundTrips(codec)
    ensures Walk(Repeated(table, |pages|), f, PageSize(requested), None, pages)
    ensures DistinctKeys(table) ==>
      Sorted(Flatten(pages)) && |Flatten(pages)| == |Matching(table, f)| && forall r :: r in Flatten(pages) <==> r in Matching(table, f)
  {
    pages := FollowFrom(codec, table, f, requested, "", None);
    if DistinctKeys(table) {
      FixedTableWalk(table, Repeated(table, |pages|), f, PageSize(requested), pages);
    }
  }

  method FollowFrom(codec: Codec, table: set<Row>, f: Filter, requested: int, token: string, ghost cursor: Option<Key>)
    returns (pages: seq<seq<Row>>)
    requires RoundTrips(codec) && TokenIs(codec, token, cursor)
    ensures Walk(Repeated(table, |pages|), f, PageSize(requested), cursor, pages)
    decreases set r | r in table && Past(cursor, r)
  {
    var page, answer := ListEvents(codec, table, f, requested, token);
    ghost var size := PageSize(requested);
    if page.value.next == "" {
      pages := [page.value.items];
      assert |answer| <= size;
      assert WalkOn(Repeated(table, 1), f, size, cursor, pages, answer);
      return;
    }
    PastShrinks(table, f, cursor, size, answer);
    var rest := FollowFrom(codec, table, f, requested, page.value.next, Some(answer[size - 1].key));
    pages := [page.value.items] + rest;
    assert Repeated(table, |pages|)[1..] == Repeated(table, |rest|) && pages[1..] == rest;
    assert WalkOn(Repeated(table, |pages|), f, size, cursor, pages, answer);
  }

  /** After a full page fewer rows are left past the cursor. */
  lemma PastShrinks(table: set<Row>, f: Filter, cursor: Option<Key>, size: nat, answer: seq<Row>)
    requires size > 0 && |answer| > size && IsAnswer(table, f, cursor, size + 1, answer)
    ensures (set r | r in table && Past(Some(answer[size - 1].key), r)) < (set r | r in table && Past(cursor, r))
  {
    var last := answer[size - 1].key;
    var now := set r | r in table && Past(cursor, r);
    var past := set r | r in table && Past(Some(last), r);
    assert answer[size - 1] in answer;
    forall r | r in past
      ensures r in now
    {
      if cursor.Some? {
        KeyOrder(cursor.value, last, r.key);
      }
    }
    KeyOrder(last, last, last);
    assert answer[size - 1] in now && answer[size - 1] !in past;
  }
}
