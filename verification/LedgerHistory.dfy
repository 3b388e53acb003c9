/** Keyset pagination over an account's entries, lazily, one page at a time. */
module LedgerHistory {
  import opened Wrappers
  import opened AccountIds
  import Entities

  /** A row as the iterator sees it: its account, its key (createdAt, id) and the whole entry. */
  datatype Row = Row(account: AccountId, createdAt: int, id: nat, entry: Entities.Entry)

  datatype Cursor = Cursor(createdAt: int, id: nat)

  datatype Options = Options(pageSize: nat, from: Option<int>, to: Option<int>)

  function KeyOf(r: Row): Cursor {
    Cursor(r.createdAt, r.id)
  }

  predicate KeyLess(a: Cursor, b: Cursor) {
    a.createdAt < b.createdAt || (a.createdAt == b.createdAt && a.id < b.id)
  }

  predicate Past(after: Option<Cursor>, r: Row) {
    after.None? || KeyLess(after.value, KeyOf(r))
  }

  predicate InRange(account: AccountId, o: Options, r: Row) {
    && r.account == account
    && (o.from.Some? ==> r.createdAt >= o.from.value)
    && (o.to.Some? ==> r.createdAt < o.to.value)
  }

  // ---------- The query ----------

  predicate Ascending(rs: seq<Row>) {
    forall i, j :: 0 <= i < j < |rs| ==> KeyLess(KeyOf(rs[i]), KeyOf(rs[j]))
  }

  function InsertRow(r: Row, rs: seq<Row>): seq<Row> {
    if rs == [] || KeyLess(KeyOf(r), KeyOf(rs[0])) then [r] + rs else [rs[0]] + InsertRow(r, rs[1..])
  }

  /** The rows in range beyond the cursor, ordered by (createdAt, id). */
  function Scan(table: seq<Row>, account: AccountId, after: Option<Cursor>, o: Options): seq<Row> {
    if table == [] then []
    else
      var rest := Scan(table[1..], account, after, o);
      if InRange(account, o, table[0]) && Past(after, table[0]) then InsertRow(table[0], rest) else rest
  }

  function Take(rs: seq<Row>, limit: nat): seq<Row> {
    if |rs| <= limit then rs else rs[..limit]
  }

  function FetchPage(table: seq<Row>, account: AccountId, after: Option<Cursor>, o: Options): seq<Row> {
    Take(Scan(table, account, after, o), o.pageSize)
  }

  /** Ids are primary keys. */
  ghost predicate UniqueIds(table: seq<Row>) {
    forall i, j :: 0 <= i < j < |table| ==> table[i].id != table[j].id
  }

  lemma {:induction false} InsertRowSorts(r: Row, rs: seq<Row>)
    requires Ascending(rs) && forall s :: s in rs ==> s.id != r.id
    ensures Ascending(InsertRow(r, rs))
    ensures forall s :: s in InsertRow(r, rs) <==> s == r || s in rs
    ensures |InsertRow(r, rs)| == |rs| + 1
  {
    if rs != [] && !KeyLess(KeyOf(r), KeyOf(rs[0])) {
      InsertRowSorts(r, rs[1..]);
      assert rs == [rs[0]] + rs[1..];
      assert forall s :: s in rs[1..] ==> KeyLess(KeyOf(rs[0]), KeyOf(s));
    }
  }

  /** The scan returns exactly the rows asked for, in strictly increasing key order. */
  lemma {:induction false} ScanIsSorted(table: seq<Row>, account: AccountId, after: Option<Cursor>, o: Options)
    requires UniqueIds(table)
    ensures Ascending(Scan(table, account, after, o))
    ensures forall r :: r in Scan(table, account, after, o) <==> r in table && InRange(account, o, r) && Past(after, r)
  {
    if table != [] {
      ScanIsSorted(table[1..], account, after, o);
      assert table == [table[0]] + table[1..];
      assert forall s :: s in table[1..] ==> s.id != table[0].id;
      if InRange(account, o, table[0]) && Past(after, table[0]) {
        InsertRowSorts(table[0], Scan(table[1..], account, after, o));
      }
    }
  }

  /** The query in plain words: the account's rows from `from` up to but not including `to`, beyond the
      cursor, by time and then by id. */
  lemma ScanReadsTheRange(table: seq<Row>, account: AccountId, after: Option<Cursor>, o: Options)
    requires UniqueIds(table)
    ensures var rs := Scan(table, account, after, o);
      forall i, j :: 0 <= i < j < |rs| ==>
        rs[i].createdAt < rs[j].createdAt || (rs[i].createdAt == rs[j].createdAt && rs[i].id < rs[j].id)
    ensures forall r :: r in Scan(table, account, after, o) <==>
      && r in table && r.account == account
      && (o.from.Some? ==> o.from.value <= r.createdAt) && (o.to.Some? ==> r.createdAt < o.to.value)
      && (after.Some? ==>
            || after.value.createdAt < r.createdAt
            || (after.value.createdAt == r.createdAt && after.value.id < r.id))
  {
    hide Scan;
    ScanIsSorted(table, account, after, o);
  }

  // ---------- The iterator as a value ----------

  datatype State = State(buffer: seq<Row>, cursor: Option<Cursor>, exhausted: bool, pagesFetched: nat)

  const START := State([], None, false, 0)

  function Loaded(s: State, table: seq<Row>, account: AccountId, o: Options): State {
    var page := FetchPage(table, account, s.cursor, o);
    State(page, if page == [] then s.cursor else Some(KeyOf(page[|page| - 1])),
          s.exhausted || |page| < o.pageSize, s.pagesFetched + 1)
  }

  function Ready(s: State, table: seq<Row>, account: AccountId, o: Options): State {
    if s.buffer == [] && !s.exhausted then Loaded(s, table, account, o) else s
  }

  /** One call of `next` while the table holds these rows: the new state and the row, if any. */
  function Next(s: State, table: seq<Row>, account: AccountId, o: Options): (State, Option<Row>) {
    var t := Ready(s, table, account, o);
    if t.buffer == [] then (t, None) else (t.(buffer := t.buffer[1..]), Some(t.buffer[0]))
  }

  class LedgerHistoryIterator {
    const account: AccountId
    const options: Options
    var buffer: seq<Row>
    var cursor: Option<Cursor>
    var exhausted: bool
    var pagesFetched: nat

    constructor (account: AccountId, options: Options)
      ensures this.account == account && this.options == options && Now() == START
    {
      this.account, this.options := account, options;
      buffer, cursor, exhausted, pagesFetched := [], None, false, 0;
    }

    function Now(): State
      reads this
    {
      State(buffer, cursor, exhausted, pagesFetched)
    }

    method NextRow(table: seq<Row>) returns (r: Option<Row>)
      modifies this
      ensures (Now(), r) == Next(old(Now()), table, account, options)
    {
      if |buffer| == 0 && !exhausted { LoadNextPage(table); }
      if |buffer| == 0 { return None; }
      r := Some(buffer[0]);
      buffer := buffer[1..];
    }

    method LoadNextPage(table: seq<Row>)
      modifies this
      ensures Now() == Loaded(old(Now()), table, account, options)
    {
      var page := FetchPage(table, account, cursor, options);
      pagesFetched := pagesFetched + 1;
      buffer := page;
      if |page| < options.pageSize { exhausted := true; }
      if |page| > 0 { cursor := Some(KeyOf(page[|page| - 1])); }
    }
  }

  // ---------- Runs over a growing table ----------

  /** The state after one call of `next` per table. */
  function After(tables: seq<seq<Row>>, account: AccountId, o: Options): State {
    if tables == [] then START
    else Next(After(tables[..|tables| - 1], account, o), tables[|tables| - 1], account, o).0
  }

  /** Everything yielded by those calls, in order. */
  function Yielded(tables: seq<seq<Row>>, account: AccountId, o: Options): seq<Row> {
    if tables == [] then []
    else
      var front := tables[..|tables| - 1];
      var r := Next(After(front, account, o), tables[|tables| - 1], account, o).1;
      Yielded(front, account, o) + if r.Some? then [r.value] else []
  }

  /** Rows are only ever added. */
  ghost predicate Growing(tables: seq<seq<Row>>) {
    && (forall i :: 0 <= i < |tables| ==> UniqueIds(tables[i]))
    && (forall i, j, r :: 0 <= i <= j < |tables| && r in tables[i] ==> r in tables[j])
  }

  ghost predicate UpToCursor(s: State, r: Row) {
    s.cursor.Some? && !KeyLess(s.cursor.value, KeyOf(r))
  }

  /** Rows yielded and buffered ascend, all are in range and up to the cursor, and the cursor is the
      last of them. */
  ghost predicate Consistent(s: State, seen: seq<Row>, account: AccountId, o: Options) {
    && Ascending(seen + s.buffer)
    && (forall r :: r in seen + s.buffer ==> InRange(account, o, r) && UpToCursor(s, r))
    && (seen + s.buffer == [] ==> s.cursor.None?)
    && (seen + s.buffer != [] ==> s.cursor == Some(KeyOf((seen + s.buffer)[|seen + s.buffer| - 1])))
  }

  /** No row of the first table has been passed over. */
  ghost predicate Covers(s: State, seen: seq<Row>, first: seq<Row>, account: AccountId, o: Options) {
    && (forall r :: r in first && InRange(account, o, r) && UpToCursor(s, r) ==> r in seen + s.buffer)
    && (s.exhausted ==> forall r :: r in first && InRange(account, o, r) ==> r in seen + s.buffer)
  }

  lemma TakeIsPrefix(rs: seq<Row>, limit: nat)
    ensures Take(rs, limit) <= rs && (|Take(rs, limit)| < limit ==> Take(rs, limit) == rs)
  {}

  lemma PageFacts(table: seq<Row>, account: AccountId, after: Option<Cursor>, o: Options)
    requires UniqueIds(table)
    ensures var page := FetchPage(table, account, after, o);
      && Ascending(page) && (forall r :: r in page ==> InRange(account, o, r) && Past(after, r))
      && (|page| < o.pageSize ==> page == Scan(table, account, after, o))
  {
    var all := Scan(table, account, after, o);
    ScanIsSorted(table, account, after, o);
    TakeIsPrefix(all, o.pageSize);
    assert forall r :: r in FetchPage(table, account, after, o) ==> r in all;
  }

  /** A row asked for that is not beyond the page is on it. */
  lemma PageHas(table: seq<Row>, account: AccountId, after: Option<Cursor>, o: Options, r: Row)
    requires UniqueIds(table) && r in table && InRange(account, o, r) && Past(after, r)
    requires var page := FetchPage(table, account, after, o);
      |page| < o.pageSize || (page != [] && !KeyLess(KeyOf(page[|page| - 1]), KeyOf(r)))
    ensures r in FetchPage(table, account, after, o)
  {
    var all := Scan(table, account, after, o);
    ScanIsSorted(table, account, after, o);
    var k :| 0 <= k < |all| && all[k] == r;
    if |all| > o.pageSize {
      assert k < o.pageSize;
      assert all[..o.pageSize][k] == r;
    }
  }

  lemma AscendingConcat(a: seq<Row>, b: seq<Row>)
    requires Ascending(a) && Ascending(b)
    requires forall x, y :: x in a && y in b ==> KeyLess(KeyOf(x), KeyOf(y))
    ensures Ascending(a + b)
  {}

  lemma LoadKeepsConsistent(s: State, seen: seq<Row>, table: seq<Row>, account: AccountId, o: Options)
    requires Consistent(s, seen, account, o) && s.buffer == [] && UniqueIds(table)
    ensures Consistent(Loaded(s, table, account, o), seen, account, o)
  {
    PageFacts(table, account, s.cursor, o);
    hide FetchPage, InRange, Ascending, Scan, UniqueIds, Past, KeyLess;
    var page := FetchPage(table, account, s.cursor, o);
    var s' := Loaded(s, table, account, o);
    assert seen + s.buffer == seen;
    if page == [] {
      assert seen + page == seen;
    } else {
      SeenBeforePage(s, seen, page, account, o);
      AscendingConcat(seen, page);
      LastIsGreatest(page);
      assert forall r :: r in seen ==> UpToCursor(s', r) by { AfterImpliesUpTo(s, seen, page, account, o, s'); }
    }
  }

  lemma SeenBeforePage(s: State, seen: seq<Row>, page: seq<Row>, account: AccountId, o: Options)
    requires Consistent(s, seen, account, o) && s.buffer == []
    requires forall r :: r in page ==> Past(s.cursor, r)
    ensures forall x, y :: x in seen && y in page ==> KeyLess(KeyOf(x), KeyOf(y))
  {
    assert seen + s.buffer == seen;
    forall x, y | x in seen && y in page ensures KeyLess(KeyOf(x), KeyOf(y)) {
      assert UpToCursor(s, x) && Past(s.cursor, y);
    }
  }

  lemma AfterImpliesUpTo(s: State, seen: seq<Row>, page: seq<Row>, account: AccountId, o: Options, s': State)
    requires Consistent(s, seen, account, o) && s.buffer == [] && page != []
    requires forall r :: r in page ==> Past(s.cursor, r)
    requires s'.cursor == Some(KeyOf(page[|page| - 1]))
    ensures forall r :: r in seen ==> UpToCursor(s', r)
  {
    SeenBeforePage(s, seen, page, account, o);
    forall r | r in seen ensures UpToCursor(s', r) {
      assert KeyLess(KeyOf(r), KeyOf(page[|page| - 1]));
    }
  }

  lemma LastIsGreatest(rs: seq<Row>)
    requires rs != [] && Ascending(rs)
    ensures forall r :: r in rs ==> !KeyLess(KeyOf(rs[|rs| - 1]), KeyOf(r))
  {}

  lemma LoadKeepsCovers(s: State, seen: seq<Row>, first: seq<Row>, table: seq<Row>, account: AccountId, o: Options)
    requires Consistent(s, seen, account, o) && Covers(s, seen, first, account, o)
    requires s.buffer == [] && UniqueIds(table) && o.pageSize >= 1 && !s.exhausted
    requires forall r :: r in first ==> r in table
    ensures Covers(Loaded(s, table, account, o), seen, first, account, o)
  {
    hide FetchPage, InRange, Consistent;
    var s' := Loaded(s, table, account, o);
    assert seen + s.buffer == seen;
    forall r | r in first && InRange(account, o, r) && (UpToCursor(s', r) || s'.exhausted)
      ensures r in seen + s'.buffer
    {
      if !UpToCursor(s, r) { PageHas(table, account, s.cursor, o, r); }
    }
  }

  /** One call of `next` keeps both. */
  lemma NextKeeps(s: State, seen: seq<Row>, first: seq<Row>, table: seq<Row>, account: AccountId, o: Options)
    requires Consistent(s, seen, account, o) && Covers(s, seen, first, account, o)
    requires UniqueIds(table) && o.pageSize >= 1 && forall r :: r in first ==> r in table
    ensures var (s', r) := Next(s, table, account, o);
      var seen' := seen + if r.Some? then [r.value] else [];
      Consistent(s', seen', account, o) && Covers(s', seen', first, account, o)
  {
    if s.buffer == [] && !s.exhausted {
      LoadKeepsConsistent(s, seen, table, account, o);
      LoadKeepsCovers(s, seen, first, table, account, o);
    }
    var t := Ready(s, table, account, o);
    assert Consistent(t, seen, account, o) && Covers(t, seen, first, account, o);
    hide Ready, Loaded, Consistent, Covers, UniqueIds, InRange;
    if t.buffer != [] {
      HandOut(t, seen, first, account, o);
    } else {
      assert seen + [] == seen;
    }
  }

  lemma HandOut(t: State, seen: seq<Row>, first: seq<Row>, account: AccountId, o: Options)
    requires Consistent(t, seen, account, o) && Covers(t, seen, first, account, o) && t.buffer != []
    ensures var t', seen' := t.(buffer := t.buffer[1..]), seen + [t.buffer[0]];
      Consistent(t', seen', account, o) && Covers(t', seen', first, account, o)
  {
    hide InRange, Ascending;
    assert (seen + [t.buffer[0]]) + t.buffer[1..] == seen + t.buffer;
  }

  /** Over every growing table: the yielded rows ascend strictly and are in range; no row in range that
      was there at the first call is skipped; and when the iterator says it is done, all of those have
      been yielded. */
  lemma {:induction false} IteratorInvariant(tables: seq<seq<Row>>, account: AccountId, o: Options)
    requires Growing(tables) && tables != [] && o.pageSize >= 1
    ensures var s, seen := After(tables, account, o), Yielded(tables, account, o);
      Consistent(s, seen, account, o) && Covers(s, seen, tables[0], account, o)
  {
    hide Next, Consistent, Covers;
    var last := |tables| - 1;
    var front := tables[..last];
    if front != [] {
      assert Growing(front) && front[0] == tables[0];
      IteratorInvariant(front, account, o);
    } else {
      StartIsConsistent(tables[0], account, o);
    }
    assert forall r :: r in tables[0] ==> r in tables[last];
    NextKeeps(After(front, account, o), Yielded(front, account, o), tables[0], tables[last], account, o);
  }

  lemma StartIsConsistent(first: seq<Row>, account: AccountId, o: Options)
    ensures Consistent(START, [], account, o) && Covers(START, [], first, account, o)
  {}

  /** Pagination agrees with a scan under growth: strictly increasing keys, nothing twice, nothing in
      range from before the first fetch missing once the iterator reports the end. */
  lemma PaginationUnderGrowth(tables: seq<seq<Row>>, account: AccountId, o: Options)
    requires Growing(tables) && tables != [] && o.pageSize >= 1
    ensures Ascending(Yielded(tables, account, o))
    ensures Next(After(tables[..|tables| - 1], account, o), tables[|tables| - 1], account, o).1.None? ==>
      forall r :: r in tables[0] && InRange(account, o, r) ==> r in Yielded(tables, account, o)
  {
    IteratorInvariant(tables, account, o);
    var s, seen := After(tables, account, o), Yielded(tables, account, o);
    assert forall i :: 0 <= i < |seen| ==> (seen + s.buffer)[i] == seen[i];
    var t := Ready(After(tables[..|tables| - 1], account, o), tables[|tables| - 1], account, o);
    if t.buffer == [] { assert seen + s.buffer == seen; }
  }

  // ---------- A table that stands still ----------

  /** Strictly ordered sequences with the same rows are the same. */
  lemma {:induction false} SortedIsUnique(a: seq<Row>, b: seq<Row>)
    requires Ascending(a) && Ascending(b) && forall r :: r in a <==> r in b
    ensures a == b
    decreases |a|
  {
    assert a != [] ==> a[0] in b;
    assert b != [] ==> b[0] in a;
    if a != [] {
      assert a[0] in b && b[0] in a;
      var i :| 0 <= i < |b| && b[i] == a[0];
      var j :| 0 <= j < |a| && a[j] == b[0];
      assert a[0] == b[0];
      assert a == [a[0]] + a[1..] && b == [b[0]] + b[1..];
      assert a[0] !in a[1..] && b[0] !in b[1..];
      forall r ensures r in a[1..] <==> r in b[1..] {
        assert r in a <==> r == a[0] || r in a[1..];
        assert r in b <==> r == b[0] || r in b[1..];
      }
      SortedIsUnique(a[1..], b[1..]);
    }
  }

  /** The cursor after the first m rows of the scan. */
  function CursorAt(all: seq<Row>, m: nat): Option<Cursor>
    requires m <= |all|
  {
    if m == 0 then None else Some(KeyOf(all[m - 1]))
  }

  /** Scanning from the cursor gives the rest of the full scan. */
  lemma ScanFromCursor(table: seq<Row>, account: AccountId, o: Options, m: nat)
    requires UniqueIds(table) && m <= |Scan(table, account, None, o)|
    ensures var all := Scan(table, account, None, o);
      Scan(table, account, CursorAt(all, m), o) == all[m..]
  {
    var all := Scan(table, account, None, o);
    ScanIsSorted(table, account, None, o);
    ScanIsSorted(table, account, CursorAt(all, m), o);
    hide Scan, InRange, UniqueIds;
    forall r ensures r in all[m..] <==> r in all && Past(CursorAt(all, m), r) {
      if r in all {
        var k :| 0 <= k < |all| && all[k] == r;
        if k >= m { assert all[m..][k - m] == r; }
      }
      if r in all[m..] {
        var j :| 0 <= j < |all[m..]| && all[m..][j] == r;
        assert all[m + j] == r;
      }
    }
    SortedIsUnique(Scan(table, account, CursorAt(all, m), o), all[m..]);
  }

  function Min(a: nat, b: nat): nat { if a < b then a else b }

  /** After k rows have been handed out of the n in `all`. */
  ghost predicate At(s: State, all: seq<Row>, p: nat, k: nat) {
    AtTotal(s, all, p, k, s.pagesFetched * p)
  }

  /** The same with the number of rows asked for so far spelled out. */
  ghost predicate AtTotal(s: State, all: seq<Row>, p: nat, k: nat, total: nat) {
    var fetched := Min(total, |all|);
    && k <= fetched && s.buffer == all[k..fetched] && s.cursor == CursorAt(all, fetched)
    && s.exhausted == (total > |all|)
    && (s.pagesFetched > 0 ==> total - p <= |all|)
    && (s.pagesFetched == 0 ==> total == 0)
  }

  lemma PageAt(table: seq<Row>, account: AccountId, o: Options, m: nat)
    requires UniqueIds(table) && m <= |Scan(table, account, None, o)|
    ensures var all := Scan(table, account, None, o);
      FetchPage(table, account, CursorAt(all, m), o) == all[m..Min(m + o.pageSize, |all|)]
  {
    ScanFromCursor(table, account, o, m);
    hide Scan;
    var all := Scan(table, account, None, o);
    assert Take(all[m..], o.pageSize) == all[m..Min(m + o.pageSize, |all|)];
  }

  lemma LoadedAt(s: State, table: seq<Row>, account: AccountId, o: Options, k: nat)
    requires UniqueIds(table) && o.pageSize >= 1 && s.buffer == [] && !s.exhausted
    requires At(s, Scan(table, account, None, o), o.pageSize, k)
    ensures At(Loaded(s, table, account, o), Scan(table, account, None, o), o.pageSize, k)
  {
    hide Scan, FetchPage, UniqueIds;
    var all, p := Scan(table, account, None, o), o.pageSize;
    var m := s.pagesFetched * p;
    assert (s.pagesFetched + 1) * p == m + p;
    assert AtTotal(s, all, p, k, m);
    assert m <= |all| && k == m;
    PageAt(table, account, o, m);
    PageTaken(s, all, p, m);
  }

  lemma PageTaken(s: State, all: seq<Row>, p: nat, m: nat)
    requires p >= 1 && m <= |all| && s.cursor == CursorAt(all, m) && !s.exhausted
    ensures var page := all[m..Min(m + p, |all|)];
      AtTotal(State(page, if page == [] then s.cursor else Some(KeyOf(page[|page| - 1])), |page| < p, s.pagesFetched + 1),
              all, p, m, m + p)
  {}

  /** One call hands out the next row of the scan, or ends after floor(n / pageSize) + 1 fetches. */
  lemma NextAt(s: State, table: seq<Row>, account: AccountId, o: Options, k: nat)
    requires UniqueIds(table) && o.pageSize >= 1 && k <= |Scan(table, account, None, o)|
    requires At(s, Scan(table, account, None, o), o.pageSize, k)
    ensures var all := Scan(table, account, None, o);
      var (s', r) := Next(s, table, account, o);
      && (k < |all| ==> r == Some(all[k]) && At(s', all, o.pageSize, k + 1))
      && (k == |all| ==> r == None && s'.pagesFetched == |all| / o.pageSize + 1)
  {
    var all, p := Scan(table, account, None, o), o.pageSize;
    var t := Ready(s, table, account, o);
    if s.buffer == [] && !s.exhausted { LoadedAt(s, table, account, o, k); }
    hide Scan, Loaded;
    assert At(t, all, p, k);
    assert AtTotal(t, all, p, k, t.pagesFetched * p);
    if k == |all| {
      QuotientOf(|all|, p, t.pagesFetched);
    }
  }

  lemma NextMultiple(a: int, b: int, p: nat)
    ensures a > b ==> a * p >= b * p + p
  {
    if a > b {
      var d := a - b - 1;
      assert d * p >= 0;
      assert a * p == (b + 1 + d) * p == b * p + p + d * p;
    }
  }

  lemma QuotientOf(n: nat, p: nat, q: nat)
    requires p >= 1 && q >= 1 && q * p - p <= n < q * p
    ensures n / p == q - 1
  {
    var c := n / p;
    assert n == c * p + n % p;
    NextMultiple(c, q - 1, p);
    NextMultiple(q - 1, c, p);
    assert q * p == (q - 1) * p + p;
  }

  lemma {:induction false} CallsAt(table: seq<Row>, account: AccountId, o: Options, k: nat)
    requires UniqueIds(table) && o.pageSize >= 1 && k <= |Scan(table, account, None, o)|
    ensures var calls, all := seq(k, _ => table), Scan(table, account, None, o);
      At(After(calls, account, o), all, o.pageSize, k) && Yielded(calls, account, o) == all[..k]
  {
    hide Scan, Next;
    var all := Scan(table, account, None, o);
    if k == 0 {
      assert all[..0] == [] && At(START, all, o.pageSize, 0);
    } else {
      var calls := seq(k, _ => table);
      assert calls[..k - 1] == seq(k - 1, _ => table);
      CallsAt(table, account, o, k - 1);
      NextAt(After(calls[..k - 1], account, o), table, account, o, k - 1);
      assert all[..k - 1] + [all[k - 1]] == all[..k];
    }
  }

  /** On a table that does not change, iterating to the end yields exactly the sorted, filtered scan,
      and takes floor(n / pageSize) + 1 fetches for n rows. */
  lemma FixedTableAgreesWithScan(table: seq<Row>, account: AccountId, o: Options)
    requires UniqueIds(table) && o.pageSize >= 1
    ensures var all := Scan(table, account, None, o);
      var calls := seq(|all| + 1, _ => table);
      && Yielded(calls, account, o) == all
      && Next(After(calls[..|all|], account, o), table, account, o).1 == None
      && After(calls, account, o).pagesFetched == |all| / o.pageSize + 1
  {
    hide Scan, Next;
    var all := Scan(table, account, None, o);
    var calls := seq(|all| + 1, _ => table);
    assert calls[..|all|] == seq(|all|, _ => table);
    CallsAt(table, account, o, |all|);
    NextAt(After(calls[..|all|], account, o), table, account, o, |all|);
    assert all[..|all|] == all && calls[..|calls| - 1] == calls[..|all|];
  }
}
