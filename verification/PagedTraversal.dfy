/**
 * Following cursors across concurrent commits: the concatenated pages are the
 * sorted rows of the first page's snapshot.
 */
module PagedTraversal {
  import opened Wrappers
  import opened Seqs
  import opened Triples
  import opened RowTable
  import opened Pagination

  // ---- The executor's contract --------------------------------------------

  /** Datalog answers over a fact set: each projected row once. */
  type Datalog = (LogicalQuery, seq<Triple>) -> seq<Pagination.Row>

  ghost predicate DistinctKeys(order: seq<OrderSpec>, rows: seq<Pagination.Row>) {
    forall i, j :: 0 <= i < j < |rows| ==> KeyOf(order, rows[i]) != KeyOf(order, rows[j])
  }

  ghost predicate Tells(rows: seq<Pagination.Row>, i: nat, j: nat, variable: string)
    requires i < |rows| && j < |rows|
  {
    ValueOf(rows[i], variable) != ValueOf(rows[j], variable)
  }

  ghost predicate ToldApart(inner: Inner, rows: seq<Pagination.Row>, i: nat, j: nat)
    requires i < |rows| && j < |rows|
  {
    exists v {:trigger Tells(rows, i, j, v)} :: v in Projected(inner) && Tells(rows, i, j, v)
  }

  /** No two answers agree on every projected variable. */
  ghost predicate SetValued(datalog: Datalog) {
    forall query: LogicalQuery, facts: seq<Triple>, i: nat, j: nat
      {:trigger ToldApart(query.inner, datalog(query, facts), i, j)} :: i < j < |datalog(query, facts)| ==>
      ToldApart(query.inner, datalog(query, facts), i, j)
  }

  /** Under a completed ordering, set-valued answers have distinct keys. */
  lemma CompleteKeysAreDistinct(datalog: Datalog, query: LogicalQuery, facts: seq<Triple>)
    requires SetValued(datalog)
    requires forall v :: v in Projected(query.inner) ==> v in Variables(query.orderBy)
    ensures DistinctKeys(query.orderBy, datalog(query, facts))
  {
    var rows, order := datalog(query, facts), query.orderBy;
    forall i, j | 0 <= i < j < |rows| ensures KeyOf(order, rows[i]) != KeyOf(order, rows[j]) {
      assert ToldApart(query.inner, rows, i, j);
      var v :| v in Projected(query.inner) && Tells(rows, i, j, v);
      var k :| 0 <= k < |order| && Variables(order)[k] == v;
      assert KeyOf(order, rows[i])[k] == ValueOf(rows[i], v);
      assert KeyOf(order, rows[j])[k] == ValueOf(rows[j], v);
    }
  }

  function InsertRow(order: seq<OrderSpec>, row: Pagination.Row, sorted: seq<Pagination.Row>): seq<Pagination.Row> {
    if sorted == [] || KeyPrecedes(order, KeyOf(order, row), KeyOf(order, sorted[0])) then [row] + sorted
    else [sorted[0]] + InsertRow(order, row, sorted[1..])
  }

  function SortRows(order: seq<OrderSpec>, rows: seq<Pagination.Row>): seq<Pagination.Row> {
    if rows == [] then [] else InsertRow(order, rows[|rows| - 1], SortRows(order, rows[..|rows| - 1]))
  }

  function Beyond(order: seq<OrderSpec>, cursor: seq<Value>): Pagination.Row -> bool
    requires |cursor| == |order|
  {
    (row: Pagination.Row) => KeyPrecedes(order, cursor, KeyOf(order, row))
  }

  /** Sort, keep the rows beyond the cursor, cut to the limit. */
  function Execute(prepared: Prepared, answers: seq<Pagination.Row>): seq<Pagination.Row>
    requires prepared.cursorValues.Some? ==> |prepared.cursorValues.value| == |prepared.orderBy|
  {
    var sorted := SortRows(prepared.orderBy, answers);
    UpTo(if prepared.cursorValues.None? || prepared.orderBy == [] then sorted
         else Filter(Beyond(prepared.orderBy, prepared.cursorValues.value), sorted), prepared.fetch)
  }

  function ReadBasis(basis: FullBasis): Basis
    requires basis.recordedPosition >= 0
  {
    Basis(Some(basis.recordedAt), Some(basis.recordedPosition), basis.validAt)
  }

  /** One page request against the table as it stands. */
  function QueryPage(datalog: Datalog, table: Table, query: WrappedQuery, basis: Option<TemporalBasis>, now: int,
                     scope: string)
    : Result<Page, PagingError>
    requires query.logical.limit.Some? ==> query.logical.limit.value >= 1
  {
    var prepared := PreparePagination(Request(query, basis, now, table.position, scope));
    if prepared.Err? then Err(prepared.error)
    else
      PreparedIsUsable(Request(query, basis, now, table.position, scope));
      var p := prepared.value;
      Ok(FinishPagination(p, Execute(p, datalog(p.logical, Read(table.rows, ReadBasis(p.basis))))))
  }

  lemma PreparedIsUsable(request: Request)
    requires PreparePagination(request).Ok?
    ensures var p := PreparePagination(request).value;
      && (p.cursorValues.Some? ==> |p.cursorValues.value| == |p.orderBy|)
      && p.basis.recordedPosition >= 0 && p.pageSize == request.query.logical.limit && p.orderBy == p.logical.orderBy
  {
  }

  // ---- Sorting ------------------------------------------------------------

  ghost predicate Ascending(order: seq<OrderSpec>, rows: seq<Pagination.Row>) {
    forall i, j :: 0 <= i < j < |rows| ==> KeyPrecedes(order, KeyOf(order, rows[i]), KeyOf(order, rows[j]))
  }

  lemma {:induction false} InsertRowAdds(order: seq<OrderSpec>, row: Pagination.Row, sorted: seq<Pagination.Row>)
    ensures multiset(InsertRow(order, row, sorted)) == multiset(sorted) + multiset{row}
  {
    if sorted != [] && !KeyPrecedes(order, KeyOf(order, row), KeyOf(order, sorted[0])) {
      InsertRowAdds(order, row, sorted[1..]);
      assert sorted == [sorted[0]] + sorted[1..];
    }
  }

  ghost predicate Below(order: seq<OrderSpec>, row: Pagination.Row, rows: seq<Pagination.Row>) {
    forall r :: r in rows ==> KeyPrecedes(order, KeyOf(order, row), KeyOf(order, r))
  }

  lemma AscendingCons(order: seq<OrderSpec>, row: Pagination.Row, rest: seq<Pagination.Row>)
    requires Ascending(order, rest) && Below(order, row, rest)
    ensures Ascending(order, [row] + rest)
  {
  }

  lemma {:induction false} InsertRowSorts(order: seq<OrderSpec>, row: Pagination.Row, sorted: seq<Pagination.Row>)
    requires Ascending(order, sorted)
    requires forall r :: r in sorted ==> KeyOf(order, r) != KeyOf(order, row)
    ensures Ascending(order, InsertRow(order, row, sorted))
  {
    if sorted == [] {
    } else if KeyPrecedes(order, KeyOf(order, row), KeyOf(order, sorted[0])) {
      forall j | 0 < j < |sorted| ensures KeyPrecedes(order, KeyOf(order, row), KeyOf(order, sorted[j])) {
        KeyTransitivity(order, KeyOf(order, row), KeyOf(order, sorted[0]), KeyOf(order, sorted[j]));
      }
      AscendingCons(order, row, sorted);
    } else {
      var rest := InsertRow(order, row, sorted[1..]);
      InsertRowSorts(order, row, sorted[1..]);
      InsertRowAdds(order, row, sorted[1..]);
      KeyTrichotomy(order, KeyOf(order, row), KeyOf(order, sorted[0]));
      forall r | r in rest ensures KeyPrecedes(order, KeyOf(order, sorted[0]), KeyOf(order, r)) {
        assert r in multiset(rest);
        assert r == row || r in sorted[1..];
      }
      AscendingCons(order, sorted[0], rest);
    }
  }

  /** Sorting rows with distinct keys yields a strictly ascending permutation. */
  lemma {:induction false} SortRowsSorts(order: seq<OrderSpec>, rows: seq<Pagination.Row>)
    requires DistinctKeys(order, rows)
    ensures Ascending(order, SortRows(order, rows)) && multiset(SortRows(order, rows)) == multiset(rows)
  {
    if rows != [] {
      var init, last := rows[..|rows| - 1], rows[|rows| - 1];
      assert rows == init + [last];
      SortRowsSorts(order, init);
      forall r | r in SortRows(order, init) ensures KeyOf(order, r) != KeyOf(order, last) {
        assert r in multiset(init);
        var i :| 0 <= i < |init| && init[i] == r;
      }
      InsertRowSorts(order, last, SortRows(order, init));
      InsertRowAdds(order, last, SortRows(order, init));
    }
  }

  /** The rows beyond the key of the m-th row are exactly those after it. */
  lemma CursorSplits(order: seq<OrderSpec>, sorted: seq<Pagination.Row>, m: nat)
    requires Ascending(order, sorted) && 0 < m <= |sorted|
    ensures Filter(Beyond(order, KeyOf(order, sorted[m - 1])), sorted) == sorted[m..]
  {
    var cursor := KeyOf(order, sorted[m - 1]);
    var beyond := Beyond(order, cursor);
    forall i | 0 <= i < m ensures !beyond(sorted[i]) {
      KeyTrichotomy(order, cursor, KeyOf(order, sorted[i]));
    }
    assert sorted == sorted[..m] + sorted[m..];
    FilterConcat(beyond, sorted[..m], sorted[m..]);
    FilterNone(beyond, sorted[..m]);
    FilterAll(beyond, sorted[m..]);
  }

  // ---- One page -----------------------------------------------------------

  /** What stays fixed over a traversal. */
  datatype Session = Session(logical: LogicalQuery, limit: nat, basis: FullBasis, scope: string)

  function CursorAfter(session: Session, row: Pagination.Row): Cursor {
    Encoded(Envelope(1, HashQuery(session.logical, session.basis), HashScope(session.scope), session.basis,
                     KeyOf(session.logical.orderBy, row)))
  }

  /** The page that starts after m rows. */
  function PageFrom(session: Session, sorted: seq<Pagination.Row>, m: nat): Page
    requires m <= |sorted| && session.limit >= 1
  {
    if m + session.limit >= |sorted| then Page(sorted[m..], None)
    else Page(sorted[m..m + session.limit], Some(CursorAfter(session, sorted[m + session.limit - 1])))
  }

  /** The sorted answers of the session's query over what a table reads at the session's cut. */
  ghost function SnapshotRows(datalog: Datalog, table: Table, session: Session): seq<Pagination.Row>
    requires session.basis.recordedPosition >= 0
  {
    SortRows(session.logical.orderBy, datalog(session.logical, Read(table.rows, ReadBasis(session.basis))))
  }

  /** The session a request opens or continues. */
  ghost predicate Opens(session: Session, query: LogicalQuery) {
    && Normalized(query).Ok? && session.logical == query.(orderBy := Normalized(query).value)
    && query.limit == Some(session.limit) && session.limit >= 1
    && session.basis.recordedAt >= 0 && session.basis.validAt >= 0 && SafePosition(session.basis.recordedPosition)
  }

  /** An open session orders by exactly its projected variables, and by at least one. */
  lemma OpenSessionsAreComplete(session: Session, query: LogicalQuery)
    requires Opens(session, query)
    ensures session.logical.orderBy != []
    ensures forall v :: v in Projected(session.logical.inner) ==> v in Variables(session.logical.orderBy)
  {
    OrderingIsComplete(query);
  }

  /** The snapshot lists every answer once, in strictly ascending order of the complete key. */
  lemma SnapshotListsEveryAnswerOnce(datalog: Datalog, table: Table, session: Session)
    requires SetValued(datalog) && session.basis.recordedPosition >= 0
    requires forall v :: v in Projected(session.logical.inner) ==> v in Variables(session.logical.orderBy)
    ensures Ascending(session.logical.orderBy, SnapshotRows(datalog, table, session))
    ensures multiset(SnapshotRows(datalog, table, session))
      == multiset(datalog(session.logical, Read(table.rows, ReadBasis(session.basis))))
  {
    var facts := Read(table.rows, ReadBasis(session.basis));
    CompleteKeysAreDistinct(datalog, session.logical, facts);
    SortRowsSorts(session.logical.orderBy, datalog(session.logical, facts));
  }

  lemma FinishIsPageFrom(session: Session, prepared: Prepared, sorted: seq<Pagination.Row>, m: nat)
    requires m <= |sorted| && session.limit >= 1
    requires prepared.pageSize == Some(session.limit) && prepared.fetch == Some(session.limit + 1)
    requires prepared.orderBy == session.logical.orderBy && prepared.basis == session.basis
    requires prepared.queryFingerprint == HashQuery(session.logical, session.basis)
    requires prepared.scopeFingerprint == HashScope(session.scope)
    ensures FinishPagination(prepared, UpTo(sorted[m..], prepared.fetch)) == PageFrom(session, sorted, m)
  {
    var fetched := UpTo(sorted[m..], prepared.fetch);
    if m + session.limit < |sorted| {
      assert fetched[..session.limit] == sorted[m..m + session.limit];
      assert sorted[m..m + session.limit][session.limit - 1] == sorted[m + session.limit - 1];
    } else {
      assert fetched == sorted[m..];
    }
  }

  /** A request without a cursor is prepared for the session it opens. */
  lemma FirstRequestOpens(query: LogicalQuery, basis: Option<TemporalBasis>, now: int, position: int, scope: string,
                          session: Session)
    requires query.limit.Some? && query.limit.value >= 1
    requires PreparePagination(Request(WrappedQuery(query, None), basis, now, position, scope)).Ok?
    requires var p := PreparePagination(Request(WrappedQuery(query, None), basis, now, position, scope)).value;
      session == Session(p.logical, query.limit.value, p.basis, scope)
    ensures Opens(session, query) && session.basis.recordedPosition == position
    ensures PreparePagination(Request(WrappedQuery(query, None), basis, now, position, scope)).value
      == Prepared(session.logical, Some(session.limit + 1), session.basis, session.logical.orderBy, None,
                  HashQuery(session.logical, session.basis), HashScope(scope), Some(session.limit))
  {
  }

  /** The first page opens a session at the current commit position and holds the first rows. */
  lemma FirstPage(datalog: Datalog, table: Table, query: LogicalQuery, basis: Option<TemporalBasis>, now: int,
                  scope: string, session: Session)
    requires SetValued(datalog) && query.limit.Some? && query.limit.value >= 1
    requires PreparePagination(Request(WrappedQuery(query, None), basis, now, table.position, scope)).Ok?
    requires var p := PreparePagination(Request(WrappedQuery(query, None), basis, now, table.position, scope)).value;
      session == Session(p.logical, query.limit.value, p.basis, scope)
    ensures Opens(session, query) && session.basis.recordedPosition == table.position
    ensures QueryPage(datalog, table, WrappedQuery(query, None), basis, now, scope)
      == Ok(PageFrom(session, SnapshotRows(datalog, table, session), 0))
  {
    var p := PreparePagination(Request(WrappedQuery(query, None), basis, now, table.position, scope)).value;
    var sorted := SnapshotRows(datalog, table, session);
    FirstRequestOpens(query, basis, now, table.position, scope, session);
    assert sorted[0..] == sorted;
    FinishIsPageFrom(session, p, sorted, 0);
  }

  /** Resubmitting a session's own cursor is accepted, at any clock and any later position. */
  lemma ResubmissionIsAccepted(query: LogicalQuery, now: int, position: int, session: Session, row: Pagination.Row)
    requires Opens(session, query) && SafePosition(position)
    ensures PreparePagination(Request(WrappedQuery(query, Some(CursorAfter(session, row))), None, now, position,
      session.scope))
      == Ok(Prepared(session.logical, Some(session.limit + 1), session.basis, session.logical.orderBy,
                     Some(KeyOf(session.logical.orderBy, row)),
                     HashQuery(session.logical, session.basis), HashScope(session.scope), Some(session.limit)))
  {
  }

  /**
   * A cursor resubmitted against a table that still reads the same facts at the session's cut
   * continues the session.
   */
  lemma NextPage(datalog: Datalog, table: Table, query: LogicalQuery, now: int, session: Session,
                 sorted: seq<Pagination.Row>, m: nat)
    requires SetValued(datalog) && Opens(session, query) && SafePosition(table.position)
    requires sorted == SnapshotRows(datalog, table, session) && 0 < m <= |sorted|
    ensures QueryPage(datalog, table, WrappedQuery(query, Some(CursorAfter(session, sorted[m - 1]))), None, now,
      session.scope)
      == Ok(PageFrom(session, sorted, m))
  {
    var order := session.logical.orderBy;
    ResubmissionIsAccepted(query, now, table.position, session, sorted[m - 1]);
    OpenSessionsAreComplete(session, query);
    SnapshotListsEveryAnswerOnce(datalog, table, session);
    CursorSplits(order, sorted, m);
    var request := Request(WrappedQuery(query, Some(CursorAfter(session, sorted[m - 1]))), None, now, table.position,
      session.scope);
    FinishIsPageFrom(session, PreparePagination(request).value, sorted, m);
  }

  // ---- The traversal ------------------------------------------------------

  /** The table when the i-th page is requested, after the commits in between. */
  function TableAt(table: Table, between: seq<seq<Commit>>, i: nat): Table
    requires i <= |between|
  {
    if i == 0 then table else CommitAll(TableAt(table, between, i - 1), between[i - 1])
  }

  lemma {:induction false} CutStaysReadable(table: Table, between: seq<seq<Commit>>, i: nat, basis: Basis)
    requires Valid(table) && i <= |between| && basis.recordedPosition == Some(table.position)
    ensures Valid(TableAt(table, between, i)) && TableAt(table, between, i).position >= table.position
    ensures Read(TableAt(table, between, i).rows, basis) == Read(table.rows, basis)
  {
    if i > 0 {
      CutStaysReadable(table, between, i - 1, basis);
      var previous := TableAt(table, between, i - 1);
      RunsKeepValid(previous, between[i - 1]);
      ReadsAreStable(previous, between[i - 1], basis);
    }
  }

  function Rows(pages: seq<Page>): seq<Pagination.Row> {
    if pages == [] then [] else Rows(pages[..|pages| - 1]) + pages[|pages| - 1].results
  }

  datatype Traversal = Traversal(
    query: LogicalQuery,
    basis: Option<TemporalBasis>,
    scope: string,
    nows: seq<int>,
    between: seq<seq<Commit>>,
    pages: seq<Page>)

  /** Page 0 opens; every later page resubmits the query with the previous cursor, at a later table and clock. */
  ghost predicate Follows(datalog: Datalog, table: Table, t: Traversal) {
    && t.query.limit.Some? && t.query.limit.value >= 1
    && |t.pages| >= 1 && |t.nows| == |t.pages| == |t.between| + 1
    && QueryPage(datalog, table, WrappedQuery(t.query, None), t.basis, t.nows[0], t.scope) == Ok(t.pages[0])
    && forall i: nat {:trigger Resubmits(datalog, table, t, i)} :: 0 < i < |t.pages| ==> Resubmits(datalog, table, t, i)
  }

  ghost predicate Resubmits(datalog: Datalog, table: Table, t: Traversal, i: nat)
    requires t.query.limit.Some? && t.query.limit.value >= 1
    requires 0 < i < |t.pages| && |t.nows| == |t.pages| == |t.between| + 1
  {
    && SafePosition(TableAt(table, t.between, i).position)
    && t.pages[i - 1].nextCursor.Some?
    && QueryPage(datalog, TableAt(table, t.between, i), WrappedQuery(t.query, t.pages[i - 1].nextCursor), None,
      t.nows[i], t.scope)
         == Ok(t.pages[i])
  }

  /** The session and the sorted snapshot of a traversal's first page. */
  ghost function SessionOf(table: Table, t: Traversal): Session
    requires t.query.limit.Some? && |t.nows| > 0
    requires PreparePagination(Request(WrappedQuery(t.query, None), t.basis, t.nows[0], table.position, t.scope)).Ok?
  {
    var p := PreparePagination(Request(WrappedQuery(t.query, None), t.basis, t.nows[0], table.position, t.scope)).value;
    Session(p.logical, t.query.limit.value, p.basis, t.scope)
  }

  /**
   * The rows so far are a first part of the snapshot, all of it exactly when no cursor is left; a
   * cursor points at the last of them.
   */
  ghost predicate Reached(session: Session, sorted: seq<Pagination.Row>, rows: seq<Pagination.Row>,
                          cursor: Option<Cursor>) {
    && rows <= sorted && (cursor.None? <==> rows == sorted)
    && (cursor.Some? ==> rows != [] && cursor.value == CursorAfter(session, rows[|rows| - 1]))
  }

  lemma PageExtends(session: Session, sorted: seq<Pagination.Row>, rows: seq<Pagination.Row>, page: Page)
    requires session.limit >= 1 && rows <= sorted && page == PageFrom(session, sorted, |rows|)
    ensures Reached(session, sorted, rows + page.results, page.nextCursor)
    ensures |rows| < |sorted| ==> page.results != []
  {
    var all, m := rows + page.results, |rows|;
    if m + session.limit >= |sorted| {
      assert all == sorted;
    } else {
      assert all == sorted[..m + session.limit];
    }
  }

  lemma SnapshotStays(datalog: Datalog, table: Table, between: seq<seq<Commit>>, i: nat, session: Session)
    requires Valid(table) && i <= |between| && session.basis.recordedPosition == table.position
    ensures SnapshotRows(datalog, TableAt(table, between, i), session) == SnapshotRows(datalog, table, session)
  {
    CutStaysReadable(table, between, i, ReadBasis(session.basis));
  }

  lemma CursorIsAnswered(datalog: Datalog, later: Table, query: LogicalQuery, cursor: Cursor, now: int,
                         session: Session,
                         sorted: seq<Pagination.Row>, rows: seq<Pagination.Row>)
    requires SetValued(datalog) && Opens(session, query) && SafePosition(later.position)
    requires sorted == SnapshotRows(datalog, later, session) && Reached(session, sorted, rows, Some(cursor))
    ensures |rows| < |sorted|
    ensures QueryPage(datalog, later, WrappedQuery(query, Some(cursor)), None, now, session.scope)
      == Ok(PageFrom(session, sorted, |rows|))
  {
    assert rows[|rows| - 1] == sorted[|rows| - 1];
    NextPage(datalog, later, query, now, session, sorted, |rows|);
  }

  /** A resubmitted cursor gets the page that starts after the rows it has reached. */
  lemma ResubmissionContinues(datalog: Datalog, table: Table, t: Traversal, session: Session,
                              sorted: seq<Pagination.Row>,
                              rows: seq<Pagination.Row>, i: nat)
    requires SetValued(datalog) && Valid(table) && t.query.limit.Some? && t.query.limit.value >= 1
    requires 0 < i < |t.pages| && |t.nows| == |t.pages| == |t.between| + 1 && Resubmits(datalog, table, t, i)
    requires Opens(session, t.query) && session.basis.recordedPosition == table.position && session.scope == t.scope
    requires sorted == SnapshotRows(datalog, table, session)
    requires Reached(session, sorted, rows, t.pages[i - 1].nextCursor)
    ensures |rows| < |sorted| && t.pages[i] == PageFrom(session, sorted, |rows|)
  {
    SnapshotStays(datalog, table, t.between, i, session);
    CursorIsAnswered(datalog, TableAt(table, t.between, i), t.query, t.pages[i - 1].nextCursor.value, t.nows[i],
                     session, sorted, rows);
  }

  lemma RowsSnoc(pages: seq<Page>, k: nat)
    requires k < |pages|
    ensures Rows(pages[..k + 1]) == Rows(pages[..k]) + pages[k].results
  {
    assert pages[..k + 1][..k] == pages[..k];
  }

  lemma {:induction false} PagesReach(datalog: Datalog, table: Table, t: Traversal, session: Session,
                                      sorted: seq<Pagination.Row>, k: nat)
    requires SetValued(datalog) && Valid(table) && Follows(datalog, table, t) && 1 <= k <= |t.pages|
    requires Opens(session, t.query) && session.basis.recordedPosition == table.position && session.scope == t.scope
    requires sorted == SnapshotRows(datalog, table, session) && t.pages[0] == PageFrom(session, sorted, 0)
    ensures Reached(session, sorted, Rows(t.pages[..k]), t.pages[k - 1].nextCursor)
    ensures k == 1 || |Rows(t.pages[..k])| >= k
  {
    var before := Rows(t.pages[..k - 1]);
    RowsSnoc(t.pages, k - 1);
    if k == 1 {
      assert before == [];
    } else {
      PagesReach(datalog, table, t, session, sorted, k - 1);
      assert Resubmits(datalog, table, t, k - 1);
      ResubmissionContinues(datalog, table, t, session, sorted, before, k - 1);
    }
    PageExtends(session, sorted, before, t.pages[k - 1]);
  }

  lemma FirstPageOpens(datalog: Datalog, table: Table, t: Traversal)
    requires SetValued(datalog) && Follows(datalog, table, t)
    requires PreparePagination(Request(WrappedQuery(t.query, None), t.basis, t.nows[0], table.position, t.scope)).Ok?
    ensures var session := SessionOf(table, t);
      && Opens(session, t.query) && session.basis.recordedPosition == table.position
      && t.pages[0] == PageFrom(session, SnapshotRows(datalog, table, session), 0)
      && Ascending(session.logical.orderBy, SnapshotRows(datalog, table, session))
      && multiset(SnapshotRows(datalog, table, session))
           == multiset(datalog(session.logical, Read(table.rows, ReadBasis(session.basis))))
  {
    var session := SessionOf(table, t);
    FirstPage(datalog, table, t.query, t.basis, t.nows[0], t.scope, session);
    OpenSessionsAreComplete(session, t.query);
    SnapshotListsEveryAnswerOnce(datalog, table, session);
  }

  /**
   * However many transactions commit between pages, a traversal that has run out
   * of cursors has returned exactly the sorted rows of the first page's
   * snapshot, each once; and no traversal is longer than the snapshot.
   */
  lemma TraversalIsTheSnapshot(datalog: Datalog, table: Table, t: Traversal)
    requires SetValued(datalog) && Valid(table) && Follows(datalog, table, t)
    requires PreparePagination(Request(WrappedQuery(t.query, None), t.basis, t.nows[0], table.position, t.scope)).Ok?
    ensures var session := SessionOf(table, t);
      && session.basis.recordedPosition == table.position
      && var sorted := SnapshotRows(datalog, table, session);
         && Ascending(session.logical.orderBy, sorted)
         && multiset(sorted) == multiset(datalog(session.logical, Read(table.rows, ReadBasis(session.basis))))
         && Rows(t.pages) <= sorted
         && (t.pages[|t.pages| - 1].nextCursor.None? <==> Rows(t.pages) == sorted)
         && (|t.pages| == 1 || |t.pages| <= |sorted|)
  {
    var session := SessionOf(table, t);
    FirstPageOpens(datalog, table, t);
    PagesReach(datalog, table, t, session, SnapshotRows(datalog, table, session), |t.pages|);
    assert t.pages[..|t.pages|] == t.pages;
  }

  // ---- Resubmitting an explicit basis -------------------------------------

  /** Does a basis sent with a cursor, read at the clock, name the cut the cursor was made at? */
  predicate Names(basis: TemporalBasis, now: int, cut: FullBasis) {
    && now >= 0 && basis.recordedAt == Some(cut.recordedAt)
    && (if basis.validAt.Some? then basis.validAt.value else now) == cut.validAt
  }

  /** A basis is malformed when an instant it resolves from is negative. */
  predicate HasNegative(basis: TemporalBasis, now: int) {
    now < 0 || (basis.recordedAt.Some? && basis.recordedAt.value < 0)
      || (basis.validAt.Some? && basis.validAt.value < 0)
  }

  /** A cursor sent with an explicit basis continues the session exactly when the basis names the session's cut. */
  lemma ExplicitBasisContinuesIff(datalog: Datalog, later: Table, query: LogicalQuery, basis: TemporalBasis, now: int,
                                  session: Session, sorted: seq<Pagination.Row>, m: nat)
    requires SetValued(datalog) && Opens(session, query) && SafePosition(later.position)
    requires sorted == SnapshotRows(datalog, later, session) && 0 < m <= |sorted|
    ensures var cursor := Some(CursorAfter(session, sorted[m - 1]));
      QueryPage(datalog, later, WrappedQuery(query, cursor), Some(basis), now, session.scope)
        == if Names(basis, now, session.basis) then Ok(PageFrom(session, sorted, m))
           else Err(if HasNegative(basis, now) then Malformed else BasisMismatch)
  {
    var wrapped := WrappedQuery(query, Some(CursorAfter(session, sorted[m - 1])));
    var explicit := Request(wrapped, Some(basis), now, later.position, session.scope);
    if Names(basis, now, session.basis) {
      ResubmissionIsAccepted(query, now, later.position, session, sorted[m - 1]);
      assert PreparePagination(explicit) == PreparePagination(explicit.(basis := None));
      NextPage(datalog, later, query, now, session, sorted, m);
    }
  }

  lemma OpenedCut(query: LogicalQuery, basis: TemporalBasis, now: int, position: nat, scope: string)
    requires PreparePagination(Request(WrappedQuery(query, None), Some(basis), now, position, scope)).Ok?
    ensures PreparePagination(Request(WrappedQuery(query, None), Some(basis), now, position, scope)).value.basis
      == FullBasis(if basis.recordedAt.Some? then basis.recordedAt.value else now, position,
                   if basis.validAt.Some? then basis.validAt.value else now)
  {
  }

  /**
   * A traversal that sends the basis it opened with along with each cursor goes
   * on exactly when that basis gave the recorded instant, and gave the valid
   * instant too or the clock has not moved; otherwise its next page is refused.
   */
  lemma RepeatingTheBasisContinuesIff(datalog: Datalog, table: Table, commits: seq<Commit>, query: LogicalQuery,
                                      basis: TemporalBasis, start: int, now: int, scope: string, session: Session,
                                      m: nat)
    requires SetValued(datalog) && Valid(table) && query.limit.Some? && query.limit.value >= 1 && now >= 0
    requires PreparePagination(Request(WrappedQuery(query, None), Some(basis), start, table.position, scope)).Ok?
    requires var p := PreparePagination(Request(WrappedQuery(query, None), Some(basis), start, table.position,
      scope)).value;
      session == Session(p.logical, query.limit.value, p.basis, scope)
    requires 0 < m <= |SnapshotRows(datalog, table, session)| && SafePosition(CommitAll(table, commits).position)
    ensures var sorted := SnapshotRows(datalog, table, session);
      var cursor := Some(CursorAfter(session, sorted[m - 1]));
      QueryPage(datalog, CommitAll(table, commits), WrappedQuery(query, cursor), Some(basis), now, scope)
        == if basis.recordedAt.Some? && (basis.validAt.Some? || now == start) then Ok(PageFrom(session, sorted, m))
           else Err(BasisMismatch)
  {
    FirstPage(datalog, table, query, Some(basis), start, scope, session);
    OpenedCut(query, basis, start, table.position, scope);
    ReadsAreStable(table, commits, ReadBasis(session.basis));
    ExplicitBasisContinuesIff(datalog, CommitAll(table, commits), query, basis, now, session,
                              SnapshotRows(datalog, table, session), m);
  }

  /** Two answers of one variable, whatever the facts. */
  function TwoAnswers(inner: Inner): Datalog {
    (query: LogicalQuery, facts: seq<Triple>) =>
      if query.inner == inner then [map["?x" := Number(1)], map["?x" := Number(2)]] else []
  }

  const ASK_X := LogicalQuery(Inner(["?x"], [], [], ""), "", [], Some(1))

  lemma TwoAnswersAreSetValued(inner: Inner)
    requires "?x" in Projected(inner)
    ensures SetValued(TwoAnswers(inner))
  {
    var datalog := TwoAnswers(inner);
    forall query: LogicalQuery, facts: seq<Triple>, i: nat, j: nat | i < j < |datalog(query, facts)|
      ensures ToldApart(query.inner, datalog(query, facts), i, j)
    {
      assert query.inner == inner && i == 0 && j == 1;
      assert Tells(datalog(query, facts), i, j, "?x");
    }
  }

  lemma AskXIsNormalized()
    ensures Projected(ASK_X.inner) == ["?x"] && Normalized(ASK_X) == Ok([OrderSpec("?x", Asc)])
  {
    assert ["?x"] + [] + [] == ["?x"] && ["?x"][..0] == [];
    assert Completed([], ["?x"]) == [OrderSpec("?x", Asc)];
  }

  /** A page size of one, two answers, a valid instant and no recorded instant: the second page is refused. */
  lemma ValidInstantAloneIsRefused(start: nat, now: nat)
    ensures var datalog, basis := TwoAnswers(ASK_X.inner), Some(TemporalBasis(None, Some(5)));
      var first := QueryPage(datalog, EMPTY, WrappedQuery(ASK_X, None), basis, start, "");
      && first.Ok? && first.value.nextCursor.Some?
      && QueryPage(datalog, EMPTY, WrappedQuery(ASK_X, first.value.nextCursor), basis, now, "") == Err(BasisMismatch)
  {
    var datalog, basis := TwoAnswers(ASK_X.inner), TemporalBasis(None, Some(5));
    AskXIsNormalized();
    TwoAnswersAreSetValued(ASK_X.inner);
    var prepared := PreparePagination(Request(WrappedQuery(ASK_X, None), Some(basis), start, 0, ""));
    assert prepared.Ok?;
    var session := Session(prepared.value.logical, 1, prepared.value.basis, "");
    FirstPage(datalog, EMPTY, ASK_X, Some(basis), start, "", session);
    OpenSessionsAreComplete(session, ASK_X);
    SnapshotListsEveryAnswerOnce(datalog, EMPTY, session);
    assert |multiset(SnapshotRows(datalog, EMPTY, session))| == 2;
    assert CommitAll(EMPTY, []) == EMPTY;
    RepeatingTheBasisContinuesIff(datalog, EMPTY, [], ASK_X, basis, start, now, "", session, 1);
  }

  // ---- Asking for an earlier recorded instant ------------------------------

  /** The cut of a page is its commit position alone: a requested recorded instant does not move what it reads. */
  lemma PagesIgnoreTheRecordedInstant(table: Table, basis: FullBasis, recordedAt: int)
    requires basis.recordedPosition >= 0
    ensures Read(table.rows, ReadBasis(basis.(recordedAt := recordedAt))) == Read(table.rows, ReadBasis(basis))
  {
    FilterPointwise(VisibleIn(ReadBasis(basis.(recordedAt := recordedAt))), VisibleIn(ReadBasis(basis)), table.rows);
  }

  /**
   * The pages of a traversal show what was recorded as of the instant it opened
   * with exactly when no visible row was recorded or closed between that instant
   * and the opening; commits after the opening make no difference.
   */
  lemma PagesShowTheInstantIff(table: Table, commits: seq<Commit>, basis: FullBasis)
    requires Valid(table) && basis.recordedPosition == table.position
    ensures Read(CommitAll(table, commits).rows, ReadBasis(basis))
        == Read(table.rows, Basis(Some(basis.recordedAt), None, basis.validAt))
      <==> !exists row :: row in table.rows && VisibleAt(row.fact, basis.validAt) && MovedSince(row, basis.recordedAt)
  {
    ReadsAreStable(table, commits, ReadBasis(basis));
    HeadShowsTheInstantIff(table, basis.recordedAt, basis.validAt);
  }
}
