/**
 * The order in which pages list their rows, the ordering a query is completed
 * to, and the cursors a request accepts, in the caller's terms.
 */
module PageOrder {
  import opened Wrappers
  import opened RowTable
  import opened Pagination
  import opened PagedTraversal
  import Order

  // ---- Values ------------------------------------------------------------------

  /**
   * Numbers come before flags, flags before texts and texts before null, in both
   * directions; values of one kind ascend or descend.
   */
  ghost predicate ComesFirst(x: Value, y: Value, direction: Direction) {
    match (x, y)
    case (Number(a), Number(b)) => if direction == Asc then a < b else b < a
    case (Flag(a), Flag(b)) => if direction == Asc then !a && b else a && !b
    case (Text(a), Text(b)) => if direction == Asc then Order.IsBeforeText(a, b) else Order.IsBeforeText(b, a)
    case (Null, _) => false
    case (_, Null) => true
    case (Number(_), _) => true
    case (Flag(_), Text(_)) => true
    case _ => false
  }

  lemma PrecedingComesFirst(x: Value, y: Value, direction: Direction)
    ensures Precedes(x, y, direction) <==> ComesFirst(x, y, direction)
  {
    if x.Text? && y.Text? {
      Order.LessTextDiverges(x.text, y.text);
      Order.LessTextDiverges(y.text, x.text);
    }
  }

  // ---- Rows ---------------------------------------------------------------------

  /** What a row shows for a variable; null when it has none. */
  predicate Shows(row: Pagination.Row, variable: string, value: Value) {
    if variable in row then row[variable] == value else value == Null
  }

  ghost predicate ShowTheSame(a: Pagination.Row, b: Pagination.Row, variable: string) {
    exists value :: Shows(a, variable, value) && Shows(b, variable, value)
  }

  /** The k-th ordered variable is the first in which the rows differ, and there they show these values. */
  ghost predicate FirstDifference(order: seq<OrderSpec>, a: Pagination.Row, b: Pagination.Row, k: nat, x: Value,
                                  y: Value) {
    && k < |order| && x != y && Shows(a, order[k].variable, x) && Shows(b, order[k].variable, y)
    && forall i :: 0 <= i < k ==> ShowTheSame(a, b, order[i].variable)
  }

  /** In the first ordered variable in which the rows differ, the first row's value comes first. */
  ghost predicate IsListedBefore(order: seq<OrderSpec>, a: Pagination.Row, b: Pagination.Row) {
    exists k: nat, x, y {:trigger FirstDifference(order, a, b, k, x, y)} ::
      FirstDifference(order, a, b, k, x, y) && ComesFirst(x, y, order[k].direction)
  }

  lemma {:induction false} KeyDiffersFirst(order: seq<OrderSpec>, x: seq<Value>, y: seq<Value>) returns (k: nat)
    requires |x| == |order| == |y| && KeyPrecedes(order, x, y)
    ensures k < |order| && x[..k] == y[..k] && x[k] != y[k] && ComesFirst(x[k], y[k], order[k].direction)
  {
    if Precedes(x[0], y[0], order[0].direction) {
      k := 0;
      ValueTrichotomy(x[0], y[0], order[0].direction);
      PrecedingComesFirst(x[0], y[0], order[0].direction);
    } else {
      var later := KeyDiffersFirst(order[1..], x[1..], y[1..]);
      k := later + 1;
      assert x == [x[0]] + x[1..] && y == [y[0]] + y[1..];
      assert x[..k] == [x[0]] + x[1..][..later] && y[..k] == [y[0]] + y[1..][..later];
    }
  }

  lemma KeyPrecedingIsListedBefore(order: seq<OrderSpec>, a: Pagination.Row, b: Pagination.Row)
    requires KeyPrecedes(order, KeyOf(order, a), KeyOf(order, b))
    ensures IsListedBefore(order, a, b)
  {
    var x, y := KeyOf(order, a), KeyOf(order, b);
    var k := KeyDiffersFirst(order, x, y);
    forall i | 0 <= i < k ensures ShowTheSame(a, b, order[i].variable) {
      assert x[..k][i] == y[..k][i];
      assert Shows(a, order[i].variable, x[i]) && Shows(b, order[i].variable, y[i]);
    }
    assert FirstDifference(order, a, b, k, x[k], y[k]);
  }

  /** Sorted rows are listed in the order asked for. */
  lemma SortedRowsAreListed(order: seq<OrderSpec>, rows: seq<Pagination.Row>, i: nat, j: nat)
    requires DistinctKeys(order, rows) && i < j < |SortRows(order, rows)|
    ensures IsListedBefore(order, SortRows(order, rows)[i], SortRows(order, rows)[j])
  {
    SortRowsSorts(order, rows);
    KeyPrecedingIsListedBefore(order, SortRows(order, rows)[i], SortRows(order, rows)[j]);
  }

  /** And so are the rows of the pages of a traversal, one page after another, whatever commits in between. */
  lemma PagedRowsAreListed(datalog: Datalog, table: Table, t: Traversal, i: nat, j: nat)
    requires SetValued(datalog) && Valid(table) && Follows(datalog, table, t)
    requires PreparePagination(Request(WrappedQuery(t.query, None), t.basis, t.nows[0], table.position, t.scope)).Ok?
    requires i < j < |Rows(t.pages)|
    ensures IsListedBefore(SessionOf(table, t).logical.orderBy, Rows(t.pages)[i], Rows(t.pages)[j])
  {
    TraversalIsTheSnapshot(datalog, table, t);
    var sorted := SnapshotRows(datalog, table, SessionOf(table, t));
    assert Rows(t.pages)[i] == sorted[i] && Rows(t.pages)[j] == sorted[j];
    KeyPrecedingIsListedBefore(SessionOf(table, t).logical.orderBy, sorted[i], sorted[j]);
  }

  // ---- The ordering of a request --------------------------------------------------

  /** The place where the caller first orders by the variable. */
  ghost predicate OrderedAt(order: seq<OrderSpec>, j: nat, variable: string) {
    j < |order| && order[j].variable == variable && forall i :: 0 <= i < j ==> order[i].variable != variable
  }

  /** The place where the variable first appears among the terms. */
  ghost predicate AppearsAt(terms: seq<string>, j: nat, variable: string) {
    j < |terms| && terms[j] == variable && forall i :: 0 <= i < j ==> terms[i] != variable
  }

  ghost predicate Orders(order: seq<OrderSpec>, variable: string) {
    exists j {:trigger order[j]} :: 0 <= j < |order| && order[j].variable == variable
  }

  lemma {:induction false} FirstOrdered(order: seq<OrderSpec>, variable: string) returns (j: nat)
    requires Orders(order, variable)
    ensures OrderedAt(order, j, variable)
  {
    var init := order[..|order| - 1];
    if Orders(init, variable) {
      j := FirstOrdered(init, variable);
    } else {
      j := |order| - 1;
      assert forall i :: 0 <= i < j ==> init[i] == order[i];
    }
  }

  /** Where a spec of the caller's was first given. */
  ghost predicate GivenInTurn(order: seq<OrderSpec>, kept: seq<OrderSpec>) {
    && (forall k, j: nat {:trigger OrderedAt(order, j, kept[k].variable)} ::
          0 <= k < |kept| && OrderedAt(order, j, kept[k].variable) ==> kept[k] == order[j])
    && (forall k, l, i: nat, j: nat
          {:trigger OrderedAt(order, i, kept[k].variable), OrderedAt(order, j, kept[l].variable)} ::
          0 <= k < l < |kept| && OrderedAt(order, i, kept[k].variable) && OrderedAt(order, j, kept[l].variable) ==>
            i < j)
    && (forall v {:trigger Orders(order, v)} :: Orders(order, v) <==> Orders(kept, v))
  }

  lemma {:induction false} FirstSpecsAreGivenInTurn(order: seq<OrderSpec>)
    ensures GivenInTurn(order, FirstSpecs(order))
  {
    if order != [] {
      var init, last := order[..|order| - 1], order[|order| - 1];
      assert order == init + [last];
      FirstSpecsAreGivenInTurn(init);
      FirstSpecsSnoc(init, last);
      var had := FirstSpecs(init);
      assert last.variable in Variables(had) <==> Orders(had, last.variable) by {
        if last.variable in Variables(had) {
          var i :| 0 <= i < |had| && Variables(had)[i] == last.variable;
          assert had[i].variable == last.variable;
        }
        if Orders(had, last.variable) {
          var i :| 0 <= i < |had| && had[i].variable == last.variable;
          assert Variables(had)[i] == last.variable;
        }
      }
      GivenOneMore(init, last, had);
    }
  }

  lemma GivenOneMore(init: seq<OrderSpec>, last: OrderSpec, had: seq<OrderSpec>)
    requires GivenInTurn(init, had)
    ensures GivenInTurn(init + [last], if Orders(had, last.variable) then had else had + [last])
  {
    var order := init + [last];
    var kept := if Orders(had, last.variable) then had else had + [last];
    forall k, j: nat | 0 <= k < |kept| && OrderedAt(order, j, kept[k].variable)
      ensures kept[k] == order[j] && (k < |had| ==> OrderedAt(init, j, kept[k].variable))
      ensures k == |had| ==> j == |init|
    {
      PlaceInTurn(init, last, had, kept, k, j);
    }
    forall v ensures Orders(order, v) <==> Orders(kept, v) {
      assert Orders(init, v) <==> Orders(had, v);
      OrdersOneMore(init, last, v);
      OrdersOneMore(had, last, v);
    }
  }

  lemma OrdersOneMore(init: seq<OrderSpec>, last: OrderSpec, v: string)
    ensures Orders(init + [last], v) <==> Orders(init, v) || last.variable == v
  {
    var order := init + [last];
    if j :| 0 <= j < |init| && init[j].variable == v {
      assert order[j].variable == v;
    }
    assert order[|init|] == last;
  }

  lemma PlaceInTurn(init: seq<OrderSpec>, last: OrderSpec, had: seq<OrderSpec>, kept: seq<OrderSpec>, k: nat, j: nat)
    requires GivenInTurn(init, had) && kept == if Orders(had, last.variable) then had else had + [last]
    requires k < |kept| && OrderedAt(init + [last], j, kept[k].variable)
    ensures kept[k] == (init + [last])[j]
    ensures k < |had| ==> OrderedAt(init, j, kept[k].variable)
    ensures k == |had| ==> j == |init|
  {
    var order, v := init + [last], kept[k].variable;
    assert forall i :: 0 <= i < |init| ==> order[i] == init[i];
    assert Orders(init, v) <==> Orders(had, v);
    if k < |had| {
      assert had[k].variable == v;
      assert Orders(had, v);
      var i := FirstOrdered(init, v);
      assert order[i].variable == v;
      assert j == i;
    } else if j < |init| {
      assert init[j].variable == v;
      assert Orders(init, v);
    }
  }

  /** The variables among the terms, each to be ordered by ascending. */
  function AscendingTerms(terms: seq<string>): seq<OrderSpec> {
    if terms == [] then []
    else
      var last := terms[|terms| - 1];
      AscendingTerms(terms[..|terms| - 1]) + if |last| > 0 && last[0] == '?' then [OrderSpec(last, Asc)] else []
  }

  function Terms(query: LogicalQuery): seq<string> {
    query.inner.find + query.inner.aggregateTargets + query.inner.optionalFields
  }

  /** One more variable among the terms, the caller's ordering having been gone on with so far. */
  lemma OneMoreVariable(order: seq<OrderSpec>, init: seq<string>, last: string, gone: seq<OrderSpec>)
    requires IsVariable(last) && Completed(FirstSpecs(order), FirstVariables(init)) == FirstSpecs(gone)
    ensures Completed(FirstSpecs(order), FirstVariables(init + [last])) == FirstSpecs(gone + [OrderSpec(last, Asc)])
  {
    var before := FirstVariables(init);
    assert (init + [last])[..|init|] == init;
    FirstSpecsSnoc(gone, OrderSpec(last, Asc));
    if last in before {
      FirstSpecsListVariables(order);
      CompletedListsVariables(FirstSpecs(order), before);
    } else {
      assert (before + [last])[..|before|] == before;
    }
  }

  lemma OneMoreTerm(order: seq<OrderSpec>, init: seq<string>, last: string)
    ensures order + AscendingTerms(init + [last])
      == order + AscendingTerms(init) + if IsVariable(last) then [OrderSpec(last, Asc)] else []
    ensures !IsVariable(last) ==> FirstVariables(init + [last]) == FirstVariables(init)
  {
    assert (init + [last])[..|init|] == init;
    assert order + (AscendingTerms(init) + [OrderSpec(last, Asc)])
      == order + AscendingTerms(init) + [OrderSpec(last, Asc)];
  }

  lemma {:induction false} CompletingIsGoingOn(order: seq<OrderSpec>, terms: seq<string>)
    ensures Completed(FirstSpecs(order), FirstVariables(terms)) == FirstSpecs(order + AscendingTerms(terms))
    decreases |terms|, 1
  {
    if terms == [] {
      assert order + [] == order;
    } else {
      CompletingOneMore(order, terms[..|terms| - 1], terms[|terms| - 1], terms);
    }
  }

  lemma {:induction false} CompletingOneMore(order: seq<OrderSpec>, init: seq<string>, last: string, terms: seq<string>)
    requires terms == init + [last]
    ensures Completed(FirstSpecs(order), FirstVariables(terms)) == FirstSpecs(order + AscendingTerms(terms))
    decreases |terms|, 0
  {
    CompletingIsGoingOn(order, init);
    OneMoreTerm(order, init, last);
    if IsVariable(last) {
      OneMoreVariable(order, init, last, order + AscendingTerms(init));
    } else {
      assert order + AscendingTerms(init) + [] == order + AscendingTerms(init);
    }
  }

  ghost predicate IsProjected(query: LogicalQuery, variable: string) {
    variable in Terms(query) && |variable| > 0 && variable[0] == '?'
  }

  /** An ordering is refused when it names what the query does not project, or has nothing to page by. */
  lemma OrderingIsRefusedIff(query: LogicalQuery)
    ensures Normalized(query).Err?
      <==> (exists spec :: spec in query.orderBy && !IsProjected(query, spec.variable))
           || (query.limit.Some? && forall v :: !IsProjected(query, v))
    ensures Normalized(query).Err? ==> Normalized(query).error == InvalidOrdering
  {
    FirstVariablesLists(Terms(query));
    var projected := Projected(query.inner);
    forall v ensures v in projected <==> IsProjected(query, v) {
    }
    FirstSpecsListVariables(query.orderBy);
    CompletedListsVariables(FirstSpecs(query.orderBy), projected);
    var order := Completed(FirstSpecs(query.orderBy), projected);
    assert order == [] <==> Variables(order) == [];
    if order == [] {
      forall v ensures v !in projected {
        assert v !in Variables(order);
      }
    } else {
      assert Variables(order)[0] in Variables(order);
      if spec :| spec in query.orderBy && spec.variable == Variables(order)[0] {
      } else {
        NotOrdered(query.orderBy, Variables(order)[0]);
      }
    }
  }

  lemma NotOrdered(order: seq<OrderSpec>, v: string)
    requires forall spec :: spec in order ==> spec.variable != v
    ensures v !in Variables(order)
  {
    forall i | 0 <= i < |order| ensures Variables(order)[i] != v {
      assert order[i] in order;
    }
  }

  /**
   * The ordering is as if the caller had gone on to order by every projected
   * variable, ascending, and the first mention of each variable counted.
   */
  lemma OrderingIsGivenInTurn(query: LogicalQuery)
    requires Normalized(query).Ok?
    ensures GivenInTurn(query.orderBy + AscendingTerms(Terms(query)), Normalized(query).value)
  {
    CompletingIsGoingOn(query.orderBy, Terms(query));
    FirstSpecsAreGivenInTurn(query.orderBy + AscendingTerms(Terms(query)));
  }

  // ---- The cursors a request accepts -----------------------------------------------

  /** The recorded and the valid instant a basis names at a clock reading. */
  ghost predicate NamesCut(basis: TemporalBasis, now: int, recordedAt: int, validAt: int) {
    && basis.recordedAt == Some(recordedAt) && recordedAt >= 0
    && (if basis.validAt.Some? then basis.validAt.value == validAt else now == validAt)
    && validAt >= 0 && now >= 0
  }

  /** The cursor was made for this query, in this scope, at a cut the request does not contradict. */
  ghost predicate IsForRequest(request: Request, e: Envelope, order: seq<OrderSpec>) {
    && e.version == 1
    && e.queryFingerprint == HashQuery(request.query.logical.(orderBy := order), e.basis)
    && e.scopeFingerprint == HashScope(request.scope)
    && |e.values| == |order|
    && e.basis.recordedAt >= 0 && e.basis.validAt >= 0 && 0 <= e.basis.recordedPosition <= 0x1F_FFFF_FFFF_FFFF
    && (request.basis.Some? ==> NamesCut(request.basis.value, request.now, e.basis.recordedAt, e.basis.validAt))
  }

  /** A request with a cursor is accepted exactly when the cursor is one for it, and goes on from the cursor's cut. */
  lemma CursorIsAcceptedIff(request: Request, e: Envelope)
    requires request.query.cursor == Some(Encoded(e))
    ensures var prepared, order := PreparePagination(request), Normalized(request.query.logical);
      var sound := 0 <= request.recordedPosition <= 0x1F_FFFF_FFFF_FFFF && order.Ok?;
      && (prepared.Ok? <==> sound && IsForRequest(request, e, order.value))
      && (prepared.Ok? ==> prepared.value.basis == e.basis && prepared.value.cursorValues == Some(e.values))
  {
  }

  /** Why a request with a cursor is refused: the first of the reasons that applies. */
  lemma CursorRefusals(request: Request, e: Envelope)
    requires request.query.cursor == Some(Encoded(e)) && request.basis.None?
    requires 0 <= request.recordedPosition <= 0x1F_FFFF_FFFF_FFFF && Normalized(request.query.logical).Ok?
    ensures var order, prepared := Normalized(request.query.logical).value, PreparePagination(request);
      var version, position := e.version == 1, 0 <= e.basis.recordedPosition <= 0x1F_FFFF_FFFF_FFFF;
      var cut := version && e.basis.recordedAt >= 0 && e.basis.validAt >= 0 && position;
      var scope := cut && e.scopeFingerprint == HashScope(request.scope);
      var query := scope && e.queryFingerprint == HashQuery(request.query.logical.(orderBy := order), e.basis);
      && (prepared == Err(UnsupportedVersion) <==> !version)
      && (prepared == Err(ScopeMismatch) <==> cut && !scope)
      && (prepared == Err(QueryMismatch) <==> scope && !query)
      && (prepared == Err(Malformed) <==> (version && !cut) || (query && |e.values| != |order|))
      && prepared != Err(BasisMismatch) && prepared != Err(InvalidOrdering)
  {
  }

  /** A page holds no more rows than asked for, and as many when there is a cursor to go on with. */
  lemma PagesAreFull(datalog: Datalog, table: Table, query: WrappedQuery, basis: Option<TemporalBasis>, now: int,
                     scope: string)
    requires query.logical.limit.Some? && query.logical.limit.value >= 1
    requires QueryPage(datalog, table, query, basis, now, scope).Ok?
    ensures var page := QueryPage(datalog, table, query, basis, now, scope).value;
      |page.results| <= query.logical.limit.value
      && (page.nextCursor.Some? ==> |page.results| == query.logical.limit.value)
  {
  }
}
