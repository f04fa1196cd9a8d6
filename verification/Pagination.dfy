/**
 * Snapshot-stable keyset paging: completing the ordering, preparing and
 * finishing a page, and the opaque cursor in between.
 */
module Pagination {
  import opened Wrappers
  import opened Seqs
  import Order

  datatype Value = Null | Number(number: int) | Flag(flag: bool) | Text(text: string)

  datatype Direction = Asc | Desc

  datatype OrderSpec = OrderSpec(variable: string, direction: Direction)

  /** The terms a datalog query can project, and the rest of it. */
  datatype Inner = Inner(find: seq<string>, aggregateTargets: seq<string>, optionalFields: seq<string>, clauses: string)

  datatype LogicalQuery = LogicalQuery(inner: Inner, filters: string, orderBy: seq<OrderSpec>, limit: Option<nat>)

  datatype FullBasis = FullBasis(recordedAt: int, recordedPosition: int, validAt: int)

  /** Fingerprints and the cursor text under an ideal, injective encoding. */
  datatype QueryFingerprint = HashQuery(query: LogicalQuery, basis: FullBasis)

  datatype ScopeFingerprint = HashScope(scope: string)

  datatype Envelope = Envelope(
    version: int,
    queryFingerprint: QueryFingerprint,
    scopeFingerprint: ScopeFingerprint,
    basis: FullBasis,
    values: seq<Value>)

  datatype Cursor = Encoded(envelope: Envelope) | NotAnEnvelope(text: string)

  datatype WrappedQuery = WrappedQuery(logical: LogicalQuery, cursor: Option<Cursor>)

  datatype TemporalBasis = TemporalBasis(recordedAt: Option<int>, validAt: Option<int>)

  datatype PagingError =
    | InvalidOrdering | Malformed | UnsupportedVersion | BasisMismatch | ScopeMismatch | QueryMismatch

  const MAX_SAFE_INTEGER := 9007199254740991

  // ---- The complete ordering ----------------------------------------------

  predicate IsVariable(term: string) {
    |term| > 0 && term[0] == '?'
  }

  /** The variables among the terms, in order of first appearance. */
  function FirstVariables(terms: seq<string>): seq<string> {
    if terms == [] then []
    else
      var init, last := FirstVariables(terms[..|terms| - 1]), terms[|terms| - 1];
      if IsVariable(last) && last !in init then init + [last] else init
  }

  function Projected(inner: Inner): seq<string> {
    FirstVariables(inner.find + inner.aggregateTargets + inner.optionalFields)
  }

  lemma {:induction false} FirstVariablesLists(terms: seq<string>)
    ensures NoDuplicates(FirstVariables(terms))
    ensures forall v :: v in FirstVariables(terms) <==> v in terms && IsVariable(v)
  {
    if terms != [] {
      var init := terms[..|terms| - 1];
      assert terms == init + [terms[|terms| - 1]];
      FirstVariablesLists(init);
    }
  }

  method AddVariables(variables: seq<string>, terms: seq<string>,
                      ghost before: seq<string>) returns (grown: seq<string>)
    requires variables == FirstVariables(before)
    ensures grown == FirstVariables(before + terms)
  {
    grown := variables;
    assert before + terms[..0] == before;
    for i := 0 to |terms|
      invariant grown == FirstVariables(before + terms[..i])
    {
      assert (before + terms[..i + 1])[..|before| + i] == before + terms[..i];
      if IsVariable(terms[i]) && terms[i] !in grown {
        grown := grown + [terms[i]];
      }
    }
    assert before + terms[..|terms|] == before + terms;
  }

  method ProjectedVariables(inner: Inner) returns (variables: seq<string>)
    ensures variables == Projected(inner)
  {
    variables := AddVariables([], inner.find, []);
    assert [] + inner.find == inner.find;
    variables := AddVariables(variables, inner.aggregateTargets, inner.find);
    variables := AddVariables(variables, inner.optionalFields, inner.find + inner.aggregateTargets);
  }

  function Variables(order: seq<OrderSpec>): (variables: seq<string>)
    ensures |variables| == |order| && forall i :: 0 <= i < |order| ==> variables[i] == order[i].variable
  {
    if order == [] then [] else [order[0].variable] + Variables(order[1..])
  }

  /** The caller's specs, the first one of each variable. */
  function FirstSpecs(order: seq<OrderSpec>): seq<OrderSpec> {
    if order == [] then []
    else
      var init, last := FirstSpecs(order[..|order| - 1]), order[|order| - 1];
      if last.variable in Variables(init) then init else init + [last]
  }

  /** Then every projected variable not yet ordered by, ascending. */
  function Completed(order: seq<OrderSpec>, projected: seq<string>): seq<OrderSpec> {
    if projected == [] then order
    else
      var init, last := Completed(order, projected[..|projected| - 1]), projected[|projected| - 1];
      if last in Variables(init) then init else init + [OrderSpec(last, Asc)]
  }

  function Normalized(query: LogicalQuery): Result<seq<OrderSpec>, PagingError> {
    var projected := Projected(query.inner);
    var order := Completed(FirstSpecs(query.orderBy), projected);
    if exists item :: item in query.orderBy && item.variable !in projected then Err(InvalidOrdering)
    else if query.limit.Some? && order == [] then Err(InvalidOrdering)
    else Ok(order)
  }

  method NormalizePaginationOrder(query: LogicalQuery) returns (result: Result<seq<OrderSpec>, PagingError>)
    ensures result == Normalized(query)
  {
    var projected := ProjectedVariables(query.inner);
    var order: seq<OrderSpec> := [];
    for i := 0 to |query.orderBy|
      invariant order == FirstSpecs(query.orderBy[..i])
      invariant forall j :: 0 <= j < i ==> query.orderBy[j].variable in projected
    {
      var item := query.orderBy[i];
      if item.variable !in projected {
        return Err(InvalidOrdering);
      }
      assert query.orderBy[..i + 1][..i] == query.orderBy[..i];
      if item.variable !in Variables(order) {
        order := order + [item];
      }
    }
    assert query.orderBy[..|query.orderBy|] == query.orderBy;
    for i := 0 to |projected|
      invariant order == Completed(FirstSpecs(query.orderBy), projected[..i])
    {
      assert projected[..i + 1][..i] == projected[..i];
      if projected[i] !in Variables(order) {
        order := order + [OrderSpec(projected[i], Asc)];
      }
    }
    assert projected[..|projected|] == projected;
    if query.limit.Some? && order == [] {
      return Err(InvalidOrdering);
    }
    return Ok(order);
  }

  lemma VariablesSnoc(order: seq<OrderSpec>, item: OrderSpec)
    ensures Variables(order + [item]) == Variables(order) + [item.variable]
  {
  }

  lemma FirstSpecsSnoc(init: seq<OrderSpec>, last: OrderSpec)
    ensures FirstSpecs(init + [last])
      == if last.variable in Variables(FirstSpecs(init)) then FirstSpecs(init) else FirstSpecs(init) + [last]
  {
    assert (init + [last])[..|init|] == init;
  }

  lemma {:induction false} FirstSpecsListVariables(order: seq<OrderSpec>)
    ensures NoDuplicates(Variables(FirstSpecs(order)))
    ensures forall v :: v in Variables(FirstSpecs(order)) <==> v in Variables(order)
  {
    if order != [] {
      var init, last := order[..|order| - 1], order[|order| - 1];
      FirstSpecsListVariables(init);
      assert order == init + [last];
      FirstSpecsSnoc(init, last);
      VariablesSnoc(init, last);
      VariablesSnoc(FirstSpecs(init), last);
    }
  }

  lemma {:induction false} CompletedListsVariables(order: seq<OrderSpec>, projected: seq<string>)
    requires NoDuplicates(Variables(order))
    ensures NoDuplicates(Variables(Completed(order, projected))) && order <= Completed(order, projected)
    ensures forall v :: v in Variables(Completed(order, projected)) <==> v in Variables(order) || v in projected
  {
    if projected != [] {
      var init, last := projected[..|projected| - 1], projected[|projected| - 1];
      CompletedListsVariables(order, init);
      assert projected == init + [last];
      VariablesSnoc(Completed(order, init), OrderSpec(last, Asc));
    }
  }

  /** The ordering extends the caller's, names each variable once, and names exactly the projected ones. */
  lemma OrderingIsComplete(query: LogicalQuery)
    ensures Normalized(query).Ok? ==>
      var order := Normalized(query).value;
      && FirstSpecs(query.orderBy) <= order
      && NoDuplicates(Variables(order))
      && forall v :: v in Variables(order) <==> v in Projected(query.inner)
  {
    FirstSpecsListVariables(query.orderBy);
    CompletedListsVariables(FirstSpecs(query.orderBy), Projected(query.inner));
    forall v | v in Variables(query.orderBy) && Normalized(query).Ok? ensures v in Projected(query.inner) {
      var i :| 0 <= i < |query.orderBy| && Variables(query.orderBy)[i] == v;
      assert query.orderBy[i] in query.orderBy;
    }
  }

  // ---- Cursors ------------------------------------------------------------

  function DecodeEnvelope(cursor: Cursor): Result<Envelope, PagingError> {
    match cursor
    case NotAnEnvelope(_) => Err(Malformed)
    case Encoded(e) =>
      if e.version != 1 then Err(UnsupportedVersion)
      else if e.basis.recordedAt < 0 || e.basis.validAt < 0 || !SafePosition(e.basis.recordedPosition)
        then Err(Malformed)
      else Ok(e)
  }

  predicate SafePosition(position: int) {
    0 <= position <= MAX_SAFE_INTEGER
  }

  // ---- Preparing and finishing --------------------------------------------

  datatype Resolved = Resolved(recordedAt: Option<int>, validAt: int)

  function ResolveBasis(basis: TemporalBasis, now: int): Result<Resolved, PagingError> {
    if now < 0 || (basis.recordedAt.Some? && basis.recordedAt.value < 0)
      || (basis.validAt.Some? && basis.validAt.value < 0)
    then Err(Malformed)
    else Ok(Resolved(basis.recordedAt, if basis.validAt.Some? then basis.validAt.value else now))
  }

  datatype Prepared = Prepared(
    logical: LogicalQuery,
    fetch: Option<nat>,
    basis: FullBasis,
    orderBy: seq<OrderSpec>,
    cursorValues: Option<seq<Value>>,
    queryFingerprint: QueryFingerprint,
    scopeFingerprint: ScopeFingerprint,
    pageSize: Option<nat>)

  datatype Request = Request(query: WrappedQuery, basis: Option<TemporalBasis>, now: int, recordedPosition: int,
    scope: string)

  const NO_BASIS := TemporalBasis(None, None)

  function SameBasis(requested: Resolved, basis: FullBasis): bool {
    requested.recordedAt == Some(basis.recordedAt) && requested.validAt == basis.validAt
  }

  /** The cut a page reads: the cursor's own, or a new one at the current commit position. */
  function ChooseBasis(request: Request, envelope: Option<Envelope>): Result<FullBasis, PagingError> {
    if envelope.Some? then
      if request.basis.None? then Ok(envelope.value.basis)
      else
        var requested := ResolveBasis(request.basis.value, request.now);
        if requested.Err? then Err(requested.error)
        else if !SameBasis(requested.value, envelope.value.basis) then Err(BasisMismatch)
        else Ok(envelope.value.basis)
    else
      var resolved := ResolveBasis(if request.basis.Some? then request.basis.value else NO_BASIS, request.now);
      if resolved.Err? then Err(resolved.error)
      else
        Ok(FullBasis(if resolved.value.recordedAt.Some? then resolved.value.recordedAt.value else request.now,
                     request.recordedPosition, resolved.value.validAt))
  }

  function PreparePagination(request: Request): Result<Prepared, PagingError> {
    if !SafePosition(request.recordedPosition) then Err(Malformed)
    else
      var order := Normalized(request.query.logical);
      if order.Err? then Err(order.error)
      else
        var logical := request.query.logical.(orderBy := order.value);
        var decoded :=
          if request.query.cursor.None? then Ok(None)
          else
            var e := DecodeEnvelope(request.query.cursor.value);
            if e.Err? then Err(e.error) else Ok(Some(e.value));
        if decoded.Err? then Err(decoded.error)
        else
          var basis := ChooseBasis(request, decoded.value);
          if basis.Err? then Err(basis.error)
          else PrepareAt(request, logical, basis.value, decoded.value)
  }

  function PrepareAt(request: Request, logical: LogicalQuery, basis: FullBasis, envelope: Option<Envelope>)
    : Result<Prepared, PagingError>
  {
    var queryFingerprint, scopeFingerprint := HashQuery(logical, basis), HashScope(request.scope);
    if envelope.Some? && envelope.value.scopeFingerprint != scopeFingerprint then Err(ScopeMismatch)
    else if envelope.Some? && envelope.value.queryFingerprint != queryFingerprint then Err(QueryMismatch)
    else if envelope.Some? && |envelope.value.values| != |logical.orderBy| then Err(Malformed)
    else
      Ok(Prepared(logical, if logical.limit.Some? then Some(logical.limit.value + 1) else None, basis, logical.orderBy,
                  if envelope.Some? then Some(envelope.value.values) else None,
                  queryFingerprint, scopeFingerprint, logical.limit))
  }

  type Row = map<string, Value>

  function ValueOf(row: Row, variable: string): Value {
    if variable in row then row[variable] else Null
  }

  function KeyOf(order: seq<OrderSpec>, row: Row): (key: seq<Value>)
    ensures |key| == |order|
    ensures forall i :: 0 <= i < |order| ==> key[i] == ValueOf(row, order[i].variable)
  {
    if order == [] then [] else [ValueOf(row, order[0].variable)] + KeyOf(order[1..], row)
  }

  datatype Page = Page(results: seq<Row>, nextCursor: Option<Cursor>)

  function FinishPagination(prepared: Prepared, results: seq<Row>): Page
    requires prepared.pageSize.Some? ==> prepared.pageSize.value >= 1
  {
    if prepared.pageSize.None? || |results| <= prepared.pageSize.value then Page(results, None)
    else
      var page := results[..prepared.pageSize.value];
      Page(page, Some(Encoded(Envelope(1, prepared.queryFingerprint, prepared.scopeFingerprint, prepared.basis,
                                       KeyOf(prepared.orderBy, page[|page| - 1])))))
  }

  // ---- The order on values and keys ---------------------------------------

  function Category(value: Value): int {
    match value case Number(_) => 0 case Flag(_) => 1 case Text(_) => 2 case Null => 3
  }

  /** Is x strictly before y? Categories keep their order in both directions. */
  predicate Precedes(x: Value, y: Value, direction: Direction) {
    if Category(x) != Category(y) then Category(x) < Category(y)
    else if direction == Asc then PrecedesAscending(x, y)
    else PrecedesAscending(y, x)
  }

  predicate PrecedesAscending(x: Value, y: Value) {
    match (x, y)
    case (Number(a), Number(b)) => a < b
    case (Flag(a), Flag(b)) => !a && b
    case (Text(a), Text(b)) => Order.LessString(a, b)
    case _ => false
  }

  /** Lexicographic over the ordering's variables. */
  predicate KeyPrecedes(order: seq<OrderSpec>, x: seq<Value>, y: seq<Value>)
    requires |x| == |order| == |y|
  {
    order != [] &&
    (Precedes(x[0], y[0], order[0].direction) || (x[0] == y[0] && KeyPrecedes(order[1..], x[1..], y[1..])))
  }

  lemma ValueTrichotomy(x: Value, y: Value, direction: Direction)
    ensures Precedes(x, y, direction) <==> x != y && !Precedes(y, x, direction)
  {
    if x.Text? && y.Text? {
      Order.StringTrichotomy(x.text, y.text);
    }
  }

  lemma ValueTransitivity(x: Value, y: Value, z: Value, direction: Direction)
    requires Precedes(x, y, direction) && Precedes(y, z, direction)
    ensures Precedes(x, z, direction)
  {
    if x.Text? && y.Text? && z.Text? {
      if direction == Asc {
        Order.StringTransitivity(x.text, y.text, z.text);
      } else {
        Order.StringTransitivity(z.text, y.text, x.text);
      }
    }
  }

  lemma {:induction false} KeyTrichotomy(order: seq<OrderSpec>, x: seq<Value>, y: seq<Value>)
    requires |x| == |order| == |y|
    ensures KeyPrecedes(order, x, y) <==> x != y && !KeyPrecedes(order, y, x)
  {
    if order != [] {
      ValueTrichotomy(x[0], y[0], order[0].direction);
      KeyTrichotomy(order[1..], x[1..], y[1..]);
      assert x == [x[0]] + x[1..] && y == [y[0]] + y[1..];
    }
  }

  lemma {:induction false} KeyTransitivity(order: seq<OrderSpec>, x: seq<Value>, y: seq<Value>, z: seq<Value>)
    requires |x| == |order| == |y| && |z| == |order|
    requires KeyPrecedes(order, x, y) && KeyPrecedes(order, y, z)
    ensures KeyPrecedes(order, x, z)
  {
    var d := order[0].direction;
    if Precedes(x[0], y[0], d) && Precedes(y[0], z[0], d) {
      ValueTransitivity(x[0], y[0], z[0], d);
    } else if x[0] == y[0] == z[0] {
      KeyTransitivity(order[1..], x[1..], y[1..], z[1..]);
    }
  }
}
