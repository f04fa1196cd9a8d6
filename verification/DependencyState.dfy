/**
 * Freshness tokens and wake-up times over the row table: the position of the
 * last change to some attributes, and the next instant their facts can change.
 */
module DependencyState {
  import opened Wrappers
  import opened Seqs
  import opened Triples
  import opened RowTable

  datatype State = State(sourcePosition: nat, nextTemporalBoundary: Option<int>)

  /** The position at which the row last changed, as seen from the basis; 0 before it was recorded. */
  function LastChange(row: Row, basis: Basis): nat {
    if basis.recordedPosition.Some? then
      var p := basis.recordedPosition.value;
      if row.recordedPosition > p then 0
      else if row.retractedPosition.Some? && row.retractedPosition.value <= p then row.retractedPosition.value
      else row.recordedPosition
    else if basis.recordedAt.Some? then
      if row.recordedAt > basis.recordedAt.value then 0
      else if row.retractedAt.Some? && row.retractedAt.value <= basis.recordedAt.value && row.retractedPosition.Some?
      then row.retractedPosition.value
      else row.recordedPosition
    else if row.retractedPosition.Some? then row.retractedPosition.value
    else row.recordedPosition
  }

  /** The next endpoint of the row's interval after the instant. */
  function NextEndpoint(row: Row, validAt: int): Option<int> {
    if row.fact.validFrom > validAt then Some(row.fact.validFrom)
    else if row.fact.validTo.Some? && row.fact.validTo.value > validAt then row.fact.validTo
    else None
  }

  function Watched(attributes: seq<string>): Row -> bool {
    (row: Row) => row.fact.attribute in attributes
  }

  function MaxChange(rows: seq<Row>, basis: Basis): nat {
    if rows == [] then 0
    else
      var rest := MaxChange(rows[1..], basis);
      if LastChange(rows[0], basis) > rest then LastChange(rows[0], basis) else rest
  }

  function MinEndpoint(rows: seq<Row>, validAt: int): Option<int> {
    if rows == [] then None
    else
      var rest := MinEndpoint(rows[1..], validAt);
      var mine := NextEndpoint(rows[0], validAt);
      if mine.Some? && (rest.None? || mine.value < rest.value) then mine else rest
  }

  function Of(rows: seq<Row>, attributes: seq<string>, basis: Basis): State {
    if attributes == [] then State(0, None)
    else
      var watched := Filter(Watched(attributes), rows);
      State(MaxChange(watched, basis), MinEndpoint(Filter((row: Row) => Recorded(row, basis), watched), basis.validAt))
  }

  function VisibleAmong(attributes: seq<string>, basis: Basis): Row -> bool {
    (row: Row) => row.fact.attribute in attributes && Visible(row, basis)
  }

  /** The facts of the attributes visible at the basis. */
  function ReadAttributes(rows: seq<Row>, attributes: seq<string>, basis: Basis): seq<Triple> {
    FactsOf(VisibleAmong(attributes, basis), rows)
  }

  // ---- Freshness ----------------------------------------------------------

  predicate TouchedWithin(row: Row, after: nat, upTo: nat) {
    after < row.recordedPosition <= upTo
    || (row.retractedPosition.Some? && after < row.retractedPosition.value <= upTo)
  }

  ghost predicate SomeTouched(rows: seq<Row>, attributes: seq<string>, after: nat, upTo: nat) {
    exists row :: row in rows && row.fact.attribute in attributes && TouchedWithin(row, after, upTo)
  }

  function AsOf(position: nat, validAt: int): Basis {
    Basis(None, Some(position), validAt)
  }

  lemma {:induction false} MaxChangeIsMax(rows: seq<Row>, basis: Basis)
    ensures forall row :: row in rows ==> LastChange(row, basis) <= MaxChange(rows, basis)
    ensures MaxChange(rows, basis) == 0 || exists row :: row in rows && LastChange(row, basis) == MaxChange(rows, basis)
  {
    if rows != [] {
      MaxChangeIsMax(rows[1..], basis);
      assert rows == [rows[0]] + rows[1..];
    }
  }

  /** The token is the last position, up to the basis, at which a watched row was recorded or retracted. */
  lemma TokenIsTheLastTouch(table: Table, attributes: seq<string>, p: nat, validAt: int)
    requires Valid(table)
    ensures var token := Of(table.rows, attributes, AsOf(p, validAt)).sourcePosition;
      token <= p && !SomeTouched(table.rows, attributes, token, p)
      && (token == 0 || SomeTouched(table.rows, attributes, token - 1, token))
  {
    var basis := AsOf(p, validAt);
    var watched := Filter(Watched(attributes), table.rows);
    var token := Of(table.rows, attributes, basis).sourcePosition;
    if attributes != [] {
      MaxChangeIsMax(watched, basis);
      forall row | row in watched ensures LastChange(row, basis) <= p && !TouchedWithin(row, token, p) {
        assert Sound(row, table.position);
      }
      if token != 0 {
        var row :| row in watched && LastChange(row, basis) == token;
        assert TouchedWithin(row, token - 1, token);
      }
    }
  }

  /** Two positions carry the same token exactly when no watched row changed in between. */
  lemma EqualTokensIffUntouched(table: Table, attributes: seq<string>, p: nat, q: nat, validAt: int)
    requires Valid(table) && p <= q
    ensures Of(table.rows, attributes, AsOf(p, validAt)).sourcePosition
      == Of(table.rows, attributes, AsOf(q, validAt)).sourcePosition
      <==> !SomeTouched(table.rows, attributes, p, q)
  {
    var a := Of(table.rows, attributes, AsOf(p, validAt)).sourcePosition;
    var b := Of(table.rows, attributes, AsOf(q, validAt)).sourcePosition;
    TokenIsTheLastTouch(table, attributes, p, validAt);
    TokenIsTheLastTouch(table, attributes, q, validAt);
    if a == b {
      assert forall row :: TouchedWithin(row, p, q) ==> TouchedWithin(row, a, q);
    }
  }

  /** Equal tokens, equal facts: nothing read for these attributes differs between the two positions. */
  lemma EqualTokensEqualFacts(table: Table, attributes: seq<string>, p: nat, q: nat, validAt: int)
    requires Valid(table) && p <= q
    requires Of(table.rows, attributes, AsOf(p, validAt)).sourcePosition
      == Of(table.rows, attributes, AsOf(q, validAt)).sourcePosition
    ensures ReadAttributes(table.rows, attributes, AsOf(p, validAt))
      == ReadAttributes(table.rows, attributes, AsOf(q, validAt))
  {
    EqualTokensIffUntouched(table, attributes, p, q, validAt);
    var atP, atQ := VisibleAmong(attributes, AsOf(p, validAt)), VisibleAmong(attributes, AsOf(q, validAt));
    forall row | row in table.rows ensures atP(row) == atQ(row) {
      assert Sound(row, table.position);
      assert row.fact.attribute in attributes ==> !TouchedWithin(row, p, q);
    }
    FilterPointwise(atP, atQ, table.rows);
  }

  lemma {:induction false} ChangesSeenAreStable(
      a: seq<Row>, b: seq<Row>, attributes: seq<string>, p: nat, validAt: int)
    requires SameUpTo(a, b, AtPosition(p))
    ensures MaxChange(Filter(Watched(attributes), b), AsOf(p, validAt))
      == MaxChange(Filter(Watched(attributes), a), AsOf(p, validAt))
  {
    if a == [] {
      MaxChangeIsMax(Filter(Watched(attributes), b), AsOf(p, validAt));
    } else {
      assert SameRowUpTo(a[0], b[0], AtPosition(p));
      forall i | 0 <= i < |a[1..]| ensures SameRowUpTo(a[1..][i], b[1..][i], AtPosition(p)) {
        assert SameRowUpTo(a[i + 1], b[i + 1], AtPosition(p));
      }
      ChangesSeenAreStable(a[1..], b[1..], attributes, p, validAt);
      var fa, fb := Filter(Watched(attributes), a), Filter(Watched(attributes), b);
      if a[0].fact.attribute in attributes {
        assert fa[1..] == Filter(Watched(attributes), a[1..]) && fb[1..] == Filter(Watched(attributes), b[1..]);
      }
    }
  }

  /** A token taken at a position is the same whenever it is recomputed later. */
  lemma TokensAreStable(table: Table, commits: seq<RowTable.Commit>, attributes: seq<string>, p: nat, validAt: int)
    requires Valid(table) && p <= table.position
    ensures Of(CommitAll(table, commits).rows, attributes, AsOf(p, validAt)).sourcePosition
      == Of(table.rows, attributes, AsOf(p, validAt)).sourcePosition
  {
    RunsAreInvisibleBefore(table, commits, AtPosition(p));
    ChangesSeenAreStable(table.rows, CommitAll(table, commits).rows, attributes, p, validAt);
  }

  /**
   * A reader who took a token at a position and finds the same token at the head
   * of any later table is still looking at the same facts.
   */
  lemma FreshReadersAreUpToDate(table: Table, commits: seq<RowTable.Commit>, attributes: seq<string>, validAt: int)
    requires Valid(table)
    requires var later := CommitAll(table, commits);
      Of(later.rows, attributes, AsOf(later.position, validAt)).sourcePosition
        == Of(table.rows, attributes, AsOf(table.position, validAt)).sourcePosition
    ensures var later := CommitAll(table, commits);
      ReadAttributes(later.rows, attributes, AsOf(later.position, validAt))
        == ReadAttributes(table.rows, attributes, AsOf(table.position, validAt))
  {
    var later, taken := CommitAll(table, commits), AsOf(table.position, validAt);
    RunsKeepValid(table, commits);
    TokensAreStable(table, commits, attributes, table.position, validAt);
    EqualTokensEqualFacts(later, attributes, table.position, later.position, validAt);
    RunsAreInvisibleBefore(table, commits, AtPosition(table.position));
    SameFacts(VisibleAmong(attributes, taken), table.rows, later.rows, AtPosition(table.position));
  }

  // ---- Live reads ---------------------------------------------------------

  function LiveAt(validAt: int): Basis {
    Basis(None, None, validAt)
  }

  lemma {:induction false} SameChanges(rows: seq<Row>, a: Basis, b: Basis)
    requires forall row :: row in rows ==> LastChange(row, a) == LastChange(row, b)
    ensures MaxChange(rows, a) == MaxChange(rows, b)
  {
    if rows != [] {
      SameChanges(rows[1..], a, b);
    }
  }

  /** A live token and a live read are those of the last commit position. */
  lemma LiveIsTheHead(table: Table, attributes: seq<string>, validAt: int)
    requires Valid(table)
    ensures Of(table.rows, attributes, LiveAt(validAt)).sourcePosition
      == Of(table.rows, attributes, AsOf(table.position, validAt)).sourcePosition
    ensures ReadAttributes(table.rows, attributes, LiveAt(validAt))
      == ReadAttributes(table.rows, attributes, AsOf(table.position, validAt))
  {
    var live, head := LiveAt(validAt), AsOf(table.position, validAt);
    forall row | row in table.rows
      ensures LastChange(row, live) == LastChange(row, head) && Recorded(row, live) == Recorded(row, head)
    {
      assert Sound(row, table.position);
    }
    SameChanges(Filter(Watched(attributes), table.rows), live, head);
    FilterPointwise(VisibleAmong(attributes, live), VisibleAmong(attributes, head), table.rows);
  }

  /** A reader of live facts whose live token has not changed is still looking at the current facts. */
  lemma LiveReadersAreUpToDate(table: Table, commits: seq<RowTable.Commit>, attributes: seq<string>, validAt: int)
    requires Valid(table)
    requires Of(CommitAll(table, commits).rows, attributes, LiveAt(validAt)).sourcePosition
      == Of(table.rows, attributes, LiveAt(validAt)).sourcePosition
    ensures ReadAttributes(CommitAll(table, commits).rows, attributes, LiveAt(validAt))
      == ReadAttributes(table.rows, attributes, LiveAt(validAt))
  {
    RunsKeepValid(table, commits);
    LiveIsTheHead(table, attributes, validAt);
    LiveIsTheHead(CommitAll(table, commits), attributes, validAt);
    FreshReadersAreUpToDate(table, commits, attributes, validAt);
  }

  // ---- Reads as of an instant ----------------------------------------------

  function AsOfInstant(t: int, validAt: int): Basis {
    Basis(Some(t), None, validAt)
  }

  /** Something the row went through: being recorded, or being closed. */
  datatype Event = Event(position: nat, instant: int)

  predicate Underwent(row: Row, e: Event) {
    e == Event(row.recordedPosition, row.recordedAt)
    || (row.retractedAt.Some? && row.retractedPosition.Some?
      && e == Event(row.retractedPosition.value, row.retractedAt.value))
  }

  ghost predicate Happened(rows: seq<Row>, e: Event) {
    exists row :: row in rows && Underwent(row, e)
  }

  /** Timestamps do not decrease with positions, and none is later than the latest. */
  ghost predicate Clocked(rows: seq<Row>, latest: int) {
    && (forall e {:trigger Happened(rows, e)} :: Happened(rows, e) ==> e.position > 0 && e.instant <= latest)
    && forall d, e {:trigger Happened(rows, d), Happened(rows, e)} ::
         Happened(rows, d) && Happened(rows, e) && d.position <= e.position ==> d.instant <= e.instant
  }

  ghost predicate SomeTouchedBetween(rows: seq<Row>, attributes: seq<string>, after: int, upTo: int) {
    exists row, e :: row in rows && row.fact.attribute in attributes && Underwent(row, e) && after < e.instant <= upTo
  }

  /** What a row contributes to a token as of an instant is one of its events by then. */
  lemma LastChangeHappened(rows: seq<Row>, row: Row, t: int) returns (e: Event)
    requires row in rows && LastChange(row, AsOfInstant(t, 0)) != 0
    ensures Happened(rows, e) && e.position == LastChange(row, AsOfInstant(t, 0)) && e.instant <= t
  {
    if row.retractedAt.Some? && row.retractedAt.value <= t && row.retractedPosition.Some? {
      e := Event(row.retractedPosition.value, row.retractedAt.value);
    } else {
      e := Event(row.recordedPosition, row.recordedAt);
    }
    assert Underwent(row, e);
  }

  lemma EventsByTheInstantCount(rows: seq<Row>, position: nat, row: Row, e: Event, latest: int, t: int)
    requires SoundRows(rows, position) && Clocked(rows, latest) && row in rows && Underwent(row, e) && e.instant <= t
    ensures LastChange(row, AsOfInstant(t, 0)) >= e.position
  {
    assert Sound(row, position);
    assert Happened(rows, e);
    assert Underwent(row, Event(row.recordedPosition, row.recordedAt))
      && Happened(rows, Event(row.recordedPosition, row.recordedAt));
  }

  lemma InstantTokensIgnoreValidTime(rows: seq<Row>, attributes: seq<string>, t: int, validAt: int)
    ensures Of(rows, attributes, AsOfInstant(t, validAt)).sourcePosition
      == (if attributes == [] then 0 else MaxChange(Filter(Watched(attributes), rows), AsOfInstant(t, 0)))
  {
    SameChanges(Filter(Watched(attributes), rows), AsOfInstant(t, validAt), AsOfInstant(t, 0));
  }

  lemma LaterEventsRaiseTheToken(table: Table, attributes: seq<string>, s: int, t: int, latest: int, row: Row, e: Event)
    requires Valid(table) && Clocked(table.rows, latest) && s <= t && attributes != []
    requires row in table.rows && row.fact.attribute in attributes && Underwent(row, e) && s < e.instant <= t
    ensures MaxChange(Filter(Watched(attributes), table.rows), AsOfInstant(s, 0))
      != MaxChange(Filter(Watched(attributes), table.rows), AsOfInstant(t, 0))
  {
    var watched := Filter(Watched(attributes), table.rows);
    MaxChangeIsMax(watched, AsOfInstant(s, 0));
    MaxChangeIsMax(watched, AsOfInstant(t, 0));
    EventsByTheInstantCount(table.rows, table.position, row, e, latest, t);
    assert Happened(table.rows, e);
    if MaxChange(watched, AsOfInstant(s, 0)) >= e.position {
      var other :| other in watched && LastChange(other, AsOfInstant(s, 0)) == MaxChange(watched, AsOfInstant(s, 0));
      var d := LastChangeHappened(table.rows, other, s);
    }
  }

  /**
   * While timestamps follow positions, two instants carry the same token exactly when no watched
   * row changed in between.
   */
  lemma EqualInstantTokensIffUntouched(table: Table, attributes: seq<string>, s: int, t: int, validAt: int, latest: int)
    requires Valid(table) && Clocked(table.rows, latest) && s <= t
    ensures Of(table.rows, attributes, AsOfInstant(s, validAt)).sourcePosition
        == Of(table.rows, attributes, AsOfInstant(t, validAt)).sourcePosition
      <==> !SomeTouchedBetween(table.rows, attributes, s, t)
  {
    InstantTokensIgnoreValidTime(table.rows, attributes, s, validAt);
    InstantTokensIgnoreValidTime(table.rows, attributes, t, validAt);
    if SomeTouchedBetween(table.rows, attributes, s, t) {
      var row, e :| row in table.rows && row.fact.attribute in attributes && Underwent(row, e) && s < e.instant <= t;
      LaterEventsRaiseTheToken(table, attributes, s, t, latest, row, e);
    } else {
      UntouchedChangesAgree(table, attributes, s, t);
    }
  }

  lemma UntouchedChangesAgree(table: Table, attributes: seq<string>, s: int, t: int)
    requires Valid(table) && s <= t && !SomeTouchedBetween(table.rows, attributes, s, t)
    ensures MaxChange(Filter(Watched(attributes), table.rows), AsOfInstant(s, 0))
      == MaxChange(Filter(Watched(attributes), table.rows), AsOfInstant(t, 0))
    ensures forall row :: row in table.rows && row.fact.attribute in attributes ==>
      Recorded(row, AsOfInstant(s, 0)) == Recorded(row, AsOfInstant(t, 0))
  {
    forall row | row in table.rows && row.fact.attribute in attributes
      ensures LastChange(row, AsOfInstant(s, 0)) == LastChange(row, AsOfInstant(t, 0))
      ensures Recorded(row, AsOfInstant(s, 0)) == Recorded(row, AsOfInstant(t, 0))
    {
      assert Sound(row, table.position);
      assert Underwent(row, Event(row.recordedPosition, row.recordedAt));
      if row.retractedAt.Some? {
        assert Underwent(row, Event(row.retractedPosition.value, row.retractedAt.value));
      }
    }
    SameChanges(Filter(Watched(attributes), table.rows), AsOfInstant(s, 0), AsOfInstant(t, 0));
  }

  /** So equal tokens at two instants still mean equal facts. */
  lemma EqualInstantTokensEqualFacts(table: Table, attributes: seq<string>, s: int, t: int, validAt: int, latest: int)
    requires Valid(table) && Clocked(table.rows, latest) && s <= t
    requires Of(table.rows, attributes, AsOfInstant(s, validAt)).sourcePosition
      == Of(table.rows, attributes, AsOfInstant(t, validAt)).sourcePosition
    ensures ReadAttributes(table.rows, attributes, AsOfInstant(s, validAt))
      == ReadAttributes(table.rows, attributes, AsOfInstant(t, validAt))
  {
    EqualInstantTokensIffUntouched(table, attributes, s, t, validAt, latest);
    UntouchedChangesAgree(table, attributes, s, t);
    var atS, atT := VisibleAmong(attributes, AsOfInstant(s, validAt)),
      VisibleAmong(attributes, AsOfInstant(t, validAt));
    forall row | row in table.rows ensures atS(row) == atT(row) {
      assert row.fact.attribute in attributes ==> Recorded(row, AsOfInstant(s, 0)) == Recorded(row, AsOfInstant(t, 0));
    }
    FilterPointwise(atS, atT, table.rows);
  }

  lemma ApplyAddsOneEvent(rows: seq<Row>, op: RowOp, timestamp: int, position: nat, e: Event)
    requires Apply(rows, op, timestamp, position).Ok? && Happened(Apply(rows, op, timestamp, position).value, e)
    ensures Happened(rows, e) || e == Event(position, timestamp)
  {
    var row :| row in Apply(rows, op, timestamp, position).value && Underwent(row, e);
    if op.RetractRow? {
      var was :| was in rows && Close(op.id, timestamp, position)(was) == row;
      assert e == Event(position, timestamp) || Underwent(was, e);
    } else {
      assert row in rows || row == Row(op.fact, timestamp, position, None, None);
    }
  }

  lemma {:induction false} ApplyAllAddsOneEvent(rows: seq<Row>, ops: seq<RowOp>, timestamp: int, position: nat,
                                                e: Event)
    requires ApplyAll(rows, ops, timestamp, position).Ok? && Happened(ApplyAll(rows, ops, timestamp, position).value, e)
    ensures Happened(rows, e) || e == Event(position, timestamp)
    decreases |ops|
  {
    if ops != [] {
      var next := Apply(rows, ops[0], timestamp, position).value;
      ApplyAllAddsOneEvent(next, ops[1..], timestamp, position, e);
      if Happened(next, e) {
        ApplyAddsOneEvent(rows, ops[0], timestamp, position, e);
      }
    }
  }

  lemma EventsAreNotAhead(table: Table, e: Event)
    requires Valid(table) && Happened(table.rows, e)
    ensures e.position <= table.position
  {
    var row :| row in table.rows && Underwent(row, e);
    assert Sound(row, table.position);
  }

  lemma CommitKeepsClocked(table: Table, commit: RowTable.Commit, latest: int)
    requires Valid(table) && Clocked(table.rows, latest) && latest <= commit.timestamp
    ensures Clocked(CommitTo(table, commit).rows, commit.timestamp)
  {
    var after, made := CommitTo(table, commit).rows, Event(table.position + 1, commit.timestamp);
    forall e | Happened(after, e) ensures Happened(table.rows, e) || e == made {
      if ApplyAll(table.rows, commit.ops, commit.timestamp, table.position + 1).Ok? {
        ApplyAllAddsOneEvent(table.rows, commit.ops, commit.timestamp, table.position + 1, e);
      }
    }
    forall d, e | Happened(after, d) && Happened(after, e) && d.position <= e.position ensures d.instant <= e.instant {
      if Happened(table.rows, e) {
        EventsAreNotAhead(table, e);
      }
    }
  }

  /** Timestamps that do not decrease from the last one on. */
  predicate NonDecreasing(commits: seq<RowTable.Commit>, latest: int) {
    commits == [] || (latest <= commits[0].timestamp && NonDecreasing(commits[1..], commits[0].timestamp))
  }

  /** A clock that never steps back keeps timestamps in the order of positions over every run. */
  lemma {:induction false} RunsKeepClocked(table: Table, commits: seq<RowTable.Commit>, latest: int) returns (last: int)
    requires Valid(table) && Clocked(table.rows, latest) && NonDecreasing(commits, latest)
    ensures latest <= last && Clocked(CommitAll(table, commits).rows, last)
    decreases |commits|
  {
    last := latest;
    if commits != [] {
      CommitKeepsValid(table, commits[0]);
      CommitKeepsClocked(table, commits[0], latest);
      last := RunsKeepClocked(CommitTo(table, commits[0]), commits[1..], commits[0].timestamp);
    }
  }

  lemma MaxChangeOfTwo(a: Row, b: Row, basis: Basis)
    ensures MaxChange([a, b], basis)
      == if LastChange(a, basis) > LastChange(b, basis) then LastChange(a, basis) else LastChange(b, basis)
  {
    assert [a, b][1..] == [b] && [b][1..] == [];
    assert MaxChange([b], basis) == LastChange(b, basis);
  }

  function Earlier(p: nat, hi: int): Row {
    Row(Triple(Stored("a"), "e", "x", StringValue(""), None, 0, None), hi, p, None, None)
  }

  function Later(p: nat, lo: int): Row {
    Row(Triple(Stored("b"), "e", "x", StringValue(""), None, 0, None), lo, p + 1, None, None)
  }

  /**
   * With a clock that steps back, two instants carry the same token although a
   * row recorded between them is visible at only one of them.
   */
  lemma InstantTokensNeedTheClock(p: nat, hi: int, lo: int)
    requires lo < hi
    ensures var rows := [Earlier(p, hi), Later(p, lo)];
      && Of(rows, ["x"], AsOfInstant(lo, 0)).sourcePosition
        == Of(rows, ["x"], AsOfInstant(hi, 0)).sourcePosition == p + 1
      && ReadAttributes(rows, ["x"], AsOfInstant(lo, 0)) != ReadAttributes(rows, ["x"], AsOfInstant(hi, 0))
  {
    var first, second := Earlier(p, hi), Later(p, lo);
    var rows := [first, second];
    assert rows[1..] == [second] && [second][1..] == [];
    FilterAll(Watched(["x"]), rows);
    MaxChangeOfTwo(first, second, AsOfInstant(lo, 0));
    MaxChangeOfTwo(first, second, AsOfInstant(hi, 0));
    var atLo, atHi := VisibleAmong(["x"], AsOfInstant(lo, 0)), VisibleAmong(["x"], AsOfInstant(hi, 0));
    assert first in Filter(atHi, rows) && first !in Filter(atLo, rows);
    SameReadIff(atLo, atHi, rows);
    assert atLo(first) != atHi(first);
  }

  // ---- Exactly the clocks that do not step back -----------------------------

  /** Equal tokens at two instants mean equal facts, whatever the attributes. */
  ghost predicate InstantTokensSuffice(rows: seq<Row>) {
    forall attributes: seq<string>, s: int, t: int, validAt: int
      {:trigger ReadAttributes(rows, attributes, AsOfInstant(s, validAt)),
        ReadAttributes(rows, attributes, AsOfInstant(t, validAt))} ::
      Of(rows, attributes, AsOfInstant(s, validAt)).sourcePosition
        == Of(rows, attributes, AsOfInstant(t, validAt)).sourcePosition ==>
      ReadAttributes(rows, attributes, AsOfInstant(s, validAt))
        == ReadAttributes(rows, attributes, AsOfInstant(t, validAt))
  }

  /** The commits happen at these timestamps. */
  ghost predicate HappenAt(commits: seq<RowTable.Commit>, timestamps: seq<int>) {
    |commits| == |timestamps| && forall i :: 0 <= i < |commits| ==> commits[i].timestamp == timestamps[i]
  }

  ghost predicate StepsBack(timestamps: seq<int>, i: nat) {
    i + 1 < |timestamps| && timestamps[i + 1] < timestamps[i]
  }

  lemma {:induction false} NeverBackIsNonDecreasing(commits: seq<RowTable.Commit>, timestamps: seq<int>, latest: int)
    requires HappenAt(commits, timestamps) && forall i: nat :: !StepsBack(timestamps, i)
    requires timestamps == [] || latest <= timestamps[0]
    ensures NonDecreasing(commits, latest)
  {
    if commits != [] {
      forall i: nat ensures !StepsBack(timestamps[1..], i) {
        assert !StepsBack(timestamps, i + 1);
      }
      assert !StepsBack(timestamps, 0);
      NeverBackIsNonDecreasing(commits[1..], timestamps[1..], timestamps[0]);
    }
  }

  lemma NeverBackSuffices(commits: seq<RowTable.Commit>, timestamps: seq<int>)
    requires HappenAt(commits, timestamps) && forall i: nat :: !StepsBack(timestamps, i)
    ensures InstantTokensSuffice(CommitAll(EMPTY, commits).rows)
  {
    var table, latest := CommitAll(EMPTY, commits), if timestamps == [] then 0 else timestamps[0];
    NeverBackIsNonDecreasing(commits, timestamps, latest);
    var last := RunsKeepClocked(EMPTY, commits, latest);
    RunsKeepValid(EMPTY, commits);
    forall attributes: seq<string>, s: int, t: int, validAt: int
      | Of(table.rows, attributes, AsOfInstant(s, validAt)).sourcePosition
        == Of(table.rows, attributes, AsOfInstant(t, validAt)).sourcePosition
      ensures ReadAttributes(table.rows, attributes, AsOfInstant(s, validAt))
        == ReadAttributes(table.rows, attributes, AsOfInstant(t, validAt))
    {
      if s <= t {
        EqualInstantTokensEqualFacts(table, attributes, s, t, validAt, last);
      } else {
        EqualInstantTokensEqualFacts(table, attributes, t, s, validAt, last);
      }
    }
  }

  lemma {:induction false} CommitAllConcat(table: Table, a: seq<RowTable.Commit>, b: seq<RowTable.Commit>)
    ensures CommitAll(table, a + b) == CommitAll(CommitAll(table, a), b)
    decreases |a|
  {
    if a == [] {
      assert a + b == b;
    } else {
      assert (a + b)[1..] == a[1..] + b;
      CommitAllConcat(CommitTo(table, a[0]), a[1..], b);
    }
  }

  /** Transactions that write nothing. */
  function Idle(timestamps: seq<int>): (commits: seq<RowTable.Commit>)
    ensures HappenAt(commits, timestamps)
  {
    if timestamps == [] then [] else [RowTable.Commit([], timestamps[0])] + Idle(timestamps[1..])
  }

  lemma {:induction false} IdleWritesNothing(table: Table, timestamps: seq<int>)
    ensures CommitAll(table, Idle(timestamps)) == Table(table.rows, table.position + |timestamps|)
    decreases |timestamps|
  {
    if timestamps != [] {
      assert Idle(timestamps)[1..] == Idle(timestamps[1..]);
      IdleWritesNothing(CommitTo(table, RowTable.Commit([], timestamps[0])), timestamps[1..]);
    }
  }

  lemma OneInsert(table: Table, fact: Triple, timestamp: int)
    requires !HasId(table.rows, fact.id)
    ensures CommitAll(table, [RowTable.Commit([InsertRow(fact)], timestamp)])
      == Table(table.rows + [Row(fact, timestamp, table.position + 1, None, None)], table.position + 1)
  {
    var ops := [InsertRow(fact)];
    var written := table.rows + [Row(fact, timestamp, table.position + 1, None, None)];
    assert Apply(table.rows, ops[0], timestamp, table.position + 1) == Ok(written);
    assert ApplyAll(written, ops[1..], timestamp, table.position + 1) == Ok(written);
    assert [RowTable.Commit(ops, timestamp)][1..] == [];
  }

  function Inserting(row: Row): RowTable.Commit {
    RowTable.Commit([InsertRow(row.fact)], row.recordedAt)
  }

  lemma LaterIsWritten(p: nat, hi: int, lo: int, after: seq<int>)
    ensures CommitAll(Table([Earlier(p, hi)], p), [Inserting(Later(p, lo))] + Idle(after)).rows
      == [Earlier(p, hi), Later(p, lo)]
  {
    CommitAllConcat(Table([Earlier(p, hi)], p), [Inserting(Later(p, lo))], Idle(after));
    OneInsert(Table([Earlier(p, hi)], p), Later(p, lo).fact, lo);
    assert [Earlier(p, hi)] + [Later(p, lo)] == [Earlier(p, hi), Later(p, lo)];
    IdleWritesNothing(Table([Earlier(p, hi), Later(p, lo)], p + 1), after);
  }

  lemma BothAreWritten(p: nat, hi: int, lo: int, after: seq<int>)
    requires p > 0
    ensures CommitAll(Table([], p - 1), [Inserting(Earlier(p, hi))] + ([Inserting(Later(p, lo))] + Idle(after))).rows
      == [Earlier(p, hi), Later(p, lo)]
  {
    CommitAllConcat(Table([], p - 1), [Inserting(Earlier(p, hi))], [Inserting(Later(p, lo))] + Idle(after));
    OneInsert(Table([], p - 1), Earlier(p, hi).fact, hi);
    assert [] + [Earlier(p, hi)] == [Earlier(p, hi)];
    LaterIsWritten(p, hi, lo, after);
  }

  lemma InvertedRowsDeceive(p: nat, hi: int, lo: int, rows: seq<Row>)
    requires lo < hi && rows == [Earlier(p, hi), Later(p, lo)]
    ensures !InstantTokensSuffice(rows)
  {
    InstantTokensNeedTheClock(p, hi, lo);
    assert ReadAttributes(rows, ["x"], AsOfInstant(lo, 0)) != ReadAttributes(rows, ["x"], AsOfInstant(hi, 0));
  }

  lemma HappenInTurn(a: seq<RowTable.Commit>, at: seq<int>, b: seq<RowTable.Commit>, next: seq<int>)
    requires HappenAt(a, at) && HappenAt(b, next)
    ensures HappenAt(a + b, at + next)
  {
  }

  lemma BothHappen(p: nat, hi: int, lo: int, after: seq<int>)
    ensures HappenAt([Inserting(Earlier(p, hi))] + ([Inserting(Later(p, lo))] + Idle(after)), [hi] + ([lo] + after))
  {
    HappenInTurn([Inserting(Later(p, lo))], [lo], Idle(after), after);
    HappenInTurn([Inserting(Earlier(p, hi))], [hi], [Inserting(Later(p, lo))] + Idle(after), [lo] + after);
  }

  /** Where the clock steps back, two commits that insert one fact each, and nothing before or after them. */
  lemma SteppingBackDeceives(timestamps: seq<int>, i: nat) returns (commits: seq<RowTable.Commit>)
    requires StepsBack(timestamps, i)
    ensures HappenAt(commits, timestamps) && !InstantTokensSuffice(CommitAll(EMPTY, commits).rows)
  {
    var hi, lo, p, before, after := timestamps[i], timestamps[i + 1], i + 1, timestamps[..i], timestamps[i + 2..];
    var rest := [Inserting(Earlier(p, hi))] + ([Inserting(Later(p, lo))] + Idle(after));
    commits := Idle(before) + rest;
    BothHappen(p, hi, lo, after);
    HappenInTurn(Idle(before), before, rest, [hi] + ([lo] + after));
    assert timestamps == before + ([hi] + ([lo] + after));
    CommitAllConcat(EMPTY, Idle(before), rest);
    IdleWritesNothing(EMPTY, before);
    BothAreWritten(p, hi, lo, after);
    InvertedRowsDeceive(p, hi, lo, CommitAll(EMPTY, commits).rows);
  }

  /**
   * Whatever commits write at these timestamps, equal tokens as of two instants
   * mean equal facts, exactly when the timestamps never step back.
   */
  lemma InstantTokensSufficeIff(timestamps: seq<int>)
    ensures (forall commits {:trigger CommitAll(EMPTY, commits)} ::
               HappenAt(commits, timestamps) ==> InstantTokensSuffice(CommitAll(EMPTY, commits).rows))
      <==> forall i: nat {:trigger StepsBack(timestamps, i)} :: !StepsBack(timestamps, i)
  {
    if i: nat :| StepsBack(timestamps, i) {
      var commits := SteppingBackDeceives(timestamps, i);
      assert !InstantTokensSuffice(CommitAll(EMPTY, commits).rows);
    } else {
      forall commits | HappenAt(commits, timestamps) ensures InstantTokensSuffice(CommitAll(EMPTY, commits).rows) {
        NeverBackSuffices(commits, timestamps);
      }
    }
  }

  // ---- Wake-up ------------------------------------------------------------

  lemma {:induction false} MinEndpointIsMin(rows: seq<Row>, validAt: int)
    ensures MinEndpoint(rows, validAt).None? ==> forall row :: row in rows ==> NextEndpoint(row, validAt).None?
    ensures MinEndpoint(rows, validAt).Some? ==>
      && (exists row :: row in rows && NextEndpoint(row, validAt) == MinEndpoint(rows, validAt))
      && forall row :: row in rows && NextEndpoint(row, validAt).Some? ==>
           MinEndpoint(rows, validAt).value <= NextEndpoint(row, validAt).value
  {
    if rows != [] {
      MinEndpointIsMin(rows[1..], validAt);
      assert rows == [rows[0]] + rows[1..];
    }
  }

  /** The recorded rows of the watched attributes. */
  function Candidates(rows: seq<Row>, attributes: seq<string>, basis: Basis): seq<Row> {
    Filter((row: Row) => Recorded(row, basis), Filter(Watched(attributes), rows))
  }

  /** Until the boundary, no read of the attributes at a later instant differs. */
  lemma NothingChangesBeforeTheBoundary(rows: seq<Row>, attributes: seq<string>, basis: Basis, t: int)
    requires attributes != [] && basis.validAt <= t
    requires var boundary := Of(rows, attributes, basis).nextTemporalBoundary; boundary.Some? ==> t < boundary.value
    ensures ReadAttributes(rows, attributes, basis.(validAt := t)) == ReadAttributes(rows, attributes, basis)
  {
    MinEndpointIsMin(Candidates(rows, attributes, basis), basis.validAt);
    var later, now := VisibleAmong(attributes, basis.(validAt := t)), VisibleAmong(attributes, basis);
    forall row | row in rows ensures later(row) == now(row) {
      if row.fact.attribute in attributes && Recorded(row, basis) {
        assert row in Candidates(rows, attributes, basis);
      }
    }
    FilterPointwise(later, now, rows);
  }

  /** A row whose interval is not empty and whose next endpoint is the boundary. */
  predicate Turns(row: Row, validAt: int, boundary: int) {
    NextEndpoint(row, validAt) == Some(boundary)
    && (row.fact.validTo.None? || row.fact.validFrom < row.fact.validTo.value)
  }

  /** The row is visible at one of the two instants and not at the other. */
  predicate Flips(row: Row, basis: Basis, t: int) {
    Visible(row, basis.(validAt := t)) != Visible(row, basis)
  }

  lemma FlipIsATurn(rows: seq<Row>, attributes: seq<string>, basis: Basis, boundary: int, row: Row)
    requires attributes != [] && Of(rows, attributes, basis).nextTemporalBoundary == Some(boundary)
    requires row in rows && row.fact.attribute in attributes
    ensures Flips(row, basis, boundary)
      <==> row in Candidates(rows, attributes, basis) && Turns(row, basis.validAt, boundary)
  {
    MinEndpointIsMin(Candidates(rows, attributes, basis), basis.validAt);
  }

  /**
   * At the boundary itself the visible rows change exactly when some row turning
   * there has a non-empty interval; an empty interval wakes the reader for nothing.
   */
  lemma BoundaryIsTightIff(rows: seq<Row>, attributes: seq<string>, basis: Basis, boundary: int)
    requires attributes != [] && Of(rows, attributes, basis).nextTemporalBoundary == Some(boundary)
    ensures (exists row :: row in rows && row.fact.attribute in attributes && Flips(row, basis, boundary))
      <==> exists row :: row in Candidates(rows, attributes, basis) && Turns(row, basis.validAt, boundary)
  {
    if row :| row in rows && row.fact.attribute in attributes && Flips(row, basis, boundary) {
      FlipIsATurn(rows, attributes, basis, boundary, row);
    }
    if row :| row in Candidates(rows, attributes, basis) && Turns(row, basis.validAt, boundary) {
      assert row in rows && row.fact.attribute in attributes;
      FlipIsATurn(rows, attributes, basis, boundary, row);
    }
  }
}
