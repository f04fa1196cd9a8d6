/**
 * The bitemporal row table as an append-and-close state machine: what each
 * commit writes, what a read at a basis sees, and why old reads never change.
 */
module RowTable {
  import opened Wrappers
  import opened Seqs
  import opened Triples

  datatype Row = Row(
    fact: Triple,
    recordedAt: int,
    recordedPosition: nat,
    retractedAt: Option<int>,
    retractedPosition: Option<nat>)

  /** Rows, and the last commit position handed out. */
  datatype Table = Table(rows: seq<Row>, position: nat)

  const EMPTY := Table([], 0)

  datatype RowOp = InsertRow(fact: Triple) | RetractRow(id: TripleId)

  datatype WriteError = DuplicateId(id: TripleId) | WrongIdCount(expected: nat, got: nat)

  // ---- Writing ------------------------------------------------------------

  predicate HasId(rows: seq<Row>, id: TripleId) {
    exists row :: row in rows && row.fact.id == id
  }

  predicate Closes(row: Row, id: TripleId) {
    row.fact.id == id && row.retractedAt.None?
  }

  function Close(id: TripleId, timestamp: int, position: nat): Row -> Row {
    (row: Row) =>
      if Closes(row, id) then row.(retractedAt := Some(timestamp), retractedPosition := Some(position)) else row
  }

  function Apply(rows: seq<Row>, op: RowOp, timestamp: int, position: nat): Result<seq<Row>, WriteError> {
    match op
    case InsertRow(fact) =>
      if HasId(rows, fact.id) then Err(DuplicateId(fact.id))
      else Ok(rows + [Row(fact, timestamp, position, None, None)])
    case RetractRow(id) => Ok(Map(Close(id, timestamp, position), rows))
  }

  function ApplyAll(rows: seq<Row>, ops: seq<RowOp>, timestamp: int, position: nat): Result<seq<Row>, WriteError>
    decreases |ops|
  {
    if ops == [] then Ok(rows)
    else
      var first := Apply(rows, ops[0], timestamp, position);
      if first.Err? then first else ApplyAll(first.value, ops[1..], timestamp, position)
  }

  datatype Commit = Commit(ops: seq<RowOp>, timestamp: int)

  /** One transaction: all of its writes under the next position, or nothing at all. */
  function CommitTo(table: Table, commit: Commit): Table {
    var written := ApplyAll(table.rows, commit.ops, commit.timestamp, table.position + 1);
    if written.Err? then table else Table(written.value, table.position + 1)
  }

  function CommitAll(table: Table, commits: seq<Commit>): Table
    decreases |commits|
  {
    if commits == [] then table else CommitAll(CommitTo(table, commits[0]), commits[1..])
  }

  // ---- Reading ------------------------------------------------------------

  datatype Basis = Basis(recordedAt: Option<int>, recordedPosition: Option<nat>, validAt: int)

  /** Was the row recorded and not yet retracted, as of the basis? */
  predicate Recorded(row: Row, basis: Basis) {
    if basis.recordedPosition.Some? then
      row.recordedPosition <= basis.recordedPosition.value
      && (row.retractedPosition.None? || row.retractedPosition.value > basis.recordedPosition.value)
    else if basis.recordedAt.Some? then
      row.recordedAt <= basis.recordedAt.value
        && (row.retractedAt.None? || row.retractedAt.value > basis.recordedAt.value)
    else
      row.retractedAt.None?
  }

  predicate Visible(row: Row, basis: Basis) {
    Recorded(row, basis) && VisibleAt(row.fact, basis.validAt)
  }

  function FactsOf(p: Row -> bool, rows: seq<Row>): seq<Triple> {
    Map((row: Row) => row.fact, Filter(p, rows))
  }

  /** The facts recorded as of a commit position, whatever their valid time. */
  function Snapshot(rows: seq<Row>, position: nat): seq<Triple> {
    FactsOf((row: Row) => Recorded(row, Basis(None, Some(position), 0)), rows)
  }

  /** The facts no transaction has retracted. */
  function Live(rows: seq<Row>): seq<Triple> {
    FactsOf((row: Row) => row.retractedAt.None?, rows)
  }

  function VisibleIn(basis: Basis): Row -> bool {
    (row: Row) => Visible(row, basis)
  }

  /** The facts a read at a basis returns, before any pattern. */
  function Read(rows: seq<Row>, basis: Basis): seq<Triple> {
    FactsOf(VisibleIn(basis), rows)
  }

  // ---- The invariant ------------------------------------------------------

  ghost predicate Sound(row: Row, position: nat) {
    && row.recordedPosition <= position
    && (row.retractedAt.Some? <==> row.retractedPosition.Some?)
    && (row.retractedPosition.Some? ==> row.recordedPosition <= row.retractedPosition.value <= position)
  }

  ghost predicate SoundRows(rows: seq<Row>, position: nat) {
    && (forall row :: row in rows ==> Sound(row, position))
    && forall i, j :: 0 <= i < j < |rows| ==> rows[i].fact.id != rows[j].fact.id
  }

  ghost predicate Valid(table: Table) {
    SoundRows(table.rows, table.position)
  }

  lemma SoundLater(rows: seq<Row>, position: nat, later: nat)
    requires SoundRows(rows, position) && position <= later
    ensures SoundRows(rows, later)
  {
  }

  lemma ApplyKeepsSound(rows: seq<Row>, op: RowOp, timestamp: int, position: nat)
    requires SoundRows(rows, position) && Apply(rows, op, timestamp, position).Ok?
    ensures SoundRows(Apply(rows, op, timestamp, position).value, position)
  {
    var next := Apply(rows, op, timestamp, position).value;
    forall i | 0 <= i < |rows| ensures next[i].fact.id == rows[i].fact.id && Sound(next[i], position) {
      assert rows[i] in rows;
    }
    if op.InsertRow? {
      assert forall i :: 0 <= i < |rows| ==> rows[i] in rows && rows[i].fact.id != op.fact.id;
    }
  }

  lemma {:induction false} ApplyAllKeepsSound(rows: seq<Row>, ops: seq<RowOp>, timestamp: int, position: nat)
    requires SoundRows(rows, position) && ApplyAll(rows, ops, timestamp, position).Ok?
    ensures SoundRows(ApplyAll(rows, ops, timestamp, position).value, position)
    decreases |ops|
  {
    if ops != [] {
      ApplyKeepsSound(rows, ops[0], timestamp, position);
      ApplyAllKeepsSound(Apply(rows, ops[0], timestamp, position).value, ops[1..], timestamp, position);
    }
  }

  lemma CommitKeepsValid(table: Table, commit: Commit)
    requires Valid(table)
    ensures Valid(CommitTo(table, commit)) && table.position <= CommitTo(table, commit).position
  {
    SoundLater(table.rows, table.position, table.position + 1);
    if ApplyAll(table.rows, commit.ops, commit.timestamp, table.position + 1).Ok? {
      ApplyAllKeepsSound(table.rows, commit.ops, commit.timestamp, table.position + 1);
    }
  }

  lemma {:induction false} RunsKeepValid(table: Table, commits: seq<Commit>)
    requires Valid(table)
    ensures Valid(CommitAll(table, commits)) && table.position <= CommitAll(table, commits).position
    decreases |commits|
  {
    if commits != [] {
      CommitKeepsValid(table, commits[0]);
      RunsKeepValid(CommitTo(table, commits[0]), commits[1..]);
    }
  }

  // ---- Time travel --------------------------------------------------------

  /** A point on the recorded axis: a commit position, or an instant. */
  datatype Cut = AtPosition(position: nat) | AtInstant(instant: int)

  predicate After(timestamp: int, position: nat, cut: Cut) {
    match cut
    case AtPosition(p) => position > p
    case AtInstant(t) => timestamp > t
  }

  predicate ClosedAfter(row: Row, cut: Cut) {
    row.retractedAt.Some? && row.retractedPosition.Some?
      && After(row.retractedAt.value, row.retractedPosition.value, cut)
  }

  /** The same row, except that it may have been closed after the cut. */
  predicate SameRowUpTo(a: Row, b: Row, cut: Cut) {
    && a.fact == b.fact && a.recordedAt == b.recordedAt && a.recordedPosition == b.recordedPosition
    && (a == b || (a.retractedAt.None? && a.retractedPosition.None? && ClosedAfter(b, cut)))
  }

  /** Row lists that a reader at or before the cut cannot tell apart. */
  ghost predicate SameUpTo(a: seq<Row>, b: seq<Row>, cut: Cut) {
    && |a| <= |b|
    && (forall i :: 0 <= i < |a| ==> SameRowUpTo(a[i], b[i], cut))
    && forall i :: |a| <= i < |b| ==> After(b[i].recordedAt, b[i].recordedPosition, cut)
  }

  lemma ApplyIsInvisibleBefore(rows: seq<Row>, op: RowOp, timestamp: int, position: nat, cut: Cut)
    requires SoundRows(rows, position) && Apply(rows, op, timestamp, position).Ok? && After(timestamp, position, cut)
    ensures SameUpTo(rows, Apply(rows, op, timestamp, position).value, cut)
  {
    forall i | 0 <= i < |rows| ensures SameRowUpTo(rows[i], Apply(rows, op, timestamp, position).value[i], cut) {
      assert rows[i] in rows;
    }
  }

  lemma SameUpToIsTransitive(a: seq<Row>, b: seq<Row>, c: seq<Row>, cut: Cut)
    requires SameUpTo(a, b, cut) && SameUpTo(b, c, cut)
    ensures SameUpTo(a, c, cut)
  {
    forall i | 0 <= i < |a| ensures SameRowUpTo(a[i], c[i], cut) {
      assert SameRowUpTo(a[i], b[i], cut) && SameRowUpTo(b[i], c[i], cut);
    }
    forall i | |a| <= i < |c| ensures After(c[i].recordedAt, c[i].recordedPosition, cut) {
      assert i < |b| ==> SameRowUpTo(b[i], c[i], cut);
    }
  }

  lemma {:induction false} ApplyAllIsInvisibleBefore(rows: seq<Row>, ops: seq<RowOp>, timestamp: int, position: nat,
        cut: Cut)
    requires SoundRows(rows, position) && ApplyAll(rows, ops, timestamp, position).Ok?
    requires After(timestamp, position, cut)
    ensures SameUpTo(rows, ApplyAll(rows, ops, timestamp, position).value, cut)
    decreases |ops|
  {
    if ops != [] {
      var next := Apply(rows, ops[0], timestamp, position).value;
      ApplyKeepsSound(rows, ops[0], timestamp, position);
      ApplyIsInvisibleBefore(rows, ops[0], timestamp, position, cut);
      ApplyAllIsInvisibleBefore(next, ops[1..], timestamp, position, cut);
      SameUpToIsTransitive(rows, next, ApplyAll(rows, ops, timestamp, position).value, cut);
    }
  }

  /** Every commit of the run happens after the cut. */
  ghost predicate RunsAfter(table: Table, commits: seq<Commit>, cut: Cut) {
    match cut
    case AtPosition(p) => p <= table.position
    case AtInstant(t) => forall commit :: commit in commits ==> commit.timestamp > t
  }

  lemma CommitIsInvisibleBefore(table: Table, commit: Commit, cut: Cut)
    requires Valid(table) && RunsAfter(table, [commit], cut)
    ensures SameUpTo(table.rows, CommitTo(table, commit).rows, cut)
  {
    SoundLater(table.rows, table.position, table.position + 1);
    if ApplyAll(table.rows, commit.ops, commit.timestamp, table.position + 1).Ok? {
      assert commit in [commit];
      ApplyAllIsInvisibleBefore(table.rows, commit.ops, commit.timestamp, table.position + 1, cut);
    }
  }

  /** Later transactions, whatever they insert or retract, are invisible before the cut. */
  lemma {:induction false} RunsAreInvisibleBefore(table: Table, commits: seq<Commit>, cut: Cut)
    requires Valid(table) && RunsAfter(table, commits, cut)
    ensures SameUpTo(table.rows, CommitAll(table, commits).rows, cut)
    decreases |commits|
  {
    if commits != [] {
      var next := CommitTo(table, commits[0]);
      CommitKeepsValid(table, commits[0]);
      RunsAreInvisibleBefore(next, commits[1..], cut);
      CommitIsInvisibleBefore(table, commits[0], cut);
      SameUpToIsTransitive(table.rows, next.rows, CommitAll(table, commits).rows, cut);
    }
  }

  /** Rows indistinguishable up to the cut yield the same facts under any condition blind to what comes after it. */
  lemma {:induction false} SameFacts(cond: Row -> bool, a: seq<Row>, b: seq<Row>, cut: Cut)
    requires SameUpTo(a, b, cut)
    requires forall x, y :: SameRowUpTo(x, y, cut) ==> cond(x) == cond(y)
    requires forall y: Row :: After(y.recordedAt, y.recordedPosition, cut) ==> !cond(y)
    ensures FactsOf(cond, a) == FactsOf(cond, b)
  {
    if a == [] {
      FilterNone(cond, b);
    } else {
      assert SameRowUpTo(a[0], b[0], cut);
      forall i | 0 <= i < |a[1..]| ensures SameRowUpTo(a[1..][i], b[1..][i], cut) {
        assert SameRowUpTo(a[i + 1], b[i + 1], cut);
      }
      SameFacts(cond, a[1..], b[1..], cut);
      assert a == [a[0]] + a[1..] && b == [b[0]] + b[1..];
    }
  }

  predicate HasCut(basis: Basis) {
    basis.recordedPosition.Some? || basis.recordedAt.Some?
  }

  function CutOf(basis: Basis): Cut
    requires HasCut(basis)
  {
    if basis.recordedPosition.Some? then AtPosition(basis.recordedPosition.value) else AtInstant(basis.recordedAt.value)
  }

  /** A read as of a recorded position, or of an instant before all later commits, never changes. */
  lemma ReadsAreStable(table: Table, commits: seq<Commit>, basis: Basis)
    requires Valid(table) && HasCut(basis) && RunsAfter(table, commits, CutOf(basis))
    ensures Read(CommitAll(table, commits).rows, basis) == Read(table.rows, basis)
  {
    RunsAreInvisibleBefore(table, commits, CutOf(basis));
    SameFacts(VisibleIn(basis), table.rows, CommitAll(table, commits).rows, CutOf(basis));
  }

  /** The facts recorded as of a position are those that were live right after that commit, forever after. */
  lemma TimeTravelIsExact(table: Table, commits: seq<Commit>)
    requires Valid(table)
    ensures Snapshot(CommitAll(table, commits).rows, table.position) == Live(table.rows)
  {
    var p := table.position;
    var recorded := (row: Row) => Recorded(row, Basis(None, Some(p), 0));
    RunsAreInvisibleBefore(table, commits, AtPosition(p));
    SameFacts(recorded, table.rows, CommitAll(table, commits).rows, AtPosition(p));
    forall row | row in table.rows ensures recorded(row) == row.retractedAt.None? {
      assert Sound(row, p);
    }
    FilterPointwise(recorded, (row: Row) => row.retractedAt.None?, table.rows);
  }

  // ---- Reads as of an instant ----------------------------------------------

  ghost predicate ReadUnchanged(table: Table, commit: Commit, basis: Basis) {
    Read(CommitTo(table, commit).rows, basis) == Read(table.rows, basis)
  }

  /** A first row is seen as of every instant from its own timestamp on. */
  lemma FirstRowIsSeen(fact: Triple, timestamp: int, t: int)
    requires VisibleAt(fact, fact.validFrom) && timestamp <= t
    ensures Valid(EMPTY)
    ensures !ReadUnchanged(EMPTY, Commit([InsertRow(fact)], timestamp), Basis(Some(t), None, fact.validFrom))
  {
    var row, ops, basis := Row(fact, timestamp, 1, None, None), [InsertRow(fact)], Basis(Some(t), None, fact.validFrom);
    assert ops[1..] == [];
    assert ApplyAll([row], ops[1..], timestamp, 1) == Ok([row]);
    assert EMPTY.rows + [row] == [row];
    assert Apply(EMPTY.rows, ops[0], timestamp, 1) == Ok([row]);
    assert ApplyAll(EMPTY.rows, ops, timestamp, 1) == Ok([row]);
    assert Filter(VisibleIn(basis), [row]) == [row] by {
      assert [row][1..] == [];
    }
    assert |Read([row], basis)| == 1 && Read(EMPTY.rows, basis) == [];
  }

  /**
   * A timestamp is not a commit position: a commit leaves every read as of an
   * instant unchanged, in every table, exactly when its timestamp is later.
   */
  lemma InstantReadsAreStableIff(timestamp: int, t: int)
    ensures (forall table: Table, ops: seq<RowOp>, validAt: int
               {:trigger ReadUnchanged(table, Commit(ops, timestamp), Basis(Some(t), None, validAt))} ::
               Valid(table) ==> ReadUnchanged(table, Commit(ops, timestamp), Basis(Some(t), None, validAt)))
      <==> timestamp > t
  {
    if timestamp > t {
      forall table: Table, ops: seq<RowOp>, validAt: int | Valid(table)
        ensures ReadUnchanged(table, Commit(ops, timestamp), Basis(Some(t), None, validAt))
      {
        var basis := Basis(Some(t), None, validAt);
        CommitIsInvisibleBefore(table, Commit(ops, timestamp), AtInstant(t));
        SameFacts(VisibleIn(basis), table.rows, CommitTo(table, Commit(ops, timestamp)).rows, AtInstant(t));
      }
    } else {
      var fact := Triple(Stored(""), "", "", StringValue(""), None, 0, None);
      FirstRowIsSeen(fact, timestamp, t);
      assert !ReadUnchanged(EMPTY, Commit([InsertRow(fact)], timestamp), Basis(Some(t), None, fact.validFrom));
    }
  }

  /** Two conditions read the same facts off rows with distinct ids exactly when they agree on every row. */
  lemma {:induction false} SameReadIff(p: Row -> bool, q: Row -> bool, rows: seq<Row>)
    requires forall i, j :: 0 <= i < j < |rows| ==> rows[i].fact.id != rows[j].fact.id
    ensures FactsOf(p, rows) == FactsOf(q, rows) <==> forall row :: row in rows ==> p(row) == q(row)
  {
    if rows != [] {
      var row, rest := rows[0], rows[1..];
      SameReadIff(p, q, rest);
      assert rows == [row] + rest;
      assert forall other :: other in rest ==> other.fact.id != row.fact.id;
      FirstFact(p, rows);
      FirstFact(q, rows);
      assert forall f :: f in FactsOf(p, rest) || f in FactsOf(q, rest) ==> f.id != row.fact.id;
      if p(row) && q(row) && FactsOf(p, rows) == FactsOf(q, rows) {
        assert FactsOf(p, rest) == FactsOf(p, rows)[1..] == FactsOf(q, rest);
      }
      if p(row) != q(row) {
        assert row.fact in FactsOf(p, rows) <==> row.fact !in FactsOf(q, rows);
      }
    }
  }

  lemma FirstFact(p: Row -> bool, rows: seq<Row>)
    requires rows != []
    ensures FactsOf(p, rows) == (if p(rows[0]) then [rows[0].fact] else []) + FactsOf(p, rows[1..])
  {
    if p(rows[0]) {
      MapConcat((row: Row) => row.fact, [rows[0]], Filter(p, rows[1..]));
      assert Map((row: Row) => row.fact, [rows[0]]) == [rows[0].fact];
    }
  }

  /**
   * The row is live though it was recorded after the instant, or closed since although it was live
   * as of the instant.
   */
  predicate MovedSince(row: Row, t: int) {
    if row.retractedAt.None? then row.recordedAt > t else row.recordedAt <= t < row.retractedAt.value
  }

  /**
   * A read cut at the last position shows what was recorded as of an instant
   * exactly when no visible row was recorded or closed after it.
   */
  lemma HeadShowsTheInstantIff(table: Table, t: int, validAt: int)
    requires Valid(table)
    ensures Read(table.rows, Basis(Some(t), Some(table.position), validAt))
      == Read(table.rows, Basis(Some(t), None, validAt))
      <==> !exists row :: row in table.rows && VisibleAt(row.fact, validAt) && MovedSince(row, t)
  {
    var atHead, atInstant :=
      VisibleIn(Basis(Some(t), Some(table.position), validAt)), VisibleIn(Basis(Some(t), None, validAt));
    forall row | row in table.rows
      ensures (atHead(row) != atInstant(row)) <==> (VisibleAt(row.fact, validAt) && MovedSince(row, t))
    {
      assert Sound(row, table.position);
    }
    SameReadIff(atHead, atInstant, table.rows);
  }
}
