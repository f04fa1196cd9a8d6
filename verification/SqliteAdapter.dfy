/**
 * The storage adapter: in-place inserts, retractions and reads over the row
 * table, and the transaction loop that drives them.
 */
module SqliteAdapter {
  import opened Wrappers
  import opened Seqs
  import opened Triples
  import opened RowTable
  import Constraint
  import Commits = Commit

  const BATCH_SIZE: nat := 500

  function Inserts(facts: seq<Triple>): (ops: seq<RowOp>)
    ensures |ops| == |facts|
    ensures forall i :: 0 <= i < |facts| ==> ops[i] == InsertRow(facts[i])
  {
    if facts == [] then [] else [InsertRow(facts[0])] + Inserts(facts[1..])
  }

  lemma {:induction false} ApplyAllConcat(rows: seq<Row>, a: seq<RowOp>, b: seq<RowOp>, timestamp: int, position: nat)
    ensures ApplyAll(rows, a + b, timestamp, position) ==
      var first := ApplyAll(rows, a, timestamp, position);
      if first.Err? then first else ApplyAll(first.value, b, timestamp, position)
    decreases |a|
  {
    if a == [] {
      assert a + b == b;
    } else {
      assert (a + b)[1..] == a[1..] + b;
      var first := Apply(rows, a[0], timestamp, position);
      if first.Ok? {
        ApplyAllConcat(first.value, a[1..], b, timestamp, position);
      }
    }
  }

  lemma InsertsConcat(rows: seq<Row>, a: seq<Triple>, b: seq<Triple>, timestamp: int, at: nat)
    ensures ApplyAll(rows, Inserts(a + b), timestamp, at) ==
      var first := ApplyAll(rows, Inserts(a), timestamp, at);
      if first.Err? then first else ApplyAll(first.value, Inserts(b), timestamp, at)
  {
    assert Inserts(a + b) == Inserts(a) + Inserts(b);
    ApplyAllConcat(rows, Inserts(a), Inserts(b), timestamp, at);
  }

  lemma ApplyOneMore(rows: seq<Row>, ops: seq<RowOp>, i: nat, timestamp: int, at: nat)
    requires i < |ops| && ApplyAll(rows, ops[..i], timestamp, at).Ok?
    ensures ApplyAll(rows, ops[..i + 1], timestamp, at)
      == Apply(ApplyAll(rows, ops[..i], timestamp, at).value, ops[i], timestamp, at)
    ensures ApplyAll(rows, ops[..i + 1], timestamp, at).Err? ==> ApplyAll(rows, ops, timestamp, at).Err?
  {
    var one := [ops[i]];
    assert one[1..] == [];
    assert ops[..i + 1] == ops[..i] + one && ops == ops[..i + 1] + ops[i + 1..];
    ApplyAllConcat(rows, ops[..i], one, timestamp, at);
    ApplyAllConcat(rows, ops[..i + 1], ops[i + 1..], timestamp, at);
  }

  /** Applying a chunk after a prefix applies the longer prefix; a failing prefix fails the whole. */
  lemma InsertsSplit(rows: seq<Row>, facts: seq<Triple>, i: nat, end: nat, timestamp: int, at: nat)
    requires i <= end <= |facts| && ApplyAll(rows, Inserts(facts[..i]), timestamp, at).Ok?
    ensures ApplyAll(rows, Inserts(facts[..end]), timestamp, at)
      == ApplyAll(ApplyAll(rows, Inserts(facts[..i]), timestamp, at).value, Inserts(facts[i..end]), timestamp, at)
    ensures ApplyAll(rows, Inserts(facts[..end]), timestamp, at).Err? ==>
      ApplyAll(rows, Inserts(facts), timestamp, at).Err?
  {
    assert facts[..end] == facts[..i] + facts[i..end] && facts == facts[..end] + facts[end..];
    InsertsConcat(rows, facts[..i], facts[i..end], timestamp, at);
    InsertsConcat(rows, facts[..end], facts[end..], timestamp, at);
  }

  lemma OneInsert(rows: seq<Row>, fact: Triple, timestamp: int, at: nat)
    ensures ApplyAll(rows, Inserts([fact]), timestamp, at) == Apply(rows, InsertRow(fact), timestamp, at)
  {
    assert Inserts([fact])[1..] == [];
  }

  // ---- Live facts under one write -----------------------------------------

  lemma FactsOfConcat(p: Row -> bool, a: seq<Row>, b: seq<Row>)
    ensures FactsOf(p, a + b) == FactsOf(p, a) + FactsOf(p, b)
  {
    FilterConcat(p, a, b);
    MapConcat((row: Row) => row.fact, Filter(p, a), Filter(p, b));
  }

  /** Inserting appends to the live facts. */
  lemma LiveAfterInsert(rows: seq<Row>, row: Row)
    requires row.retractedAt.None?
    ensures Live(rows + [row]) == Live(rows) + [row.fact]
  {
    FactsOfConcat((r: Row) => r.retractedAt.None?, rows, [row]);
    assert [row][1..] == [];
    assert Filter((r: Row) => r.retractedAt.None?, [row]) == [row];
  }

  /** Closing a row removes its fact from the live facts, and no other. */
  lemma {:induction false} LiveAfterClose(rows: seq<Row>, id: TripleId, timestamp: int, position: nat)
    ensures Live(Map(Close(id, timestamp, position), rows)) == Filter((f: Triple) => f.id != id, Live(rows))
  {
    if rows != [] {
      var closed := Map(Close(id, timestamp, position), rows);
      assert closed[1..] == Map(Close(id, timestamp, position), rows[1..]);
      LiveAfterClose(rows[1..], id, timestamp, position);
      var open := (r: Row) => r.retractedAt.None?;
      var fact := (r: Row) => r.fact;
      if rows[0].retractedAt.None? {
        assert Filter(open, rows) == [rows[0]] + Filter(open, rows[1..]);
        assert Live(rows) == [rows[0].fact] + Live(rows[1..]);
        assert Live(rows)[1..] == Live(rows[1..]);
        if rows[0].fact.id != id {
          assert closed[0] == rows[0];
          assert Filter(open, closed) == [rows[0]] + Filter(open, closed[1..]);
          assert Live(closed) == [rows[0].fact] + Live(closed[1..]);
        }
      }
    }
  }

  // ---- The adapter --------------------------------------------------------

  class Adapter {
    var rows: seq<Row>
    var position: nat

    ghost predicate Valid()
      reads this
    {
      SoundRows(rows, position)
    }

    ghost function Contents(): Table
      reads this
    {
      Table(rows, position)
    }

    constructor ()
      ensures Valid() && Contents() == EMPTY
    {
      rows, position := [], 0;
    }

    method NextCommitPosition() returns (next: nat)
      requires Valid()
      modifies this`position
      ensures Valid() && next == position == old(position) + 1
    {
      SoundLater(rows, position, position + 1);
      position := position + 1;
      next := position;
    }

    method Insert(fact: Triple, timestamp: int, at: nat) returns (written: Result<Row, WriteError>)
      modifies this`rows
      ensures var applied := Apply(old(rows), InsertRow(fact), timestamp, at);
        && (written.Ok? <==> applied.Ok?)
        && rows == (if applied.Ok? then applied.value else old(rows))
      ensures written.Ok? ==>
        rows == old(rows) + [written.value] && written.value == Row(fact, timestamp, at, None, None)
      ensures written.Err? ==> written.error == DuplicateId(fact.id)
    {
      if exists row :: row in rows && row.fact.id == fact.id {
        return Err(DuplicateId(fact.id));
      }
      var row := Row(fact, timestamp, at, None, None);
      rows := rows + [row];
      return Ok(row);
    }

    /** Insert in chunks inside one nested transaction: all the facts, in order, or none. */
    method BatchInsert(inputs: seq<Triple>, ids: seq<TripleId>, timestamp: int,
                       at: nat) returns (error: Option<WriteError>)
      modifies this`rows
      ensures |ids| != |inputs| && inputs != [] ==> error == Some(WrongIdCount(|inputs|, |ids|)) && rows == old(rows)
      ensures inputs == [] ==> error == None && rows == old(rows)
      ensures |ids| == |inputs| ==>
        var facts := seq(|inputs|, i requires 0 <= i < |inputs| == |ids| => inputs[i].(id := ids[i]));
        var applied := ApplyAll(old(rows), Inserts(facts), timestamp, at);
        && (error.None? <==> applied.Ok?)
        && rows == (if applied.Ok? then applied.value else old(rows))
    {
      if inputs == [] {
        return None;
      }
      if |ids| != |inputs| {
        return Some(WrongIdCount(|inputs|, |ids|));
      }
      var prepared := seq(|inputs|, i requires 0 <= i < |inputs| == |ids| => inputs[i].(id := ids[i]));
      var saved := rows;
      var i := 0;
      while i < |prepared|
        invariant 0 <= i <= |prepared|
        invariant ApplyAll(saved, Inserts(prepared[..i]), timestamp, at) == Ok(rows)
      {
        var end := if i + BATCH_SIZE <= |prepared| then i + BATCH_SIZE else |prepared|;
        var failure := InsertChunk(prepared[i..end], timestamp, at);
        InsertsSplit(saved, prepared, i, end, timestamp, at);
        if failure.Some? {
          rows := saved;
          return failure;
        }
        i := end;
      }
      assert prepared[..|prepared|] == prepared;
      return None;
    }

    /** One multi-row insert. */
    method InsertChunk(chunk: seq<Triple>, timestamp: int, at: nat) returns (error: Option<WriteError>)
      modifies this`rows
      ensures error.None? <==> ApplyAll(old(rows), Inserts(chunk), timestamp, at).Ok?
      ensures error.None? ==> rows == ApplyAll(old(rows), Inserts(chunk), timestamp, at).value
    {
      for i := 0 to |chunk|
        invariant ApplyAll(old(rows), Inserts(chunk[..i]), timestamp, at) == Ok(rows)
      {
        ghost var before := rows;
        var written := Insert(chunk[i], timestamp, at);
        assert chunk[i..i + 1] == [chunk[i]];
        OneInsert(before, chunk[i], timestamp, at);
        InsertsSplit(old(rows), chunk, i, i + 1, timestamp, at);
        if written.Err? {
          return Some(written.error);
        }
      }
      assert chunk[..|chunk|] == chunk;
      return None;
    }

    /** Close the open row with this id, if there is one. */
    method Retract(id: TripleId, timestamp: int, at: nat) returns (done: bool)
      modifies this`rows
      ensures done <==> exists row :: row in old(rows) && Closes(row, id)
      ensures Apply(old(rows), RetractRow(id), timestamp, at) == Ok(rows)
      ensures !done ==> rows == old(rows)
    {
      done := exists row :: row in rows && Closes(row, id);
      var closed := Map(Close(id, timestamp, at), rows);
      if !done {
        assert forall i :: 0 <= i < |rows| ==> rows[i] in rows && closed[i] == rows[i];
        assert closed == rows;
      }
      rows := closed;
    }

    /** One write of a transaction. */
    method Write(op: RowOp, timestamp: int, at: nat) returns (ok: bool)
      modifies this`rows
      ensures var applied := Apply(old(rows), op, timestamp, at);
        (ok <==> applied.Ok?) && (ok ==> rows == applied.value)
    {
      match op {
        case InsertRow(fact) =>
          var written := Insert(fact, timestamp, at);
          ok := written.Ok?;
        case RetractRow(id) =>
          var done := Retract(id, timestamp, at);
          ok := true;
      }
    }

    /** A whole transaction: allocate a position, apply every write under it, undo everything on failure. */
    method Transact(ops: seq<RowOp>, timestamp: int) returns (ok: bool)
      requires Valid()
      modifies this
      ensures Valid()
      ensures Contents() == CommitTo(old(Contents()), RowTable.Commit(ops, timestamp))
      ensures ok <==> ApplyAll(old(rows), ops, timestamp, old(position) + 1).Ok?
    {
      CommitKeepsValid(Contents(), RowTable.Commit(ops, timestamp));
      var saved, was := rows, position;
      var at := NextCommitPosition();
      for i := 0 to |ops|
        invariant position == at == was + 1
        invariant ApplyAll(saved, ops[..i], timestamp, at) == Ok(rows)
      {
        var written := Write(ops[i], timestamp, at);
        ApplyOneMore(saved, ops, i, timestamp, at);
        if !written {
          rows, position := saved, was;
          return false;
        }
      }
      assert ops[..|ops|] == ops;
      return true;
    }

    /** The live facts matching a pattern, as the adapter reads it. */
    method QueryLive(pattern: Pattern) returns (facts: seq<Triple>)
      ensures facts == Filter((f: Triple) => Commits.AdapterMatches(f, pattern), Live(rows))
    {
      facts := Filter((f: Triple) => Commits.AdapterMatches(f, pattern), Live(rows));
    }

    /** Close every live fact the adapter matches to the pattern. */
    method RetractMatching(pattern: Pattern, timestamp: int, at: nat)
      requires SoundRows(rows, at)
      modifies this`rows
      ensures SoundRows(rows, at) && |rows| == |old(rows)|
      ensures forall i :: 0 <= i < |rows| ==> rows[i].fact == old(rows)[i].fact
      ensures Live(rows) == Filter((f: Triple) => !Commits.AdapterMatches(f, pattern), old(Live(rows)))
    {
      var matched := QueryLive(pattern);
      ghost var live := Live(rows);
      FilterAll(KeptBy(matched[..0]), live);
      for i := 0 to |matched|
        invariant SoundRows(rows, at) && |rows| == |old(rows)|
        invariant forall k :: 0 <= k < |rows| ==> rows[k].fact == old(rows)[k].fact
        invariant Live(rows) == Filter(KeptBy(matched[..i]), live)
      {
        ghost var before := rows;
        var done := Retract(matched[i].id, timestamp, at);
        ApplyKeepsSound(before, RetractRow(matched[i].id), timestamp, at);
        LiveAfterClose(before, matched[i].id, timestamp, at);
        KeptByOneMore(matched, i, live);
      }
      assert matched[..|matched|] == matched;
      KeptByMatched(old(rows), at, pattern, matched);
    }

    /** One operation, under the id generated for it. */
    method WriteOperation(op: TransactOp, id: string, timestamp: int, at: nat)
      requires SoundRows(rows, at) && !HasId(rows, Stored(id))
      modifies this`rows
      ensures SoundRows(rows, at)
      ensures Live(rows) == Commits.CommitStep(old(Live(rows)), op, id, timestamp)
      ensures forall row :: row in rows ==> HasId(old(rows), row.fact.id) || row.fact.id == Stored(id)
    {
      ghost var before := rows;
      match op {
        case Retract(target) =>
          var done := Retract(target, timestamp, at);
          ApplyKeepsSound(before, RetractRow(target), timestamp, at);
          LiveAfterClose(before, target, timestamp, at);
        case RetractPattern(pattern) =>
          RetractMatching(pattern, timestamp, at);
        case Assert(_, _, _, _, _, _) =>
          var fact := Commits.ReadBack(Constraint.Asserted(op, Stored(id), timestamp));
          var written := Insert(fact, timestamp, at);
          ApplyKeepsSound(before, InsertRow(fact), timestamp, at);
          LiveAfterInsert(before, written.value);
      }
      forall k | 0 <= k < |rows| ensures HasId(before, rows[k].fact.id) || rows[k].fact.id == Stored(id) {
        assert k < |before| ==> before[k] in before;
      }
    }

    /**
     * The operations of one transaction, written in order under generated ids:
     * the live facts become exactly the committed ones.
     */
    method WriteOperations(operations: seq<TransactOp>, ids: seq<string>, timestamp: int, at: nat)
      requires SoundRows(rows, at) && |ids| >= |operations|
      requires forall i, j :: 0 <= i < j < |ids| ==> ids[i] != ids[j]
      requires forall i :: 0 <= i < |ids| ==> !HasId(rows, Stored(ids[i]))
      modifies this`rows
      ensures SoundRows(rows, at)
      ensures Live(rows) == Commits.Committed(old(Live(rows)), operations, ids, timestamp)
    {
      for i := 0 to |operations|
        invariant SoundRows(rows, at)
        invariant forall j :: i <= j < |ids| ==> !HasId(rows, Stored(ids[j]))
        invariant Live(rows) == Commits.Committed(old(Live(rows)), operations[..i], ids, timestamp)
      {
        assert operations[..i + 1][..i] == operations[..i];
        WriteOperation(operations[i], ids[i], timestamp, at);
      }
      assert operations[..|operations|] == operations;
    }
  }

  function KeptBy(gone: seq<Triple>): Triple -> bool {
    (f: Triple) => forall g :: g in gone ==> g.id != f.id
  }

  lemma KeptByOneMore(matched: seq<Triple>, i: nat, live: seq<Triple>)
    requires i < |matched|
    ensures Filter((f: Triple) => f.id != matched[i].id, Filter(KeptBy(matched[..i]), live))
      == Filter(KeptBy(matched[..i + 1]), live)
  {
    assert matched[..i + 1] == matched[..i] + [matched[i]];
    FilterTwice(KeptBy(matched[..i]), (f: Triple) => f.id != matched[i].id, KeptBy(matched[..i + 1]), live);
  }

  /** Dropping the ids of the matched facts drops exactly the matched facts. */
  lemma KeptByMatched(rows: seq<Row>, position: nat, pattern: Pattern, matched: seq<Triple>)
    requires SoundRows(rows, position)
    requires matched == Filter((f: Triple) => Commits.AdapterMatches(f, pattern), Live(rows))
    ensures Filter(KeptBy(matched), Live(rows))
      == Filter((f: Triple) => !Commits.AdapterMatches(f, pattern), Live(rows))
  {
    forall f | f in Live(rows) ensures KeptBy(matched)(f) == !Commits.AdapterMatches(f, pattern) {
      if !KeptBy(matched)(f) {
        var g :| g in matched && g.id == f.id;
        LiveIdDetermines(rows, position, f, g);
      }
    }
    FilterPointwise(KeptBy(matched), (f: Triple) => !Commits.AdapterMatches(f, pattern), Live(rows));
  }

  lemma LiveComesFromARow(rows: seq<Row>, f: Triple) returns (i: nat)
    requires f in Live(rows)
    ensures i < |rows| && rows[i].fact == f
  {
    var open := Filter((row: Row) => row.retractedAt.None?, rows);
    var row :| row in open && row.fact == f;
    i :| 0 <= i < |rows| && rows[i] == row;
  }

  lemma LiveIdDetermines(rows: seq<Row>, position: nat, f: Triple, g: Triple)
    requires SoundRows(rows, position) && f in Live(rows) && g in Live(rows) && f.id == g.id
    ensures f == g
  {
    var i := LiveComesFromARow(rows, f);
    var j := LiveComesFromARow(rows, g);
    assert i == j;
  }
}
