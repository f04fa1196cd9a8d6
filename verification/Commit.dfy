/**
 * What a transaction actually writes, against what the constraint check
 * projected.
 */
module Commit {
  import opened Wrappers
  import opened Seqs
  import opened Triples
  import opened Constraint

  /**
   * The adapter's reading of a pattern: an empty string constrains nothing, and
   * of a json or blob value only the type is compared.
   */
  predicate AdapterMatches(row: Triple, pattern: Pattern) {
    && (pattern.entityId.Some? && pattern.entityId.value != "" ==> row.entityId == pattern.entityId.value)
    && (pattern.attribute.Some? && pattern.attribute.value != "" ==> row.attribute == pattern.attribute.value)
    && (pattern.entityType.Some? && pattern.entityType.value != "" ==> row.entityType == pattern.entityType)
    && (pattern.value.Some? ==> AdapterValueMatches(row.value, pattern.value.value))
  }

  predicate AdapterValueMatches(value: TripleValue, wanted: TripleValue) {
    match wanted
    case JsonValue(_) => value.JsonValue?
    case BlobValue(_, _, _, _) => value.BlobValue?
    case _ => value == wanted
  }

  /** No empty-string field, and no json or blob value. */
  predicate ExactPattern(pattern: Pattern) {
    && pattern.entityId != Some("") && pattern.attribute != Some("") && pattern.entityType != Some("")
    && !(pattern.value.Some? && (pattern.value.value.JsonValue? || pattern.value.value.BlobValue?))
  }

  /** A fact the adapter retracts although the pattern, read exactly, does not name it. */
  function Overmatched(pattern: Pattern): (row: Triple)
    requires !ExactPattern(pattern)
    ensures AdapterMatches(row, pattern) && !PatternMatches(row, pattern)
    ensures row.id.Stored? && row.validFrom == 0 && row.validTo.None?
  {
    var other := (field: Option<string>, empty: string) => if field.Some? && field.value != "" then field.value
      else empty;
    var value :=
      if pattern.value.None? then StringValue("")
      else match pattern.value.value
        case JsonValue(json) => JsonValue(json + "!")
        case BlobValue(hash, mime, size, name) => BlobValue(hash, mime, size + 1, name)
        case _ => pattern.value.value;
    Triple(Stored(""), other(pattern.entityId, "x"), other(pattern.attribute, "x"), value,
           if pattern.entityType.Some? && pattern.entityType.value != "" then pattern.entityType else None, 0, None)
  }

  /** The projection and the adapter read a pattern alike exactly when it is an exact one. */
  lemma PatternsAgreeIffExact(pattern: Pattern)
    ensures (forall row :: PatternMatches(row, pattern) <==> AdapterMatches(row, pattern)) <==> ExactPattern(pattern)
  {
    if !ExactPattern(pattern) {
      var row := Overmatched(pattern);
      assert AdapterMatches(row, pattern) && !PatternMatches(row, pattern);
    }
  }

  // ---- Committing ---------------------------------------------------------

  /** A fact as its packed row reads back: an empty entity type or blob file name is as good as none. */
  function ReadBack(f: Triple): (back: Triple)
    ensures back.id == f.id && back.entityId == f.entityId && back.attribute == f.attribute
    ensures back.validFrom == f.validFrom && back.validTo == f.validTo
  {
    var entityType := if f.entityType == Some("") then None else f.entityType;
    var value :=
      match f.value
      case BlobValue(hash, mimeType, size, Some("")) => BlobValue(hash, mimeType, size, None)
      case _ => f.value;
    f.(entityType := entityType, value := value)
  }

  /** The assertion names no empty entity type and no empty blob file name. */
  predicate StoredAsChecked(op: TransactOp) {
    op.Assert? ==> op.entityType != Some("") && !(op.value.BlobValue? && op.value.filename == Some(""))
  }

  lemma ReadBackIff(op: TransactOp, id: TripleId, instant: int)
    requires op.Assert?
    ensures ReadBack(Asserted(op, id, instant)) == Asserted(op, id, instant) <==> StoredAsChecked(op)
  {
  }

  function CommitStep(live: seq<Triple>, op: TransactOp, id: string, instant: int): seq<Triple> {
    match op
    case Retract(target) => Filter((f: Triple) => f.id != target, live)
    case RetractPattern(pattern) => Filter((f: Triple) => !AdapterMatches(f, pattern), live)
    case Assert(_, _, _, _, _, _) => live + [ReadBack(Asserted(op, Stored(id), instant))]
  }

  /** The live facts after the operations commit, the k-th assertion under the generated id ids[k]. */
  function Committed(live: seq<Triple>, operations: seq<TransactOp>, ids: seq<string>, instant: int): seq<Triple>
    requires |ids| >= |operations|
  {
    if operations == [] then live
    else
      var last := |operations| - 1;
      CommitStep(Committed(live, operations[..last], ids, instant), operations[last], ids[last], instant)
  }

  function Rename(ids: seq<string>): Triple -> Triple {
    (f: Triple) => if f.id.Pending? && f.id.index < |ids| then f.(id := Stored(ids[f.id.index])) else f
  }

  /** Exact patterns, and no retraction of an id made up by this transaction. */
  predicate Retractable(operations: seq<TransactOp>, ids: seq<string>) {
    forall op :: op in operations ==>
      && (op.RetractPattern? ==> ExactPattern(op.pattern))
      && (op.Retract? ==> op.id.Stored? && op.id.name !in ids)
  }

  /** Operations the projection foresees: and the assertions read back as they were checked. */
  predicate Foreseen(operations: seq<TransactOp>, ids: seq<string>) {
    Retractable(operations, ids) && forall op :: op in operations ==> StoredAsChecked(op)
  }

  lemma {:induction false} FilterCommutesWithMap(p: Triple -> bool, q: Triple -> bool, f: Triple -> Triple,
                                                 s: seq<Triple>)
    requires forall x :: x in s ==> q(f(x)) == p(x)
    ensures Filter(q, Map(f, s)) == Map(f, Filter(p, s))
  {
    if s != [] {
      assert Map(f, s)[1..] == Map(f, s[1..]);
      FilterCommutesWithMap(p, q, f, s[1..]);
      if p(s[0]) {
        assert Filter(p, s)[1..] == Filter(p, s[1..]);
      }
    }
  }

  /** A projected fact of the transaction's own as it is found afterwards: under its generated id, read back. */
  function Landed(ids: seq<string>): Triple -> Triple {
    (f: Triple) => if f.id.Pending? && f.id.index < |ids| then ReadBack(f.(id := Stored(ids[f.id.index]))) else f
  }

  /** An exact pattern does not tell a fact from what reads back. */
  lemma ExactPatternsIgnoreReadBack(f: Triple, pattern: Pattern)
    requires ExactPattern(pattern)
    ensures PatternMatches(f, pattern) <==> AdapterMatches(ReadBack(f), pattern)
  {
  }

  lemma LandedMatches(ids: seq<string>, pattern: Pattern)
    requires ExactPattern(pattern)
    ensures forall f :: PatternMatches(f, pattern) <==> AdapterMatches(Landed(ids)(f), pattern)
  {
    PatternsAgreeIffExact(pattern);
    forall f ensures PatternMatches(f, pattern) <==> AdapterMatches(Landed(ids)(f), pattern) {
      ExactPatternsIgnoreReadBack(Rename(ids)(f), pattern);
    }
  }

  lemma LandedKeepsStored(ids: seq<string>, f: Triple, target: TripleId)
    requires target.Stored? && target.name !in ids
    ensures Landed(ids)(f).id == target <==> f.id == target
  {
    if f.id.Pending? && f.id.index < |ids| {
      assert ids[f.id.index] in ids;
      assert Landed(ids)(f).id == Stored(ids[f.id.index]);
    }
  }

  lemma CommitStepLands(before: seq<Triple>, op: TransactOp, k: nat, ids: seq<string>, instant: int)
    requires k < |ids|
    requires op.RetractPattern? ==> ExactPattern(op.pattern)
    requires op.Retract? ==> op.id.Stored? && op.id.name !in ids
    ensures CommitStep(Map(Landed(ids), before), op, ids[k], instant)
      == Map(Landed(ids), ProjectStep(before, op, Pending(k), instant))
  {
    match op {
      case Retract(target) =>
        forall f | f in before ensures (Landed(ids)(f).id != target) == (f.id != target) {
          LandedKeepsStored(ids, f, target);
        }
        FilterCommutesWithMap((f: Triple) => f.id != target, (f: Triple) => f.id != target, Landed(ids), before);
      case RetractPattern(pattern) =>
        LandedMatches(ids, pattern);
        FilterCommutesWithMap((f: Triple) => !PatternMatches(f, pattern), (f: Triple) => !AdapterMatches(f, pattern),
                              Landed(ids), before);
      case Assert(_, _, _, _, _, _) =>
        var added := Asserted(op, Pending(k), instant);
        MapConcat(Landed(ids), before, [added]);
        assert Rename(ids)(added) == Asserted(op, Stored(ids[k]), instant);
        assert Map(Landed(ids), [added]) == [ReadBack(Asserted(op, Stored(ids[k]), instant))];
    }
  }

  lemma NothingLands(live: seq<Triple>, ids: seq<string>)
    requires forall f :: f in live ==> f.id.Stored?
    ensures Map(Landed(ids), live) == live
  {
  }

  /** Committing operations with exact patterns leaves the projected facts, as they land. */
  lemma {:induction false} CommitLandsTheProjection(live: seq<Triple>, operations: seq<TransactOp>, ids: seq<string>,
                                                    instant: int)
    requires |ids| >= |operations| && Retractable(operations, ids)
    requires forall f :: f in live ==> f.id.Stored?
    ensures Committed(live, operations, ids, instant) == Map(Landed(ids), Projected(live, operations, instant))
  {
    if operations == [] {
      NothingLands(live, ids);
    } else {
      var last := |operations| - 1;
      assert operations[last] in operations;
      CommitLandsTheProjection(live, operations[..last], ids, instant);
      CommitStepLands(Projected(live, operations[..last], instant), operations[last], last, ids, instant);
    }
  }

  /** A projected fact not yet stored is one the transaction asserts. */
  lemma {:induction false} PendingFactsAreAsserted(live: seq<Triple>, operations: seq<TransactOp>, instant: int,
        f: Triple)
      returns (k: nat)
    requires f in Projected(live, operations, instant) && f.id.Pending? && forall g :: g in live ==> g.id.Stored?
    ensures k < |operations| && operations[k].Assert? && f == Asserted(operations[k], Pending(k), instant)
  {
    var last := |operations| - 1;
    if f in Projected(live, operations[..last], instant) {
      k := PendingFactsAreAsserted(live, operations[..last], instant, f);
    } else {
      k := last;
    }
  }

  /** Committing foreseen operations leaves the projected facts, up to the generated ids. */
  lemma CommitIsTheProjection(live: seq<Triple>, operations: seq<TransactOp>, ids: seq<string>, instant: int)
    requires |ids| >= |operations| && Foreseen(operations, ids)
    requires forall f :: f in live ==> f.id.Stored?
    ensures Committed(live, operations, ids, instant) == Map(Rename(ids), Projected(live, operations, instant))
  {
    var projected := Projected(live, operations, instant);
    CommitLandsTheProjection(live, operations, ids, instant);
    forall f | f in projected ensures Landed(ids)(f) == Rename(ids)(f) {
      if f.id.Pending? {
        var k := PendingFactsAreAsserted(live, operations, instant, f);
        assert operations[k] in operations;
        ReadBackIff(operations[k], Rename(ids)(f).id, instant);
      }
    }
    MapPointwise(Landed(ids), Rename(ids), projected);
  }

  // ---- Violations do not look at ids --------------------------------------

  lemma RenamingKeepsCount(ids: seq<string>, facts: seq<Triple>, subject: string, attribute: string, t: int)
    ensures Count(Map(Rename(ids), facts), subject, attribute, t) == Count(facts, subject, attribute, t)
  {
    FilterCommutesWithMap(ValuesOf(subject, attribute, t), ValuesOf(subject, attribute, t), Rename(ids), facts);
  }

  predicate SameButId(f: Triple, g: Triple) {
    f.(id := g.id) == g
  }

  /** Every fact of a has a counterpart in b that differs at most in its id. */
  ghost predicate Mirrors(a: seq<Triple>, b: seq<Triple>) {
    forall f {:trigger HasTwin(b, f)} :: f in a ==> HasTwin(b, f)
  }

  ghost predicate HasTwin(facts: seq<Triple>, f: Triple) {
    exists g :: g in facts && SameButId(f, g)
  }

  lemma MirrorKeepsType(a: seq<Triple>, b: seq<Triple>, subject: string, entityType: string, t: int)
    requires Mirrors(a, b) && HasType(a, subject, entityType, t)
    ensures HasType(b, subject, entityType, t)
  {
    var f :| f in a && VisibleAt(f, t) && f.entityId == subject && f.entityType == Some(entityType);
    assert HasTwin(b, f);
    var g :| g in b && SameButId(f, g);
  }

  lemma MirrorKeepsClaimants(a: seq<Triple>, b: seq<Triple>, rule: Rule, value: TripleValue, t: int)
    requires Mirrors(a, b)
    ensures Claimants(a, rule, value, t) <= Claimants(b, rule, value, t)
  {
    forall f | f in a && IsClaim(a, rule, value, t, f) ensures f.entityId in Claimants(b, rule, value, t) {
      assert HasTwin(b, f);
      var g :| g in b && SameButId(f, g);
      MirrorKeepsType(a, b, f.entityId, rule.entityType, t);
      assert IsClaim(b, rule, value, t, g);
    }
  }

  lemma MirrorKeepsDangling(a: seq<Triple>, b: seq<Triple>, rule: Rule, subject: string, value: TripleValue, t: int)
    requires Mirrors(a, b) && Mirrors(b, a)
    requires rule.ReferenceTarget? && DanglingReference(a, rule, subject, value, t)
    ensures DanglingReference(b, rule, subject, value, t)
  {
    var f :| f in a && ValuesOf(subject, rule.attribute, t)(f) && f.value == value;
    assert HasTwin(b, f);
    var g :| g in b && SameButId(f, g);
    assert ValuesOf(subject, rule.attribute, t)(g);
    if ValidTarget(b, value, rule.targetEntityType, t) {
      MirrorKeepsType(b, a, value.target, rule.targetEntityType, t);
    }
  }

  lemma RenamedHasTwin(ids: seq<string>, facts: seq<Triple>, f: Triple)
    requires f in facts
    ensures HasTwin(Map(Rename(ids), facts), f)
  {
    var twin := Rename(ids)(f);
    assert twin in Map(Rename(ids), facts) && SameButId(f, twin);
  }

  lemma OriginalIsTwin(ids: seq<string>, facts: seq<Triple>, g: Triple)
    requires g in Map(Rename(ids), facts)
    ensures HasTwin(facts, g)
  {
    var twin :| twin in facts && Rename(ids)(twin) == g;
    assert SameButId(g, twin);
  }

  lemma RenamingMirrors(ids: seq<string>, facts: seq<Triple>)
    ensures Mirrors(facts, Map(Rename(ids), facts)) && Mirrors(Map(Rename(ids), facts), facts)
  {
    forall f | f in facts ensures HasTwin(Map(Rename(ids), facts), f) {
      RenamedHasTwin(ids, facts, f);
    }
    forall g | g in Map(Rename(ids), facts) ensures HasTwin(facts, g) {
      OriginalIsTwin(ids, facts, g);
    }
  }

  lemma MirrorKeepsViolation(a: seq<Triple>, b: seq<Triple>, rule: Rule, t: int, v: Violation)
    requires Mirrors(a, b) && Mirrors(b, a) && Breaks(a, rule, t, v)
    requires Count(a, v.subject, rule.attribute, t) == Count(b, v.subject, rule.attribute, t)
    ensures Breaks(b, rule, t, v)
  {
    MirrorKeepsType(a, b, v.subject, rule.entityType, t);
    if v.valueIdentity.Some? {
      MirrorKeepsClaimants(a, b, rule, v.valueIdentity.value, t);
      MirrorKeepsClaimants(b, a, rule, v.valueIdentity.value, t);
      assert Claimants(a, rule, v.valueIdentity.value, t) == Claimants(b, rule, v.valueIdentity.value, t);
      if rule.ReferenceTarget? {
        MirrorKeepsDangling(a, b, rule, v.subject, v.valueIdentity.value, t);
      }
    }
  }

  lemma RenamingKeepsViolations(ids: seq<string>, facts: seq<Triple>, rule: Rule, t: int, v: Violation)
    ensures Breaks(Map(Rename(ids), facts), rule, t, v) <==> Breaks(facts, rule, t, v)
  {
    var renamed := Map(Rename(ids), facts);
    RenamingMirrors(ids, facts);
    RenamingKeepsCount(ids, facts, v.subject, rule.attribute, t);
    if Breaks(facts, rule, t, v) {
      MirrorKeepsViolation(facts, renamed, rule, t, v);
    }
    if Breaks(renamed, rule, t, v) {
      MirrorKeepsViolation(renamed, facts, rule, t, v);
    }
  }
}
