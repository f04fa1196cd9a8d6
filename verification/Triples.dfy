/** Facts, their values and the operations of a transaction. */
module Triples {
  import opened Wrappers

  datatype TripleValue =
    | StringValue(text: string)
    | NumberValue(number: int)
    | BooleanValue(flag: bool)
    | DateTimeValue(instant: int)
    | RefValue(target: string)
    | JsonValue(json: string)
    | BlobValue(hash: string, mimeType: string, size: int, filename: Option<string>)

  /** Identities handed out by the store, and the placeholders a projection uses. */
  datatype TripleId = Stored(name: string) | Pending(index: nat)

  datatype Triple = Triple(
    id: TripleId,
    entityId: string,
    attribute: string,
    value: TripleValue,
    entityType: Option<string>,
    validFrom: int,
    validTo: Option<int>)

  /** An omitted field constrains nothing. */
  datatype Pattern = Pattern(
    entityId: Option<string>,
    attribute: Option<string>,
    entityType: Option<string>,
    value: Option<TripleValue>)

  datatype TransactOp =
    | Assert(
        entityId: string,
        attribute: string,
        value: TripleValue,
        entityType: Option<string>,
        validFrom: Option<int>,
        validTo: Option<int>)
    | Retract(id: TripleId)
    | RetractPattern(pattern: Pattern)

  /** Half-open valid-time interval. */
  predicate VisibleAt(triple: Triple, validAt: int) {
    triple.validFrom <= validAt && (triple.validTo.None? || triple.validTo.value > validAt)
  }

  ghost predicate UniqueIds(facts: seq<Triple>) {
    forall i, j :: 0 <= i < j < |facts| ==> facts[i].id != facts[j].id
  }
}
