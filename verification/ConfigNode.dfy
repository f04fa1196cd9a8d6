/** The Merkle tree of configuration: node bodies, their ideal hash, and node construction. */
module ConfigNode {
  import opened Wrappers
  import opened BoolExpr
  import Order

  /** Canonical attributes: either hold a rule expression under `expr` or other data. */
  datatype Attrs = RuleAttrs(expr: BoolExpr) | PlainAttrs(data: string)

  datatype Ref = Ref(rel: string, kind: string, key: string)

  /** A child's slot in its parent. */
  datatype Slot = Slot(rel: string, key: string)

  /** A content id under an ideal hash: one id per body. */
  datatype ContentId = Hash(body: Body)

  datatype BodyChild = BodyChild(rel: string, cid: ContentId)

  datatype Body = Body(kind: string, key: string, attrs: Attrs, children: seq<BodyChild>, refs: seq<Ref>)

  datatype Child = Child(rel: string, node: ConfigNode)

  datatype ConfigNode = ConfigNode(
    kind: string,
    key: string,
    attrs: Attrs,
    children: seq<Child>,
    refs: seq<Ref>,
    cid: ContentId,
    projection: Option<string>)

  function RefKey(): Ref -> Order.Key {
    (ref: Ref) => Order.Key(ref.rel, ref.kind, ref.key)
  }

  /** References in order, identical ones merged. */
  function SortRefs(refs: seq<Ref>): seq<Ref> {
    Order.Listing(RefKey(), refs)
  }

  function BodyChildren(children: seq<Child>): (bodies: seq<BodyChild>)
    ensures |bodies| == |children|
    ensures forall i :: 0 <= i < |children| ==> bodies[i] == BodyChild(children[i].rel, children[i].node.cid)
  {
    if children == [] then []
    else [BodyChild(children[0].rel, children[0].node.cid)] + BodyChildren(children[1..])
  }

  function BodyOf(node: ConfigNode): Body {
    Body(node.kind, node.key, node.attrs, BodyChildren(node.children), node.refs)
  }

  function SlotOf(child: Child): Slot {
    Slot(child.rel, child.node.key)
  }

  ghost predicate DistinctSlots(children: seq<Child>) {
    forall i, j :: 0 <= i < j < |children| ==> SlotOf(children[i]) != SlotOf(children[j])
  }

  /** What `make` guarantees of a node and of everything beneath it. */
  ghost predicate WellFormed(node: ConfigNode) {
    && node.cid == Hash(BodyOf(node))
    && DistinctSlots(node.children)
    && node.refs == SortRefs(node.refs)
    && forall child :: child in node.children ==> WellFormed(child.node)
  }

  datatype NodeError = DuplicateChildKey(duplicate: Slot)

  /** The children before j are distinct, and j takes the slot of one of them. */
  ghost predicate Repeats(children: seq<Child>, j: nat, slot: Slot)
    requires j < |children|
  {
    DistinctSlots(children[..j]) && SlotOf(children[j]) == slot
    && exists i :: 0 <= i < j && SlotOf(children[i]) == slot
  }

  /** The first slot, in order, that an earlier child already occupies. */
  method FindDuplicate(children: seq<Child>) returns (duplicate: Option<Slot>)
    ensures duplicate.None? <==> DistinctSlots(children)
    ensures duplicate.Some? ==> exists j :: 0 < j < |children| && Repeats(children, j, duplicate.value)
  {
    var seen: set<Slot> := {};
    for j := 0 to |children|
      invariant DistinctSlots(children[..j])
      invariant forall i :: 0 <= i < j ==> SlotOf(children[i]) in seen
      invariant forall slot :: slot in seen ==> exists i :: 0 <= i < j && SlotOf(children[i]) == slot
    {
      var slot := SlotOf(children[j]);
      if slot in seen {
        assert Repeats(children, j, slot);
        return Some(slot);
      }
      seen := seen + {slot};
    }
    return None;
  }

  method Make(kind: string, key: string, attrs: Attrs, children: seq<Child>, refs: seq<Ref>)
    returns (result: Result<ConfigNode, NodeError>)
    requires forall child :: child in children ==> WellFormed(child.node)
    ensures result.Ok? <==> DistinctSlots(children)
    ensures result.Err? ==> exists j :: 0 < j < |children| && Repeats(children, j, result.error.duplicate)
    ensures result.Ok? ==> WellFormed(result.value)
    ensures result.Ok? ==> var n := result.value;
      n.kind == kind && n.key == key && n.attrs == attrs && n.children == children && n.refs == SortRefs(refs)
  {
    var duplicate := FindDuplicate(children);
    if duplicate.Some? {
      return Err(DuplicateChildKey(duplicate.value));
    }
    var draft := Body(kind, key, attrs, BodyChildren(children), SortRefs(refs));
    SortingIsIdempotent(refs);
    return Ok(ConfigNode(kind, key, attrs, children, SortRefs(refs), Hash(draft), None));
  }

  lemma SortingIsIdempotent(refs: seq<Ref>)
    ensures SortRefs(SortRefs(refs)) == SortRefs(refs)
  {
    SortRefsLists(refs);
    SameRefsSameListing(SortRefs(refs), refs);
  }

  lemma SortRefsLists(refs: seq<Ref>)
    ensures forall ref :: ref in SortRefs(refs) <==> ref in refs
  {
    Order.ListingAscends(RefKey(), refs);
    forall ref | ref in refs ensures ref in SortRefs(refs) {
      var listed := Order.ListedUnderKey(RefKey(), refs, ref);
      assert listed == ref;
    }
  }

  /** References are listed by relation, then kind, then key, each in code-unit order, and none twice. */
  lemma SortedRefsAreInOrder(refs: seq<Ref>, i: nat, j: nat)
    requires i < j < |SortRefs(refs)|
    ensures var a, b := SortRefs(refs)[i], SortRefs(refs)[j];
      || Order.IsBeforeText(a.rel, b.rel)
      || (a.rel == b.rel && Order.IsBeforeText(a.kind, b.kind))
      || (a.rel == b.rel && a.kind == b.kind && Order.IsBeforeText(a.key, b.key))
  {
    var a, b := SortRefs(refs)[i], SortRefs(refs)[j];
    Order.ListingAscends(RefKey(), refs);
    Order.LessTextDiverges(a.rel, b.rel);
    Order.LessTextDiverges(a.kind, b.kind);
    Order.LessTextDiverges(a.key, b.key);
  }

  /** The order and repetition of references is not content. */
  lemma SameRefsSameListing(a: seq<Ref>, b: seq<Ref>)
    requires forall ref :: ref in a <==> ref in b
    ensures SortRefs(a) == SortRefs(b)
  {
    SortRefsLists(a);
    SortRefsLists(b);
    Order.ListingAscends(RefKey(), a);
    Order.ListingAscends(RefKey(), b);
    Order.AscendingIsCanonical(RefKey(), SortRefs(a), SortRefs(b));
  }
}
