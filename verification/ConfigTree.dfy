/** Walking, flattening, storing and rebuilding the Merkle tree of configuration. */
module ConfigTree {
  import opened Wrappers
  import opened ConfigNode
  import Order

  // ---- Walking ------------------------------------------------------------

  datatype Visit = Visit(node: ConfigNode, path: seq<Slot>)

  /** Depth first, parents before children. */
  function Walk(node: ConfigNode, path: seq<Slot>): seq<Visit>
    decreases node, 1
  {
    [Visit(node, path)] + WalkEach(node.children, path)
  }

  function WalkEach(children: seq<Child>, path: seq<Slot>): seq<Visit>
    decreases children, 0
  {
    if children == [] then []
    else Walk(children[0].node, path + [SlotOf(children[0])]) + WalkEach(children[1..], path)
  }

  /** The ids of a content id's whole subtree, read off the hashed bodies. */
  function SubIds(cid: ContentId): set<ContentId>
    decreases cid, 1
  {
    {cid} + SubIdsEach(cid.body.children)
  }

  function SubIdsEach(children: seq<BodyChild>): set<ContentId>
    decreases children, 0
  {
    if children == [] then {} else SubIds(children[0].cid) + SubIdsEach(children[1..])
  }

  lemma {:induction false} OwnerOf(children: seq<BodyChild>, id: ContentId) returns (child: BodyChild)
    requires id in SubIdsEach(children)
    ensures child in children && id in SubIds(child.cid)
  {
    if id in SubIds(children[0].cid) {
      child := children[0];
    } else {
      child := OwnerOf(children[1..], id);
    }
  }

  lemma {:induction false} SubIdsConcat(a: seq<BodyChild>, b: seq<BodyChild>)
    ensures SubIdsEach(a + b) == SubIdsEach(a) + SubIdsEach(b)
  {
    if a == [] {
      assert a + b == b;
    } else {
      assert (a + b)[1..] == a[1..] + b;
      SubIdsConcat(a[1..], b);
    }
  }

  lemma OneChildSubIds(child: BodyChild)
    ensures SubIdsEach([child]) == SubIds(child.cid)
  {
    assert [child][1..] == [];
  }

  lemma SubIdsStep(children: seq<BodyChild>, i: nat)
    requires i < |children|
    ensures SubIdsEach(children[..i + 1]) == SubIdsEach(children[..i]) + SubIds(children[i].cid)
  {
    SubIdsConcat(children[..i], [children[i]]);
    OneChildSubIds(children[i]);
    assert children[..i + 1] == children[..i] + [children[i]];
  }

  lemma FirstSubIds(children: seq<BodyChild>, k: nat)
    requires k <= |children|
    ensures SubIdsEach(children[..k]) <= SubIdsEach(children)
  {
    SubIdsConcat(children[..k], children[k..]);
    assert children == children[..k] + children[k..];
  }

  lemma ChildSubIds(children: seq<BodyChild>, i: nat)
    requires i < |children|
    ensures SubIdsEach(children[..i + 1]) == SubIdsEach(children[..i]) + SubIds(children[i].cid)
    ensures SubIds(children[i].cid) <= SubIdsEach(children)
  {
    SubIdsStep(children, i);
    FirstSubIds(children, i + 1);
  }

  function VisitedIds(visits: seq<Visit>): (ids: set<ContentId>)
    ensures forall visit :: visit in visits ==> visit.node.cid in ids
  {
    if visits == [] then {} else {visits[0].node.cid} + VisitedIds(visits[1..])
  }

  lemma {:induction false} VisitedIdsConcat(a: seq<Visit>, b: seq<Visit>)
    ensures VisitedIds(a + b) == VisitedIds(a) + VisitedIds(b)
  {
    if a == [] {
      assert a + b == b;
    } else {
      assert (a + b)[1..] == a[1..] + b;
      VisitedIdsConcat(a[1..], b);
    }
  }

  lemma NextVisitedId(visits: seq<Visit>, i: nat)
    requires i < |visits|
    ensures VisitedIds(visits[..i + 1]) == VisitedIds(visits[..i]) + {visits[i].node.cid}
  {
    VisitedIdsConcat(visits[..i], [visits[i]]);
    assert visits[..i + 1] == visits[..i] + [visits[i]];
  }

  ghost predicate AllWellFormed(visits: seq<Visit>) {
    forall visit :: visit in visits ==> WellFormed(visit.node)
  }

  /** The walk visits well-formed nodes carrying exactly the subtree's ids. */
  lemma {:induction false} WalkVisitsSubIds(node: ConfigNode, path: seq<Slot>)
    requires WellFormed(node)
    ensures AllWellFormed(Walk(node, path)) && VisitedIds(Walk(node, path)) == SubIds(node.cid)
    decreases node, 1
  {
    WalkEachVisitsSubIds(node.children, path);
    VisitedIdsConcat([Visit(node, path)], WalkEach(node.children, path));
  }

  lemma {:induction false} WalkEachVisitsSubIds(children: seq<Child>, path: seq<Slot>)
    requires forall child :: child in children ==> WellFormed(child.node)
    ensures AllWellFormed(WalkEach(children, path))
    ensures VisitedIds(WalkEach(children, path)) == SubIdsEach(BodyChildren(children))
    decreases children, 0
  {
    if children != [] {
      var first := path + [SlotOf(children[0])];
      WalkVisitsSubIds(children[0].node, first);
      WalkEachVisitsSubIds(children[1..], path);
      assert BodyChildren(children)[1..] == BodyChildren(children[1..]);
      VisitedIdsConcat(Walk(children[0].node, first), WalkEach(children[1..], path));
    }
  }

  // ---- No subtree contains its root's id ----------------------------------

  function Depth(cid: ContentId): nat
    decreases cid, 1
  {
    1 + DepthEach(cid.body.children)
  }

  function DepthEach(children: seq<BodyChild>): (depth: nat)
    ensures forall child :: child in children ==> Depth(child.cid) <= depth
    decreases children, 0
  {
    if children == [] then 0
    else
      assert children == [children[0]] + children[1..];
      var rest := DepthEach(children[1..]);
      if Depth(children[0].cid) > rest then Depth(children[0].cid) else rest
  }

  lemma {:induction false} SubIdsAreShallower(cid: ContentId, id: ContentId)
    requires id in SubIds(cid)
    ensures Depth(id) <= Depth(cid) && SubIds(id) <= SubIds(cid)
    decreases cid
  {
    if id != cid {
      var child := OwnerOf(cid.body.children, id);
      SubIdsAreShallower(child.cid, id);
      var i :| 0 <= i < |cid.body.children| && cid.body.children[i] == child;
      ChildSubIds(cid.body.children, i);
    }
  }

  // ---- Flattening ---------------------------------------------------------

  /** Every id not still being visited brings its whole subtree. */
  ghost predicate Closed(ids: set<ContentId>, visiting: set<ContentId>) {
    forall cid :: cid in ids && cid !in visiting ==> SubIds(cid) <= ids
  }

  ghost predicate Entry(cid: ContentId, node: ConfigNode) {
    node.cid == cid && WellFormed(node)
  }

  ghost predicate Keyed(out: map<ContentId, ConfigNode>) {
    forall cid {:trigger Entry(cid, out[cid])} :: cid in out ==> Entry(cid, out[cid])
  }

  /** An id is not among those of its own children, so it is never met again inside its subtree. */
  lemma VisitingStaysOutside(cid: ContentId, visiting: set<ContentId>)
    requires visiting !! SubIds(cid)
    ensures visiting + {cid} !! SubIdsEach(cid.body.children)
  {
    forall id | id in SubIdsEach(cid.body.children) ensures id !in visiting + {cid} {
      var child := OwnerOf(cid.body.children, id);
      SubIdsAreShallower(child.cid, id);
    }
  }

  lemma StopVisiting(ids: set<ContentId>, visiting: set<ContentId>, cid: ContentId)
    requires Closed(ids, visiting + {cid}) && SubIds(cid) <= ids
    ensures Closed(ids, visiting)
  {
  }

  method VisitInto(current: ConfigNode, out: map<ContentId, ConfigNode>, ghost visiting: set<ContentId>)
    returns (grown: map<ContentId, ConfigNode>)
    requires WellFormed(current) && Keyed(out) && Closed(out.Keys, visiting)
    requires visiting !! SubIds(current.cid)
    ensures Keyed(grown) && Closed(grown.Keys, visiting)
    ensures grown.Keys == out.Keys + SubIds(current.cid)
    decreases current, 1
  {
    if current.cid in out {
      return out;
    }
    grown := out[current.cid := current];
    VisitingStaysOutside(current.cid, visiting);
    grown := VisitEach(current.children, grown, visiting + {current.cid});
    StopVisiting(grown.Keys, visiting, current.cid);
  }

  ghost predicate ChildrenWellFormed(children: seq<Child>) {
    forall child {:trigger WellFormed(child.node)} :: child in children ==> WellFormed(child.node)
  }

  lemma NextChild(children: seq<Child>, i: nat, visiting: set<ContentId>)
    requires ChildrenWellFormed(children) && i < |children| && visiting !! SubIdsEach(BodyChildren(children))
    ensures WellFormed(children[i].node) && visiting !! SubIds(children[i].node.cid)
    ensures SubIdsEach(BodyChildren(children)[..i + 1])
      == SubIdsEach(BodyChildren(children)[..i]) + SubIds(children[i].node.cid)
  {
    ChildSubIds(BodyChildren(children), i);
  }

  method VisitEach(children: seq<Child>, out: map<ContentId, ConfigNode>, ghost visiting: set<ContentId>)
    returns (grown: map<ContentId, ConfigNode>)
    requires ChildrenWellFormed(children) && Keyed(out) && Closed(out.Keys, visiting)
    requires visiting !! SubIdsEach(BodyChildren(children))
    ensures Keyed(grown) && Closed(grown.Keys, visiting)
    ensures grown.Keys == out.Keys + SubIdsEach(BodyChildren(children))
    decreases children, 0
  {
    grown := out;
    ghost var bodies, done := BodyChildren(children), {};
    for i := 0 to |children|
      invariant Keyed(grown) && Closed(grown.Keys, visiting)
      invariant done == SubIdsEach(bodies[..i]) && grown.Keys == out.Keys + done
    {
      NextChild(children, i, visiting);
      grown := VisitInto(children[i].node, grown, visiting);
      done := done + SubIds(children[i].node.cid);
    }
    assert bodies[..|children|] == bodies;
  }

  /** The distinct nodes of a subtree, each visited once: exactly the ids the walk meets. */
  method Flatten(node: ConfigNode) returns (out: map<ContentId, ConfigNode>)
    requires WellFormed(node)
    ensures out.Keys == SubIds(node.cid) == VisitedIds(Walk(node, []))
    ensures Keyed(out)
  {
    out := VisitInto(node, map[], {});
    WalkVisitsSubIds(node, []);
  }

  // ---- Storing and rebuilding ---------------------------------------------

  datatype StoredObject = StoredObject(kind: string, body: Body, validUnder: seq<string>)

  datatype CorruptStore = MissingNode(cid: ContentId) | ChildCycle(cid: ContentId)

  /** Every object sits under the hash of its body. */
  ghost predicate ContentAddressed(objects: map<ContentId, StoredObject>) {
    forall cid :: cid in objects ==> Hash(objects[cid].body) == cid
  }

  /** The first recorded projection whose shape is known. */
  function KnownProjection(validUnder: seq<string>, schemas: set<string>): Option<string> {
    if validUnder == [] then None
    else if validUnder[0] in schemas then Some(validUnder[0])
    else KnownProjection(validUnder[1..], schemas)
  }

  /** Rebuild a tree from stored bodies; a missing or revisited id is reported. */
  function BuildNode(objects: map<ContentId, StoredObject>, schemas: set<string>, cid: ContentId,
                     visiting: set<ContentId>)
    : Result<ConfigNode, CorruptStore>
    decreases objects.Keys - visiting, 0
  {
    if cid !in objects then Err(MissingNode(cid))
    else if cid in visiting then Err(ChildCycle(cid))
    else
      var stored := objects[cid];
      var children := BuildChildren(objects, schemas, stored.body.children, visiting + {cid});
      if children.Err? then Err(children.error)
      else Ok(ConfigNode(stored.body.kind, stored.body.key, stored.body.attrs, children.value, stored.body.refs, cid,
                         KnownProjection(stored.validUnder, schemas)))
  }

  function BuildChildren(
      objects: map<ContentId, StoredObject>, schemas: set<string>, children: seq<BodyChild>, visiting: set<ContentId>)
    : Result<seq<Child>, CorruptStore>
    decreases objects.Keys - visiting, 1 + |children|
  {
    if children == [] then Ok([])
    else
      var first := BuildNode(objects, schemas, children[0].cid, visiting);
      if first.Err? then Err(first.error)
      else
        var rest := BuildChildren(objects, schemas, children[1..], visiting);
        if rest.Err? then Err(rest.error) else Ok([Child(children[0].rel, first.value)] + rest.value)
  }

  /** Equal in everything but the recorded projection, at every depth. */
  ghost predicate SameContent(a: ConfigNode, b: ConfigNode) {
    && a.kind == b.kind && a.key == b.key && a.attrs == b.attrs && a.refs == b.refs && a.cid == b.cid
    && |a.children| == |b.children|
    && forall i :: 0 <= i < |a.children| ==>
         a.children[i].rel == b.children[i].rel && SameContent(a.children[i].node, b.children[i].node)
  }

  /** From any content-addressed superset of a tree's bodies, its id rebuilds that tree. */
  lemma {:induction false} RebuildReturnsTheTree(
      objects: map<ContentId, StoredObject>, schemas: set<string>, node: ConfigNode, visiting: set<ContentId>)
    requires ContentAddressed(objects) && WellFormed(node)
    requires SubIds(node.cid) <= objects.Keys && visiting !! SubIds(node.cid)
    ensures BuildNode(objects, schemas, node.cid, visiting).Ok?
    ensures SameContent(BuildNode(objects, schemas, node.cid, visiting).value, node)
    decreases node, 1
  {
    var children := BodyChildren(node.children);
    assert objects[node.cid].body == BodyOf(node);
    forall id | id in SubIdsEach(children) ensures id !in visiting + {node.cid} && id in objects {
      var child := OwnerOf(children, id);
      SubIdsAreShallower(child.cid, id);
    }
    RebuildReturnsTheChildren(objects, schemas, node.children, visiting + {node.cid});
  }

  lemma {:induction false} RebuildReturnsTheChildren(
      objects: map<ContentId, StoredObject>, schemas: set<string>, children: seq<Child>, visiting: set<ContentId>)
    requires ContentAddressed(objects) && forall child :: child in children ==> WellFormed(child.node)
    requires SubIdsEach(BodyChildren(children)) <= objects.Keys && visiting !! SubIdsEach(BodyChildren(children))
    ensures var built := BuildChildren(objects, schemas, BodyChildren(children), visiting);
      && built.Ok? && |built.value| == |children|
      && forall i :: 0 <= i < |children| ==>
           built.value[i].rel == children[i].rel && SameContent(built.value[i].node, children[i].node)
    decreases children, 0
  {
    if children != [] {
      assert BodyChildren(children)[1..] == BodyChildren(children[1..]);
      RebuildReturnsTheTree(objects, schemas, children[0].node, visiting);
      RebuildReturnsTheChildren(objects, schemas, children[1..], visiting);
    }
  }

  /** Over content-addressed bodies there is no cycle: rebuilding fails only for an id that is not stored. */
  lemma {:induction false} RebuildFailsOnlyWhenMissing(
      objects: map<ContentId, StoredObject>, schemas: set<string>, cid: ContentId, visiting: set<ContentId>)
    requires ContentAddressed(objects) && visiting !! SubIds(cid)
    ensures BuildNode(objects, schemas, cid, visiting).Ok? <==> SubIds(cid) <= objects.Keys
    ensures BuildNode(objects, schemas, cid, visiting).Err? ==>
      var e := BuildNode(objects, schemas, cid, visiting).error; e.MissingNode? && e.cid in SubIds(cid) - objects.Keys
    decreases cid, 1
  {
    if cid in objects {
      forall id | id in SubIdsEach(cid.body.children) ensures id !in visiting + {cid} {
        var child := OwnerOf(cid.body.children, id);
        SubIdsAreShallower(child.cid, id);
      }
      ChildrenFailOnlyWhenMissing(objects, schemas, cid.body.children, visiting + {cid});
    }
  }

  lemma {:induction false} ChildrenFailOnlyWhenMissing(
      objects: map<ContentId, StoredObject>, schemas: set<string>, children: seq<BodyChild>, visiting: set<ContentId>)
    requires ContentAddressed(objects) && visiting !! SubIdsEach(children)
    ensures BuildChildren(objects, schemas, children, visiting).Ok? <==> SubIdsEach(children) <= objects.Keys
    ensures BuildChildren(objects, schemas, children, visiting).Err? ==>
      var e := BuildChildren(objects, schemas, children, visiting).error;
      e.MissingNode? && e.cid in SubIdsEach(children) - objects.Keys
    decreases children, 0
  {
    if children != [] {
      RebuildFailsOnlyWhenMissing(objects, schemas, children[0].cid, visiting);
      ChildrenFailOnlyWhenMissing(objects, schemas, children[1..], visiting);
    }
  }

  function TextKey(): string -> Order.Key {
    (text: string) => Order.Key(text, "", "")
  }

  /** Record one node under its id, adding the projection it was made through. */
  function Record(objects: map<ContentId, StoredObject>, node: ConfigNode): map<ContentId, StoredObject> {
    var stored := if node.cid in objects then objects[node.cid] else StoredObject(node.kind, BodyOf(node), []);
    var validUnder :=
      if node.projection.Some? && node.projection.value !in stored.validUnder
      then Order.Listing(TextKey(), stored.validUnder + [node.projection.value]) else stored.validUnder;
    objects[node.cid := stored.(validUnder := validUnder)]
  }

  /** Nothing recorded is forgotten: every old object keeps its body and its projections. */
  ghost predicate Keeps(before: map<ContentId, StoredObject>, grown: map<ContentId, StoredObject>) {
    forall cid :: cid in before ==> cid in grown && KeepsObject(before[cid], grown[cid])
  }

  ghost predicate KeepsObject(before: StoredObject, after: StoredObject) {
    after.body == before.body && forall ty :: ty in before.validUnder ==> ty in after.validUnder
  }

  ghost predicate Records(objects: map<ContentId, StoredObject>, node: ConfigNode) {
    node.cid in objects && (node.projection.Some? ==> node.projection.value in objects[node.cid].validUnder)
  }

  lemma RecordKeeps(objects: map<ContentId, StoredObject>, node: ConfigNode)
    requires ContentAddressed(objects) && WellFormed(node)
    ensures var grown := Record(objects, node);
      ContentAddressed(grown) && Keeps(objects, grown) && Records(grown, node)
  {
    var stored := if node.cid in objects then objects[node.cid] else StoredObject(node.kind, BodyOf(node), []);
    if node.projection.Some? {
      var types := stored.validUnder + [node.projection.value];
      forall ty | ty in types ensures ty in Order.Listing(TextKey(), types) {
        var listed := Order.ListedUnderKey(TextKey(), types, ty);
        assert listed == ty;
      }
    }
  }

  lemma KeepsIsTransitive(a: map<ContentId, StoredObject>, b: map<ContentId, StoredObject>,
                          c: map<ContentId, StoredObject>)
    requires Keeps(a, b) && Keeps(b, c)
    ensures Keeps(a, c)
  {
  }

  ghost predicate RecordsAll(objects: map<ContentId, StoredObject>, visits: seq<Visit>) {
    forall visit :: visit in visits ==> Records(objects, visit.node)
  }

  lemma RecordNext(before: map<ContentId, StoredObject>, objects: map<ContentId, StoredObject>, visits: seq<Visit>,
                   i: nat)
    requires ContentAddressed(objects) && Keeps(before, objects) && AllWellFormed(visits) && i < |visits|
    requires RecordsAll(objects, visits[..i])
    ensures var grown := Record(objects, visits[i].node);
      ContentAddressed(grown) && Keeps(before, grown) && RecordsAll(grown, visits[..i + 1])
  {
    var grown := Record(objects, visits[i].node);
    assert visits[i] in visits;
    RecordKeeps(objects, visits[i].node);
    KeepsIsTransitive(before, objects, grown);
    assert visits[..i + 1] == visits[..i] + [visits[i]];
  }

  lemma RecordGrowsKeys(objects: map<ContentId, StoredObject>, grown: map<ContentId, StoredObject>, visits: seq<Visit>,
                        i: nat)
    requires i < |visits| && grown.Keys == objects.Keys + VisitedIds(visits[..i])
    ensures Record(grown, visits[i].node).Keys == objects.Keys + VisitedIds(visits[..i + 1])
  {
    NextVisitedId(visits, i);
  }

  method StoreTree(objects: map<ContentId, StoredObject>, root: ConfigNode)
    returns (grown: map<ContentId, StoredObject>)
    requires ContentAddressed(objects) && WellFormed(root)
    ensures ContentAddressed(grown) && Keeps(objects, grown)
    ensures grown.Keys == objects.Keys + SubIds(root.cid)
    ensures RecordsAll(grown, Walk(root, []))
  {
    WalkVisitsSubIds(root, []);
    var visits := Walk(root, []);
    grown := objects;
    for i := 0 to |visits|
      invariant ContentAddressed(grown) && Keeps(objects, grown)
      invariant grown.Keys == objects.Keys + VisitedIds(visits[..i])
      invariant RecordsAll(grown, visits[..i])
    {
      RecordGrowsKeys(objects, grown, visits, i);
      RecordNext(objects, grown, visits, i);
      grown := Record(grown, visits[i].node);
    }
    assert visits[..|visits|] == visits;
  }

  /** A stored tree stays rebuildable however many other trees are stored after it. */
  lemma StoredTreesSurvive(
      objects: map<ContentId, StoredObject>, grown: map<ContentId, StoredObject>, schemas: set<string>,
      root: ConfigNode)
    requires ContentAddressed(grown) && Keeps(objects, grown)
    requires WellFormed(root) && SubIds(root.cid) <= objects.Keys
    ensures BuildNode(grown, schemas, root.cid, {}).Ok?
    ensures SameContent(BuildNode(grown, schemas, root.cid, {}).value, root)
  {
    RebuildReturnsTheTree(grown, schemas, root, {});
  }

  // ---- The projection a rebuilt node is read through -----------------------------

  /** The first recorded projection that is known; none only when none is known. */
  lemma {:induction false} KnownProjectionIsTheFirst(validUnder: seq<string>, schemas: set<string>)
    ensures KnownProjection(validUnder, schemas).None? <==> forall p :: p in validUnder ==> p !in schemas
    ensures KnownProjection(validUnder, schemas).Some? ==> exists i ::
      && 0 <= i < |validUnder| && validUnder[i] == KnownProjection(validUnder, schemas).value
        && validUnder[i] in schemas
      && forall j :: 0 <= j < i ==> validUnder[j] !in schemas
  {
    if validUnder != [] && validUnder[0] !in schemas {
      var rest := validUnder[1..];
      KnownProjectionIsTheFirst(rest, schemas);
      assert validUnder == [validUnder[0]] + rest;
      if KnownProjection(rest, schemas).Some? {
        var i :| 0 <= i < |rest| && rest[i] == KnownProjection(rest, schemas).value && rest[i] in schemas
          && forall j :: 0 <= j < i ==> rest[j] !in schemas;
        assert validUnder[i + 1] == rest[i];
        forall j | 0 <= j < i + 1 ensures validUnder[j] !in schemas {
          assert j > 0 ==> validUnder[j] == rest[j - 1];
        }
      }
    } else if validUnder != [] {
      assert validUnder[0] == KnownProjection(validUnder, schemas).value;
    }
  }

  /** Every node is read through a projection recorded for its id, if one recorded for it is known. */
  ghost predicate IsRead(objects: map<ContentId, StoredObject>, schemas: set<string>, node: ConfigNode) {
    && node.cid in objects
    && (node.projection.Some? ==>
          node.projection.value in objects[node.cid].validUnder && node.projection.value in schemas)
    && (node.projection.None? ==> forall p :: p in objects[node.cid].validUnder ==> p !in schemas)
  }

  ghost predicate AreRead(objects: map<ContentId, StoredObject>, schemas: set<string>, visits: seq<Visit>) {
    forall visit :: visit in visits ==> IsRead(objects, schemas, visit.node)
  }

  lemma {:induction false} BuiltAreRead(objects: map<ContentId, StoredObject>, schemas: set<string>, cid: ContentId,
                                        visiting: set<ContentId>, path: seq<Slot>)
    requires BuildNode(objects, schemas, cid, visiting).Ok?
    ensures AreRead(objects, schemas, Walk(BuildNode(objects, schemas, cid, visiting).value, path))
    decreases objects.Keys - visiting, 0
  {
    KnownProjectionIsTheFirst(objects[cid].validUnder, schemas);
    BuiltChildrenAreRead(objects, schemas, objects[cid].body.children, visiting + {cid}, path);
  }

  lemma {:induction false} BuiltChildrenAreRead(
      objects: map<ContentId, StoredObject>, schemas: set<string>, children: seq<BodyChild>, visiting: set<ContentId>,
      path: seq<Slot>)
    requires BuildChildren(objects, schemas, children, visiting).Ok?
    ensures AreRead(objects, schemas, WalkEach(BuildChildren(objects, schemas, children, visiting).value, path))
    decreases objects.Keys - visiting, 1 + |children|
  {
    if children != [] {
      var built := BuildChildren(objects, schemas, children, visiting).value;
      var rest := BuildChildren(objects, schemas, children[1..], visiting).value;
      assert built == [built[0]] + rest;
      BuiltAreRead(objects, schemas, children[0].cid, visiting, path + [SlotOf(built[0])]);
      BuiltChildrenAreRead(objects, schemas, children[1..], visiting, path);
    }
  }

  lemma VisitedId(visits: seq<Visit>, cid: ContentId) returns (visit: Visit)
    requires cid in VisitedIds(visits)
    ensures visit in visits && visit.node.cid == cid
  {
    if visits[0].node.cid == cid {
      visit := visits[0];
    } else {
      visit := VisitedId(visits[1..], cid);
    }
  }

  /** A tree stored through known projections is rebuilt with a known one at every node. */
  lemma StoredTreesAreReadable(objects: map<ContentId, StoredObject>, schemas: set<string>, root: ConfigNode,
                               visit: Visit)
    requires ContentAddressed(objects) && WellFormed(root) && RecordsAll(objects, Walk(root, []))
    requires SubIds(root.cid) <= objects.Keys
    requires forall v :: v in Walk(root, []) ==> v.node.projection.Some? && v.node.projection.value in schemas
    requires BuildNode(objects, schemas, root.cid, {}).Ok?
    requires visit in Walk(BuildNode(objects, schemas, root.cid, {}).value, [])
    ensures visit.node.projection.Some? && visit.node.projection.value in schemas
    ensures visit.node.cid in objects && visit.node.projection.value in objects[visit.node.cid].validUnder
  {
    var built := BuildNode(objects, schemas, root.cid, {}).value;
    BuiltAreRead(objects, schemas, root.cid, {}, []);
    RebuildReturnsTheTree(objects, schemas, root, {});
    SameContentSameIds(built, root, []);
    WalkVisitsSubIds(root, []);
    assert visit.node.cid in VisitedIds(Walk(built, []));
    var original := VisitedId(Walk(root, []), visit.node.cid);
  }

  lemma {:induction false} SameContentSameIds(a: ConfigNode, b: ConfigNode, path: seq<Slot>)
    requires SameContent(a, b)
    ensures VisitedIds(Walk(a, path)) == VisitedIds(Walk(b, path))
    decreases a, 1
  {
    SameChildrenSameIds(a.children, b.children, path);
    VisitedIdsConcat([Visit(a, path)], WalkEach(a.children, path));
    VisitedIdsConcat([Visit(b, path)], WalkEach(b.children, path));
  }

  lemma {:induction false} SameChildrenSameIds(a: seq<Child>, b: seq<Child>, path: seq<Slot>)
    requires |a| == |b|
    requires forall i :: 0 <= i < |a| ==> a[i].rel == b[i].rel && SameContent(a[i].node, b[i].node)
    ensures VisitedIds(WalkEach(a, path)) == VisitedIds(WalkEach(b, path))
    decreases a, 0
  {
    if a != [] {
      var first := path + [SlotOf(a[0])];
      SameContentSameIds(a[0].node, b[0].node, first);
      SameChildrenSameIds(a[1..], b[1..], path);
      VisitedIdsConcat(Walk(a[0].node, first), WalkEach(a[1..], path));
      VisitedIdsConcat(Walk(b[0].node, first), WalkEach(b[1..], path));
    }
  }
}
