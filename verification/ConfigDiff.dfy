/** The structural diff of two Merkle trees: exactly what changed, and why. */
module ConfigDiff {
  import opened Wrappers
  import opened Seqs
  import opened ConfigNode
  import ConfigTree

  type Path = seq<Slot>

  datatype Change =
    | Added(path: Path, kind: string, cid: ContentId)
    | Removed(path: Path, kind: string, cid: ContentId)
    | Changed(path: Path, kind: string, from: ContentId, to: ContentId,
              attrsChanged: bool, refsChanged: bool, reordered: bool)

  // ---- Addressing nodes by path -------------------------------------------

  /** Position of the child in a slot. */
  function IndexOf(children: seq<Child>, slot: Slot): (index: Option<nat>)
    ensures index.Some? ==> index.value < |children| && SlotOf(children[index.value]) == slot
    ensures index.None? ==> forall i :: 0 <= i < |children| ==> SlotOf(children[i]) != slot
  {
    if children == [] then None
    else if SlotOf(children[|children| - 1]) == slot then Some(|children| - 1)
    else IndexOf(children[..|children| - 1], slot)
  }

  function ChildAt(node: ConfigNode, slot: Slot): (child: Option<ConfigNode>)
    ensures child.Some? ==> child.value < node
  {
    var index := IndexOf(node.children, slot);
    if index.None? then None else Some(node.children[index.value].node)
  }

  /** The node a path of slots leads to. */
  function At(node: ConfigNode, path: Path): Option<ConfigNode>
    decreases |path|
  {
    if path == [] then Some(node)
    else
      var child := ChildAt(node, path[0]);
      if child.None? then None else At(child.value, path[1..])
  }

  /** The child kept its slot but moved position. */
  predicate MovedAt(before: ConfigNode, after: ConfigNode, i: nat)
    requires i < |after.children|
  {
    var index := IndexOf(before.children, SlotOf(after.children[i]));
    index.Some? && index.value != i
  }

  predicate Reordered(before: ConfigNode, after: ConfigNode) {
    exists i :: 0 <= i < |after.children| && MovedAt(before, after, i)
  }

  // ---- What a change is ---------------------------------------------------

  /** The change at a path present in both trees with different ids, or present in one under a parent in both. */
  predicate IsChangeAt(before: ConfigNode, after: ConfigNode, path: Path, c: Change) {
    var b, a := At(before, path), At(after, path);
    match c
    case Changed(_, kind, from, to, attrsChanged, refsChanged, reordered) =>
      && b.Some? && a.Some? && b.value.cid != a.value.cid
      && kind == a.value.kind && from == b.value.cid && to == a.value.cid
      && attrsChanged == (b.value.attrs != a.value.attrs)
      && refsChanged == (b.value.refs != a.value.refs)
      && reordered == Reordered(b.value, a.value)
    case Added(_, kind, cid) =>
      && path != [] && At(before, path[..|path| - 1]).Some? && At(after, path[..|path| - 1]).Some?
      && b.None? && a.Some? && kind == a.value.kind && cid == a.value.cid
    case Removed(_, kind, cid) =>
      && path != [] && At(before, path[..|path| - 1]).Some? && At(after, path[..|path| - 1]).Some?
      && a.None? && b.Some? && kind == b.value.kind && cid == b.value.cid
  }

  predicate IsChange(before: ConfigNode, after: ConfigNode, base: Path, c: Change) {
    base <= c.path && IsChangeAt(before, after, c.path[|base|..], c)
  }

  ghost predicate DistinctPaths(changes: seq<Change>) {
    forall i, j :: 0 <= i < j < |changes| ==> changes[i].path != changes[j].path
  }

  // ---- Equal ids, equal trees ---------------------------------------------

  lemma IndexIsUnique(children: seq<Child>, i: nat)
    requires DistinctSlots(children) && i < |children|
    ensures IndexOf(children, SlotOf(children[i])) == Some(i)
  {
  }

  lemma ChildIsWellFormed(node: ConfigNode, slot: Slot)
    requires WellFormed(node) && ChildAt(node, slot).Some?
    ensures WellFormed(ChildAt(node, slot).value)
  {
    assert node.children[IndexOf(node.children, slot).value] in node.children;
  }

  /** Under equal ids the children match one to one: same slot, same id. */
  lemma EqualIdsMatch(before: ConfigNode, after: ConfigNode, i: nat)
    requires WellFormed(before) && WellFormed(after) && before.cid == after.cid && i < |before.children|
    ensures |after.children| == |before.children|
    ensures SlotOf(before.children[i]) == SlotOf(after.children[i])
    ensures before.children[i].node.cid == after.children[i].node.cid
  {
    var bs, cs := BodyChildren(before.children), BodyChildren(after.children);
    assert bs == cs && bs[i] == cs[i];
    var b, a := before.children[i], after.children[i];
    assert b in before.children && a in after.children;
    assert b.node.key == b.node.cid.body.key && a.node.key == a.node.cid.body.key;
  }

  /** Children aligned by slot carry equal ids when the parents do. */
  lemma EqualIdsAlign(before: ConfigNode, after: ConfigNode, slot: Slot)
    requires WellFormed(before) && WellFormed(after) && before.cid == after.cid
    ensures ChildAt(before, slot).Some? <==> ChildAt(after, slot).Some?
    ensures ChildAt(before, slot).Some? ==> ChildAt(before, slot).value.cid == ChildAt(after, slot).value.cid
  {
    var b, a := IndexOf(before.children, slot), IndexOf(after.children, slot);
    if b.Some? {
      EqualIdsMatch(before, after, b.value);
      IndexIsUnique(after.children, b.value);
    }
    if a.Some? {
      EqualIdsMatch(after, before, a.value);
      IndexIsUnique(before.children, a.value);
    }
  }

  /** Trees with equal ids have the same paths, with equal ids along them. */
  lemma {:induction false} EqualIdsEverywhere(before: ConfigNode, after: ConfigNode, path: Path)
    requires WellFormed(before) && WellFormed(after) && before.cid == after.cid
    ensures At(before, path).Some? <==> At(after, path).Some?
    ensures At(before, path).Some? ==> At(before, path).value.cid == At(after, path).value.cid
    decreases |path|
  {
    if path != [] {
      EqualIdsAlign(before, after, path[0]);
      if ChildAt(before, path[0]).Some? {
        ChildIsWellFormed(before, path[0]);
        ChildIsWellFormed(after, path[0]);
        EqualIdsEverywhere(ChildAt(before, path[0]).value, ChildAt(after, path[0]).value, path[1..]);
      }
    }
  }

  lemma EqualIdsNoChange(before: ConfigNode, after: ConfigNode, base: Path, c: Change)
    requires WellFormed(before) && WellFormed(after) && before.cid == after.cid
    ensures !IsChange(before, after, base, c)
  {
    if base <= c.path {
      EqualIdsEverywhere(before, after, c.path[|base|..]);
    }
  }

  // ---- One step into the trees --------------------------------------------

  lemma AtStep(node: ConfigNode, slot: Slot, rest: Path)
    ensures At(node, [slot] + rest) == if ChildAt(node, slot).None? then None else At(ChildAt(node, slot).value, rest)
  {
    assert ([slot] + rest)[1..] == rest;
  }

  /** A change one or more steps down is a change between the two children, or an added or removed child. */
  lemma ChangeStep(before: ConfigNode, after: ConfigNode, slot: Slot, rest: Path, c: Change)
    ensures var b, a := ChildAt(before, slot), ChildAt(after, slot);
      IsChangeAt(before, after, [slot] + rest, c) <==>
        if b.Some? && a.Some? then IsChangeAt(b.value, a.value, rest, c)
        else if a.Some? then rest == [] && c.Added? && c.kind == a.value.kind && c.cid == a.value.cid
        else b.Some? && rest == [] && c.Removed? && c.kind == b.value.kind && c.cid == b.value.cid
  {
    var path := [slot] + rest;
    AtStep(before, slot, rest);
    AtStep(after, slot, rest);
    if rest == [] {
      assert path[..0] == [];
    } else {
      var parent := rest[..|rest| - 1];
      assert path[..|path| - 1] == [slot] + parent;
      AtStep(before, slot, parent);
      AtStep(after, slot, parent);
    }
  }

  lemma ChangeStepFrom(before: ConfigNode, after: ConfigNode, base: Path, slot: Slot, c: Change)
    ensures var b, a := ChildAt(before, slot), ChildAt(after, slot);
      IsChange(before, after, base, c) && base + [slot] <= c.path <==>
        if b.Some? && a.Some? then IsChange(b.value, a.value, base + [slot], c)
        else if a.Some? then c == Added(base + [slot], a.value.kind, a.value.cid)
        else b.Some? && c == Removed(base + [slot], b.value.kind, b.value.cid)
  {
    if base + [slot] <= c.path {
      var rest := c.path[|base| + 1..];
      assert c.path[|base|..] == [slot] + rest;
      assert c.path == base + [slot] + rest;
      ChangeStep(before, after, slot, rest, c);
    }
  }

  // ---- The diff -----------------------------------------------------------

  /** The changes a child of `after` accounts for. */
  predicate FromChild(before: ConfigNode, base: Path, child: Child, c: Change) {
    var previous := ChildAt(before, SlotOf(child));
    if previous.None? then c == Added(base + [SlotOf(child)], child.node.kind, child.node.cid)
    else IsChange(previous.value, child.node, base + [SlotOf(child)], c)
  }

  predicate FromRemoval(after: ConfigNode, base: Path, child: Child, c: Change) {
    ChildAt(after, SlotOf(child)).None? && c == Removed(base + [SlotOf(child)], child.node.kind, child.node.cid)
  }

  function RootChange(before: ConfigNode, after: ConfigNode, base: Path): Change {
    Changed(base, after.kind, before.cid, after.cid, before.attrs != after.attrs, before.refs != after.refs,
            Reordered(before, after))
  }

  /** A part of the report: the changes of one child, each path once, all beneath the child's path. */
  ghost predicate ReportsChild(before: ConfigNode, base: Path, child: Child, part: seq<Change>) {
    DistinctPaths(part) && forall c :: c in part <==> FromChild(before, base, child, c)
  }

  ghost predicate ReportsRemoval(after: ConfigNode, base: Path, child: Child, part: seq<Change>) {
    |part| <= 1 && forall c :: c in part <==> FromRemoval(after, base, child, c)
  }

  method DiffChild(before: ConfigNode, child: Child, base: Path) returns (found: seq<Change>)
    requires WellFormed(before) && WellFormed(child.node)
    ensures ReportsChild(before, base, child, found)
    decreases before, 0
  {
    var previous := ChildAt(before, SlotOf(child));
    if previous.None? {
      found := [Added(base + [SlotOf(child)], child.node.kind, child.node.cid)];
    } else {
      ChildIsWellFormed(before, SlotOf(child));
      found := Diff(previous.value, child.node, base + [SlotOf(child)]);
    }
  }

  /** The parts report, in order, the first children of `after`. */
  ghost predicate ReportsEach(before: ConfigNode, after: ConfigNode, base: Path, parts: seq<seq<Change>>) {
    parts != [] ==>
      var last := |parts| - 1;
      && last < |after.children|
      && ReportsEach(before, after, base, parts[..last])
      && ReportsChild(before, base, after.children[last], parts[last])
  }

  lemma {:induction false} EachIsReported(before: ConfigNode, after: ConfigNode, base: Path, parts: seq<seq<Change>>,
                                          i: nat)
    requires ReportsEach(before, after, base, parts) && i < |parts|
    ensures |parts| <= |after.children| && ReportsChild(before, base, after.children[i], parts[i])
    decreases |parts|
  {
    if i < |parts| - 1 {
      EachIsReported(before, after, base, parts[..|parts| - 1], i);
    }
  }

  predicate MovedBefore(before: ConfigNode, after: ConfigNode, n: nat)
    requires n <= |after.children|
  {
    n > 0 && (MovedBefore(before, after, n - 1) || MovedAt(before, after, n - 1))
  }

  lemma {:induction false} MovedSomewhere(before: ConfigNode, after: ConfigNode, n: nat)
    requires n <= |after.children|
    ensures MovedBefore(before, after, n) <==> exists i :: 0 <= i < n && MovedAt(before, after, i)
  {
    if n > 0 {
      MovedSomewhere(before, after, n - 1);
    }
  }

  method DiffChildren(before: ConfigNode, after: ConfigNode, base: Path)
    returns (changes: seq<Change>, reordered: bool, ghost parts: seq<seq<Change>>)
    requires WellFormed(before) && WellFormed(after)
    ensures changes == Concat(parts) && |parts| == |after.children| && ReportsEach(before, after, base, parts)
    ensures reordered <==> Reordered(before, after)
    decreases before, 1
  {
    changes, reordered, parts := [], false, [];
    for i := 0 to |after.children|
      invariant changes == Concat(parts) && |parts| == i && ReportsEach(before, after, base, parts)
      invariant reordered <==> MovedBefore(before, after, i)
    {
      assert after.children[i] in after.children;
      if MovedAt(before, after, i) {
        reordered := true;
      }
      var found := DiffChild(before, after.children[i], base);
      assert (parts + [found])[..i] == parts;
      changes, parts := changes + found, parts + [found];
    }
    MovedSomewhere(before, after, |after.children|);
  }

  method Removals(before: ConfigNode, after: ConfigNode, base: Path)
    returns (changes: seq<Change>, ghost parts: seq<seq<Change>>)
    ensures changes == Concat(parts) && |parts| == |before.children|
    ensures forall i :: 0 <= i < |parts| ==> ReportsRemoval(after, base, before.children[i], parts[i])
  {
    changes, parts := [], [];
    for i := 0 to |before.children|
      invariant changes == Concat(parts) && |parts| == i
      invariant forall k :: 0 <= k < i ==> ReportsRemoval(after, base, before.children[k], parts[k])
    {
      var child := before.children[i];
      var found := [];
      if IndexOf(after.children, SlotOf(child)).None? {
        found := [Removed(base + [SlotOf(child)], child.node.kind, child.node.cid)];
      }
      assert (parts + [found])[..i] == parts;
      changes, parts := changes + found, parts + [found];
    }
  }

  /** Structural diff: reports exactly the changes there are, each path once. */
  method Diff(before: ConfigNode, after: ConfigNode, base: Path) returns (changes: seq<Change>)
    requires WellFormed(before) && WellFormed(after)
    ensures forall c :: c in changes <==> IsChange(before, after, base, c)
    ensures DistinctPaths(changes)
    ensures changes == [] <==> before.cid == after.cid
    decreases before, 2
  {
    if before.cid == after.cid {
      forall c ensures !IsChange(before, after, base, c) {
        EqualIdsNoChange(before, after, base, c);
      }
      return [];
    }
    var kept, reordered, keptParts := DiffChildren(before, after, base);
    var gone, goneParts := Removals(before, after, base);
    var root := Changed(base, after.kind, before.cid, after.cid, before.attrs != after.attrs,
      before.refs != after.refs, reordered);
    changes := [root] + kept + gone;
    forall i | 0 <= i < |keptParts| ensures ReportsChild(before, base, after.children[i], keptParts[i]) {
      EachIsReported(before, after, base, keptParts, i);
    }
    assert Assembled(before, after, base, keptParts, goneParts);
    ReportIsExact(before, after, base, keptParts, goneParts);
    ReportIsDistinct(before, after, base, keptParts, goneParts);
  }

  // ---- Assembling the report ----------------------------------------------

  lemma {:induction false} InConcat(parts: seq<seq<Change>>, c: Change)
    ensures c in Concat(parts) <==> exists i :: 0 <= i < |parts| && c in parts[i]
  {
    if parts != [] {
      var init := parts[..|parts| - 1];
      InConcat(init, c);
      if i :| 0 <= i < |parts| && c in parts[i] {
        assert i < |init| ==> init[i] == parts[i];
      }
    }
  }

  ghost predicate Assembled(
      before: ConfigNode, after: ConfigNode, base: Path, kept: seq<seq<Change>>, gone: seq<seq<Change>>)
  {
    && WellFormed(before) && WellFormed(after) && before.cid != after.cid
    && |kept| == |after.children| && |gone| == |before.children|
    && (forall i {:trigger ReportsChild(before, base, after.children[i], kept[i])} ::
          0 <= i < |kept| ==> ReportsChild(before, base, after.children[i], kept[i]))
    && (forall i {:trigger ReportsRemoval(after, base, before.children[i], gone[i])} ::
          0 <= i < |gone| ==> ReportsRemoval(after, base, before.children[i], gone[i]))
  }

  /** What a child reports are changes beneath its path. */
  lemma FromChildIsChange(before: ConfigNode, after: ConfigNode, base: Path, i: nat, c: Change)
    requires WellFormed(after) && i < |after.children|
    ensures var slot := SlotOf(after.children[i]);
      FromChild(before, base, after.children[i], c) <==> IsChange(before, after, base, c) && base + [slot] <= c.path
  {
    var slot := SlotOf(after.children[i]);
    IndexIsUnique(after.children, i);
    ChangeStepFrom(before, after, base, slot, c);
  }

  lemma FromRemovalIsChange(before: ConfigNode, after: ConfigNode, base: Path, i: nat, c: Change)
    requires WellFormed(before) && i < |before.children|
    ensures var slot := SlotOf(before.children[i]);
      FromRemoval(after, base, before.children[i], c) <==>
        ChildAt(after, slot).None? && IsChange(before, after, base, c) && base + [slot] <= c.path
  {
    var slot := SlotOf(before.children[i]);
    IndexIsUnique(before.children, i);
    ChangeStepFrom(before, after, base, slot, c);
  }

  lemma ReportedIsChange(
      before: ConfigNode, after: ConfigNode, base: Path, kept: seq<seq<Change>>, gone: seq<seq<Change>>, c: Change)
    requires Assembled(before, after, base, kept, gone) && (c in Concat(kept) || c in Concat(gone))
    ensures IsChange(before, after, base, c) && base < c.path
  {
    if c in Concat(kept) {
      InConcat(kept, c);
      var i :| 0 <= i < |kept| && c in kept[i];
      assert ReportsChild(before, base, after.children[i], kept[i]);
      FromChildIsChange(before, after, base, i, c);
    } else {
      InConcat(gone, c);
      var i :| 0 <= i < |gone| && c in gone[i];
      assert ReportsRemoval(after, base, before.children[i], gone[i]);
      FromRemovalIsChange(before, after, base, i, c);
    }
  }

  lemma ChangeIsReported(
      before: ConfigNode, after: ConfigNode, base: Path, kept: seq<seq<Change>>, gone: seq<seq<Change>>, c: Change)
    requires Assembled(before, after, base, kept, gone) && IsChange(before, after, base, c) && base < c.path
    ensures c in Concat(kept) || c in Concat(gone)
  {
    var slot := c.path[|base|];
    assert base + [slot] <= c.path;
    var a, b := IndexOf(after.children, slot), IndexOf(before.children, slot);
    if a.Some? {
      FromChildIsChange(before, after, base, a.value, c);
      assert ReportsChild(before, base, after.children[a.value], kept[a.value]);
      InConcat(kept, c);
    } else {
      ChangeStepFrom(before, after, base, slot, c);
      FromRemovalIsChange(before, after, base, b.value, c);
      assert ReportsRemoval(after, base, before.children[b.value], gone[b.value]);
      InConcat(gone, c);
    }
  }

  lemma RootIsTheOnlyChangeAtBase(before: ConfigNode, after: ConfigNode, base: Path, c: Change)
    requires before.cid != after.cid && !(base < c.path)
    ensures IsChange(before, after, base, c) <==> c == RootChange(before, after, base)
  {
    if base <= c.path {
      assert c.path == base && c.path[|base|..] == [];
    }
  }

  lemma ReportIsExact(
      before: ConfigNode, after: ConfigNode, base: Path, kept: seq<seq<Change>>, gone: seq<seq<Change>>)
    requires Assembled(before, after, base, kept, gone)
    ensures forall c ::
      c in [RootChange(before, after, base)] + Concat(kept) + Concat(gone) <==> IsChange(before, after, base, c)
  {
    forall c
      ensures c in [RootChange(before, after, base)] + Concat(kept) + Concat(gone) <==> IsChange(before, after, base, c)
    {
      if c in Concat(kept) || c in Concat(gone) {
        ReportedIsChange(before, after, base, kept, gone, c);
      } else if base < c.path && IsChange(before, after, base, c) {
        ChangeIsReported(before, after, base, kept, gone, c);
      }
      if !(base < c.path) {
        RootIsTheOnlyChangeAtBase(before, after, base, c);
      }
    }
  }

  // ---- Each path once -----------------------------------------------------

  predicate Under(base: Path, slot: Slot, c: Change) {
    base + [slot] <= c.path
  }

  lemma UnderFixesSlot(base: Path, slot: Slot, c: Change)
    requires Under(base, slot, c)
    ensures base < c.path && c.path[|base|] == slot
  {
    assert (base + [slot])[|base|] == slot;
  }

  lemma JoinDistinct(a: seq<Change>, b: seq<Change>)
    requires DistinctPaths(a) && DistinctPaths(b)
    requires forall c, d :: c in a && d in b ==> c.path != d.path
    ensures DistinctPaths(a + b)
  {
  }

  /** The changes of a part all lie under one slot. */
  ghost predicate PartUnder(base: Path, slot: Slot, part: seq<Change>) {
    DistinctPaths(part) && forall c :: c in part ==> Under(base, slot, c)
  }

  lemma {:induction false} PartsAreDistinct(base: Path, children: seq<Child>, parts: seq<seq<Change>>)
    requires DistinctSlots(children) && |parts| == |children|
    requires forall i :: 0 <= i < |parts| ==> PartUnder(base, SlotOf(children[i]), parts[i])
    ensures DistinctPaths(Concat(parts))
  {
    if parts != [] {
      var n := |parts| - 1;
      PartsAreDistinct(base, children[..n], parts[..n]);
      forall c, d | c in Concat(parts[..n]) && d in parts[n] ensures c.path != d.path {
        InConcat(parts[..n], c);
        var i :| 0 <= i < n && c in parts[i];
        assert PartUnder(base, SlotOf(children[i]), parts[i]) && PartUnder(base, SlotOf(children[n]), parts[n]);
        UnderFixesSlot(base, SlotOf(children[i]), c);
        UnderFixesSlot(base, SlotOf(children[n]), d);
      }
      JoinDistinct(Concat(parts[..n]), parts[n]);
    }
  }

  lemma KeptPart(before: ConfigNode, after: ConfigNode, base: Path, i: nat, part: seq<Change>)
    requires WellFormed(after) && i < |after.children| && ReportsChild(before, base, after.children[i], part)
    ensures PartUnder(base, SlotOf(after.children[i]), part)
  {
    forall c | c in part ensures Under(base, SlotOf(after.children[i]), c) {
      FromChildIsChange(before, after, base, i, c);
    }
  }

  lemma GonePart(after: ConfigNode, base: Path, child: Child, part: seq<Change>)
    requires ReportsRemoval(after, base, child, part)
    ensures PartUnder(base, SlotOf(child), part)
    ensures part != [] ==> IndexOf(after.children, SlotOf(child)).None?
  {
    if part != [] {
      assert part[0] in part;
    }
  }

  lemma KeptAndGoneDiffer(
      before: ConfigNode, after: ConfigNode, base: Path, kept: seq<seq<Change>>, gone: seq<seq<Change>>,
      c: Change, d: Change)
    requires Assembled(before, after, base, kept, gone) && c in Concat(kept) && d in Concat(gone)
    ensures base < c.path && base < d.path && c.path != d.path
  {
    InConcat(kept, c);
    InConcat(gone, d);
    var i :| 0 <= i < |kept| && c in kept[i];
    var j :| 0 <= j < |gone| && d in gone[j];
    assert ReportsChild(before, base, after.children[i], kept[i]);
    assert ReportsRemoval(after, base, before.children[j], gone[j]);
    KeptPart(before, after, base, i, kept[i]);
    GonePart(after, base, before.children[j], gone[j]);
    UnderFixesSlot(base, SlotOf(after.children[i]), c);
    UnderFixesSlot(base, SlotOf(before.children[j]), d);
  }

  lemma ReportIsDistinct(
      before: ConfigNode, after: ConfigNode, base: Path, kept: seq<seq<Change>>, gone: seq<seq<Change>>)
    requires Assembled(before, after, base, kept, gone)
    ensures DistinctPaths([RootChange(before, after, base)] + Concat(kept) + Concat(gone))
  {
    forall i | 0 <= i < |kept| ensures PartUnder(base, SlotOf(after.children[i]), kept[i]) {
      assert ReportsChild(before, base, after.children[i], kept[i]);
      KeptPart(before, after, base, i, kept[i]);
    }
    forall i | 0 <= i < |gone| ensures PartUnder(base, SlotOf(before.children[i]), gone[i]) {
      assert ReportsRemoval(after, base, before.children[i], gone[i]);
      GonePart(after, base, before.children[i], gone[i]);
    }
    PartsAreDistinct(base, after.children, kept);
    PartsAreDistinct(base, before.children, gone);
    forall c, d | c in Concat(kept) && d in Concat(gone) ensures c.path != d.path {
      KeptAndGoneDiffer(before, after, base, kept, gone, c, d);
    }
    JoinDistinct(Concat(kept), Concat(gone));
    var root := RootChange(before, after, base);
    forall c | c in Concat(kept) + Concat(gone) ensures c.path != root.path {
      ReportedIsChange(before, after, base, kept, gone, c);
    }
    JoinDistinct([root], Concat(kept) + Concat(gone));
    assert [root] + Concat(kept) + Concat(gone) == [root] + (Concat(kept) + Concat(gone));
  }

  // ---- Every change has a cause -------------------------------------------

  /** The slot is filled on one side only, or by nodes with different ids. */
  predicate ChildDiffers(before: ConfigNode, after: ConfigNode, slot: Slot) {
    var b, a := ChildAt(before, slot), ChildAt(after, slot);
    b.Some? != a.Some? || (b.Some? && b.value.cid != a.value.cid)
  }

  predicate OwnCause(before: ConfigNode, after: ConfigNode) {
    before.kind != after.kind || before.key != after.key || before.attrs != after.attrs || before.refs != after.refs
    || Reordered(before, after)
  }

  lemma AlignedChild(before: ConfigNode, after: ConfigNode, i: nat)
    requires WellFormed(before) && WellFormed(after) && i < |after.children|
    requires !MovedAt(before, after, i) && !ChildDiffers(before, after, SlotOf(after.children[i]))
    ensures i < |before.children| && SlotOf(before.children[i]) == SlotOf(after.children[i])
    ensures before.children[i].node.cid == after.children[i].node.cid
  {
    IndexIsUnique(after.children, i);
  }

  lemma NoChildIsGone(before: ConfigNode, after: ConfigNode)
    requires WellFormed(before) && WellFormed(after)
    requires !Reordered(before, after) && forall slot :: !ChildDiffers(before, after, slot)
    ensures |before.children| <= |after.children|
  {
    var n := |after.children|;
    if |before.children| > n {
      var slot := SlotOf(before.children[n]);
      IndexIsUnique(before.children, n);
      assert !ChildDiffers(before, after, slot);
      AlignedChild(before, after, IndexOf(after.children, slot).value);
    }
  }

  lemma AlignedChildrenAgree(before: ConfigNode, after: ConfigNode)
    requires WellFormed(before) && WellFormed(after)
    requires !Reordered(before, after) && forall slot :: !ChildDiffers(before, after, slot)
    ensures BodyChildren(before.children) == BodyChildren(after.children)
  {
    var m, n := |before.children|, |after.children|;
    forall i | 0 <= i < n ensures i < m && BodyChildren(before.children)[i] == BodyChildren(after.children)[i] {
      AlignedChild(before, after, i);
    }
    if n > 0 {
      AlignedChild(before, after, n - 1);
    }
    NoChildIsGone(before, after);
  }

  /** A node's id moved because of itself, the order of its children, or a differing child. */
  lemma DifferentIdsHaveACause(before: ConfigNode, after: ConfigNode)
    requires WellFormed(before) && WellFormed(after)
    ensures before.cid != after.cid <==> OwnCause(before, after) || exists slot :: ChildDiffers(before, after, slot)
  {
    if before.cid == after.cid {
      forall slot ensures !ChildDiffers(before, after, slot) {
        EqualIdsAlign(before, after, slot);
      }
      forall i | 0 <= i < |after.children| ensures !MovedAt(before, after, i) {
        EqualIdsMatch(after, before, i);
        IndexIsUnique(before.children, i);
      }
    } else if !OwnCause(before, after) && forall slot :: !ChildDiffers(before, after, slot) {
      AlignedChildrenAgree(before, after);
    }
  }

  /** A change reported one step beneath a path. */
  ghost predicate ReportedBeneath(before: ConfigNode, after: ConfigNode, base: Path, path: Path) {
    exists d :: IsChange(before, after, base, d) && |d.path| == |path| + 1 && path <= d.path
  }

  /** Every reported `Changed` has its own cause, or a reported change one step beneath it. */
  lemma EveryChangedIsExplained(before: ConfigNode, after: ConfigNode, base: Path, c: Change)
    requires WellFormed(before) && WellFormed(after) && IsChange(before, after, base, c) && c.Changed?
    ensures var path := c.path[|base|..];
      OwnCause(At(before, path).value, At(after, path).value) || ReportedBeneath(before, after, base, c.path)
  {
    var path := c.path[|base|..];
    assert c.path == base + path;
    PathIsWellFormed(before, path);
    PathIsWellFormed(after, path);
    var b, a := At(before, path).value, At(after, path).value;
    DifferentIdsHaveACause(b, a);
    if !OwnCause(b, a) {
      var slot :| ChildDiffers(b, a, slot);
      DifferingChildIsAChange(before, after, base, path, slot);
    }
  }

  lemma DifferingChildIsAChange(before: ConfigNode, after: ConfigNode, base: Path, path: Path, slot: Slot)
    requires At(before, path).Some? && At(after, path).Some?
    requires ChildDiffers(At(before, path).value, At(after, path).value, slot)
    ensures ReportedBeneath(before, after, base, base + path)
  {
    var d := ChangeOf(At(before, path).value, At(after, path).value, base + path, slot);
    AtSnoc(before, path, slot);
    AtSnoc(after, path, slot);
    assert d.path[|base|..] == path + [slot];
    assert (path + [slot])[..|path|] == path;
    assert IsChange(before, after, base, d);
  }

  /** The change reported for a differing child. */
  function ChangeOf(before: ConfigNode, after: ConfigNode, path: Path, slot: Slot): Change
    requires ChildDiffers(before, after, slot)
  {
    var b, a := ChildAt(before, slot), ChildAt(after, slot);
    if b.None? then Added(path + [slot], a.value.kind, a.value.cid)
    else if a.None? then Removed(path + [slot], b.value.kind, b.value.cid)
    else RootChange(b.value, a.value, path + [slot])
  }

  lemma {:induction false} PathIsWellFormed(node: ConfigNode, path: Path)
    requires WellFormed(node) && At(node, path).Some?
    ensures WellFormed(At(node, path).value)
    decreases |path|
  {
    if path != [] {
      ChildIsWellFormed(node, path[0]);
      PathIsWellFormed(ChildAt(node, path[0]).value, path[1..]);
    }
  }

  lemma {:induction false} AtSnoc(node: ConfigNode, path: Path, slot: Slot)
    requires At(node, path).Some?
    ensures At(node, path + [slot]) == ChildAt(At(node, path).value, slot)
    decreases |path|
  {
    if path == [] {
      AtStep(node, slot, []);
      assert [] + [slot] == [slot] + [];
    } else {
      AtSnoc(ChildAt(node, path[0]).value, path[1..], slot);
      assert (path + [slot])[1..] == path[1..] + [slot];
    }
  }

  // ---- Paths and positions ---------------------------------------------------------

  /** The walk visits exactly the nodes the paths lead to, each at its path. */
  lemma {:induction false} WalkFollowsPaths(node: ConfigNode, base: Path, visit: ConfigTree.Visit)
    requires WellFormed(node)
    ensures visit in ConfigTree.Walk(node, base)
      <==> base <= visit.path && At(node, visit.path[|base|..]) == Some(visit.node)
    decreases node, 1
  {
    WalkFollowsChildren(node, node.children, base, 0, visit);
    if base <= visit.path && |base| < |visit.path| {
      AtIsBelow(node, base, visit);
    } else if base <= visit.path {
      assert visit.path == base;
    }
  }

  lemma AtIsBelow(node: ConfigNode, base: Path, visit: ConfigTree.Visit)
    requires DistinctSlots(node.children) && base <= visit.path && |base| < |visit.path|
    ensures At(node, visit.path[|base|..]) == Some(visit.node)
      <==> exists i :: 0 <= i < |node.children| && IsBelow(node.children[i], base, visit)
  {
    var slot, rest := visit.path[|base|], visit.path[|base| + 1..];
    assert visit.path[|base|..] == [slot] + rest;
    AtStep(node, slot, rest);
    if i :| 0 <= i < |node.children| && IsBelow(node.children[i], base, visit) {
      IndexIsUnique(node.children, i);
    }
    if At(node, [slot] + rest) == Some(visit.node) {
      assert IsBelow(node.children[IndexOf(node.children, slot).value], base, visit);
    }
  }

  /** The visit is at or below the child that its path names. */
  ghost predicate IsBelow(child: Child, base: Path, visit: ConfigTree.Visit) {
    && |base| < |visit.path| && base <= visit.path && visit.path[|base|] == SlotOf(child)
    && At(child.node, visit.path[|base| + 1..]) == Some(visit.node)
  }

  lemma {:induction false} WalkFollowsChildren(node: ConfigNode, children: seq<Child>, base: Path, from: nat,
                                               visit: ConfigTree.Visit)
    requires WellFormed(node) && from <= |node.children| && children == node.children[from..]
    ensures visit in ConfigTree.WalkEach(children, base)
      <==> exists i :: from <= i < |node.children| && IsBelow(node.children[i], base, visit)
    decreases children, 0
  {
    if children != [] {
      var path := base + [SlotOf(children[0])];
      assert children[0] == node.children[from] && children[0] in node.children;
      WalkFollowsPaths(children[0].node, path, visit);
      WalkFollowsChildren(node, children[1..], base, from + 1, visit);
      assert path <= visit.path && At(children[0].node, visit.path[|path|..]) == Some(visit.node)
        <==> IsBelow(children[0], base, visit) by {
        if |base| < |visit.path| && base <= visit.path && visit.path[|base|] == SlotOf(children[0]) {
          assert visit.path[..|base| + 1] == path;
        }
      }
    }
  }

  /** The slot is at one position before and at another after. */
  predicate HasMoved(before: ConfigNode, after: ConfigNode, i: nat, j: nat) {
    && i < |before.children| && j < |after.children| && i != j
    && SlotOf(before.children[i]) == SlotOf(after.children[j])
  }

  /** Children are reordered when the slot of one of them is at another position after. */
  lemma ReorderedIffMoved(before: ConfigNode, after: ConfigNode)
    requires WellFormed(before) && WellFormed(after)
    ensures Reordered(before, after) <==> exists i: nat, j: nat :: HasMoved(before, after, i, j)
  {
    if j: nat :| j < |after.children| && MovedAt(before, after, j) {
      var i := IndexOf(before.children, SlotOf(after.children[j])).value;
      assert HasMoved(before, after, i, j);
    }
    if i: nat, j: nat :| HasMoved(before, after, i, j) {
      IndexIsUnique(before.children, i);
      assert MovedAt(before, after, j);
    }
  }
}
