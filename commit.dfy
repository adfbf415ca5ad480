/**
 * The commit phase as functions of the arena and the host tree: `commitWork`,
 * `commitDeletion` and `commitRoot`.  A JavaScript exception ends the commit
 * where it is raised; the host mutations made before it stay.
 */
module Commit {
  import opened Wrappers
  import opened Elements
  import opened Host
  import opened PropSync
  import opened Fibers

  /**
   * The two ways a commit can fail: a `TypeError` from reading a field of a
   * missing fiber, and the `NotFoundError` `removeChild` raises for a node that
   * is not a child of the given parent.
   */
  datatype Fault = TypeError | NotFoundError

  /** The host tree after a commit step, and the exception that stopped it, if any. */
  datatype Outcome = Outcome(dom: Dom, fault: Option<Fault>)

  /** Every host node a fiber owns exists in the host tree. */
  predicate DomsIn(fs: Arena, dom: Dom)
  {
    forall id {:trigger fs[id].dom} :: id in fs && fs[id].dom.Some? ==> fs[id].dom.value in dom
  }

  /**
   * The loop `while (!domParentFiber.dom) domParentFiber = domParentFiber.parent`
   * started at `p`: the first fiber on the path `p`, `p.parent`, ... that owns
   * a host node, or `None` when the path runs out first.
   */
  function HostParent(fs: Arena, bound: nat, p: Option<FiberId>): (r: Option<FiberId>)
    requires WellLinked(fs, bound) && InArena(fs, p)
    ensures r.Some? ==> r.value in fs && fs[r.value].dom.Some?
    decreases if p.Some? then p.value + 1 else 0
  {
    if p.None? then None
    else if fs[p.value].dom.Some? then p
    else HostParent(fs, bound, fs[p.value].parent)
  }

  /** The path `p`, `p.parent`, `p.parent.parent`, ... up to the root. */
  function Ancestry(fs: Arena, bound: nat, p: Option<FiberId>): (path: seq<FiberId>)
    requires WellLinked(fs, bound) && InArena(fs, p)
    ensures forall i :: 0 <= i < |path| ==> path[i] in fs
    decreases if p.Some? then p.value + 1 else 0
  {
    if p.None? then [] else [p.value] + Ancestry(fs, bound, fs[p.value].parent)
  }

  /** When there is no host parent, no fiber of the ancestry owns a host node. */
  lemma {:induction false} NoHostParent(fs: Arena, bound: nat, p: Option<FiberId>)
    requires WellLinked(fs, bound) && InArena(fs, p) && HostParent(fs, bound, p).None?
    ensures forall i :: 0 <= i < |Ancestry(fs, bound, p)| ==> fs[Ancestry(fs, bound, p)[i]].dom.None?
    decreases if p.Some? then p.value + 1 else 0
  {
    if p.Some? {
      var up := fs[p.value].parent;
      assert fs[p.value].dom.None? && HostParent(fs, bound, up).None?;
      NoHostParent(fs, bound, up);
      var path, tail := Ancestry(fs, bound, p), Ancestry(fs, bound, up);
      assert path == [p.value] + tail;
      forall i | 0 <= i < |path| ensures fs[path[i]].dom.None? {
        if i > 0 {
          assert path[i] == tail[i - 1];
        } else {
          assert path[0] == p.value;
        }
      }
    }
  }

  /** A host parent that exists is on the ancestry, after fibers that own no host node. */
  lemma {:induction false} HostParentFound(fs: Arena, bound: nat, p: Option<FiberId>)
    requires WellLinked(fs, bound) && InArena(fs, p) && HostParent(fs, bound, p).Some?
    ensures exists i :: 0 <= i < |Ancestry(fs, bound, p)| && Ancestry(fs, bound, p)[i] == HostParent(fs, bound, p).value
                        && forall j :: 0 <= j < i ==> fs[Ancestry(fs, bound, p)[j]].dom.None?
    decreases if p.Some? then p.value + 1 else 0
  {
    var path := Ancestry(fs, bound, p);
    assert path[0] == p.value;
    if fs[p.value].dom.Some? {
      assert HostParent(fs, bound, p) == p;
    } else {
      var up := fs[p.value].parent;
      HostParentFound(fs, bound, up);
      var tail := Ancestry(fs, bound, up);
      assert path == [p.value] + tail;
      var i :| 0 <= i < |tail| && tail[i] == HostParent(fs, bound, up).value && forall j :: 0 <= j < i ==> fs[tail[j]].dom.None?;
      assert path[i + 1] == tail[i];
      forall j | 0 <= j < i + 1 ensures fs[path[j]].dom.None? {
        if j > 0 { assert path[j] == tail[j - 1]; }
      }
    }
  }

  /** `HostParent` is the first fiber of the ancestry that owns a host node. */
  lemma HostParentIsNearest(fs: Arena, bound: nat, p: Option<FiberId>)
    requires WellLinked(fs, bound) && InArena(fs, p)
    ensures HostParent(fs, bound, p).None?
      <==> forall i :: 0 <= i < |Ancestry(fs, bound, p)| ==> fs[Ancestry(fs, bound, p)[i]].dom.None?
    ensures HostParent(fs, bound, p).Some? ==>
      exists i :: 0 <= i < |Ancestry(fs, bound, p)| && Ancestry(fs, bound, p)[i] == HostParent(fs, bound, p).value
                  && forall j :: 0 <= j < i ==> fs[Ancestry(fs, bound, p)[j]].dom.None?
  {
    var path, r := Ancestry(fs, bound, p), HostParent(fs, bound, p);
    if r.None? {
      NoHostParent(fs, bound, p);
    } else {
      HostParentFound(fs, bound, p);
      var i :| 0 <= i < |path| && path[i] == r.value && forall j :: 0 <= j < i ==> fs[path[j]].dom.None?;
      assert fs[path[i]].dom.Some?;
    }
  }

  /** The path `f`, `f.child`, `f.child.child`, ... that `commitDeletion` walks down. */
  function FirstChildren(fs: Arena, bound: nat, f: Option<FiberId>): (path: seq<FiberId>)
    requires WellLinked(fs, bound) && InArena(fs, f)
    ensures forall i :: 0 <= i < |path| ==> path[i] in fs
    decreases if f.Some? then bound - f.value else 0
  {
    if f.None? then [] else [f.value] + FirstChildren(fs, bound, fs[f.value].child)
  }

  /**
   * `commitDeletion(fiber, domParent)`: removes the host node of `fiber`, or
   * else of the first fiber down its `child` path that owns one.  Reaching a
   * missing fiber is the unguarded `fiber.child` of the source: a `TypeError`.
   */
  function CommitDeletion(fs: Arena, bound: nat, dom: Dom, f: Option<FiberId>, parent: NodeId): (r: Outcome)
    requires WellLinked(fs, bound) && InArena(fs, f)
    ensures r.dom.Keys == dom.Keys
    decreases if f.Some? then bound - f.value else 0
  {
    if f.None? then Outcome(dom, Some(TypeError))
    else match fs[f.value].dom
      case Some(n) => Removed(dom, parent, n)
      case None => CommitDeletion(fs, bound, dom, fs[f.value].child, parent)
  }

  /** `match` on the result of `removeChild`: the new host tree, or the `NotFoundError` it raises. */
  function Removed(dom: Dom, parent: NodeId, n: NodeId): Outcome
  {
    match RemoveChild(dom, parent, n)
    case Some(d) => Outcome(d, None)
    case None => Outcome(dom, Some(NotFoundError))
  }

  /**
   * A deletion removes the host node of the first fiber on the `child` path
   * that owns one, never an ancestor's; it fails with `NotFoundError` when that
   * node is not a child of `parent`.
   */
  lemma {:induction false} DeletionRemovesFirstOwned(fs: Arena, bound: nat, dom: Dom, f: Option<FiberId>, parent: NodeId, i: nat)
    requires WellLinked(fs, bound) && InArena(fs, f)
    requires var path := FirstChildren(fs, bound, f);
      i < |path| && fs[path[i]].dom.Some? && forall j :: 0 <= j < i ==> fs[path[j]].dom.None?
    ensures CommitDeletion(fs, bound, dom, f, parent) == Removed(dom, parent, fs[FirstChildren(fs, bound, f)[i]].dom.value)
    decreases i
  {
    var path := FirstChildren(fs, bound, f);
    assert path[0] == f.value;
    if i > 0 {
      var down := fs[f.value].child;
      var tail := FirstChildren(fs, bound, down);
      assert path == [f.value] + tail;
      forall j | 0 <= j < i - 1 ensures fs[tail[j]].dom.None? {
        assert tail[j] == path[j + 1];
      }
      assert fs[path[0]].dom.None?;
      DeletionRemovesFirstOwned(fs, bound, dom, down, parent, i - 1);
    }
  }

  /** When no fiber on the `child` path owns a host node, a deletion faults with `TypeError` and changes nothing. */
  lemma {:induction false} DeletionWithoutNodeFaults(fs: Arena, bound: nat, dom: Dom, f: Option<FiberId>, parent: NodeId)
    requires WellLinked(fs, bound) && InArena(fs, f)
    requires forall j :: 0 <= j < |FirstChildren(fs, bound, f)| ==> fs[FirstChildren(fs, bound, f)[j]].dom.None?
    ensures CommitDeletion(fs, bound, dom, f, parent) == Outcome(dom, Some(TypeError))
    decreases if f.Some? then bound - f.value else 0
  {
    if f.Some? {
      var path := FirstChildren(fs, bound, f);
      var tail := FirstChildren(fs, bound, fs[f.value].child);
      assert path == [f.value] + tail;
      assert fs[path[0]].dom.None?;
      forall j | 0 <= j < |tail| ensures fs[tail[j]].dom.None? {
        assert tail[j] == path[j + 1];
      }
      DeletionWithoutNodeFaults(fs, bound, dom, fs[f.value].child, parent);
    }
  }

  /** A deleted fiber with no host node of its own removes its child's host node, not its own. */
  lemma DeletionSkipsDomlessFiber(fs: Arena, bound: nat, dom: Dom, f: FiberId, c: FiberId, parent: NodeId)
    requires WellLinked(fs, bound) && f in fs
    requires fs[f].dom.None? && fs[f].child == Some(c) && fs[c].dom.Some?
    requires parent in dom && fs[c].dom.value in dom[parent].children
    ensures CommitDeletion(fs, bound, dom, Some(f), parent) == Outcome(RemoveChild(dom, parent, fs[c].dom.value).value, None)
  {
  }

  /**
   * What `commitWork` does for one fiber before it recurses: find the host
   * parent, then append (PLACEMENT with a node), sync properties (UPDATE with a
   * node) or delete (DELETION).  Any other fiber, including a PLACEMENT whose
   * node is still `null`, changes nothing.
   */
  function Effect(fs: Arena, bound: nat, dom: Dom, id: FiberId): (r: Outcome)
    requires WellLinked(fs, bound) && id in fs && DomsIn(fs, dom)
    ensures r.dom.Keys == dom.Keys
  {
    var x := fs[id];
    match HostParent(fs, bound, x.parent)
    case None => Outcome(dom, Some(TypeError))
    case Some(p) =>
      var parentNode := fs[p].dom.value;
      if x.effectTag == Some(Placement) && x.dom.Some? then
        Outcome(AppendChild(dom, parentNode, x.dom.value), None)
      else if x.effectTag == Some(Update) && x.dom.Some? then
        if x.alternate.None? then Outcome(dom, Some(TypeError))
        else Outcome(dom[x.dom.value := Synced(dom[x.dom.value], fs[x.alternate.value].props, x.props)], None)
      else if x.effectTag == Some(Deletion) then
        CommitDeletion(fs, bound, dom, Some(id), parentNode)
      else
        Outcome(dom, None)
  }

  /**
   * `commitWork(fiber)`: the fiber's own effect, then `commitWork(fiber.child)`,
   * then `commitWork(fiber.sibling)`, stopping at the first exception.  The
   * recursion does not look at the effect tag, so it also walks the old
   * children and later siblings of a fiber in the deletion list.
   */
  function CommitWork(fs: Arena, bound: nat, dom: Dom, f: Option<FiberId>): (r: Outcome)
    requires WellLinked(fs, bound) && InArena(fs, f) && DomsIn(fs, dom)
    ensures r.dom.Keys == dom.Keys
    decreases if f.Some? then bound - f.value else 0
  {
    if f.None? then Outcome(dom, None)
    else
      var own := Effect(fs, bound, dom, f.value);
      if own.fault.Some? then own
      else
        var down := CommitWork(fs, bound, own.dom, fs[f.value].child);
        if down.fault.Some? then down
        else CommitWork(fs, bound, down.dom, fs[f.value].sibling)
  }

  /** `deletions.forEach(commitWork)`: each entry in order, stopping at the first exception. */
  function CommitDeletions(fs: Arena, bound: nat, dom: Dom, dels: seq<FiberId>): (r: Outcome)
    requires WellLinked(fs, bound) && DomsIn(fs, dom)
    requires forall i :: 0 <= i < |dels| ==> dels[i] in fs
    ensures r.dom.Keys == dom.Keys
  {
    if dels == [] then Outcome(dom, None)
    else
      var before := CommitDeletions(fs, bound, dom, dels[..|dels| - 1]);
      if before.fault.Some? then before
      else CommitWork(fs, bound, before.dom, Some(dels[|dels| - 1]))
  }

  /** `commitRoot()` on the host tree: every deletion first, then the new tree under the root's child. */
  function CommitRoot(fs: Arena, bound: nat, dom: Dom, dels: seq<FiberId>, root: FiberId): (r: Outcome)
    requires WellLinked(fs, bound) && DomsIn(fs, dom) && root in fs
    requires forall i :: 0 <= i < |dels| ==> dels[i] in fs
    ensures r.dom.Keys == dom.Keys
  {
    var d := CommitDeletions(fs, bound, dom, dels);
    if d.fault.Some? then d else CommitWork(fs, bound, d.dom, fs[root].child)
  }

  // ---------------------------------------------------------------------------
  // What a commit does.

  /**
   * One fiber's own effect: a PLACEMENT with a node appends it as the last
   * child of the nearest ancestor's node; an UPDATE with a node syncs it from
   * its alternate's props to its own; a PLACEMENT without a node does nothing.
   */
  lemma EffectCases(fs: Arena, bound: nat, dom: Dom, id: FiberId)
    requires WellLinked(fs, bound) && id in fs && DomsIn(fs, dom)
    requires HostParent(fs, bound, fs[id].parent).Some?
    ensures var x, r := fs[id], Effect(fs, bound, dom, id);
      var parentNode := fs[HostParent(fs, bound, x.parent).value].dom.value;
      && (x.effectTag == Some(Placement) && x.dom.Some? ==>
            r.fault.None? && r.dom[parentNode].children == Without(dom[parentNode].children, x.dom.value) + [x.dom.value])
      && (x.effectTag == Some(Placement) && x.dom.None? ==> r == Outcome(dom, None))
      && (x.effectTag == Some(Update) && x.dom.Some? && x.alternate.Some? ==>
            r.fault.None? && r.dom[x.dom.value] == Synced(dom[x.dom.value], fs[x.alternate.value].props, x.props)
            && forall n :: n in dom && n != x.dom.value ==> r.dom[n] == dom[n])
      && (x.effectTag.None? ==> r == Outcome(dom, None))
  {
  }

  /**
   * A fiber whose commit leaves the host tree as it is: it has a host parent
   * and is neither a PLACEMENT with a node nor a DELETION, and if it is an
   * UPDATE with a node its props equal its alternate's.
   */
  ghost predicate Quiet(fs: Arena, bound: nat, id: FiberId)
    requires WellLinked(fs, bound) && id in fs
  {
    var x := fs[id];
    && HostParent(fs, bound, x.parent).Some?
    && !(x.effectTag == Some(Placement) && x.dom.Some?)
    && x.effectTag != Some(Deletion)
    && (x.effectTag == Some(Update) && x.dom.Some? ==> x.alternate.Some? && fs[x.alternate.value].props == x.props)
  }

  /**
   * Idempotence of a re-render: when every fiber from `f` on is quiet (only
   * UPDATEs that re-apply the same props), committing from `f` succeeds and
   * leaves the host tree unchanged.
   */
  lemma {:induction false} QuietCommitChangesNothing(fs: Arena, bound: nat, dom: Dom, f: Option<FiberId>)
    requires WellLinked(fs, bound) && InArena(fs, f) && DomsIn(fs, dom)
    requires forall id :: id in fs && f.Some? && f.value <= id ==> Quiet(fs, bound, id)
    ensures CommitWork(fs, bound, dom, f) == Outcome(dom, None)
    decreases if f.Some? then bound - f.value else 0
  {
    if f.Some? {
      var x := fs[f.value];
      assert Quiet(fs, bound, f.value);
      if x.effectTag == Some(Update) && x.dom.Some? {
        SyncIdempotent(dom[x.dom.value], x.props);
        assert dom[x.dom.value := dom[x.dom.value]] == dom;
      }
      assert Effect(fs, bound, dom, f.value) == Outcome(dom, None);
      QuietCommitChangesNothing(fs, bound, dom, x.child);
      QuietCommitChangesNothing(fs, bound, dom, x.sibling);
    }
  }

  /** A deleted fiber with neither a host node nor a child faults in `commitDeletion`. */
  lemma DeletedLeafFaults(fs: Arena, bound: nat, dom: Dom, f: FiberId, parent: NodeId)
    requires WellLinked(fs, bound) && f in fs && fs[f].dom.None? && fs[f].child.None?
    ensures CommitDeletion(fs, bound, dom, Some(f), parent) == Outcome(dom, Some(TypeError))
  {
  }

  /** A host parent with two children, each owned by a fiber that is tagged DELETION; the fibers are siblings. */
  function TwoDeleted(): Arena
  {
    map[
      0 := Fiber(None, NoProps, Some(0), None, Some(1), None, None, None, []),
      1 := Fiber(Some(Tag("p")), NoProps, Some(1), Some(0), None, Some(2), None, Some(Deletion), []),
      2 := Fiber(Some(Tag("p")), NoProps, Some(2), Some(0), None, None, None, Some(Deletion), [])]
  }

  /** The host tree of `TwoDeleted`: node 0 with the children 1 and 2. */
  function TwoChildren(): Dom
  {
    map[0 := HostNode(ElementNode("div"), map[], {}, [1, 2]), 1 := EmptyNode(ElementNode("p")), 2 := EmptyNode(ElementNode("p"))]
  }

  lemma TwoDeletedLinked()
    ensures WellLinked(TwoDeleted(), 3) && DomsIn(TwoDeleted(), TwoChildren())
  {
    var fs := TwoDeleted();
    assert LinksOk(fs, 0) && LinksOk(fs, 1) && LinksOk(fs, 2);
  }

  /** Deleting the second fiber alone, once the first node is gone, empties node 0. */
  lemma SecondDeletionEmpties()
    ensures WellLinked(TwoDeleted(), 3)
    ensures var d1 := TwoChildren()[0 := TwoChildren()[0].(children := [2])];
      CommitWork(TwoDeleted(), 3, d1, Some(2)) == Outcome(d1[0 := d1[0].(children := [])], None)
  {
    TwoDeletedLinked();
    var fs, d1 := TwoDeleted(), TwoChildren()[0 := TwoChildren()[0].(children := [2])];
    assert HostParent(fs, 3, Some(0)) == Some(0);
    assert Without([2], 2) == [];
    assert Effect(fs, 3, d1, 2) == Outcome(d1[0 := d1[0].(children := [])], None);
  }

  /** `commitWork` on the first deletion entry removes the first node and, following `sibling`, the second. */
  lemma FirstDeletionRemovesBoth()
    ensures WellLinked(TwoDeleted(), 3)
    ensures CommitDeletions(TwoDeleted(), 3, TwoChildren(), [1]) == Outcome(TwoChildren()[0 := TwoChildren()[0].(children := [])], None)
  {
    SecondDeletionEmpties();
    var fs, dom := TwoDeleted(), TwoChildren();
    assert HostParent(fs, 3, Some(0)) == Some(0);
    assert Without([1, 2], 1) == [2] by {
      assert [1, 2][1..] == [2];
      assert Without([2], 1) == [2] + Without([], 1);
    }
    var d1 := dom[0 := dom[0].(children := [2])];
    assert Effect(fs, 3, dom, 1) == Outcome(d1, None);
    assert d1[0 := d1[0].(children := [])] == dom[0 := dom[0].(children := [])];
    assert [1][..0] == [];
  }

  /**
   * Two deleted siblings.  `commitWork` on the first deletion entry removes
   * the first node and then, following `sibling`, the second; the second
   * deletion entry then asks `removeChild` for a node that is gone and faults.
   * This is what the source does when a parent loses two adjacent children.
   */
  lemma AdjacentDeletionsFault()
    ensures WellLinked(TwoDeleted(), 3) && DomsIn(TwoDeleted(), TwoChildren())
    ensures CommitDeletions(TwoDeleted(), 3, TwoChildren(), [1, 2]).fault == Some(NotFoundError)
  {
    TwoDeletedLinked();
    FirstDeletionRemovesBoth();
    var fs, dom := TwoDeleted(), TwoChildren();
    var d2 := dom[0 := dom[0].(children := [])];
    assert [1, 2][..1] == [1];
    assert HostParent(fs, 3, Some(0)) == Some(0);
    assert RemoveChild(d2, 0, 2).None?;
    assert Effect(fs, 3, d2, 2).fault == Some(NotFoundError);
  }
}
