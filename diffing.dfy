/**
 * Positional diffing, case by case: what `reconcileChildren` does when the
 * children grow, shrink, keep their shape or change type.
 */
module Diffing {
  import opened Wrappers
  import opened Elements
  import opened Fibers
  import opened Reconciliation
  import opened ReconcileFacts

  /** The old children at positions below `n` all have the type of the element at their position. */
  predicate MatchUpTo(fs: Arena, olds: seq<FiberId>, elements: seq<Element>, n: nat)
    requires n <= |olds| && n <= |elements|
    requires forall j :: 0 <= j < |olds| ==> olds[j] in fs
  {
    forall k :: 0 <= k < n ==> fs[olds[k]].kind == Some(elements[k].kind)
  }

  lemma TagsWhenMatched(r: Arena, fs: Arena, olds: seq<FiberId>, elements: seq<Element>, base: nat, n: nat)
    requires n <= |olds| && n <= |elements|
    requires forall j :: 0 <= j < |olds| ==> olds[j] in fs
    requires TaggedByType(r, fs, olds, elements, base) && MatchUpTo(fs, olds, elements, n)
    ensures forall i :: 0 <= i < n ==>
      NewId(base, i) in r && r[NewId(base, i)].effectTag == Some(Update) && r[NewId(base, i)].dom == fs[olds[i]].dom
  {
    forall i | 0 <= i < n ensures SameType(fs, olds, elements, i) {
    }
  }

  /** Positions that match their old fiber's type become UPDATE fibers that keep the old dom. */
  lemma UpdatesWhenMatched(s: Pass, wip: FiberId, elements: seq<Element>, n: nat)
    requires WellLinked(s.fibers, s.nextId) && wip in s.fibers
    requires var olds := OldChildren(s.fibers, s.nextId, wip);
      n <= |olds| && n <= |elements| && forall k :: 0 <= k < n ==> s.fibers[olds[k]].kind == Some(elements[k].kind)
    ensures var r := Reconcile(s, wip, elements);
      var olds := OldChildren(s.fibers, s.nextId, wip);
      forall i :: 0 <= i < n ==>
        NewId(s.nextId, i) in r.fibers && r.fibers[NewId(s.nextId, i)].effectTag == Some(Update)
        && r.fibers[NewId(s.nextId, i)].dom == s.fibers[olds[i]].dom
  {
    var olds := OldChildren(s.fibers, s.nextId, wip);
    ReconciledTags(s, wip, elements);
    assert MatchUpTo(s.fibers, olds, elements, n);
    TagsWhenMatched(Reconcile(s, wip, elements).fibers, s.fibers, olds, elements, s.nextId, n);
  }

  /** Elements past the old children always become PLACEMENT fibers. */
  lemma PlacementsPastOld(s: Pass, wip: FiberId, elements: seq<Element>)
    requires WellLinked(s.fibers, s.nextId) && wip in s.fibers
    ensures var r := Reconcile(s, wip, elements);
      var olds := OldChildren(s.fibers, s.nextId, wip);
      forall i :: |olds| <= i < |elements| ==> NewId(s.nextId, i) in r.fibers && r.fibers[NewId(s.nextId, i)].effectTag == Some(Placement)
  {
    ReconciledTags(s, wip, elements);
  }

  /** When every old child matches its element, nothing is deleted. */
  lemma NoDeletionsWhenMatched(s: Pass, wip: FiberId, elements: seq<Element>)
    requires WellLinked(s.fibers, s.nextId) && wip in s.fibers
    requires var olds := OldChildren(s.fibers, s.nextId, wip);
      |olds| <= |elements| && forall k :: 0 <= k < |olds| ==> s.fibers[olds[k]].kind == Some(elements[k].kind)
    ensures Reconcile(s, wip, elements).deletions == s.deletions
  {
    var olds := OldChildren(s.fibers, s.nextId, wip);
    NoneUnmatched(s.fibers, olds, elements, |olds|);
    ReconciledDeletions(s, wip, elements);
  }

  /** When the elements match a prefix of the old children, exactly the old children past them are deleted. */
  lemma SuffixDeleted(s: Pass, wip: FiberId, elements: seq<Element>)
    requires WellLinked(s.fibers, s.nextId) && wip in s.fibers
    requires var olds := OldChildren(s.fibers, s.nextId, wip);
      |elements| <= |olds| && forall k :: 0 <= k < |elements| ==> s.fibers[olds[k]].kind == Some(elements[k].kind)
    ensures var olds := OldChildren(s.fibers, s.nextId, wip);
      Reconcile(s, wip, elements).deletions == s.deletions + olds[|elements|..]
  {
    var olds := OldChildren(s.fibers, s.nextId, wip);
    SuffixUnmatched(s.fibers, olds, elements, |olds|);
    ReconciledDeletions(s, wip, elements);
  }

  /**
   * Growth: old children that all match the leading elements are all kept; the
   * extra elements become PLACEMENT fibers and no deletion is recorded.
   */
  lemma Growth(s: Pass, wip: FiberId, elements: seq<Element>)
    requires WellLinked(s.fibers, s.nextId) && wip in s.fibers
    requires var olds := OldChildren(s.fibers, s.nextId, wip);
      |olds| <= |elements| && forall k :: 0 <= k < |olds| ==> s.fibers[olds[k]].kind == Some(elements[k].kind)
    ensures var r := Reconcile(s, wip, elements);
      var olds := OldChildren(s.fibers, s.nextId, wip);
      && r.deletions == s.deletions
      && (forall i :: 0 <= i < |olds| ==> r.fibers[NewId(s.nextId, i)].effectTag == Some(Update))
      && (forall i :: |olds| <= i < |elements| ==> r.fibers[NewId(s.nextId, i)].effectTag == Some(Placement))
  {
    NoDeletionsWhenMatched(s, wip, elements);
    UpdatesWhenMatched(s, wip, elements, |OldChildren(s.fibers, s.nextId, wip)|);
    PlacementsPastOld(s, wip, elements);
  }

  /**
   * Shrinkage: when the elements match a prefix of the old children, the fibers
   * are all UPDATE and the remaining old children are deleted, in order.
   */
  lemma Shrinkage(s: Pass, wip: FiberId, elements: seq<Element>)
    requires WellLinked(s.fibers, s.nextId) && wip in s.fibers
    requires var olds := OldChildren(s.fibers, s.nextId, wip);
      |elements| <= |olds| && forall k :: 0 <= k < |elements| ==> s.fibers[olds[k]].kind == Some(elements[k].kind)
    ensures var r := Reconcile(s, wip, elements);
      var olds := OldChildren(s.fibers, s.nextId, wip);
      && r.deletions == s.deletions + olds[|elements|..]
      && |r.deletions| == |s.deletions| + |olds| - |elements|
      && (forall i :: 0 <= i < |elements| ==> r.fibers[NewId(s.nextId, i)].effectTag == Some(Update))
  {
    SuffixDeleted(s, wip, elements);
    UpdatesWhenMatched(s, wip, elements, |elements|);
  }

  /**
   * Positional diffing: the same number of children with the same types in the
   * same order gives only UPDATE fibers, each reusing its old fiber's dom in
   * order, and no deletions.
   */
  lemma SameShape(s: Pass, wip: FiberId, elements: seq<Element>)
    requires WellLinked(s.fibers, s.nextId) && wip in s.fibers
    requires var olds := OldChildren(s.fibers, s.nextId, wip);
      |elements| == |olds| && forall k :: 0 <= k < |olds| ==> s.fibers[olds[k]].kind == Some(elements[k].kind)
    ensures var r := Reconcile(s, wip, elements);
      var olds := OldChildren(s.fibers, s.nextId, wip);
      && r.deletions == s.deletions
      && forall i :: 0 <= i < |elements| ==>
           r.fibers[NewId(s.nextId, i)].effectTag == Some(Update) && r.fibers[NewId(s.nextId, i)].dom == s.fibers[olds[i]].dom
  {
    NoDeletionsWhenMatched(s, wip, elements);
    UpdatesWhenMatched(s, wip, elements, |elements|);
  }

  /**
   * Type mismatch: one old child and one element of a different type give one
   * DELETION of the old fiber and one PLACEMENT, never an UPDATE.
   */
  lemma TypeMismatch(s: Pass, wip: FiberId, element: Element)
    requires WellLinked(s.fibers, s.nextId) && wip in s.fibers
    requires var olds := OldChildren(s.fibers, s.nextId, wip);
      |olds| == 1 && s.fibers[olds[0]].kind != Some(element.kind)
    ensures var r := Reconcile(s, wip, [element]);
      var olds := OldChildren(s.fibers, s.nextId, wip);
      && r.deletions == s.deletions + [olds[0]]
      && r.fibers[olds[0]].effectTag == Some(Deletion)
      && r.fibers[NewId(s.nextId, 0)].effectTag == Some(Placement)
  {
    var olds := OldChildren(s.fibers, s.nextId, wip);
    assert Unmatched(s.fibers, olds, [element], 1) == [olds[0]];
    LookupNew(s, wip, [element], 0);
    LookupExisting(s, wip, [element], olds[0]);
    PatchedShape(s.fibers, wip, olds, [element], s.nextId, olds[0]);
  }
}
