/**
 * What one `reconcileChildren` call does to the arena, stated as lemmas about
 * `Reconcile`: the shape of each new and each existing fiber, the new sibling
 * chain, well-linkedness, and which old children are deleted.
 */
module ReconcileFacts {
  import opened Wrappers
  import opened Elements
  import opened Fibers
  import opened Reconciliation

  // ---------------------------------------------------------------------------
  // What the reconciled pass looks like.  Each fact is stated once about
  // `NewFiber` or `Patched` and once, by lookup, about `Reconcile`.

  /** Where new fiber `i` of the pass comes from. */
  lemma LookupNew(s: Pass, wip: FiberId, elements: seq<Element>, i: nat)
    requires WellLinked(s.fibers, s.nextId) && wip in s.fibers
    requires i < |elements|
    ensures var r := Reconcile(s, wip, elements);
      NewId(s.nextId, i) in r.fibers && NewId(s.nextId, i) !in s.fibers
      && r.fibers[NewId(s.nextId, i)] == NewFiber(s.fibers, wip, OldChildren(s.fibers, s.nextId, wip), elements, s.nextId, i, |elements|)
  {
  }

  /** Where an existing fiber of the pass comes from. */
  lemma LookupExisting(s: Pass, wip: FiberId, elements: seq<Element>, id: FiberId)
    requires WellLinked(s.fibers, s.nextId) && wip in s.fibers && id in s.fibers
    ensures var r := Reconcile(s, wip, elements);
      var olds := OldChildren(s.fibers, s.nextId, wip);
      id in r.fibers && r.fibers[id] == Patched(s.fibers, wip, olds, elements, s.nextId, id, Max(|elements|, |olds|))
  {
  }

  /** `ReconciledChild`: what the `i`-th new fiber of the pass holds (see `NewFiberShape`). */
  lemma ReconciledChild(s: Pass, wip: FiberId, elements: seq<Element>, i: nat)
    requires WellLinked(s.fibers, s.nextId) && wip in s.fibers
    requires i < |elements|
    ensures var r := Reconcile(s, wip, elements);
      var olds := OldChildren(s.fibers, s.nextId, wip);
      NewId(s.nextId, i) in r.fibers &&
      var f := r.fibers[NewId(s.nextId, i)];
      && f.props == elements[i].props && f.parent == Some(wip) && f.child.None? && f.hooks == []
      && f.sibling == (if i + 1 < |elements| then Some(NewId(s.nextId, i + 1)) else None)
      && f.kind == Some(elements[i].kind)
      && (f.effectTag == Some(Update) <==> i < |olds| && s.fibers[olds[i]].kind == Some(elements[i].kind))
      && (f.effectTag == Some(Update) ==> f.dom == s.fibers[olds[i]].dom && f.alternate == Some(olds[i]))
      && (f.effectTag != Some(Update) ==> f.effectTag == Some(Placement) && f.dom.None? && f.alternate.None?)
  {
    LookupNew(s, wip, elements, i);
    NewFiberShape(s.fibers, wip, OldChildren(s.fibers, s.nextId, wip), elements, s.nextId, i, |elements|);
  }

  /** What an existing fiber of the pass holds (see `PatchedShape`). */
  lemma ReconciledExisting(s: Pass, wip: FiberId, elements: seq<Element>, id: FiberId)
    requires WellLinked(s.fibers, s.nextId) && wip in s.fibers && id in s.fibers
    ensures var r := Reconcile(s, wip, elements);
      var olds := OldChildren(s.fibers, s.nextId, wip);
      id in r.fibers &&
      var f, g := s.fibers[id], r.fibers[id];
      && g.(effectTag := f.effectTag, child := f.child) == f
      && (id in Unmatched(s.fibers, olds, elements, |olds|) ==> g.effectTag == Some(Deletion))
      && (id !in Unmatched(s.fibers, olds, elements, |olds|) ==> g.effectTag == f.effectTag)
      && (id != wip || (|elements| == 0 && olds == []) ==> g.child == f.child)
      && (id == wip && (|elements| > 0 || olds != []) ==> g.child == if |elements| > 0 then Some(NewId(s.nextId, 0)) else None)
  {
    LookupExisting(s, wip, elements, id);
    PatchedShape(s.fibers, wip, OldChildren(s.fibers, s.nextId, wip), elements, s.nextId, id);
  }

  /** New fiber `i` is in the arena and links to the next new fiber, or to nothing after the last. */
  predicate LinkedAt(fs: Arena, base: nat, n: nat, i: nat)
  {
    NewId(base, i) in fs && fs[NewId(base, i)].sibling == NextNew(base, i, n)
  }

  lemma {:induction false} RangeChain(fs: Arena, base: nat, n: nat, k: nat)
    requires k <= n
    requires forall i :: k <= i < n ==> LinkedAt(fs, base, n, i)
    ensures IsChain(fs, if k < n then Some(NewId(base, k)) else None, IdRange(base, n)[k..])
    decreases n - k
  {
    if k < n {
      assert LinkedAt(fs, base, n, k);
      RangeChain(fs, base, n, k + 1);
      assert IdRange(base, n)[k..][1..] == IdRange(base, n)[k + 1..];
    }
  }

  /** Fibers `base`, ..., `base + n - 1`, each linked to the next, form the chain from `base`. */
  lemma ChainOfRange(fs: Arena, head: Option<FiberId>, base: nat, n: nat)
    requires head == if n > 0 then Some(NewId(base, 0)) else None
    requires forall i :: 0 <= i < n ==> LinkedAt(fs, base, n, i)
    ensures IsChain(fs, head, IdRange(base, n))
  {
    RangeChain(fs, base, n, 0);
    assert IdRange(base, n)[0..] == IdRange(base, n);
  }

  /** Every new fiber links to the next one. */
  lemma ReconciledSiblings(s: Pass, wip: FiberId, elements: seq<Element>)
    requires WellLinked(s.fibers, s.nextId) && wip in s.fibers
    ensures var r := Reconcile(s, wip, elements);
      forall i :: 0 <= i < |elements| ==> LinkedAt(r.fibers, s.nextId, |elements|, i)
  {
    var r := Reconcile(s, wip, elements);
    var olds := OldChildren(s.fibers, s.nextId, wip);
    forall i | 0 <= i < |elements| ensures LinkedAt(r.fibers, s.nextId, |elements|, i) {
      LookupNew(s, wip, elements, i);
      assert NewFiber(s.fibers, wip, olds, elements, s.nextId, i, |elements|).sibling == NextNew(s.nextId, i, |elements|);
    }
  }

  /** The new children form the sibling chain hanging from `wip.child`, in element order. */
  lemma ReconciledChain(s: Pass, wip: FiberId, elements: seq<Element>)
    requires WellLinked(s.fibers, s.nextId) && wip in s.fibers
    requires |elements| > 0 || OldChildren(s.fibers, s.nextId, wip) != []
    ensures var r := Reconcile(s, wip, elements);
      wip in r.fibers && IsChain(r.fibers, r.fibers[wip].child, IdRange(s.nextId, |elements|))
  {
    var r := Reconcile(s, wip, elements);
    var olds := OldChildren(s.fibers, s.nextId, wip);
    ReconciledSiblings(s, wip, elements);
    LookupExisting(s, wip, elements, wip);
    PatchedShape(s.fibers, wip, olds, elements, s.nextId, wip);
    ChainOfRange(r.fibers, r.fibers[wip].child, s.nextId, |elements|);
  }

  /** Well-linkedness of one fiber of the pass. */
  lemma ReconciledLinks(s: Pass, wip: FiberId, elements: seq<Element>, id: FiberId)
    requires WellLinked(s.fibers, s.nextId) && wip in s.fibers
    requires id in Reconcile(s, wip, elements).fibers
    ensures var r := Reconcile(s, wip, elements); id < r.nextId && LinksOk(r.fibers, id)
  {
    var olds := OldChildren(s.fibers, s.nextId, wip);
    if id in s.fibers {
      assert LinksOk(s.fibers, id);
      LookupExisting(s, wip, elements, id);
      PatchedShape(s.fibers, wip, olds, elements, s.nextId, id);
    } else {
      var i := id - s.nextId;
      assert id == NewId(s.nextId, i);
      LookupNew(s, wip, elements, i);
      NewFiberShape(s.fibers, wip, olds, elements, s.nextId, i, |elements|);
    }
  }

  /** Reconciling keeps the arena well linked. */
  lemma ReconcileWellLinked(s: Pass, wip: FiberId, elements: seq<Element>)
    requires WellLinked(s.fibers, s.nextId) && wip in s.fibers
    ensures var r := Reconcile(s, wip, elements); WellLinked(r.fibers, r.nextId)
  {
    var r := Reconcile(s, wip, elements);
    forall id | id in r.fibers ensures id < r.nextId && LinksOk(r.fibers, id) {
      ReconciledLinks(s, wip, elements, id);
    }
  }

  /** New fiber `i` is UPDATE, reusing its old fiber's dom, exactly when position `i` has the same type; PLACEMENT otherwise. */
  ghost predicate TaggedByType(r: Arena, fs: Arena, olds: seq<FiberId>, elements: seq<Element>, base: nat)
    requires forall j :: 0 <= j < |olds| ==> olds[j] in fs
  {
    forall i :: 0 <= i < |elements| ==>
      && NewId(base, i) in r
      && r[NewId(base, i)].effectTag == (if SameType(fs, olds, elements, i) then Some(Update) else Some(Placement))
      && (SameType(fs, olds, elements, i) ==> r[NewId(base, i)].dom == fs[olds[i]].dom)
  }

  lemma ReconciledTags(s: Pass, wip: FiberId, elements: seq<Element>)
    requires WellLinked(s.fibers, s.nextId) && wip in s.fibers
    ensures TaggedByType(Reconcile(s, wip, elements).fibers, s.fibers, OldChildren(s.fibers, s.nextId, wip), elements, s.nextId)
  {
    var r := Reconcile(s, wip, elements);
    var olds := OldChildren(s.fibers, s.nextId, wip);
    forall i | 0 <= i < |elements|
      ensures && NewId(s.nextId, i) in r.fibers
              && r.fibers[NewId(s.nextId, i)].effectTag == (if SameType(s.fibers, olds, elements, i) then Some(Update) else Some(Placement))
              && (SameType(s.fibers, olds, elements, i) ==> r.fibers[NewId(s.nextId, i)].dom == s.fibers[olds[i]].dom)
    {
      LookupNew(s, wip, elements, i);
    }
  }

  /** The deletions grow by the unmatched old children, in order. */
  lemma ReconciledDeletions(s: Pass, wip: FiberId, elements: seq<Element>)
    requires WellLinked(s.fibers, s.nextId) && wip in s.fibers
    ensures var olds := OldChildren(s.fibers, s.nextId, wip);
      Reconcile(s, wip, elements).deletions == s.deletions + Unmatched(s.fibers, olds, elements, |olds|)
  {
  }
}
