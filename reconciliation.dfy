/**
 * What `reconcileChildren(wipFiber, elements)` computes, stated once as a
 * function of the arena before the call.  The engine's loop is proved equal to
 * it; the lemmas below say what it means.
 */
module Reconciliation {
  import opened Wrappers
  import opened Elements
  import opened Fibers

  /** The part of the engine state a render pass builds: the arena, the next free id, the deletions. */
  datatype Pass = Pass(fibers: Arena, nextId: nat, deletions: seq<FiberId>)

  function Min(a: nat, b: nat): nat { if a <= b then a else b }

  function Max(a: nat, b: nat): nat { if a <= b then b else a }

  /** `wipFiber.alternate && wipFiber.alternate.child`, the head of the old children. */
  function OldHead(fs: Arena, wip: FiberId): Option<FiberId>
    requires wip in fs
  {
    var alt := fs[wip].alternate;
    if alt.Some? && alt.value in fs then fs[alt.value].child else None
  }

  /** The previous generation's children of `wip`, in sibling order. */
  function OldChildren(fs: Arena, bound: nat, wip: FiberId): (olds: seq<FiberId>)
    requires WellLinked(fs, bound) && wip in fs
    ensures IsChain(fs, OldHead(fs, wip), olds)
    ensures forall i, j :: 0 <= i < j < |olds| ==> olds[i] < olds[j]
  {
    Siblings(fs, bound, OldHead(fs, wip))
  }

  /** `isSameType`: position `i` has both an old fiber and an element, of the same type. */
  predicate SameType(fs: Arena, olds: seq<FiberId>, elements: seq<Element>, i: nat)
    requires forall j :: 0 <= j < |olds| ==> olds[j] in fs
  {
    i < |olds| && i < |elements| && fs[olds[i]].kind == Some(elements[i].kind)
  }

  /** The old fibers at positions below `n` that have no same-type element, in position order. */
  function Unmatched(fs: Arena, olds: seq<FiberId>, elements: seq<Element>, n: nat): (r: seq<FiberId>)
    requires n <= |olds|
    requires forall j :: 0 <= j < |olds| ==> olds[j] in fs
    ensures |r| <= n
    ensures forall x :: x in r ==> x in olds[..n]
  {
    if n == 0 then []
    else
      assert olds[..n - 1] <= olds[..n];
      Unmatched(fs, olds, elements, n - 1) + (if SameType(fs, olds, elements, n - 1) then [] else [olds[n - 1]])
  }

  /** The id of the new fiber after position `i`, once `count` new fibers exist. */
  function NextNew(base: nat, i: nat, count: nat): Option<FiberId>
  {
    if i + 1 < count then Some(NewId(base, i + 1)) else None
  }

  /** The new fiber for position `i` (id `base + i`): UPDATE reusing the old fiber, or PLACEMENT. */
  function NewFiber(fs: Arena, wip: FiberId, olds: seq<FiberId>, elements: seq<Element>, base: nat, i: nat, count: nat): Fiber
    requires i < |elements|
    requires forall j :: 0 <= j < |olds| ==> olds[j] in fs
  {
    var e := elements[i];
    if SameType(fs, olds, elements, i) then
      Fiber(fs[olds[i]].kind, e.props, fs[olds[i]].dom, Some(wip), None, NextNew(base, i, count), Some(olds[i]), Some(Update), [])
    else
      Fiber(Some(e.kind), e.props, None, Some(wip), None, NextNew(base, i, count), None, Some(Placement), [])
  }

  /**
   * An existing fiber after `rounds` loop iterations: tagged DELETION when it is
   * an unmatched old child, and, for `wip` itself, with `child` set at round 0.
   */
  function Patched(fs: Arena, wip: FiberId, olds: seq<FiberId>, elements: seq<Element>, base: nat, id: FiberId, rounds: nat): Fiber
    requires id in fs
    requires forall j :: 0 <= j < |olds| ==> olds[j] in fs
  {
    var f := fs[id];
    var tagged := if id in Unmatched(fs, olds, elements, Min(rounds, |olds|)) then f.(effectTag := Some(Deletion)) else f;
    if id == wip && rounds > 0 then tagged.(child := if |elements| > 0 then Some(base) else None) else tagged
  }

  /** The id of the `i`-th fiber created from `base` on. */
  function NewId(base: nat, i: nat): FiberId
  {
    base + i
  }

  function NewIds(base: nat, n: nat): (ids: set<FiberId>)
    ensures forall id :: id in ids <==> base <= id < base + n
  {
    var ids := set i | 0 <= i < n :: NewId(base, i);
    assert forall id :: base <= id < base + n ==> id in ids by {
      forall id | base <= id < base + n ensures id in ids {
        assert id == NewId(base, id - base);
      }
    }
    ids
  }

  /** The ids `base`, `base + 1`, ..., `base + n - 1`. */
  function IdRange(base: nat, n: nat): (r: seq<FiberId>)
    ensures |r| == n && forall i :: 0 <= i < n ==> r[i] == NewId(base, i)
  {
    seq(n, i requires 0 <= i < n => NewId(base, i))
  }

  /**
   * The arena after `rounds` iterations of the loop: the existing fibers
   * patched, and one new fiber for each element position visited so far.
   */
  function Rebuilt(fs: Arena, wip: FiberId, olds: seq<FiberId>, elements: seq<Element>, base: nat, rounds: nat): (m: Arena)
    requires forall j :: 0 <= j < |olds| ==> olds[j] in fs
    requires forall id :: id in fs ==> id < base
    ensures m.Keys == fs.Keys + NewIds(base, Min(rounds, |elements|))
    ensures forall id :: id in fs ==> m[id] == Patched(fs, wip, olds, elements, base, id, rounds)
    ensures forall i :: 0 <= i < Min(rounds, |elements|) ==>
      m[NewId(base, i)] == NewFiber(fs, wip, olds, elements, base, i, Min(rounds, |elements|))
  {
    map id | id in fs.Keys + NewIds(base, Min(rounds, |elements|)) ::
      if id in fs then Patched(fs, wip, olds, elements, base, id, rounds)
      else NewFiber(fs, wip, olds, elements, base, id - base, Min(rounds, |elements|))
  }

  /** The pass after `reconcileChildren(wip, elements)`: the loop runs until both the elements and the old children are used up. */
  function Reconcile(s: Pass, wip: FiberId, elements: seq<Element>): (r: Pass)
    requires WellLinked(s.fibers, s.nextId) && wip in s.fibers
    ensures r.nextId == s.nextId + |elements|
    ensures r.fibers.Keys == s.fibers.Keys + NewIds(s.nextId, |elements|)
  {
    var olds := OldChildren(s.fibers, s.nextId, wip);
    Pass(Rebuilt(s.fibers, wip, olds, elements, s.nextId, Max(|elements|, |olds|)),
      s.nextId + |elements|,
      s.deletions + Unmatched(s.fibers, olds, elements, |olds|))
  }

  /**
   * The new fiber for position `i`: props of the `i`-th element, parent `wip`,
   * no child, linked to the next position; UPDATE with the old fiber's type and
   * dom and `alternate` = the old fiber iff the old fiber at position `i` has the
   * element's type; PLACEMENT with the element's type, no dom and no alternate
   * otherwise.
   */
  lemma NewFiberShape(fs: Arena, wip: FiberId, olds: seq<FiberId>, elements: seq<Element>, base: nat, i: nat, n: nat)
    requires i < |elements|
    requires forall j :: 0 <= j < |olds| ==> olds[j] in fs
    ensures var f := NewFiber(fs, wip, olds, elements, base, i, n);
      && f.props == elements[i].props && f.parent == Some(wip) && f.child.None? && f.hooks == []
      && f.sibling == (if i + 1 < n then Some(NewId(base, i + 1)) else None)
      && f.kind == Some(elements[i].kind)
      && (f.effectTag == Some(Update) <==> i < |olds| && fs[olds[i]].kind == Some(elements[i].kind))
      && (f.effectTag == Some(Update) ==> f.dom == fs[olds[i]].dom && f.alternate == Some(olds[i]))
      && (f.effectTag != Some(Update) ==> f.effectTag == Some(Placement) && f.dom.None? && f.alternate.None?)
  {
  }

  /**
   * An existing fiber after all rounds: every field kept, except that an
   * unmatched old child is tagged DELETION and `wip.child` is overwritten (with
   * `None` when there are no elements but there were old children).
   */
  lemma PatchedShape(fs: Arena, wip: FiberId, olds: seq<FiberId>, elements: seq<Element>, base: nat, id: FiberId)
    requires id in fs
    requires forall j :: 0 <= j < |olds| ==> olds[j] in fs
    ensures var f, g := fs[id], Patched(fs, wip, olds, elements, base, id, Max(|elements|, |olds|));
      && g.(effectTag := f.effectTag, child := f.child) == f
      && (id in Unmatched(fs, olds, elements, |olds|) ==> g.effectTag == Some(Deletion))
      && (id !in Unmatched(fs, olds, elements, |olds|) ==> g.effectTag == f.effectTag)
      && (id != wip || (|elements| == 0 && olds == []) ==> g.child == f.child)
      && (id == wip && (|elements| > 0 || olds != []) ==> g.child == if |elements| > 0 then Some(NewId(base, 0)) else None)
  {
  }

  // ---------------------------------------------------------------------------
  // Which old fibers are deleted.

  /** Old child `j` is deleted exactly when it has no same-type element at its position. */
  lemma {:induction false} UnmatchedAt(fs: Arena, olds: seq<FiberId>, elements: seq<Element>, n: nat, j: nat)
    requires n <= |olds| && j < n
    requires forall k :: 0 <= k < |olds| ==> olds[k] in fs
    requires forall a, b :: 0 <= a < b < |olds| ==> olds[a] < olds[b]
    ensures olds[j] in Unmatched(fs, olds, elements, n) <==> !SameType(fs, olds, elements, j)
  {
    if j < n - 1 {
      UnmatchedAt(fs, olds, elements, n - 1, j);
      assert olds[j] != olds[n - 1];
    } else {
      assert olds[j] !in olds[..n - 1];
      assert olds[j] !in Unmatched(fs, olds, elements, n - 1);
    }
  }

  /** When every old child has a same-type element (the children grew or kept their count), nothing is deleted. */
  lemma {:induction false} NoneUnmatched(fs: Arena, olds: seq<FiberId>, elements: seq<Element>, n: nat)
    requires n <= |olds|
    requires forall k :: 0 <= k < |olds| ==> olds[k] in fs
    requires forall k :: 0 <= k < n ==> SameType(fs, olds, elements, k)
    ensures Unmatched(fs, olds, elements, n) == []
  {
    if n > 0 {
      NoneUnmatched(fs, olds, elements, n - 1);
    }
  }

  /** When the elements are a same-type prefix of the old children, exactly the old children past them are deleted. */
  lemma {:induction false} SuffixUnmatched(fs: Arena, olds: seq<FiberId>, elements: seq<Element>, n: nat)
    requires |elements| <= n <= |olds|
    requires forall k :: 0 <= k < |olds| ==> olds[k] in fs
    requires forall k :: 0 <= k < |elements| ==> SameType(fs, olds, elements, k)
    ensures Unmatched(fs, olds, elements, n) == olds[|elements|..n]
  {
    if n == |elements| {
      NoneUnmatched(fs, olds, elements, n);
    } else {
      SuffixUnmatched(fs, olds, elements, n - 1);
      assert !SameType(fs, olds, elements, n - 1);
      assert olds[|elements|..n] == olds[|elements|..n - 1] + [olds[n - 1]];
    }
  }

}
