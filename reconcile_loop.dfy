/**
 * One iteration of the `reconcileChildren` loop, as the writes it makes to the
 * arena, and the proof that `rounds` iterations build `Rebuilt(.., rounds)`.
 */
module ReconcileLoop {
  import opened Wrappers
  import opened Elements
  import opened Fibers
  import opened Reconciliation

  /** What the loop relies on: `wip` and the old children are fibers of the arena, and every id is below `base`. */
  ghost predicate LoopSetting(fs: Arena, wip: FiberId, olds: seq<FiberId>, base: nat)
  {
    && wip in fs
    && (forall j :: 0 <= j < |olds| ==> olds[j] in fs)
    && (forall id :: id in fs ==> id < base)
  }

  /**
   * Iteration `k` applied to the arena `cur`: create the new fiber for element
   * `k` (with no sibling yet), tag the old fiber at `k` DELETION when it has no
   * same-type element, then hang the new fiber (or nothing) from `wip.child` at
   * `k = 0`, or from the previous new fiber's `sibling` when element `k` exists.
   */
  ghost function Round(cur: Arena, fs: Arena, wip: FiberId, olds: seq<FiberId>, elements: seq<Element>, base: nat, k: nat): Arena
    requires LoopSetting(fs, wip, olds, base)
    requires wip in cur && (k < |olds| ==> olds[k] in cur)
    requires 0 < k < |elements| ==> NewId(base, k - 1) in cur
  {
    var created := if k < |elements| then cur[NewId(base, k) := NewFiber(fs, wip, olds, elements, base, k, k + 1)] else cur;
    var tagged := if k < |olds| && !SameType(fs, olds, elements, k) then created[olds[k] := created[olds[k]].(effectTag := Some(Deletion))] else created;
    var newFiber := if k < |elements| then Some(NewId(base, k)) else None;
    if k == 0 then tagged[wip := tagged[wip].(child := newFiber)]
    else if k < |elements| then tagged[NewId(base, k - 1) := tagged[NewId(base, k - 1)].(sibling := newFiber)]
    else tagged
  }

  /** The first write of iteration `k`: the new fiber for element `k`, if there is one. */
  ghost function Created(cur: Arena, fs: Arena, wip: FiberId, olds: seq<FiberId>, elements: seq<Element>, base: nat, k: nat): Arena
    requires LoopSetting(fs, wip, olds, base)
  {
    if k < |elements| then cur[NewId(base, k) := NewFiber(fs, wip, olds, elements, base, k, k + 1)] else cur
  }

  /** The second write of iteration `k`: the DELETION tag on an unmatched old fiber. */
  ghost function Tagged(cur: Arena, fs: Arena, wip: FiberId, olds: seq<FiberId>, elements: seq<Element>, base: nat, k: nat): Arena
    requires LoopSetting(fs, wip, olds, base)
    requires k < |olds| ==> olds[k] in cur
  {
    if k < |olds| && !SameType(fs, olds, elements, k) then cur[olds[k] := cur[olds[k]].(effectTag := Some(Deletion))] else cur
  }

  /** The third write of iteration `k`: `wip.child` at `k = 0`, else the previous new fiber's `sibling`. */
  ghost function Linked(cur: Arena, wip: FiberId, elements: seq<Element>, base: nat, k: nat): Arena
    requires wip in cur && (0 < k < |elements| ==> NewId(base, k - 1) in cur)
  {
    var newFiber := if k < |elements| then Some(NewId(base, k)) else None;
    if k == 0 then cur[wip := cur[wip].(child := newFiber)]
    else if k < |elements| then cur[NewId(base, k - 1) := cur[NewId(base, k - 1)].(sibling := newFiber)]
    else cur
  }

  /** Iteration `k` is its three writes in order. */
  lemma RoundPhases(cur: Arena, fs: Arena, wip: FiberId, olds: seq<FiberId>, elements: seq<Element>, base: nat, k: nat)
    requires LoopSetting(fs, wip, olds, base)
    requires wip in cur && (k < |olds| ==> olds[k] in cur)
    requires 0 < k < |elements| ==> NewId(base, k - 1) in cur
    ensures var c := Created(cur, fs, wip, olds, elements, base, k);
      var t := Tagged(c, fs, wip, olds, elements, base, k);
      wip in t && (0 < k < |elements| ==> NewId(base, k - 1) in t)
      && Round(cur, fs, wip, olds, elements, base, k) == Linked(t, wip, elements, base, k)
  {
  }

  /** The ids of the arena after `rounds` iterations: the old ones and one per element visited. */
  ghost predicate DoneKeys(m: Arena, fs: Arena, elements: seq<Element>, base: nat, rounds: nat)
  {
    m.Keys == fs.Keys + NewIds(base, Min(rounds, |elements|))
  }

  /** The existing fibers after `rounds` iterations. */
  ghost predicate DoneExisting(m: Arena, fs: Arena, wip: FiberId, olds: seq<FiberId>, elements: seq<Element>, base: nat, rounds: nat)
    requires LoopSetting(fs, wip, olds, base) && DoneKeys(m, fs, elements, base, rounds)
  {
    forall id :: id in fs ==> m[id] == Patched(fs, wip, olds, elements, base, id, rounds)
  }

  /** The new fibers after `rounds` iterations. */
  ghost predicate DoneNew(m: Arena, fs: Arena, wip: FiberId, olds: seq<FiberId>, elements: seq<Element>, base: nat, rounds: nat)
    requires LoopSetting(fs, wip, olds, base) && DoneKeys(m, fs, elements, base, rounds)
  {
    forall i :: 0 <= i < Min(rounds, |elements|) ==>
      m[NewId(base, i)] == NewFiber(fs, wip, olds, elements, base, i, Min(rounds, |elements|))
  }

  /**
   * `m` is the arena after `rounds` iterations: the existing fibers patched for
   * `rounds` rounds and one new fiber per element position visited so far.
   */
  ghost predicate RoundsDone(m: Arena, fs: Arena, wip: FiberId, olds: seq<FiberId>, elements: seq<Element>, base: nat, rounds: nat)
    requires LoopSetting(fs, wip, olds, base)
  {
    && DoneKeys(m, fs, elements, base, rounds)
    && DoneExisting(m, fs, wip, olds, elements, base, rounds)
    && DoneNew(m, fs, wip, olds, elements, base, rounds)
  }

  /** Before the first iteration the arena is the one the loop started from. */
  lemma NoRoundsDone(fs: Arena, wip: FiberId, olds: seq<FiberId>, elements: seq<Element>, base: nat)
    requires LoopSetting(fs, wip, olds, base)
    ensures RoundsDone(fs, fs, wip, olds, elements, base, 0)
  {
    assert NewIds(base, 0) == {};
  }

  /** The arena after all rounds is `Rebuilt`. */
  lemma RoundsDoneRebuilt(m: Arena, fs: Arena, wip: FiberId, olds: seq<FiberId>, elements: seq<Element>, base: nat, rounds: nat)
    requires LoopSetting(fs, wip, olds, base) && RoundsDone(m, fs, wip, olds, elements, base, rounds)
    ensures m == Rebuilt(fs, wip, olds, elements, base, rounds)
  {
    var r := Rebuilt(fs, wip, olds, elements, base, rounds);
    forall id | id in m ensures m[id] == r[id] {
      if id in fs {
        assert r[id] == Patched(fs, wip, olds, elements, base, id, rounds);
      } else {
        var i := id - base;
        assert id == NewId(base, i) && i < Min(rounds, |elements|);
        assert r[NewId(base, i)] == NewFiber(fs, wip, olds, elements, base, i, Min(rounds, |elements|));
      }
    }
    SameMaps(m, r);
  }

  lemma SameMaps(a: Arena, b: Arena)
    requires a.Keys == b.Keys && forall id :: id in a ==> a[id] == b[id]
    ensures a == b
  {
  }

  /** The patched fibers keep every field except `effectTag` and `child`. */
  lemma PatchedKeeps(fs: Arena, wip: FiberId, olds: seq<FiberId>, elements: seq<Element>, base: nat, id: FiberId, rounds: nat)
    requires LoopSetting(fs, wip, olds, base) && id in fs
    ensures var g := Patched(fs, wip, olds, elements, base, id, rounds);
      g.(effectTag := fs[id].effectTag, child := fs[id].child) == fs[id]
  {
  }

  lemma RoundKeys(m: Arena, fs: Arena, wip: FiberId, olds: seq<FiberId>, elements: seq<Element>, base: nat, k: nat)
    requires LoopSetting(fs, wip, olds, base) && DoneKeys(m, fs, elements, base, k)
    ensures wip in m && (k < |olds| ==> olds[k] in m) && (0 < k < |elements| ==> NewId(base, k - 1) in m)
    ensures DoneKeys(Round(m, fs, wip, olds, elements, base, k), fs, elements, base, k + 1)
  {
    var n := |elements|;
    assert 0 < k < n ==> NewId(base, k - 1) in NewIds(base, Min(k, n));
    var l := Round(m, fs, wip, olds, elements, base, k);
    if k < n {
      assert l.Keys == m.Keys + {NewId(base, k)};
      assert NewIds(base, Min(k + 1, n)) == NewIds(base, Min(k, n)) + {NewId(base, k)};
    } else {
      assert l.Keys == m.Keys;
      assert Min(k + 1, n) == Min(k, n);
    }
  }

  /** The old fibers unmatched after `k + 1` rounds. */
  lemma UnmatchedNext(fs: Arena, wip: FiberId, olds: seq<FiberId>, elements: seq<Element>, base: nat, k: nat)
    requires LoopSetting(fs, wip, olds, base)
    ensures Unmatched(fs, olds, elements, Min(k + 1, |olds|))
      == Unmatched(fs, olds, elements, Min(k, |olds|)) + (if k < |olds| && !SameType(fs, olds, elements, k) then [olds[k]] else [])
  {
    if k >= |olds| {
      assert Min(k + 1, |olds|) == Min(k, |olds|);
    }
  }

  /** Round `k` tags the old fiber at `k` when it is unmatched, and sets `wip.child` at round 0. */
  lemma PatchedNext(fs: Arena, wip: FiberId, olds: seq<FiberId>, elements: seq<Element>, base: nat, k: nat, id: FiberId)
    requires LoopSetting(fs, wip, olds, base) && id in fs
    ensures var p := Patched(fs, wip, olds, elements, base, id, k);
      var t := if k < |olds| && !SameType(fs, olds, elements, k) && id == olds[k] then p.(effectTag := Some(Deletion)) else p;
      Patched(fs, wip, olds, elements, base, id, k + 1)
        == if k == 0 && id == wip then t.(child := if k < |elements| then Some(NewId(base, k)) else None) else t
  {
    UnmatchedNext(fs, wip, olds, elements, base, k);
  }

  /** An existing fiber after iteration `k` is the patched fiber of `k + 1` rounds. */
  lemma RoundExisting(m: Arena, fs: Arena, wip: FiberId, olds: seq<FiberId>, elements: seq<Element>, base: nat, k: nat, id: FiberId)
    requires LoopSetting(fs, wip, olds, base) && DoneKeys(m, fs, elements, base, k) && id in fs
    requires DoneExisting(m, fs, wip, olds, elements, base, k)
    ensures id in Round(m, fs, wip, olds, elements, base, k)
    ensures Round(m, fs, wip, olds, elements, base, k)[id] == Patched(fs, wip, olds, elements, base, id, k + 1)
  {
    RoundKeys(m, fs, wip, olds, elements, base, k);
    PatchedNext(fs, wip, olds, elements, base, k, id);
    var n := |elements|;
    var p := Patched(fs, wip, olds, elements, base, id, k);
    assert m[id] == p;
    assert id != NewId(base, k) && (k > 0 ==> id != NewId(base, k - 1));
    var created := if k < n then m[NewId(base, k) := NewFiber(fs, wip, olds, elements, base, k, k + 1)] else m;
    assert created[id] == p;
    var del := k < |olds| && !SameType(fs, olds, elements, k);
    var tagged := if del then created[olds[k] := created[olds[k]].(effectTag := Some(Deletion))] else created;
    var t := if del && id == olds[k] then p.(effectTag := Some(Deletion)) else p;
    assert tagged[id] == t;
    var newFiber := if k < n then Some(NewId(base, k)) else None;
    var l := if k == 0 then tagged[wip := tagged[wip].(child := newFiber)]
      else if k < n then tagged[NewId(base, k - 1) := tagged[NewId(base, k - 1)].(sibling := newFiber)]
      else tagged;
    assert Round(m, fs, wip, olds, elements, base, k) == l;
    if k == 0 && id == wip {
      assert l[id] == t.(child := newFiber);
    } else {
      assert l[id] == t;
    }
  }

  /** A new fiber's fields do not depend on the count except through its `sibling`. */
  lemma NewFiberRelinked(fs: Arena, wip: FiberId, olds: seq<FiberId>, elements: seq<Element>, base: nat, i: nat, count: nat, count': nat)
    requires LoopSetting(fs, wip, olds, base) && i < |elements|
    ensures NewFiber(fs, wip, olds, elements, base, i, count).(sibling := NextNew(base, i, count'))
      == NewFiber(fs, wip, olds, elements, base, i, count')
  {
  }

  /** The first write of iteration `k` gives new fiber `k` its fiber, and leaves every other id alone. */
  lemma CreatedAt(cur: Arena, fs: Arena, wip: FiberId, olds: seq<FiberId>, elements: seq<Element>, base: nat, k: nat, x: FiberId)
    requires LoopSetting(fs, wip, olds, base) && (x in cur || (k < |elements| && x == NewId(base, k)))
    ensures var c := Created(cur, fs, wip, olds, elements, base, k);
      x in c && c[x] == if k < |elements| && x == NewId(base, k) then NewFiber(fs, wip, olds, elements, base, k, k + 1) else cur[x]
  {
  }

  /** The second write of iteration `k` touches no id outside the old arena. */
  lemma TaggedAway(cur: Arena, fs: Arena, wip: FiberId, olds: seq<FiberId>, elements: seq<Element>, base: nat, k: nat, x: FiberId)
    requires LoopSetting(fs, wip, olds, base) && (k < |olds| ==> olds[k] in cur) && x in cur && x !in fs
    ensures var t := Tagged(cur, fs, wip, olds, elements, base, k);
      x in t && t[x] == cur[x]
  {
  }

  /** The third write of iteration `k` sets the previous new fiber's `sibling`, and no other field of a new fiber. */
  lemma RoundLinkedAt(cur: Arena, wip: FiberId, elements: seq<Element>, base: nat, k: nat, x: FiberId)
    requires wip in cur && (0 < k < |elements| ==> NewId(base, k - 1) in cur) && x in cur && x != wip
    ensures var l := Linked(cur, wip, elements, base, k);
      x in l && l[x] == if 0 < k < |elements| && x == NewId(base, k - 1) then cur[x].(sibling := Some(NewId(base, k))) else cur[x]
  {
  }

  /** Two counts that give a new fiber the same `sibling` give it the same fiber. */
  lemma NewFiberRecount(fs: Arena, wip: FiberId, olds: seq<FiberId>, elements: seq<Element>, base: nat, i: nat, count: nat, count': nat)
    requires LoopSetting(fs, wip, olds, base) && i < |elements| && NextNew(base, i, count) == NextNew(base, i, count')
    ensures NewFiber(fs, wip, olds, elements, base, i, count) == NewFiber(fs, wip, olds, elements, base, i, count')
  {
  }

  /** A new fiber after iteration `k` is the new fiber of `k + 1` rounds. */
  lemma RoundNew(m: Arena, fs: Arena, wip: FiberId, olds: seq<FiberId>, elements: seq<Element>, base: nat, k: nat, i: nat)
    requires LoopSetting(fs, wip, olds, base) && DoneKeys(m, fs, elements, base, k) && i < Min(k + 1, |elements|)
    requires DoneNew(m, fs, wip, olds, elements, base, k)
    ensures NewId(base, i) in Round(m, fs, wip, olds, elements, base, k)
    ensures Round(m, fs, wip, olds, elements, base, k)[NewId(base, i)] == NewFiber(fs, wip, olds, elements, base, i, Min(k + 1, |elements|))
  {
    RoundKeys(m, fs, wip, olds, elements, base, k);
    RoundPhases(m, fs, wip, olds, elements, base, k);
    var n := |elements|;
    var x := NewId(base, i);
    var c := Created(m, fs, wip, olds, elements, base, k);
    var t := Tagged(c, fs, wip, olds, elements, base, k);
    var before := if i == k then NewFiber(fs, wip, olds, elements, base, k, k + 1) else m[x];
    CreatedAt(m, fs, wip, olds, elements, base, k, x);
    TaggedAway(c, fs, wip, olds, elements, base, k, x);
    RoundLinkedAt(t, wip, elements, base, k, x);
    if i == k {
      assert NextNew(base, i, k + 1) == NextNew(base, i, Min(k + 1, n));
      NewFiberRecount(fs, wip, olds, elements, base, i, k + 1, Min(k + 1, n));
    } else if i + 1 == k && k < n {
      assert m[x] == NewFiber(fs, wip, olds, elements, base, i, Min(k, n));
      assert NextNew(base, i, k + 1) == Some(NewId(base, k));
      NewFiberRelinked(fs, wip, olds, elements, base, i, Min(k, n), k + 1);
    } else {
      assert m[x] == NewFiber(fs, wip, olds, elements, base, i, Min(k, n));
      assert NextNew(base, i, Min(k, n)) == NextNew(base, i, Min(k + 1, n));
      NewFiberRecount(fs, wip, olds, elements, base, i, Min(k, n), Min(k + 1, n));
    }
  }

  /** One iteration turns the arena of `k` rounds into the arena of `k + 1` rounds. */
  lemma RoundStep(m: Arena, fs: Arena, wip: FiberId, olds: seq<FiberId>, elements: seq<Element>, base: nat, k: nat)
    requires LoopSetting(fs, wip, olds, base) && RoundsDone(m, fs, wip, olds, elements, base, k)
    ensures RoundsDone(Round(m, fs, wip, olds, elements, base, k), fs, wip, olds, elements, base, k + 1)
  {
    RoundKeys(m, fs, wip, olds, elements, base, k);
    var l := Round(m, fs, wip, olds, elements, base, k);
    forall id | id in fs ensures l[id] == Patched(fs, wip, olds, elements, base, id, k + 1) {
      RoundExisting(m, fs, wip, olds, elements, base, k, id);
    }
    forall i | 0 <= i < Min(k + 1, |elements|)
      ensures l[NewId(base, i)] == NewFiber(fs, wip, olds, elements, base, i, Min(k + 1, |elements|))
    {
      RoundNew(m, fs, wip, olds, elements, base, k, i);
    }
  }

  /**
   * The loop state after `index` iterations: the arena `p.fibers` is `index`
   * rounds on, the cursor `oldFiber` is the old child at `index`, `prevSibling`
   * the last new fiber, and `p.deletions` the queue plus the unmatched old
   * children seen so far.
   */
  ghost predicate Progress(s: Pass, wip: FiberId, olds: seq<FiberId>, elements: seq<Element>, index: nat,
      p: Pass, oldFiber: Option<FiberId>, prevSibling: Option<FiberId>)
  {
    && LoopSetting(s.fibers, wip, olds, s.nextId)
    && RoundsDone(p.fibers, s.fibers, wip, olds, elements, s.nextId, index)
    && Cursor(s, wip, olds, elements, index, p, oldFiber, prevSibling)
  }

  /** The loop's variables other than the arena after `index` iterations. */
  ghost predicate Cursor(s: Pass, wip: FiberId, olds: seq<FiberId>, elements: seq<Element>, index: nat,
      p: Pass, oldFiber: Option<FiberId>, prevSibling: Option<FiberId>)
    requires LoopSetting(s.fibers, wip, olds, s.nextId)
  {
    && index <= Max(|elements|, |olds|)
    && oldFiber == (if index < |olds| then Some(olds[index]) else None)
    && prevSibling == (if 0 < index <= |elements| then Some(NewId(s.nextId, index - 1)) else None)
    && p.nextId == s.nextId + Min(index, |elements|)
    && p.deletions == s.deletions + Unmatched(s.fibers, olds, elements, Min(index, |olds|))
  }

  /** The state before the first iteration. */
  lemma ProgressStart(s: Pass, wip: FiberId, elements: seq<Element>)
    requires WellLinked(s.fibers, s.nextId) && wip in s.fibers
    ensures Progress(s, wip, OldChildren(s.fibers, s.nextId, wip), elements, 0, s, OldHead(s.fibers, wip), None)
  {
    var olds := OldChildren(s.fibers, s.nextId, wip);
    NoRoundsDone(s.fibers, wip, olds, elements, s.nextId);
    assert olds != [] ==> OldHead(s.fibers, wip) == Some(olds[0]);
  }

  /** What one iteration reads from the state: the ids it touches are in the arena, and the old fiber at `index` is as it was. */
  lemma ProgressReady(s: Pass, wip: FiberId, olds: seq<FiberId>, elements: seq<Element>, index: nat,
      p: Pass, oldFiber: Option<FiberId>, prevSibling: Option<FiberId>)
    requires WellLinked(s.fibers, s.nextId) && wip in s.fibers && olds == OldChildren(s.fibers, s.nextId, wip)
    requires Progress(s, wip, olds, elements, index, p, oldFiber, prevSibling)
    ensures var fs, base, fibers := s.fibers, s.nextId, p.fibers;
      && LoopSetting(fs, wip, olds, base)
      && wip in fibers && (index < |olds| ==> olds[index] in fibers) && (0 < index < |elements| ==> NewId(base, index - 1) in fibers)
      && (index < |olds| ==> fibers[olds[index]].kind == fs[olds[index]].kind && fibers[olds[index]].dom == fs[olds[index]].dom && fibers[olds[index]].sibling == fs[olds[index]].sibling)
      && (index < |olds| ==> fs[olds[index]].sibling == (if index + 1 < |olds| then Some(olds[index + 1]) else None))
      && oldFiber == (if index < |olds| then Some(olds[index]) else None)
      && prevSibling == (if 0 < index <= |elements| then Some(NewId(base, index - 1)) else None)
      && p.nextId == base + Min(index, |elements|)
  {
    var fs, base := s.fibers, s.nextId;
    RoundKeys(p.fibers, fs, wip, olds, elements, base, index);
    if index < |olds| {
      PatchedKeeps(fs, wip, olds, elements, base, olds[index], index);
      ChainAt(fs, OldHead(fs, wip), olds, index);
    }
  }

  /** One iteration (the cursor step, the queue append) moves the cursor from `index` to `index + 1`. */
  lemma ProgressNext(s: Pass, wip: FiberId, olds: seq<FiberId>, elements: seq<Element>, index: nat,
      p: Pass, oldFiber: Option<FiberId>, prevSibling: Option<FiberId>,
      q: Pass, oldFiber': Option<FiberId>, prevSibling': Option<FiberId>)
    requires LoopSetting(s.fibers, wip, olds, s.nextId)
    requires Cursor(s, wip, olds, elements, index, p, oldFiber, prevSibling)
    requires oldFiber' == if index + 1 < |olds| then Some(olds[index + 1]) else None
    requires prevSibling' == if 0 < index + 1 <= |elements| then Some(NewId(s.nextId, index)) else None
    requires q.nextId == s.nextId + Min(index + 1, |elements|)
    requires q.deletions == p.deletions + (if index < |olds| && !SameType(s.fibers, olds, elements, index) then [olds[index]] else [])
    requires index < |elements| || oldFiber.Some?
    ensures Cursor(s, wip, olds, elements, index + 1, q, oldFiber', prevSibling')
  {
    UnmatchedNext(s.fibers, wip, olds, elements, s.nextId, index);
  }

  /** When the loop stops, its state is `Reconcile`. */
  lemma ProgressDone(s: Pass, wip: FiberId, olds: seq<FiberId>, elements: seq<Element>, index: nat,
      p: Pass, oldFiber: Option<FiberId>, prevSibling: Option<FiberId>)
    requires WellLinked(s.fibers, s.nextId) && wip in s.fibers && olds == OldChildren(s.fibers, s.nextId, wip)
    requires Progress(s, wip, olds, elements, index, p, oldFiber, prevSibling)
    requires !(index < |elements| || oldFiber.Some?)
    ensures p == Reconcile(s, wip, elements)
  {
    RoundsDoneRebuilt(p.fibers, s.fibers, wip, olds, elements, s.nextId, index);
    assert index == Max(|elements|, |olds|);
  }
}
