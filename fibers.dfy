/**
 * Fibers and the fiber arena.  A fiber is one rendered position of one render
 * generation; its `parent`, `child`, `sibling` and `alternate` references are
 * ids into an arena.  Ids are handed out in increasing order, so a well-linked
 * arena has `child` and `sibling` pointing to larger ids and `parent` and
 * `alternate` pointing to smaller ones: every walk along these references ends.
 */
module Fibers {
  import opened Wrappers
  import opened Elements
  import opened Host
  import opened Hooks

  type FiberId = nat

  datatype EffectTag = Placement | Update | Deletion

  /**
   * `kind` is the fiber's `type` (`None` for the roots built by `render` and
   * `setState`, which carry no type); `hooks` is empty unless the fiber is a
   * function component that has been rendered.
   */
  datatype Fiber = Fiber(
    kind: Option<ElementType>,
    props: Props,
    dom: Option<NodeId>,
    parent: Option<FiberId>,
    child: Option<FiberId>,
    sibling: Option<FiberId>,
    alternate: Option<FiberId>,
    effectTag: Option<EffectTag>,
    hooks: seq<HookId>)

  type Arena = map<FiberId, Fiber>

  predicate PointsBelow(fs: Arena, p: Option<FiberId>, id: FiberId)
  {
    p.None? || (p.value in fs && p.value < id)
  }

  predicate PointsAbove(fs: Arena, p: Option<FiberId>, id: FiberId)
  {
    p.None? || (p.value in fs && id < p.value)
  }

  predicate LinksOk(fs: Arena, id: FiberId)
    requires id in fs
  {
    var f := fs[id];
    PointsBelow(fs, f.parent, id) && PointsBelow(fs, f.alternate, id) && PointsAbove(fs, f.child, id) && PointsAbove(fs, f.sibling, id)
  }

  /** Every id is below `bound` and every reference stays in the arena, in id order. */
  predicate WellLinked(fs: Arena, bound: nat)
  {
    && (forall id :: id in fs ==> id < bound)
    && (forall id {:trigger fs[id].parent} {:trigger fs[id].child} {:trigger fs[id].sibling} {:trigger fs[id].alternate} :: id in fs ==> LinksOk(fs, id))
  }

  predicate InArena(fs: Arena, p: Option<FiberId>)
  {
    p.None? || p.value in fs
  }

  /** The entry after position `i` of `ids`, if there is one. */
  function NextIn(ids: seq<FiberId>, i: nat): Option<FiberId>
  {
    if i + 1 < |ids| then Some(ids[i + 1]) else None
  }

  /** `ids` is the sibling chain that starts at `head` and ends with an undefined `sibling`. */
  predicate IsChain(fs: Arena, head: Option<FiberId>, ids: seq<FiberId>)
    decreases |ids|
  {
    if ids == [] then head.None?
    else head == Some(ids[0]) && ids[0] in fs && IsChain(fs, fs[ids[0]].sibling, ids[1..])
  }

  /** The fibers reached from `head` through `sibling` references, in order. */
  function Siblings(fs: Arena, bound: nat, head: Option<FiberId>): (ids: seq<FiberId>)
    requires WellLinked(fs, bound) && InArena(fs, head)
    ensures IsChain(fs, head, ids)
    ensures forall i :: 0 <= i < |ids| ==> ids[i] in fs
    ensures forall i, j :: 0 <= i < j < |ids| ==> ids[i] < ids[j]
    decreases if head.Some? then bound - head.value else 0
  {
    if head.None? then [] else [head.value] + Siblings(fs, bound, fs[head.value].sibling)
  }

  /** Position `i` of a chain links to position `i + 1`, and the last position to nothing. */
  lemma {:induction false} ChainAt(fs: Arena, head: Option<FiberId>, ids: seq<FiberId>, i: nat)
    requires IsChain(fs, head, ids) && i < |ids|
    ensures ids[i] in fs && fs[ids[i]].sibling == NextIn(ids, i)
    decreases i
  {
    if i > 0 {
      ChainAt(fs, fs[ids[0]].sibling, ids[1..], i - 1);
      assert ids[1..][i - 1] == ids[i];
    } else if |ids| > 1 {
      assert ids[1..][0] == ids[1];
    }
  }

  /** A head determines its chain. */
  lemma {:induction false} ChainUnique(fs: Arena, head: Option<FiberId>, a: seq<FiberId>, b: seq<FiberId>)
    requires IsChain(fs, head, a) && IsChain(fs, head, b)
    ensures a == b
    decreases |a|
  {
    if a != [] {
      ChainUnique(fs, fs[a[0]].sibling, a[1..], b[1..]);
      assert a == [a[0]] + a[1..] && b == [b[0]] + b[1..];
    }
  }

  /**
   * The walk at the end of `performUnitOfWork`: the `sibling` of the nearest
   * fiber on the path `cur`, `cur.parent`, ... that has one, or `None`.
   */
  function UpSibling(fs: Arena, bound: nat, cur: Option<FiberId>): (r: Option<FiberId>)
    requires WellLinked(fs, bound) && InArena(fs, cur)
    ensures InArena(fs, r)
    decreases if cur.Some? then cur.value + 1 else 0
  {
    if cur.None? then None
    else if fs[cur.value].sibling.Some? then fs[cur.value].sibling
    else UpSibling(fs, bound, fs[cur.value].parent)
  }

  /** The next unit of work after `id`: its first child, else `UpSibling` from `id`. */
  function Successor(fs: Arena, bound: nat, id: FiberId): (r: Option<FiberId>)
    requires WellLinked(fs, bound) && id in fs
    ensures InArena(fs, r)
  {
    if fs[id].child.Some? then fs[id].child else UpSibling(fs, bound, Some(id))
  }

  // A fiber tree as an ordered tree, and what it means for the arena to encode it.

  datatype FiberTree = Node(id: FiberId, kids: seq<FiberTree>)

  function FirstId(ts: seq<FiberTree>): Option<FiberId>
  {
    if ts == [] then None else Some(ts[0].id)
  }

  /** `t`, hanging under `parent` and followed by `sibling`, is encoded by the arena's links. */
  ghost predicate Encodes(fs: Arena, t: FiberTree, parent: Option<FiberId>, sibling: Option<FiberId>)
    decreases t
  {
    && t.id in fs
    && fs[t.id].parent == parent
    && fs[t.id].sibling == sibling
    && fs[t.id].child == FirstId(t.kids)
    && EncodesAll(fs, t.kids, t.id)
  }

  ghost predicate EncodesAll(fs: Arena, ts: seq<FiberTree>, parent: FiberId)
    decreases ts
  {
    ts != [] ==> Encodes(fs, ts[0], Some(parent), FirstId(ts[1..])) && EncodesAll(fs, ts[1..], parent)
  }

  function PreOrder(t: FiberTree): seq<FiberId>
    decreases t
  {
    [t.id] + PreOrderAll(t.kids)
  }

  function PreOrderAll(ts: seq<FiberTree>): seq<FiberId>
    decreases ts
  {
    if ts == [] then [] else PreOrder(ts[0]) + PreOrderAll(ts[1..])
  }

  /** Starting the cursor at `x` and taking `Successor` steps visits exactly `s`, then ends. */
  ghost predicate Visits(fs: Arena, bound: nat, x: Option<FiberId>, s: seq<FiberId>)
    requires WellLinked(fs, bound)
    decreases |s|
  {
    if s == [] then x.None?
    else x == Some(s[0]) && s[0] in fs && Visits(fs, bound, Successor(fs, bound, s[0]), s[1..])
  }

  lemma {:induction false} TreeVisits(fs: Arena, bound: nat, t: FiberTree, parent: Option<FiberId>, sibling: Option<FiberId>, rest: seq<FiberId>)
    requires WellLinked(fs, bound) && Encodes(fs, t, parent, sibling)
    requires Visits(fs, bound, UpSibling(fs, bound, Some(t.id)), rest)
    ensures Visits(fs, bound, Some(t.id), PreOrder(t) + rest)
    decreases t
  {
    var s := PreOrder(t) + rest;
    assert s[0] == t.id && s[1..] == PreOrderAll(t.kids) + rest;
    if t.kids != [] {
      ForestVisits(fs, bound, t.kids, t.id, rest);
    }
  }

  lemma {:induction false} ForestVisits(fs: Arena, bound: nat, ts: seq<FiberTree>, parent: FiberId, rest: seq<FiberId>)
    requires WellLinked(fs, bound) && parent in fs
    requires ts != [] && EncodesAll(fs, ts, parent)
    requires Visits(fs, bound, UpSibling(fs, bound, Some(parent)), rest)
    ensures Visits(fs, bound, Some(ts[0].id), PreOrderAll(ts) + rest)
    decreases ts
  {
    var t, tail := ts[0], ts[1..];
    var rest' := PreOrderAll(tail) + rest;
    assert Encodes(fs, t, Some(parent), FirstId(tail));
    if tail != [] {
      ForestVisits(fs, bound, tail, parent, rest);
      assert UpSibling(fs, bound, Some(t.id)) == Some(tail[0].id);
    } else {
      assert rest' == rest;
      assert UpSibling(fs, bound, Some(t.id)) == UpSibling(fs, bound, Some(parent));
    }
    TreeVisits(fs, bound, t, Some(parent), FirstId(tail), rest');
    calc {
      PreOrderAll(ts) + rest;
      (PreOrder(t) + PreOrderAll(tail)) + rest;
      PreOrder(t) + rest';
    }
  }

  /**
   * A render pass that starts at the root of an encoded tree performs one unit of
   * work per fiber, in pre-order, and then finds no next unit of work.
   */
  lemma PassVisitsPreOrder(fs: Arena, bound: nat, t: FiberTree)
    requires WellLinked(fs, bound) && Encodes(fs, t, None, None)
    ensures Visits(fs, bound, Some(t.id), PreOrder(t))
  {
    TreeVisits(fs, bound, t, None, None, []);
    assert PreOrder(t) + [] == PreOrder(t);
  }
}
