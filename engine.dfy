/**
 * The rendering engine: the module globals of the source (`nextUnitOfWork`,
 * `wiproot`, `currentRoot`, `deletions`, `wipFiber`, `hookIndex`) as fields of
 * one `Engine`, together with the fiber arena, the state cells and the host
 * tree they point into.  Component bodies are the engine's `body` function:
 * a component calls `useState` once per entry of `initials`, in order, then
 * returns one element built from its props and the states it got.
 */
module Runtime {
  import opened Wrappers
  import opened Elements
  import opened Host
  import opened PropSync
  import opened Hooks
  import opened Fibers
  import opened Reconciliation
  import opened ReconcileFacts
  import opened ReconcileLoop
  import Commit

  /** Every state cell a fiber lists exists. */
  ghost predicate HooksIn(fs: Arena, cells: map<HookId, Hook>)
  {
    forall id {:trigger fs[id].hooks} :: id in fs ==> forall h :: h in fs[id].hooks ==> h in cells
  }

  /** `wipFiber.alternate && wipFiber.alternate.hooks`: the cells of the fiber's previous render. */
  function PreviousHooks(fs: Arena, bound: nat, id: FiberId): seq<HookId>
    requires WellLinked(fs, bound) && id in fs
  {
    var alt := fs[id].alternate;
    if alt.Some? then fs[alt.value].hooks else []
  }

  /** The host node `createDom` makes: a text node for the text type, an element named after the type otherwise. */
  function NodeKindOf(kind: Option<ElementType>): NodeKind
    requires kind.None? || kind.value.Tag?
  {
    if kind == Some(TextType) then TextNode
    else if kind.Some? then ElementNode(kind.value.name)
    else ElementNode("undefined")
  }

  /** The ids `base`, ..., `base + n - 1` handed to the cells of one render. */
  function HookRange(base: nat, n: nat): (r: seq<HookId>)
    ensures |r| == n && forall i :: 0 <= i < n ==> r[i] == base + i
  {
    seq(n, i requires 0 <= i < n => base + i)
  }

  /** One fiber of a reconciled pass refers only to cells and host nodes that already existed. */
  lemma ReconciledRefsAt(s: Pass, wip: FiberId, elements: seq<Element>, cells: map<HookId, Hook>, host: Dom, id: FiberId)
    requires WellLinked(s.fibers, s.nextId) && wip in s.fibers
    requires HooksIn(s.fibers, cells) && Commit.DomsIn(s.fibers, host)
    requires id in Reconcile(s, wip, elements).fibers
    ensures var f := Reconcile(s, wip, elements).fibers[id];
      (forall h :: h in f.hooks ==> h in cells) && (f.dom.Some? ==> f.dom.value in host)
  {
    if id in s.fibers {
      ReconciledExisting(s, wip, elements, id);
    } else {
      var i := id - s.nextId;
      assert id == NewId(s.nextId, i);
      ReconciledChild(s, wip, elements, i);
    }
  }

  /** Reconciling adds no reference to a missing state cell. */
  lemma ReconcileKeepsHooks(s: Pass, wip: FiberId, elements: seq<Element>, cells: map<HookId, Hook>, host: Dom)
    requires WellLinked(s.fibers, s.nextId) && wip in s.fibers
    requires HooksIn(s.fibers, cells) && Commit.DomsIn(s.fibers, host)
    ensures HooksIn(Reconcile(s, wip, elements).fibers, cells)
  {
    var r := Reconcile(s, wip, elements);
    forall id | id in r.fibers ensures forall h :: h in r.fibers[id].hooks ==> h in cells {
      ReconciledRefsAt(s, wip, elements, cells, host, id);
    }
  }

  /** Reconciling adds no reference to a missing host node. */
  lemma ReconcileKeepsDoms(s: Pass, wip: FiberId, elements: seq<Element>, cells: map<HookId, Hook>, host: Dom)
    requires WellLinked(s.fibers, s.nextId) && wip in s.fibers
    requires HooksIn(s.fibers, cells) && Commit.DomsIn(s.fibers, host)
    ensures Commit.DomsIn(Reconcile(s, wip, elements).fibers, host)
  {
    var r := Reconcile(s, wip, elements);
    forall id | id in r.fibers && r.fibers[id].dom.Some? ensures r.fibers[id].dom.value in host {
      ReconciledRefsAt(s, wip, elements, cells, host, id);
    }
  }

  /** Every fiber queued for deletion, before or by the pass, is in the new arena. */
  lemma ReconcileKeepsDeletions(s: Pass, wip: FiberId, elements: seq<Element>)
    requires WellLinked(s.fibers, s.nextId) && wip in s.fibers
    requires forall i :: 0 <= i < |s.deletions| ==> s.deletions[i] in s.fibers
    ensures var r := Reconcile(s, wip, elements);
      forall i :: 0 <= i < |r.deletions| ==> r.deletions[i] in r.fibers
  {
    ReconciledDeletions(s, wip, elements);
    var olds := OldChildren(s.fibers, s.nextId, wip);
    assert forall x :: x in Unmatched(s.fibers, olds, elements, |olds|) ==> x in s.fibers;
  }

  /** Reconciling keeps every reference the engine relies on inside the arena, the cells and the host tree. */
  lemma ReconcileKeepsRefs(s: Pass, wip: FiberId, elements: seq<Element>, cells: map<HookId, Hook>, host: Dom)
    requires WellLinked(s.fibers, s.nextId) && wip in s.fibers
    requires forall i :: 0 <= i < |s.deletions| ==> s.deletions[i] in s.fibers
    requires HooksIn(s.fibers, cells) && Commit.DomsIn(s.fibers, host)
    ensures var r := Reconcile(s, wip, elements);
      && WellLinked(r.fibers, r.nextId)
      && s.fibers.Keys <= r.fibers.Keys
      && (forall i :: 0 <= i < |r.deletions| ==> r.deletions[i] in r.fibers)
      && HooksIn(r.fibers, cells) && Commit.DomsIn(r.fibers, host)
  {
    ReconcileWellLinked(s, wip, elements);
    ReconcileKeepsDeletions(s, wip, elements);
    ReconcileKeepsHooks(s, wip, elements, cells, host);
    ReconcileKeepsDoms(s, wip, elements, cells, host);
  }

  /** Changing the cells or the host node a fiber lists keeps the arena well linked. */
  lemma RetaggedKeepsLinks(fs: Arena, bound: nat, id: FiberId, f: Fiber)
    requires WellLinked(fs, bound) && id in fs
    requires f.(hooks := fs[id].hooks, dom := fs[id].dom) == fs[id]
    ensures WellLinked(fs[id := f], bound)
  {
    var r := fs[id := f];
    forall x | x in r ensures LinksOk(r, x) {
      assert LinksOk(fs, x);
    }
  }

  /** `fiber.dom = n`: the fiber `id` comes to own host node `n`. */
  function Owning(fs: Arena, bound: nat, id: FiberId, n: NodeId): (r: Arena)
    requires WellLinked(fs, bound) && id in fs
    ensures WellLinked(r, bound) && r.Keys == fs.Keys
  {
    RetaggedKeepsLinks(fs, bound, id, fs[id].(dom := Some(n)));
    fs[id := fs[id].(dom := Some(n))]
  }

  /** `wipFiber.hooks = hooks`: the fiber `id` comes to list the cells `hooks`. */
  function WithHooks(fs: Arena, bound: nat, id: FiberId, hooks: seq<HookId>): (r: Arena)
    requires WellLinked(fs, bound) && id in fs
    ensures WellLinked(r, bound) && r.Keys == fs.Keys
  {
    RetaggedKeepsLinks(fs, bound, id, fs[id].(hooks := hooks));
    fs[id := fs[id].(hooks := hooks)]
  }

  /** Setting a fiber's cells twice is setting them once, to the second list. */
  lemma WithHooksTwice(fs: Arena, bound: nat, id: FiberId, first: seq<HookId>, second: seq<HookId>)
    requires WellLinked(fs, bound) && id in fs
    ensures WithHooks(WithHooks(fs, bound, id, first), bound, id, second) == WithHooks(fs, bound, id, second)
  {
    var a, b := WithHooks(WithHooks(fs, bound, id, first), bound, id, second), WithHooks(fs, bound, id, second);
    assert a[id] == b[id];
  }

  /** The cell ids of one render grow by the next id. */
  lemma HookRangeNext(prefix: seq<HookId>, base: nat, k: nat)
    ensures prefix + HookRange(base, k) + [base + k] == prefix + HookRange(base, k + 1)
  {
    assert HookRange(base, k) + [base + k] == HookRange(base, k + 1);
  }

  /** The `j`-th new cell, at id `base + j`, holds `states[j]` with an empty queue. */
  ghost predicate CellAt(cells: map<HookId, Hook>, base: nat, states: seq<Value>, j: nat)
    requires j < |states|
  {
    base + j in cells && cells[base + j].state == states[j] && cells[base + j].queue == []
  }

  /**
   * The cells after a render of a component: the cells that existed are kept,
   * one new cell per state is added, and there are no others.
   */
  ghost predicate HooksMade(before: map<HookId, Hook>, after: map<HookId, Hook>, base: nat, states: seq<Value>)
  {
    && (forall h :: h in before ==> h in after && after[h] == before[h])
    && (forall j :: 0 <= j < |states| ==> CellAt(after, base, states, j))
    && (forall h :: h in after ==> h in before || base <= h < base + |states|)
  }

  /** One more `useState` call adds the next cell. */
  lemma HooksMadeNext(before: map<HookId, Hook>, after: map<HookId, Hook>, base: nat, states: seq<Value>, state: Value)
    requires HooksMade(before, after, base, states) && base + |states| !in after
    ensures HooksMade(before, after[base + |states| := Hook(state, [])], base, states + [state])
  {
    var after', states' := after[base + |states| := Hook(state, [])], states + [state];
    forall h | h in before ensures h in after' && after'[h] == before[h] {
      assert h in after && h != base + |states|;
    }
    forall j | 0 <= j < |states'| ensures CellAt(after', base, states', j) {
      if j < |states| {
        assert CellAt(after, base, states, j);
        assert states'[j] == states[j];
      }
    }
  }

  /** A snapshot of the engine's fields that the invariant is about. */
  datatype State = State(
    fibers: Arena, nextId: nat, cells: map<HookId, Hook>, nextHook: nat, host: Dom, nextNode: nat,
    nextUnitOfWork: Option<FiberId>, wipRoot: Option<FiberId>, currentRoot: Option<FiberId>,
    deletions: seq<FiberId>, wipFiber: Option<FiberId>)

  /** Every reference stays inside the arena, the cells and the host tree; fresh ids are above all used ones. */
  ghost predicate Consistent(st: State)
  {
    && WellLinked(st.fibers, st.nextId)
    && InArena(st.fibers, st.nextUnitOfWork) && InArena(st.fibers, st.wipRoot)
    && InArena(st.fibers, st.currentRoot) && InArena(st.fibers, st.wipFiber)
    && (st.nextUnitOfWork.Some? ==> st.wipRoot.Some?)
    && (forall i :: 0 <= i < |st.deletions| ==> st.deletions[i] in st.fibers)
    && HooksIn(st.fibers, st.cells) && (forall h :: h in st.cells ==> h < st.nextHook)
    && Commit.DomsIn(st.fibers, st.host) && (forall n :: n in st.host ==> n < st.nextNode)
  }

  /** The state after `reconcileChildren(wip, elements)`: the arena, the id counter and the deletion list as `Reconcile` leaves them. */
  ghost function Reconciled(st: State, wip: FiberId, elements: seq<Element>): State
    requires WellLinked(st.fibers, st.nextId) && wip in st.fibers
  {
    var r := Reconcile(Pass(st.fibers, st.nextId, st.deletions), wip, elements);
    st.(fibers := r.fibers, nextId := r.nextId, deletions := r.deletions)
  }

  /** Reconciling does not read the cells. */
  lemma ReconciledCells(st: State, cells: map<HookId, Hook>, wip: FiberId, elements: seq<Element>)
    requires WellLinked(st.fibers, st.nextId) && wip in st.fibers
    ensures Reconciled(st, wip, elements).(cells := cells) == Reconciled(st.(cells := cells), wip, elements)
  {
  }

  /** Reconciling keeps the invariant. */
  lemma ReconcileConsistent(st: State, wip: FiberId, elements: seq<Element>)
    requires Consistent(st) && wip in st.fibers
    ensures Consistent(Reconciled(st, wip, elements))
  {
    var s := Pass(st.fibers, st.nextId, st.deletions);
    ReconcileKeepsRefs(s, wip, elements, st.cells, st.host);
  }

  /** Replacing the host tree by one with the same node ids keeps the invariant. */
  lemma HostKeysKept(st: State, host: Dom)
    requires Consistent(st) && host.Keys == st.host.Keys
    ensures Consistent(st.(host := host))
  {
  }

  /** Once the render pass is over, the pending root can become the committed one. */
  lemma CommittedConsistent(st: State)
    requires Consistent(st) && st.wipRoot.Some? && st.nextUnitOfWork.None?
    ensures Consistent(st.(currentRoot := st.wipRoot, wipRoot := None))
  {
  }

  /** A new root at the next free id, with no parent, child, sibling or cells, becomes the pending root and the cursor. */
  lemma RootAdded(st: State, root: Fiber)
    requires Consistent(st)
    requires root.parent.None? && root.child.None? && root.sibling.None? && root.hooks == []
    requires PointsBelow(st.fibers, root.alternate, st.nextId) && (root.dom.Some? ==> root.dom.value in st.host)
    ensures Consistent(st.(fibers := st.fibers[st.nextId := root], nextId := st.nextId + 1,
      wipRoot := Some(st.nextId), nextUnitOfWork := Some(st.nextId), deletions := []))
  {
    var fs := st.fibers[st.nextId := root];
    forall id | id in fs ensures LinksOk(fs, id) {
      if id != st.nextId {
        assert LinksOk(st.fibers, id);
      }
    }
  }

  /** A fiber whose cells and host node change, to cells and a node that exist, keeps the invariant. */
  lemma FiberRetagged(st: State, id: FiberId, f: Fiber)
    requires Consistent(st) && id in st.fibers
    requires f.(hooks := st.fibers[id].hooks, dom := st.fibers[id].dom) == st.fibers[id]
    requires (forall h :: h in f.hooks ==> h in st.cells) && (f.dom.Some? ==> f.dom.value in st.host)
    ensures Consistent(st.(fibers := st.fibers[id := f]))
  {
    RetaggedKeepsLinks(st.fibers, st.nextId, id, f);
  }

  /** A new cell at the next free cell id keeps the invariant. */
  lemma CellAdded(st: State, hook: Hook)
    requires Consistent(st)
    ensures Consistent(st.(cells := st.cells[st.nextHook := hook], nextHook := st.nextHook + 1))
  {
  }

  /** Changing the contents of an existing cell keeps the invariant. */
  lemma CellQueued(st: State, h: HookId, hook: Hook)
    requires Consistent(st) && h in st.cells
    ensures Consistent(st.(cells := st.cells[h := hook]))
  {
  }

  /** A new host node at the next free node id keeps the invariant. */
  lemma NodeAdded(st: State, node: HostNode)
    requires Consistent(st)
    ensures Consistent(st.(host := st.host[st.nextNode := node], nextNode := st.nextNode + 1))
  {
  }

  /** After `k` `useState` calls, the state differs from `s` only in its cells, the hook counter and the fiber's cell list. */
  ghost predicate CallShape(s: State, id: FiberId, t: State, k: nat)
    requires WellLinked(s.fibers, s.nextId) && id in s.fibers
  {
    t.(cells := s.cells) == s.(nextHook := s.nextHook + k,
      fibers := WithHooks(s.fibers, s.nextId, id, s.fibers[id].hooks + HookRange(s.nextHook, k)))
  }

  /** The states returned by the first `k` `useState` calls are seeded from the previous render. */
  ghost predicate SeededSoFar(s: State, id: FiberId, inits: seq<Value>, k: nat, states: seq<Value>)
    requires Consistent(s) && id in s.fibers && k <= |inits| && |states| == k
  {
    forall j :: 0 <= j < k ==> states[j] == SeedState(s.cells, PreviousHooks(s.fibers, s.nextId, id), j, inits[j])
  }

  /**
   * The state `t` after the first `k` of the `useState(inits[0])`,
   * `useState(inits[1])`, ... calls of the component at `id`, starting from
   * `s`: `k` new cells seeded from the previous render, appended to the
   * fiber's cells, and `states` the values the calls returned.
   */
  ghost predicate Calling(s: State, id: FiberId, inits: seq<Value>, t: State, k: nat, states: seq<Value>)
  {
    && Consistent(s) && id in s.fibers && s.wipFiber == Some(id)
    && k <= |inits| && |states| == k
    && CallShape(s, id, t, k)
    && HooksMade(s.cells, t.cells, s.nextHook, states)
    && SeededSoFar(s, id, inits, k, states)
  }

  /** Before the first call nothing has changed. */
  lemma CallingStart(s: State, id: FiberId, inits: seq<Value>)
    requires Consistent(s) && id in s.fibers && s.wipFiber == Some(id)
    ensures Calling(s, id, inits, s, 0, [])
  {
    assert s.fibers[id].hooks + HookRange(s.nextHook, 0) == s.fibers[id].hooks;
    assert WithHooks(s.fibers, s.nextId, id, s.fibers[id].hooks) == s.fibers;
  }

  /** After the last call, `Calling` is what the component call promises. */
  lemma CallingDone(s: State, id: FiberId, inits: seq<Value>, t: State, states: seq<Value>)
    requires Calling(s, id, inits, t, |inits|, states)
    ensures var previous := PreviousHooks(s.fibers, s.nextId, id);
      && (forall i :: 0 <= i < |previous| ==> previous[i] in s.cells)
      && states == Seeds(s.cells, previous, inits)
      && HooksMade(s.cells, t.cells, s.nextHook, states)
      && t.(cells := s.cells) == s.(nextHook := s.nextHook + |inits|,
        fibers := WithHooks(s.fibers, s.nextId, id, s.fibers[id].hooks + HookRange(s.nextHook, |inits|)))
  {
  }

  /** One more call adds one cell id to the fiber's list and bumps the counter. */
  lemma CallShapeNext(s: State, id: FiberId, t: State, k: nat, t': State)
    requires WellLinked(s.fibers, s.nextId) && id in s.fibers && CallShape(s, id, t, k)
    requires t'.(cells := t.cells) == t.(nextHook := t.nextHook + 1,
      fibers := WithHooks(t.fibers, t.nextId, id, t.fibers[id].hooks + [t.nextHook]))
    ensures CallShape(s, id, t', k + 1)
  {
    var hooks := s.fibers[id].hooks;
    HookRangeNext(hooks, s.nextHook, k);
    WithHooksTwice(s.fibers, s.nextId, id, hooks + HookRange(s.nextHook, k), hooks + HookRange(s.nextHook, k + 1));
  }

  /** One more `useState` call, as `UseState` makes it, keeps `Calling` one position on. */
  lemma CallingNext(s: State, id: FiberId, inits: seq<Value>, t: State, k: nat, states: seq<Value>, state: Value, t': State)
    requires Calling(s, id, inits, t, k, states) && Consistent(t) && k < |inits|
    requires state == SeedState(t.cells, PreviousHooks(t.fibers, t.nextId, id), k, inits[k])
    requires t' == t.(cells := t.cells[t.nextHook := Hook(state, [])], nextHook := t.nextHook + 1,
      fibers := WithHooks(t.fibers, t.nextId, id, t.fibers[id].hooks + [t.nextHook]))
    ensures Calling(s, id, inits, t', k + 1, states + [state])
  {
    var previous := PreviousHooks(s.fibers, s.nextId, id);
    assert PreviousHooks(t.fibers, t.nextId, id) == previous;
    SeedsIgnoreNewCells(s.cells, t.cells, previous, k, inits[k]);
    HooksMadeNext(s.cells, t.cells, s.nextHook, states, state);
    CallShapeNext(s, id, t, k, t');
  }

  /** What a unit of work leaves alone: every fiber and every existing host node stays, and so do the roots and the cursor. */
  ghost predicate Worked(before: State, after: State)
  {
    && before.fibers.Keys <= after.fibers.Keys
    && (forall n :: n in before.host ==> n in after.host && after.host[n] == before.host[n])
    && after.wipRoot == before.wipRoot && after.currentRoot == before.currentRoot && after.nextUnitOfWork == before.nextUnitOfWork
  }

  /** Reconciling keeps every fiber and touches neither the host tree, the roots nor the cursor. */
  lemma ReconcileWorked(a: State, s: State, wip: FiberId, elements: seq<Element>)
    requires Worked(a, s) && WellLinked(s.fibers, s.nextId) && wip in s.fibers
    ensures Worked(a, Reconciled(s, wip, elements))
  {
  }

  /**
   * The state `updateFunctionComponent(fiber)` leaves at `id`: the fiber is
   * `wipFiber` and lists one new cell per `useState` call, each seeded from the
   * cell at the same position of the previous render, and the element the
   * component returns for those states is reconciled as its only child.
   */
  ghost predicate ComponentRendered(s: State, t: State, id: FiberId,
    body: (ComponentId, Props, seq<Value>) -> Element, initials: (ComponentId, Props) -> seq<Value>)
    requires Consistent(s) && id in s.fibers && s.fibers[id].kind.Some? && s.fibers[id].kind.value.Component?
  {
    var c, props := s.fibers[id].kind.value.id, s.fibers[id].props;
    var inits, previous := initials(c, props), PreviousHooks(s.fibers, s.nextId, id);
    && (forall i :: 0 <= i < |previous| ==> previous[i] in s.cells)
    && var seeds := Seeds(s.cells, previous, inits);
    && HooksMade(s.cells, t.cells, s.nextHook, seeds)
    && t.(cells := s.cells) == Reconciled(s.(wipFiber := Some(id), nextHook := s.nextHook + |inits|,
      fibers := WithHooks(s.fibers, s.nextId, id, HookRange(s.nextHook, |inits|))), id, [body(c, props, seeds)])
  }

  /**
   * The state `updateHostComponent(fiber)` leaves at `id`: a fiber without a
   * host node first owns a new one made by `createDom`; then the fiber's
   * `props.children` are reconciled.
   */
  ghost predicate HostRendered(s: State, t: State, id: FiberId)
    requires Consistent(s) && id in s.fibers && (s.fibers[id].kind.None? || s.fibers[id].kind.value.Tag?)
  {
    var x := s.fibers[id];
    if x.dom.Some? then t == Reconciled(s, id, x.props.children)
    else
      && s.nextNode !in s.host
      && t == Reconciled(s.(host := s.host[s.nextNode := Synced(EmptyNode(NodeKindOf(x.kind)), NoProps, x.props)],
        nextNode := s.nextNode + 1, fibers := Owning(s.fibers, s.nextId, id, s.nextNode)), id, x.props.children)
  }

  /** The work `performUnitOfWork(fiber)` does at `id`: a function component's, else a host component's. */
  ghost predicate UnitDone(s: State, t: State, id: FiberId,
    body: (ComponentId, Props, seq<Value>) -> Element, initials: (ComponentId, Props) -> seq<Value>)
    requires Consistent(s) && id in s.fibers
  {
    var kind := s.fibers[id].kind;
    if kind.Some? && kind.value.Component? then ComponentRendered(s, t, id, body, initials)
    else HostRendered(s, t, id)
  }

  /**
   * One turn of the `workLoop` loop from `a` to `b`: the unit of work at the
   * cursor is performed, and the cursor moves to its `Successor` in the new
   * arena.
   */
  ghost predicate UnitStep(a: State, b: State,
    body: (ComponentId, Props, seq<Value>) -> Element, initials: (ComponentId, Props) -> seq<Value>)
  {
    && Consistent(a) && a.nextUnitOfWork.Some? && Consistent(b)
    && var id := a.nextUnitOfWork.value;
    && UnitDone(a, b.(nextUnitOfWork := a.nextUnitOfWork), id, body, initials)
    && id in b.fibers && b.nextUnitOfWork == Successor(b.fibers, b.nextId, id)
  }

  /** The calls of a component followed by the reconciliation of the element it returns are `ComponentRendered`. */
  lemma RenderedAfterCall(s: State, m: State, id: FiberId,
    body: (ComponentId, Props, seq<Value>) -> Element, initials: (ComponentId, Props) -> seq<Value>)
    requires Consistent(s) && id in s.fibers && s.fibers[id].kind.Some? && s.fibers[id].kind.value.Component?
    requires var c, props := s.fibers[id].kind.value.id, s.fibers[id].props;
      var inits, previous := initials(c, props), PreviousHooks(s.fibers, s.nextId, id);
      && (forall i :: 0 <= i < |previous| ==> previous[i] in s.cells)
      && HooksMade(s.cells, m.cells, s.nextHook, Seeds(s.cells, previous, inits))
      && m.(cells := s.cells) == s.(wipFiber := Some(id), nextHook := s.nextHook + |inits|,
        fibers := WithHooks(s.fibers, s.nextId, id, HookRange(s.nextHook, |inits|)))
    ensures WellLinked(m.fibers, m.nextId) && id in m.fibers
    ensures var c, props := s.fibers[id].kind.value.id, s.fibers[id].props;
      var seeds := Seeds(s.cells, PreviousHooks(s.fibers, s.nextId, id), initials(c, props));
      ComponentRendered(s, Reconciled(m, id, [body(c, props, seeds)]), id, body, initials)
  {
    var c, props := s.fibers[id].kind.value.id, s.fibers[id].props;
    var seeds := Seeds(s.cells, PreviousHooks(s.fibers, s.nextId, id), initials(c, props));
    ReconciledCells(m, s.cells, id, [body(c, props, seeds)]);
  }

  /** A unit of work at the cursor followed by moving the cursor to its successor is one `UnitStep`. */
  lemma UnitStepIntro(a: State, m: State, next: Option<FiberId>,
    body: (ComponentId, Props, seq<Value>) -> Element, initials: (ComponentId, Props) -> seq<Value>)
    requires Consistent(a) && a.nextUnitOfWork.Some? && Consistent(m.(nextUnitOfWork := next))
    requires UnitDone(a, m, a.nextUnitOfWork.value, body, initials) && m.nextUnitOfWork == a.nextUnitOfWork
    requires a.nextUnitOfWork.value in m.fibers && next == Successor(m.fibers, m.nextId, a.nextUnitOfWork.value)
    ensures UnitStep(a, m.(nextUnitOfWork := next), body, initials)
  {
    assert m.(nextUnitOfWork := next).(nextUnitOfWork := a.nextUnitOfWork) == m;
  }

  /** A run of units of work: each state is one `UnitStep` on from the one before. */
  ghost predicate Trace(trace: seq<State>,
    body: (ComponentId, Props, seq<Value>) -> Element, initials: (ComponentId, Props) -> seq<Value>)
  {
    forall k :: 0 <= k < |trace| - 1 ==> UnitStep(trace[k], trace[k + 1], body, initials)
  }

  /** A run extended by one more step is a run. */
  lemma TraceNext(trace: seq<State>, b: State,
    body: (ComponentId, Props, seq<Value>) -> Element, initials: (ComponentId, Props) -> seq<Value>)
    requires Trace(trace, body, initials) && |trace| > 0 && UnitStep(trace[|trace| - 1], b, body, initials)
    ensures Trace(trace + [b], body, initials)
  {
    var r := trace + [b];
    forall k | 0 <= k < |r| - 1 ensures UnitStep(r[k], r[k + 1], body, initials) {
      if k < |trace| - 1 {
        assert r[k] == trace[k] && r[k + 1] == trace[k + 1];
      }
    }
  }

  /** `actions.forEach(action => { hook.state = action(hook.state) })`. */
  method FoldQueue(actions: seq<Action>, initial: Value) returns (s: Value)
    ensures s == Fold(actions, initial)
  {
    s := initial;
    var i := 0;
    while i < |actions|
      invariant 0 <= i <= |actions|
      invariant s == Fold(actions[..i], initial)
    {
      assert actions[..i + 1][..i] == actions[..i];
      s := actions[i](s);
      i := i + 1;
    }
    assert actions[..i] == actions;
  }

  class Engine {
    /** What a component returns, given its props and the states of its cells in call order. */
    const body: (ComponentId, Props, seq<Value>) -> Element
    /** The initial values a component passes to its `useState` calls, in call order. */
    const initials: (ComponentId, Props) -> seq<Value>

    /** The module's globals and the fibers, cells and host nodes they reach. */
    var st: State
    /** The module global `hookIndex`. */
    var hookIndex: nat

    /** Every reference stays inside the arena, the cells and the host tree; fresh ids are above all used ones. */
    ghost predicate Valid()
      reads this
    {
      Consistent(st)
    }

    /** The module's initial state: no fibers, no pending or committed root, and the page's host tree. */
    constructor (body: (ComponentId, Props, seq<Value>) -> Element, initials: (ComponentId, Props) -> seq<Value>, page: Dom, nodeBound: nat)
      requires forall n :: n in page ==> n < nodeBound
      ensures Valid()
      ensures this.body == body && this.initials == initials
      ensures st == State(map[], 0, map[], 0, page, nodeBound, None, None, None, [], None) && hookIndex == 0
    {
      this.body := body;
      this.initials := initials;
      st := State(map[], 0, map[], 0, page, nodeBound, None, None, None, [], None);
      hookIndex := 0;
    }

    // -------------------------------------------------------------------------
    // Starting a render pass.

    /**
     * What `render` and `setState` end with: `root`, stored at the next free
     * id, becomes the pending root and the next unit of work, and the
     * deletion list is emptied.
     */
    method StartRoot(root: Fiber)
      requires Valid()
      requires root.parent.None? && root.child.None? && root.sibling.None? && root.hooks == []
      requires PointsBelow(st.fibers, root.alternate, st.nextId) && (root.dom.Some? ==> root.dom.value in st.host)
      modifies this`st
      ensures Valid()
      ensures var s := old(st);
        st == s.(fibers := s.fibers[s.nextId := root], nextId := s.nextId + 1,
          wipRoot := Some(s.nextId), nextUnitOfWork := Some(s.nextId), deletions := [])
    {
      RootAdded(st, root);
      st := st.(fibers := st.fibers[st.nextId := root], nextId := st.nextId + 1,
        wipRoot := Some(st.nextId), nextUnitOfWork := Some(st.nextId), deletions := []);
    }

    /**
     * `render(element, container)`: a fresh root owning `container`, with the
     * one child `element` and the committed root as its alternate, becomes the
     * pending root and the next unit of work; the deletion list is emptied.
     */
    method Render(element: Element, container: NodeId)
      requires Valid() && container in st.host
      modifies this`st
      ensures Valid()
      ensures var s := old(st);
        st == s.(fibers := s.fibers[s.nextId := Fiber(None, Props(map[], [element]), Some(container), None, None, None, s.currentRoot, None, [])],
          nextId := s.nextId + 1, wipRoot := Some(s.nextId), nextUnitOfWork := Some(s.nextId), deletions := [])
    {
      StartRoot(Fiber(None, Props(map[], [element]), Some(container), None, None, None, st.currentRoot, None, []));
    }

    /**
     * The `setState(action)` of cell `h`: `action` is queued on that cell only.
     * Then a fresh root with the committed root's host node and props and the
     * committed root as its alternate becomes the pending root and the next
     * unit of work, and the deletion list is emptied.  Before any commit there
     * is no committed root, and reading its `dom` is a `TypeError`.
     */
    method SetState(h: HookId, action: Action) returns (fault: Option<Commit.Fault>)
      requires Valid() && h in st.cells
      modifies this`st
      ensures Valid()
      ensures var s := old(st);
        var queued := s.(cells := s.cells[h := s.cells[h].(queue := s.cells[h].queue + [action])]);
        if s.currentRoot.None? then fault == Some(Commit.TypeError) && st == queued
        else var c := s.currentRoot.value;
          && fault.None?
          && st == queued.(fibers := s.fibers[s.nextId := Fiber(None, s.fibers[c].props, s.fibers[c].dom, None, None, None, Some(c), None, [])],
            nextId := s.nextId + 1, wipRoot := Some(s.nextId), nextUnitOfWork := Some(s.nextId), deletions := [])
    {
      CellQueued(st, h, st.cells[h].(queue := st.cells[h].queue + [action]));
      st := st.(cells := st.cells[h := st.cells[h].(queue := st.cells[h].queue + [action])]);
      if st.currentRoot.None? {
        return Some(Commit.TypeError);
      }
      var c := st.currentRoot.value;
      StartRoot(Fiber(None, st.fibers[c].props, st.fibers[c].dom, None, None, None, Some(c), None, []));
      fault := None;
    }

    // -------------------------------------------------------------------------
    // State cells.

    /**
     * `useState(initial)` during the render of `wipFiber`: a new cell holding
     * the previous render's cell at position `hookIndex` with its queued
     * actions folded in (or `initial` when there was none) and an empty queue
     * is appended to the fiber's cells, and `hookIndex` moves on by one.  The
     * old cell, queue included, is left as it was.
     */
    method UseState(initial: Value) returns (state: Value, hook: HookId)
      requires Valid() && st.wipFiber.Some?
      modifies this
      ensures Valid()
      ensures var s, w := old(st), old(st).wipFiber.value;
        && state == SeedState(s.cells, PreviousHooks(s.fibers, s.nextId, w), old(hookIndex), initial)
        && hook == s.nextHook && hook !in s.cells && hookIndex == old(hookIndex) + 1
        && st == s.(cells := s.cells[hook := Hook(state, [])], nextHook := s.nextHook + 1,
          fibers := WithHooks(s.fibers, s.nextId, w, s.fibers[w].hooks + [hook]))
    {
      var w := st.wipFiber.value;
      var previous := PreviousHooks(st.fibers, st.nextId, w);
      var oldHook: Option<Hook> := None;
      if hookIndex < |previous| {
        oldHook := Some(st.cells[previous[hookIndex]]);
      }
      var s := if oldHook.Some? then oldHook.value.state else initial;
      var actions := if oldHook.Some? then oldHook.value.queue else [];
      s := FoldQueue(actions, s);
      hook := st.nextHook;
      CellAdded(st, Hook(s, []));
      var added := st.(cells := st.cells[hook := Hook(s, [])], nextHook := st.nextHook + 1);
      FiberRetagged(added, w, added.fibers[w].(hooks := added.fibers[w].hooks + [hook]));
      st := added.(fibers := WithHooks(added.fibers, added.nextId, w, added.fibers[w].hooks + [hook]));
      hookIndex := hookIndex + 1;
      state := s;
    }

    // -------------------------------------------------------------------------
    // Reconciliation.

    /**
     * `reconcileChildren(wip, elements)`: walks the elements and the old
     * children in lock-step, building the new child chain, tagging unmatched
     * old children DELETION and queueing them for deletion.  The result is
     * `Reconcile`, whose meaning the lemmas of `ReconcileFacts` and `Diffing`
     * state.
     */
    method ReconcileChildren(wip: FiberId, elements: seq<Element>)
      requires Valid() && wip in st.fibers
      modifies this`st
      ensures Valid()
      ensures st == Reconciled(old(st), wip, elements)
    {
      var r := ReconcileOnArena(Pass(st.fibers, st.nextId, st.deletions), wip, elements);
      ReconcileConsistent(st, wip, elements);
      st := st.(fibers := r.fibers, nextId := r.nextId, deletions := r.deletions);
    }

    // -------------------------------------------------------------------------
    // One unit of work.

    /**
     * `updateFunctionComponent(fiber)`: the component is called (see
     * `CallComponent`) and the element its body returns is reconciled as the
     * fiber's only child.
     */
    method UpdateFunctionComponent(id: FiberId)
      requires Valid() && id in st.fibers && st.fibers[id].kind.Some? && st.fibers[id].kind.value.Component?
      modifies this
      ensures Valid() && Worked(old(st), st)
      ensures ComponentRendered(old(st), st, id, body, initials)
      ensures hookIndex == |initials(old(st).fibers[id].kind.value.id, old(st).fibers[id].props)|
    {
      var c, props := st.fibers[id].kind.value.id, st.fibers[id].props;
      var states := CallComponent(id, initials(c, props));
      RenderedAfterCall(old(st), st, id, body, initials);
      ReconcileWorked(old(st), st, id, [body(c, props, states)]);
      ReconcileChildren(id, [body(c, props, states)]);
    }

    /**
     * The call of a function component at `id` whose `useState` calls pass
     * `inits`: with the fiber as `wipFiber`, `hookIndex` reset and its cells
     * emptied, each call adds one cell seeded from the previous render.
     */
    method CallComponent(id: FiberId, inits: seq<Value>) returns (states: seq<Value>)
      requires Valid() && id in st.fibers
      modifies this
      ensures Valid() && Worked(old(st), st)
      ensures var s := old(st); var previous := PreviousHooks(s.fibers, s.nextId, id);
        && (forall i :: 0 <= i < |previous| ==> previous[i] in s.cells)
        && states == Seeds(s.cells, previous, inits)
        && hookIndex == |inits|
        && HooksMade(s.cells, st.cells, s.nextHook, states)
        && st.(cells := s.cells) == s.(wipFiber := Some(id), nextHook := s.nextHook + |inits|,
          fibers := WithHooks(s.fibers, s.nextId, id, HookRange(s.nextHook, |inits|)))
    {
      ghost var s := st;
      ghost var previous := PreviousHooks(st.fibers, st.nextId, id);
      FiberRetagged(st.(wipFiber := Some(id)), id, st.fibers[id].(hooks := []));
      st := st.(wipFiber := Some(id), fibers := WithHooks(st.fibers, st.nextId, id, []));
      hookIndex := 0;
      assert PreviousHooks(st.fibers, st.nextId, id) == previous;
      states := CallHooks(id, inits);
      assert [] + HookRange(s.nextHook, |inits|) == HookRange(s.nextHook, |inits|);
      WithHooksTwice(s.fibers, s.nextId, id, [], HookRange(s.nextHook, |inits|));
    }

    /**
     * The component's `useState` calls, one per initial value, in order: each
     * adds one cell, seeded from the cell at the same position of the previous
     * render, and appends it to the fiber's cells.
     */
    method CallHooks(id: FiberId, inits: seq<Value>) returns (states: seq<Value>)
      requires Valid() && st.wipFiber == Some(id) && id in st.fibers && hookIndex == 0
      modifies this
      ensures Valid()
      ensures var s := old(st); var previous := PreviousHooks(s.fibers, s.nextId, id);
        && (forall i :: 0 <= i < |previous| ==> previous[i] in s.cells)
        && states == Seeds(s.cells, previous, inits)
        && hookIndex == |inits|
        && HooksMade(s.cells, st.cells, s.nextHook, states)
        && st.(cells := s.cells) == s.(nextHook := s.nextHook + |inits|,
          fibers := WithHooks(s.fibers, s.nextId, id, s.fibers[id].hooks + HookRange(s.nextHook, |inits|)))
    {
      ghost var s := st;
      CallingStart(s, id, inits);
      states := [];
      while hookIndex < |inits|
        invariant Valid()
        invariant Calling(s, id, inits, st, hookIndex, states)
        decreases |inits| - hookIndex
      {
        ghost var t, k := st, hookIndex;
        var state, h := UseState(inits[hookIndex]);
        CallingNext(s, id, inits, t, k, states, state, st);
        states := states + [state];
      }
      CallingDone(s, id, inits, st, states);
    }

    /**
     * `createDom(fiber)`: a new detached host node, a text node for the text
     * type and an element named after the type otherwise, synced from no props
     * to the fiber's props.
     */
    method CreateDom(id: FiberId) returns (n: NodeId)
      requires Valid() && id in st.fibers && (st.fibers[id].kind.None? || st.fibers[id].kind.value.Tag?)
      modifies this`st
      ensures Valid()
      ensures var s, x := old(st), old(st).fibers[id];
        && n == s.nextNode && n !in s.host
        && st == s.(host := s.host[n := Synced(EmptyNode(NodeKindOf(x.kind)), NoProps, x.props)], nextNode := n + 1)
    {
      var node := UpdateDom(EmptyNode(NodeKindOf(st.fibers[id].kind)), NoProps, st.fibers[id].props);
      NodeAdded(st, node);
      n := st.nextNode;
      st := st.(host := st.host[n := node], nextNode := n + 1);
    }

    /**
     * `updateHostComponent(fiber)`: a fiber without a host node gets one (see
     * `AttachDom`); then the fiber's own `children` are reconciled.  No
     * existing host node changes.
     */
    method UpdateHostComponent(id: FiberId)
      requires Valid() && id in st.fibers && (st.fibers[id].kind.None? || st.fibers[id].kind.value.Tag?)
      modifies this`st
      ensures Valid() && Worked(old(st), st)
      ensures HostRendered(old(st), st, id)
    {
      if st.fibers[id].dom.None? {
        AttachDom(id);
      }
      ReconcileWorked(old(st), st, id, st.fibers[id].props.children);
      ReconcileChildren(id, st.fibers[id].props.children);
    }

    /** `fiber.dom = createDom(fiber)`: the fiber comes to own a new host node. */
    method AttachDom(id: FiberId)
      requires Valid() && id in st.fibers && (st.fibers[id].kind.None? || st.fibers[id].kind.value.Tag?)
      modifies this`st
      ensures Valid() && Worked(old(st), st)
      ensures var s, x := old(st), old(st).fibers[id];
        && s.nextNode !in s.host
        && st == s.(host := s.host[s.nextNode := Synced(EmptyNode(NodeKindOf(x.kind)), NoProps, x.props)],
          nextNode := s.nextNode + 1, fibers := Owning(s.fibers, s.nextId, id, s.nextNode))
    {
      var n := CreateDom(id);
      FiberRetagged(st, id, st.fibers[id].(dom := Some(n)));
      st := st.(fibers := Owning(st.fibers, st.nextId, id, n));
    }

    /**
     * `performUnitOfWork(fiber)`: the fiber's own work (by its kind), then the
     * next unit of work, its first child, else the sibling of the nearest
     * fiber on its parent path that has one, else none.  Nothing is done to
     * the host nodes that already existed.
     */
    method PerformUnitOfWork(id: FiberId) returns (next: Option<FiberId>)
      requires Valid() && id in st.fibers
      modifies this
      ensures Valid()
      ensures UnitDone(old(st), st, id, body, initials)
      ensures id in st.fibers && next == Successor(st.fibers, st.nextId, id)
      ensures Worked(old(st), st)
    {
      if st.fibers[id].kind.Some? && st.fibers[id].kind.value.Component? {
        UpdateFunctionComponent(id);
      } else {
        UpdateHostComponent(id);
      }
      next := NextUnit(id);
    }

    /**
     * The end of `performUnitOfWork`: the fiber's first child, else the
     * sibling of the nearest fiber on the path `fiber`, `fiber.parent`, ...
     * that has one, else none.
     */
    method NextUnit(id: FiberId) returns (next: Option<FiberId>)
      requires WellLinked(st.fibers, st.nextId) && id in st.fibers
      ensures next == Successor(st.fibers, st.nextId, id)
    {
      var fibers := st.fibers;
      if fibers[id].child.Some? {
        return fibers[id].child;
      }
      var nextFiber: Option<FiberId> := Some(id);
      while nextFiber.Some?
        invariant InArena(fibers, nextFiber)
        invariant UpSibling(fibers, st.nextId, nextFiber) == UpSibling(fibers, st.nextId, Some(id))
        decreases if nextFiber.Some? then nextFiber.value + 1 else 0
      {
        if fibers[nextFiber.value].sibling.Some? {
          return fibers[nextFiber.value].sibling;
        }
        nextFiber := fibers[nextFiber.value].parent;
      }
      return None;
    }

    // -------------------------------------------------------------------------
    // The commit phase.

    /**
     * `commitRoot()`: every entry of the deletion list through `commitWork`,
     * then the new tree from the pending root's child; then the pending root
     * becomes the committed one.  An exception ends the commit with the
     * pending and committed roots as they were.  The deletion list is kept.
     */
    method CommitRoot() returns (fault: Option<Commit.Fault>)
      requires Valid() && st.wipRoot.Some? && st.nextUnitOfWork.None?
      modifies this`st
      ensures Valid()
      ensures var s := old(st);
        && Commit.Outcome(st.host, fault) == Commit.CommitRoot(s.fibers, s.nextId, s.host, s.deletions, s.wipRoot.value)
        && if fault.None? then st == s.(host := st.host, currentRoot := s.wipRoot, wipRoot := None)
           else st == s.(host := st.host)
    {
      var dom;
      dom, fault := CommitDeletions(st.fibers, st.nextId, st.host, st.deletions);
      if fault.None? {
        var o := Commit.CommitWork(st.fibers, st.nextId, dom, st.fibers[st.wipRoot.value].child);
        dom, fault := o.dom, o.fault;
      }
      HostKeysKept(st, dom);
      st := st.(host := dom);
      if fault.None? {
        CommittedConsistent(st);
        st := st.(currentRoot := st.wipRoot, wipRoot := None);
      }
    }

    // -------------------------------------------------------------------------
    // The scheduler.

    /** `nextUnitOfWork = performUnitOfWork(nextUnitOfWork)`: one `UnitStep`. */
    method RunUnit()
      requires Valid() && st.nextUnitOfWork.Some?
      modifies this
      ensures Valid() && UnitStep(old(st), st, body, initials)
      ensures st.wipRoot == old(st.wipRoot) && st.currentRoot == old(st.currentRoot)
      ensures forall n :: n in old(st.host) ==> n in st.host && st.host[n] == old(st.host)[n]
    {
      ghost var before := st;
      var next := PerformUnitOfWork(st.nextUnitOfWork.value);
      UnitStepIntro(before, st, next, body, initials);
      st := st.(nextUnitOfWork := next);
    }

    /**
     * The `while` loop of `workLoop(deadline)`: units of work are performed
     * while there is a next one and the deadline has not asked to yield
     * (`outOfTime[i]` is whether time ran out after the `i`-th unit; past the
     * end of `outOfTime` it has).  The states passed through form a `Trace`.
     */
    method PerformUnits(outOfTime: seq<bool>) returns (ghost trace: seq<State>)
      requires Valid()
      modifies this
      ensures Valid() && |trace| >= 1 && trace[0] == old(st) && trace[|trace| - 1] == st
      ensures Trace(trace, body, initials)
      ensures |trace| - 2 <= |outOfTime| && forall k :: 0 <= k < |trace| - 2 ==> !outOfTime[k]
      ensures st.nextUnitOfWork.None? || (|trace| >= 2 && (|trace| - 2 >= |outOfTime| || outOfTime[|trace| - 2]))
      ensures st.wipRoot == old(st.wipRoot) && st.currentRoot == old(st.currentRoot)
      ensures forall n :: n in old(st.host) ==> n in st.host && st.host[n] == old(st.host)[n]
    {
      ghost var start := st;
      var shouldYield := false;
      var i := 0;
      trace := [st];
      while st.nextUnitOfWork.Some? && !shouldYield
        invariant Valid() && i <= |outOfTime| + 1 && (!shouldYield ==> i <= |outOfTime|)
        invariant st.wipRoot == old(st.wipRoot) && st.currentRoot == old(st.currentRoot)
        invariant forall n :: n in old(st.host) ==> n in st.host && st.host[n] == old(st.host)[n]
        invariant |trace| == i + 1 && trace[i] == st
        invariant trace[0] == start
        invariant Trace(trace, body, initials)
        invariant forall k :: 0 <= k < i - 1 ==> !outOfTime[k]
        invariant shouldYield == (i > 0 && (i - 1 >= |outOfTime| || outOfTime[i - 1]))
        decreases |outOfTime| + 1 - i
      {
        assert forall k :: 0 <= k < i ==> !outOfTime[k];
        RunUnit();
        TraceNext(trace, st, body, initials);
        trace := trace + [st];
        shouldYield := i >= |outOfTime| || outOfTime[i];
        i := i + 1;
      }
    }

    /**
     * One call of `workLoop(deadline)`: the units of `PerformUnits`, then,
     * when the cursor is empty and a root is pending, the commit of that root.
     * Until the commit no existing host node changes.
     */
    method WorkLoop(outOfTime: seq<bool>) returns (fault: Option<Commit.Fault>, ghost trace: seq<State>)
      requires Valid()
      modifies this
      ensures Valid()
      ensures |trace| >= 1 && trace[0] == old(st) && Trace(trace, body, initials) && Consistent(trace[|trace| - 1])
      ensures |trace| - 2 <= |outOfTime| && forall k :: 0 <= k < |trace| - 2 ==> !outOfTime[k]
      ensures trace[|trace| - 1].nextUnitOfWork.None? || (|trace| >= 2 && (|trace| - 2 >= |outOfTime| || outOfTime[|trace| - 2]))
      ensures trace[|trace| - 1].nextUnitOfWork.Some? || trace[|trace| - 1].wipRoot.None? ==> fault.None? && st == trace[|trace| - 1]
      ensures trace[|trace| - 1].nextUnitOfWork.None? && trace[|trace| - 1].wipRoot.Some? ==>
        && Commit.Outcome(st.host, fault) == Commit.CommitRoot(trace[|trace| - 1].fibers, trace[|trace| - 1].nextId, trace[|trace| - 1].host, trace[|trace| - 1].deletions, trace[|trace| - 1].wipRoot.value)
        && if fault.None? then st == trace[|trace| - 1].(host := st.host, currentRoot := old(st.wipRoot), wipRoot := None)
           else st == trace[|trace| - 1].(host := st.host)
      ensures st.nextUnitOfWork.Some? || old(st.wipRoot).None? ==>
        && fault.None? && st.wipRoot == old(st.wipRoot) && st.currentRoot == old(st.currentRoot)
        && forall n :: n in old(st.host) ==> n in st.host && st.host[n] == old(st.host)[n]
      ensures st.nextUnitOfWork.None? && old(st.wipRoot).Some? ==>
        if fault.None? then st.currentRoot == old(st.wipRoot) && st.wipRoot.None?
        else st.currentRoot == old(st.currentRoot) && st.wipRoot == old(st.wipRoot)
    {
      trace := PerformUnits(outOfTime);
      fault := None;
      if st.nextUnitOfWork.None? && st.wipRoot.Some? {
        fault := CommitRoot();
      }
    }
  }

  // ---------------------------------------------------------------------------
  // The commit phase, on the arena and the host tree.

  /**
   * The loop at the head of `commitWork`: from the fiber's parent up to the
   * nearest fiber that owns a host node.  Walking off the root (no such
   * fiber) is the `TypeError` of reading `dom` of `undefined`.
   */
  method FindHostParent(fs: Arena, bound: nat, p: Option<FiberId>) returns (r: Option<FiberId>)
    requires WellLinked(fs, bound) && InArena(fs, p)
    ensures r == Commit.HostParent(fs, bound, p)
  {
    if p.None? {
      return None;
    }
    var domParentFiber := p.value;
    while fs[domParentFiber].dom.None?
      invariant domParentFiber in fs
      invariant Commit.HostParent(fs, bound, Some(domParentFiber)) == Commit.HostParent(fs, bound, p)
      decreases domParentFiber
    {
      if fs[domParentFiber].parent.None? {
        return None;
      }
      domParentFiber := fs[domParentFiber].parent.value;
    }
    r := Some(domParentFiber);
  }

  /** `deletions.forEach(commitWork)`, stopping at the first exception. */
  method CommitDeletions(fs: Arena, bound: nat, dom: Dom, deletions: seq<FiberId>) returns (dom': Dom, fault: Option<Commit.Fault>)
    requires WellLinked(fs, bound) && Commit.DomsIn(fs, dom)
    requires forall i :: 0 <= i < |deletions| ==> deletions[i] in fs
    ensures Commit.Outcome(dom', fault) == Commit.CommitDeletions(fs, bound, dom, deletions)
  {
    var i := 0;
    dom', fault := dom, None;
    while i < |deletions| && fault.None?
      invariant 0 <= i <= |deletions| && dom'.Keys == dom.Keys
      invariant Commit.Outcome(dom', fault) == Commit.CommitDeletions(fs, bound, dom, deletions[..i])
      decreases |deletions| - i
    {
      ghost var before := Commit.Outcome(dom', fault);
      var o := Commit.CommitWork(fs, bound, dom', Some(deletions[i]));
      dom', fault := o.dom, o.fault;
      DeletionsStep(fs, bound, dom, deletions, i, before, Commit.Outcome(dom', fault));
      i := i + 1;
    }
    DeletionFaultSticks(fs, bound, dom, deletions, i);
    assert fault.None? ==> deletions[..i] == deletions;
  }

  /**
   * The loop of `reconcileChildren(wip, elements)` over the fibers, the id
   * counter and the deletion list: walks the elements and the old children in
   * lock-step, creating an UPDATE or PLACEMENT fiber per element, tagging an
   * unmatched old child DELETION and queueing it, and linking each new fiber
   * from `wip.child` (position 0) or from the previous new fiber.
   */
  method ReconcileOnArena(s: Pass, wip: FiberId, elements: seq<Element>) returns (r: Pass)
    requires WellLinked(s.fibers, s.nextId) && wip in s.fibers
    ensures r == Reconcile(s, wip, elements)
  {
    ghost var olds := OldChildren(s.fibers, s.nextId, wip);
    var fibers: Arena, nextId: nat, deletions: seq<FiberId> := s.fibers, s.nextId, s.deletions;
    var index: nat := 0;
    var oldFiber := OldHead(fibers, wip);
    var prevSibling: Option<FiberId> := None;
    ProgressStart(s, wip, elements);
    while index < |elements| || oldFiber.Some?
      invariant LoopSetting(s.fibers, wip, olds, s.nextId)
      invariant RoundsDone(fibers, s.fibers, wip, olds, elements, s.nextId, index)
      invariant Cursor(s, wip, olds, elements, index, Pass(fibers, nextId, deletions), oldFiber, prevSibling)
      decreases Max(|elements|, |olds|) - index
    {
      ProgressReady(s, wip, olds, elements, index, Pass(fibers, nextId, deletions), oldFiber, prevSibling);
      ghost var p := Pass(fibers, nextId, deletions);
      ghost var o, v := oldFiber, prevSibling;
      fibers, nextId, deletions, oldFiber, prevSibling :=
        ReconcileRound(s.fibers, wip, olds, elements, s.nextId, fibers, nextId, deletions, index, oldFiber, prevSibling);
      RoundStep(p.fibers, s.fibers, wip, olds, elements, s.nextId, index);
      ProgressNext(s, wip, olds, elements, index, p, o, v, Pass(fibers, nextId, deletions), oldFiber, prevSibling);
      index := index + 1;
    }
    ProgressDone(s, wip, olds, elements, index, Pass(fibers, nextId, deletions), oldFiber, prevSibling);
    r := Pass(fibers, nextId, deletions);
  }

  /**
   * One iteration of the `reconcileChildren` loop at `index`: create the new
   * fiber (UPDATE on a same-type old fiber, PLACEMENT otherwise), tag an
   * unmatched old fiber DELETION and queue it, step to the old sibling, and
   * hang the new fiber from `wip.child` (at index 0) or from the previous new
   * fiber.  The arena it leaves is `Round` of the one it was given.
   */
  method ReconcileRound(ghost fs: Arena, wip: FiberId, ghost olds: seq<FiberId>, elements: seq<Element>, ghost base: nat,
              fibers: Arena, nextId: nat, deletions: seq<FiberId>, index: nat, oldFiber: Option<FiberId>, prevSibling: Option<FiberId>)
    returns (fibers': Arena, nextId': nat, deletions': seq<FiberId>, oldFiber': Option<FiberId>, prevSibling': Option<FiberId>)
    requires LoopSetting(fs, wip, olds, base)
    requires wip in fibers && (index < |olds| ==> olds[index] in fibers) && (0 < index < |elements| ==> NewId(base, index - 1) in fibers)
    requires index < |olds| ==> fibers[olds[index]].kind == fs[olds[index]].kind && fibers[olds[index]].dom == fs[olds[index]].dom && fibers[olds[index]].sibling == fs[olds[index]].sibling
    requires index < |olds| ==> fs[olds[index]].sibling == (if index + 1 < |olds| then Some(olds[index + 1]) else None)
    requires oldFiber == if index < |olds| then Some(olds[index]) else None
    requires prevSibling == if 0 < index <= |elements| then Some(NewId(base, index - 1)) else None
    requires nextId == base + Min(index, |elements|)
    ensures fibers' == Round(fibers, fs, wip, olds, elements, base, index)
    ensures oldFiber' == if index + 1 < |olds| then Some(olds[index + 1]) else None
    ensures prevSibling' == if 0 < index + 1 <= |elements| then Some(NewId(base, index)) else None
    ensures nextId' == base + Min(index + 1, |elements|)
    ensures deletions' == deletions + (if index < |olds| && !SameType(fs, olds, elements, index) then [olds[index]] else [])
  {
    fibers', nextId', deletions' := fibers, nextId, deletions;
    var element: Option<Element> := if index < |elements| then Some(elements[index]) else None;
    var newFiber: Option<FiberId> := None;
    var sameType := oldFiber.Some? && element.Some? && fibers'[oldFiber.value].kind == Some(element.value.kind);
    assert sameType == SameType(fs, olds, elements, index);
    if sameType {
      var o := fibers'[oldFiber.value];
      fibers' := fibers'[nextId' := Fiber(o.kind, element.value.props, o.dom, Some(wip), None, None, oldFiber, Some(Update), [])];
      newFiber := Some(nextId');
      nextId' := nextId' + 1;
    } else if element.Some? {
      fibers' := fibers'[nextId' := Fiber(Some(element.value.kind), element.value.props, None, Some(wip), None, None, None, Some(Placement), [])];
      newFiber := Some(nextId');
      nextId' := nextId' + 1;
    }
    assert fibers' == Created(fibers, fs, wip, olds, elements, base, index);
    ghost var created := fibers';
    if oldFiber.Some? && !sameType {
      fibers' := fibers'[oldFiber.value := fibers'[oldFiber.value].(effectTag := Some(Deletion))];
      deletions' := deletions' + [oldFiber.value];
    }
    assert fibers' == Tagged(created, fs, wip, olds, elements, base, index);
    RoundPhases(fibers, fs, wip, olds, elements, base, index);
    oldFiber' := oldFiber;
    if oldFiber.Some? {
      assert fibers'[oldFiber.value].sibling == fs[olds[index]].sibling;
      oldFiber' := fibers'[oldFiber.value].sibling;
    }
    ghost var tagged := fibers';
    if index == 0 {
      fibers' := fibers'[wip := fibers'[wip].(child := newFiber)];
    } else if element.Some? {
      fibers' := fibers'[prevSibling.value := fibers'[prevSibling.value].(sibling := newFiber)];
    }
    prevSibling' := newFiber;
    assert fibers' == Linked(tagged, wip, elements, base, index);
  }

  /** One more entry of the deletion list, after a prefix that raised nothing. */
  lemma DeletionsStep(fs: Arena, bound: nat, dom: Dom, dels: seq<FiberId>, i: nat, before: Commit.Outcome, after: Commit.Outcome)
    requires WellLinked(fs, bound) && Commit.DomsIn(fs, dom)
    requires forall k :: 0 <= k < |dels| ==> dels[k] in fs
    requires i < |dels| && before == Commit.CommitDeletions(fs, bound, dom, dels[..i]) && before.fault.None?
    requires after == Commit.CommitWork(fs, bound, before.dom, Some(dels[i]))
    ensures after == Commit.CommitDeletions(fs, bound, dom, dels[..i + 1])
  {
    assert dels[..i + 1][..i] == dels[..i];
  }

  /** Once a deletion entry faults, the rest of the list is not committed: the outcome stays. */
  lemma {:induction false} DeletionFaultSticks(fs: Arena, bound: nat, dom: Dom, dels: seq<FiberId>, i: nat)
    requires WellLinked(fs, bound) && Commit.DomsIn(fs, dom)
    requires forall k :: 0 <= k < |dels| ==> dels[k] in fs
    requires i <= |dels|
    ensures Commit.CommitDeletions(fs, bound, dom, dels[..i]).fault.Some? ==>
      Commit.CommitDeletions(fs, bound, dom, dels) == Commit.CommitDeletions(fs, bound, dom, dels[..i])
    decreases |dels| - i
  {
    if i < |dels| && Commit.CommitDeletions(fs, bound, dom, dels[..i]).fault.Some? {
      assert dels[..i + 1][..i] == dels[..i];
      DeletionFaultSticks(fs, bound, dom, dels, i + 1);
    } else if i == |dels| {
      assert dels[..i] == dels;
    }
  }
}
