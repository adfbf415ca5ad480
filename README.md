# Didact-style incremental renderer, modelled in Dafny

This project models `src/index.js`, a small incremental UI renderer in the style
of "Didact". The renderer works in three stages:

- It describes the screen as **elements** (`createElement`).
- It keeps one **fiber** per rendered position, linked by `parent`, `child`,
  `sibling` and `alternate` (the fiber of the previous render). Fibers are
  built one unit of work at a time (`performUnitOfWork`), under a scheduler
  (`workLoop`).
- It diffs new children against old ones by position (`reconcileChildren`),
  and then **commits** the result to the host tree in one go (`commitRoot`,
  `commitWork`, `commitDeletion`).

Function components keep positional **state cells** (`useState`). The
`setState` of a cell queues an update and starts a new render from the
committed root.

The model is split by concern:

| module | file | what it holds |
|---|---|---|
| `Elements` | `elements.dfy` | elements, props, prop values, `createElement`, `createTextElement` |
| `Host` | `host.dfy` | an abstract host tree (node id → kind, attributes, listeners, ordered children), with `appendChild` and `removeChild` |
| `PropSync` | `prop_sync.dfy` | `isEvent`, `isProperty`, `isNew`, `isGone` and `updateDom`. The four `forEach` passes are loops, proved equal to the function `Synced` |
| `Fibers` | `fibers.dfy` | the fiber record and the fiber arena, with `Successor`, the next-unit-of-work step, and its pre-order traversal theorem |
| `Hooks` | `hooks.dfy` | state cells, action folding, and what a position of a component's cells is seeded from |
| `Reconciliation`, `ReconcileFacts`, `Diffing`, `ReconcileLoop` | `reconciliation.dfy`, `reconcile_facts.dfy`, `diffing.dfy`, `reconcile_loop.dfy` | `reconcileChildren` as a function (`Reconcile`), what it means, and the loop invariant that connects the imperative loop to it |
| `Commit` | `commit.dfy` | the commit phase as functions of the arena and the host tree, with JavaScript exceptions as explicit outcomes |
| `Runtime` | `engine.dfy` | the class `Engine` and the imperative operations |

The `Engine` class holds the module globals (`nextUnitOfWork`, `wiproot`,
`currentRoot`, `deletions`, `wipFiber`) in one field `st` of record type
`State`, together with three shared stores:

- the fiber arena, a map from fiber id to fiber;
- the state cells, a map from cell id to cell;
- the host tree.

`hookIndex` is a second field. Every operation that changes the engine states
its whole new state as an update of `old(st)`. Each one also keeps the
invariant `Valid()`: every reference points into the arena, the cells or the
host tree, and fresh ids lie above all used ones.

Object references are ids into these maps:

- A fiber field assignment (`oldFiber.effectTag = 'DELETION'`,
  `wipFiber.child = newFiber`, `fiber.dom = createDom(fiber)`) is a map update.
- The `setState` closure of a cell is `SetState(h, action)`, where `h` is the
  cell's id.
- Fiber ids are handed out in increasing order. So in every reachable state,
  `child` and `sibling` point to larger ids and `parent` and `alternate` to
  smaller ones (`Fibers.WellLinked`). This is what makes every walk over
  fibers terminate.

A component is modelled by two functions on its props:

- `initials`: the initial values it passes to its `useState` calls, in order;
- `body`: the element it returns, given the states those calls returned.

The browser is replaced by parameters:

- The host tree starts as the `page` given to the constructor.
- The deadline of `workLoop` is the sequence `outOfTime`: entry `i` says
  whether time ran out after the `i`-th unit of work.

An exception the source can raise is an explicit `Commit.Fault`: a
`TypeError` from reading through a missing fiber, or the `NotFoundError` of
`removeChild`. The host mutations made before it are kept.

## Model

| member | source | states |
|---|---|---|
| `Elements.CreateTextElement` | src/index.js:12-18 | The type is `TextElement` and there are no children. The only named prop is `nodeValue`, and it holds the given value. |
| `Elements.WrapAll` | src/index.js:6-8 | The children list has one entry per child argument, in the same order. Each entry is the argument itself if it is an element, else a text element wrapping it. |
| `Elements.CreateElement` | src/index.js:2-10 | Keeps the type and every named prop except `children`. `children` has the same length and order as the child arguments. Element children are kept as they are. Each raw child becomes `{type: 'TextElement', props: {nodeValue: c, children: []}}`. |
| `Elements.ObjectChildrenKept` | src/index.js:6-8 | Passing only element children returns exactly those children, in order. |
| `Elements.WrapAllAppend` | src/index.js:6-8 | Wrapping the child arguments commutes with concatenating them. |
| `Host.AppendChild` | src/index.js:105 | `appendChild`: the child is taken out of every child list and placed last under the parent. Nothing else changes: node ids, kinds, attributes and listeners stay. |
| `Host.RemoveChild` | src/index.js:117 | `removeChild` succeeds exactly when the node is a child of the parent. It then removes it from that parent's list only. Otherwise it fails, and the tree is unchanged. |
| `Host.AppendChildNoDuplicates` | src/index.js:105 | After `appendChild`, no child list holds a node twice. |
| `Host.AppendChildOneParent` | src/index.js:105 | After `appendChild`, a node in two child lists is in the list of one and the same parent. |
| `Host.AppendChildKeepsForest` | src/index.js:105 | `appendChild` keeps every child list free of duplicates and every node under at most one parent. |
| `Host.RemoveChildKeepsForest` | src/index.js:117 | `removeChild` keeps the host tree a forest. |
| `Host.RemoveAfterAppend` | src/index.js:104-117 | Removing a node that was just appended succeeds, and leaves the node detached everywhere. |
| `PropSync.ToLower` | src/index.js:47-49 | `toLowerCase` keeps the length, maps each ASCII capital to its lower-case letter, and leaves every other character as it is. |
| `PropSync.Synced` | src/index.js:40-82 | The meaning of `updateDom`. Stale listeners are removed, then new or changed listeners are added. Gone properties are blanked, then new or changed properties are assigned. The node's kind and children are untouched. |
| `PropSync.RemoveStaleListeners` | src/index.js:42-54 | The first pass removes the listener of each event key of `prev` that is gone from `next` or changed in it. |
| `PropSync.BlankGoneProperties` | src/index.js:56-61 | The second pass sets each property of `prev` that `next` lacks to `''`. |
| `PropSync.AssignChangedProperties` | src/index.js:63-68 | The third pass assigns `next[k]` to each property key of `next` that is new or changed. |
| `PropSync.AddNewListeners` | src/index.js:70-81 | The fourth pass adds a listener for each event key of `next` that is new or changed. |
| `PropSync.UpdateDom` | src/index.js:40-82 | The four passes in the source's order produce exactly `Synced(node, prev, next)`. |
| `PropSync.SyncIdempotent` | src/index.js:40-82 | `updateDom(dom, p, p)` changes nothing. |
| `PropSync.SyncedAttr` | src/index.js:37-39 | Attribute `k` after a sync falls into one of three cases. It is `''` if it is a property of `prev` that `next` lacks. It is `next[k]` if it is a property of `next` that is new or changed. Otherwise it is exactly what it was. So `children`, event keys and keys in neither mapping are never written. |
| `PropSync.SyncReflects` | src/index.js:40-82 | A node that shows `prev` shows `next` after the sync: every property has its value and every listener is registered. This assumes no event key of `prev` shares its event with a different key of `next`. |
| `PropSync.CreatedReflects` | src/index.js:20-29 | A node made by `createDom`, synced from no props, shows the fiber's props. |
| `PropSync.EventTypeOfListenerKey` | src/index.js:47-49 | A listener's event is its key without the leading `on`, lower-cased. |
| `Fibers.Siblings` | src/index.js:262-263 | The chain reached from a fiber through `sibling` is an encoded chain in strictly increasing id order. |
| `Fibers.ChainAt` | src/index.js:262-263 | Position `i` of a sibling chain links to position `i + 1`, and the last position links to nothing. |
| `Fibers.ChainUnique` | src/index.js:262-263 | A head fiber determines its sibling chain. |
| `Fibers.UpSibling` | src/index.js:168-174 | The upward walk ends inside the arena, or with nothing. |
| `Fibers.Successor` | src/index.js:165-174 | The next unit of work is the fiber's first child if it has one. Otherwise it is the `sibling` of the nearest fiber on the parent path that has one, or nothing. |
| `Fibers.PassVisitsPreOrder` | src/index.js:140-142 | Starting at the root of a fiber tree encoded in the arena, successive `Successor` steps visit every fiber exactly once, in pre-order, and then end the pass. |
| `Fibers.TreeVisits` | src/index.js:165-174 | The pre-order visit of one subtree, followed by whatever the upward walk reaches next. |
| `Fibers.ForestVisits` | src/index.js:165-174 | The pre-order visit of a list of sibling subtrees, followed by whatever the upward walk from their parent reaches. |
| `Hooks.FoldAppend` | src/index.js:197-200 | Folding a concatenation of queued actions folds the first part, then the second. |
| `Hooks.FoldFirst` | src/index.js:197-200 | The oldest queued action is applied first. |
| `Hooks.CounterIncrement` | src/index.js:188-200 | A cell holding 1 with one `c => c + 1` queued seeds the next render with 2. |
| `Hooks.Seeds` | src/index.js:188-200 | One seed per `useState` call of a render. |
| `Hooks.SeedsIgnoreNewCells` | src/index.js:189-191 | Seeding is positional: adding cells under new ids changes no seed. |
| `Reconciliation.OldChildren` | src/index.js:228 | The old children are the sibling chain from `wipFiber.alternate.child`, in increasing id order. |
| `Reconciliation.Unmatched` | src/index.js:257-261 | The old fibers queued for deletion come from the visited positions, and there are at most as many as positions. |
| `Reconciliation.NewIds` | src/index.js:237-255 | The ids handed to the new fibers are exactly `base` to `base + n - 1`. |
| `Reconciliation.Rebuilt` | src/index.js:230-272 | After `rounds` iterations, the arena holds the old fibers, patched, plus one new fiber per visited element. |
| `Reconciliation.Reconcile` | src/index.js:226-273 | `reconcileChildren` adds exactly one new fiber per element, and the id counter grows by the number of elements. |
| `Reconciliation.NewFiberShape` | src/index.js:234-256 | New fiber `i` has the props of element `i`, parent `wip`, no child, and a link to fiber `i + 1`. It is UPDATE, with the old fiber's type and dom and that fiber as `alternate`, if and only if old fiber `i` has the element's type. Otherwise it is PLACEMENT, with no dom and no alternate. |
| `Reconciliation.PatchedShape` | src/index.js:257-266 | An existing fiber keeps every field except two. An unmatched old child is tagged DELETION. `wip.child` becomes the first new fiber, or `null` when there are no elements but there were old children. |
| `Reconciliation.UnmatchedAt` | src/index.js:257-261 | Old child `j` is queued for deletion if and only if position `j` has no element of its type. |
| `Reconciliation.NoneUnmatched` | src/index.js:257-261 | When every old child matches its element, no deletion is queued. |
| `Reconciliation.SuffixUnmatched` | src/index.js:257-261 | When the elements match a prefix of the old children, exactly the remaining old children are queued, in order. |
| `ReconcileFacts.LookupNew` | src/index.js:237-255 | New fiber `i` of the pass is a fresh id that holds `NewFiber`. |
| `ReconcileFacts.LookupExisting` | src/index.js:257-266 | An existing fiber of the pass holds `Patched`. |
| `ReconcileFacts.ReconciledChild` | src/index.js:234-256 | As `NewFiberShape`, stated about the pass `reconcileChildren` leaves. |
| `ReconcileFacts.ReconciledExisting` | src/index.js:257-266 | As `PatchedShape`, stated about the pass `reconcileChildren` leaves. |
| `ReconcileFacts.ChainOfRange` | src/index.js:265-270 | Fibers `base` to `base + n - 1`, each linked to the next, form one sibling chain. |
| `ReconcileFacts.ReconciledSiblings` | src/index.js:267-270 | Each new fiber links to the next one, and the last links to nothing. |
| `ReconcileFacts.ReconciledChain` | src/index.js:265-270 | The new fibers form the sibling chain that hangs from `wip.child`, in element order. |
| `ReconcileFacts.ReconciledLinks` | src/index.js:226-273 | Every fiber of the pass refers only to fibers of the pass, in id order. |
| `ReconcileFacts.ReconcileWellLinked` | src/index.js:226-273 | Reconciling keeps the arena well linked. |
| `ReconcileFacts.ReconciledTags` | src/index.js:234-256 | Each new fiber is UPDATE, reusing the old dom, on a same-type position, and PLACEMENT otherwise. |
| `ReconcileFacts.ReconciledDeletions` | src/index.js:257-261 | The deletion list grows by the unmatched old children, in position order, and by nothing else. |
| `Diffing.TagsWhenMatched` | src/index.js:234-245 | Matched positions give UPDATE fibers that keep the old fiber's dom. |
| `Diffing.UpdatesWhenMatched` | src/index.js:234-245 | As `TagsWhenMatched`, stated about `Reconcile`. |
| `Diffing.PlacementsPastOld` | src/index.js:246-256 | Elements beyond the old children always become PLACEMENT fibers. |
| `Diffing.NoDeletionsWhenMatched` | src/index.js:257-261 | When every old child matches, the deletion list is unchanged. |
| `Diffing.SuffixDeleted` | src/index.js:257-261 | When the elements match a prefix of the old children, the old children past them are queued. |
| `Diffing.Growth` | src/index.js:226-273 | Growth with matching old children: all old positions are UPDATE, the rest PLACEMENT, and there are no deletions. |
| `Diffing.Shrinkage` | src/index.js:226-273 | Shrinkage with a matching prefix: all new fibers are UPDATE, and old length minus new length deletions are queued, in order. |
| `Diffing.SameShape` | src/index.js:226-273 | The same types in the same order give only UPDATE fibers, each reusing its old dom in order, and no deletions. |
| `Diffing.TypeMismatch` | src/index.js:234-261 | One old child of another type gives one DELETION and one PLACEMENT, never an UPDATE. |
| `ReconcileLoop.RoundPhases` | src/index.js:237-270 | One iteration is three writes in order: create the new fiber, tag the old one, link the new one. |
| `ReconcileLoop.NoRoundsDone` | src/index.js:227-229 | Before the first iteration the arena is the one the loop started from. |
| `ReconcileLoop.RoundsDoneRebuilt` | src/index.js:230-272 | An arena that satisfies the loop invariant after `rounds` iterations is `Rebuilt` after `rounds`. |
| `ReconcileLoop.RoundStep` | src/index.js:230-272 | One iteration moves the loop invariant on the arena from `k` to `k + 1` iterations. |
| `ReconcileLoop.RoundExisting` | src/index.js:257-266 | After iteration `k`, an existing fiber is `Patched` for `k + 1` rounds. |
| `ReconcileLoop.RoundNew` | src/index.js:237-270 | After iteration `k`, each new fiber is `NewFiber` with the new count. |
| `ReconcileLoop.RoundKeys` | src/index.js:237-255 | Iteration `k` adds exactly the id of new fiber `k`, when element `k` exists. |
| `ReconcileLoop.UnmatchedNext` | src/index.js:257-261 | Iteration `k` appends old fiber `k` to the deletions exactly when it is unmatched. |
| `ReconcileLoop.ProgressStart` | src/index.js:227-229 | The loop invariant holds on entry. |
| `ReconcileLoop.ProgressReady` | src/index.js:230-264 | On each iteration, the fibers the iteration reads are in the arena, and the old fiber at `index` is unchanged. |
| `ReconcileLoop.ProgressNext` | src/index.js:262-271 | One iteration moves `oldFiber`, `prevsibling`, the id counter and the deletion list to the next index. |
| `ReconcileLoop.ProgressDone` | src/index.js:230 | When the loop stops, its state is `Reconcile`. |
| `Commit.HostParent` | src/index.js:98-102 | The host parent found is a fiber of the arena that owns a host node. |
| `Commit.NoHostParent` | src/index.js:98-102 | When the loop finds no host parent, no fiber on the parent path owns a host node. |
| `Commit.HostParentFound` | src/index.js:98-102 | A host parent that the loop finds is on the parent path, and every fiber before it owns no host node. |
| `Commit.HostParentIsNearest` | src/index.js:98-102 | The host parent is the first fiber on the parent path that owns a host node. There is none exactly when no fiber on the path owns one, and then the source raises `TypeError`. |
| `Commit.CommitDeletion` | src/index.js:115-121 | A deletion changes no node ids. |
| `Commit.DeletionRemovesFirstOwned` | src/index.js:115-121 | A deletion removes the host node of the first fiber on the `child` path that owns one, never an ancestor's node. It raises `NotFoundError` when that node is not a child of the host parent. |
| `Commit.DeletionWithoutNodeFaults` | src/index.js:115-121 | When no fiber on the `child` path owns a host node, the unguarded `fiber.child` raises `TypeError`, and nothing changes. |
| `Commit.DeletionSkipsDomlessFiber` | src/index.js:115-121 | A deleted fiber with no node of its own removes its child's node. |
| `Commit.DeletedLeafFaults` | src/index.js:119 | A deleted fiber with neither a node nor a child raises `TypeError`. |
| `Commit.Effect` | src/index.js:98-110 | A fiber's own effect changes no node ids. |
| `Commit.EffectCases` | src/index.js:104-110 | PLACEMENT with a node appends it last under the host parent, and PLACEMENT without a node does nothing. UPDATE with a node syncs that node from the alternate's props and touches no other node. A fiber without a tag does nothing. |
| `Commit.CommitWork` | src/index.js:93-113 | `commitWork` changes no node ids. |
| `Commit.CommitDeletions` | src/index.js:86 | Committing the deletion list changes no node ids. |
| `Commit.CommitRoot` | src/index.js:85-91 | Committing the root changes no node ids. |
| `Commit.QuietCommitChangesNothing` | src/index.js:93-113 | When the commit has only UPDATEs that re-apply the same props, it succeeds and leaves the host tree unchanged. |
| `Commit.TwoDeletedLinked` | src/index.js:257-261 | The two-deleted-siblings arena is well linked, and its nodes are in its host tree. |
| `Commit.SecondDeletionEmpties` | src/index.js:93-121 | Committing the second deleted sibling alone removes its node. |
| `Commit.FirstDeletionRemovesBoth` | src/index.js:86-112 | `commitWork` on the first deletion entry follows its old `sibling` link and also removes the second deleted sibling's node. |
| `Commit.AdjacentDeletionsFault` | src/index.js:86-121 | When a parent loses two adjacent children, the second deletion entry asks `removeChild` for a node that is already gone, and the commit raises `NotFoundError`. |
| `Runtime.HookRange` | src/index.js:211 | One render's cell ids are consecutive. |
| `Runtime.ReconcileKeepsRefs` | src/index.js:226-273 | After reconciling, the arena is well linked and keeps every fiber. Every fiber queued for deletion is in it, and every referenced cell and host node exists. |
| `Runtime.ReconcileConsistent` | src/index.js:226-273 | `reconcileChildren` keeps the engine invariant. |
| `Runtime.RootAdded` | src/index.js:126-134 | A new root at a fresh id becomes the pending root and the cursor, and the invariant holds. |
| `Runtime.CallingNext` | src/index.js:188-213 | One more `useState` call adds the next cell, seeded from the same position of the previous render. |
| `Runtime.CallingDone` | src/index.js:180-184 | After the last `useState` call, the returned states are `Seeds`, one new cell holds each, no other cell is added, and the fiber lists them. |
| `Runtime.FoldQueue` | src/index.js:197-200 | The `forEach` over the queued actions computes `Fold`. |
| `Runtime.Engine.constructor` | src/index.js:31-34 | No fibers, no pending or committed root, no cursor and no deletions. The host tree is the page. |
| `Runtime.Engine.StartRoot` | src/index.js:126-134 | The new root becomes the pending root and the next unit of work, and the deletion list is emptied. |
| `Runtime.Engine.Render` | src/index.js:124-135 | `render` adds a root that owns the container, has the one child `element`, and has the committed root as its alternate. Nothing else changes. |
| `Runtime.Engine.SetState` | src/index.js:201-210 | The action is queued on this cell only. If there is a committed root, a root with its dom and props, and with it as the alternate, becomes pending and the cursor, and the deletions are cleared. If there is none, `TypeError` is raised after the action is queued. |
| `Runtime.Engine.UseState` | src/index.js:188-214 | The returned state is the previous render's cell at `hookIndex` with its queue folded in, or `initial` if there is none. One new cell with an empty queue is appended to `wipFiber.hooks`, and `hookIndex` grows by one. No other cell changes, the old queue included. |
| `Runtime.Engine.ReconcileChildren` | src/index.js:226-273 | The loop leaves exactly `Reconcile` of the state before it, and keeps the invariant. |
| `Runtime.ReconcileOnArena` | src/index.js:226-273 | The `while` loop over elements and old children computes `Reconcile`. |
| `Runtime.ReconcileRound` | src/index.js:231-271 | One iteration's writes are `Round`, with the cursor, counter and deletion list moved on. |
| `Runtime.Engine.UpdateFunctionComponent` | src/index.js:180-186 | The new state is `ComponentRendered`. The fiber's `hooks` become one new cell per `useState` call, seeded by `Seeds` from the previous render's cells, and no other cell is added. Then the one element the component returns for those states is reconciled, with `wipFiber` set to the fiber. `hookIndex` ends at the number of calls. No host node changes. |
| `Runtime.Engine.CallComponent` | src/index.js:181-184 | `wipFiber`, `hookIndex` and `hooks` are reset, then the component's `useState` calls return `Seeds`. |
| `Runtime.Engine.CallHooks` | src/index.js:184-213 | The calls in order add one new cell per initial value, return `Seeds`, and list the new cells on the fiber. |
| `Runtime.Engine.CreateDom` | src/index.js:20-29 | A fresh node of the fiber's kind, synced from no props to the fiber's props. The host tree is otherwise unchanged. |
| `Runtime.Engine.AttachDom` | src/index.js:218-220 | The fiber comes to own a fresh node made by `createDom`. |
| `Runtime.Engine.UpdateHostComponent` | src/index.js:216-224 | The new state is `HostRendered`. A fiber that has a node gets its `props.children` reconciled. A fiber without one is first given a fresh node of its kind at the next node id, synced from no props to its props. No existing host node changes. |
| `Runtime.Engine.PerformUnitOfWork` | src/index.js:155-175 | The state change is `UnitDone`. A fiber whose type is a function gets the work of `updateFunctionComponent` (`ComponentRendered`). Any other fiber gets the work of `updateHostComponent` (`HostRendered`). The result is `Successor` of the fiber in the new arena. No existing host node, root or cursor changes. |
| `Runtime.Engine.NextUnit` | src/index.js:165-174 | The upward-walk loop computes `Successor`. |
| `Runtime.FindHostParent` | src/index.js:98-102 | The `while` loop computes `HostParent`. |
| `Runtime.CommitDeletions` | src/index.js:86 | The `forEach` over the deletion list, stopping at the first exception, matches `Commit.CommitDeletions`. |
| `Runtime.DeletionFaultSticks` | src/index.js:86 | Once a deletion entry raises, the entries after it are not committed. |
| `Runtime.Engine.CommitRoot` | src/index.js:85-91 | The host tree is `Commit.CommitRoot` of the state before. On success the pending root becomes the committed one. After an exception both roots stay, and nothing else changes, the deletion list included. |
| `Runtime.RenderedAfterCall` | src/index.js:180-186 | After the `useState` calls of a component render, reconciling the element it returns yields a `ComponentRendered` state. |
| `Runtime.UnitStepIntro` | src/index.js:142 | The work of the fiber at the cursor, followed by moving the cursor to its `Successor`, is a `UnitStep`. |
| `Runtime.TraceNext` | src/index.js:140-144 | A `Trace` extended by one `UnitStep` from its last state is still a `Trace`. |
| `Runtime.Engine.RunUnit` | src/index.js:142 | `nextUnitOfWork = performUnitOfWork(nextUnitOfWork)` is one `UnitStep`. The roots and the existing host nodes stay. |
| `Runtime.Engine.PerformUnits` | src/index.js:139-144 | The states the loop passes through form a `Trace` of `UnitStep`s from the state before. `outOfTime[k]` is false for every step but the last. The loop stops when the cursor is empty, or right after a step where time ran out or the deadline sequence ended. The roots and the existing host nodes stay. |
| `Runtime.Engine.WorkLoop` | src/index.js:137-150 | The units run form a `Trace` from the state before, stopping as `PerformUnits` says. If the last state of the trace has an empty cursor and a pending root, the host tree and exception are `Commit.CommitRoot` of that state. On success the pending root becomes the committed one, and after an exception both roots stay. Nothing else changes. Otherwise nothing is committed, and the state is the last one of the trace. |

## Left out

- Browser DOM calls (`createTextNode`, `createElement`, `appendChild`, `removeChild`, `addEventListener`, `removeEventListener`, property writes) are foreign code. They are replaced by the abstract host tree of `Host`. Node creation hands out fresh ids. A listener is an (event, handler) pair in a set, so adding one twice registers it once.
- `requestIdleCallback` and `deadline.timeRemaining()` are host scheduling. `WorkLoop` is one call of `workLoop`, the deadline is the `outOfTime` input, and the re-arming at the end is not modelled.
- `console.log` calls are I/O only.
- The JSX demo component and the bootstrap with `document.getElementById` are example usage.
- `instanceof Function`, `typeof child === 'object'` and `!==` on closures are JavaScript runtime tests. They are modelled as a tagged element type (`Tag`/`Component`), a tagged child (`Nested`/`Raw`) and equality of abstract values. Handlers are `Func(id)` values compared by id.
- A component is not a real function call. It is the pair `initials`/`body` of the engine, so a component cannot call `setState` while it renders, and its body cannot raise.
- `null` or `undefined` children in `props.children` are not modelled: every child is an element or a raw value. A boolean child is a raw value, and, as in the source (`typeof true` is not `'object'`), it is wrapped into a text element that shows `true` or `false`.
- Element props are a record of named entries plus the `children` list, so `key in props` is true for `children`, and `createElement` drops a `children` entry passed among the named props.
- `Object.keys` enumeration order is not modelled. The passes of `updateDom` visit keys in any order, and the proofs show the result does not depend on it.
- `appendChild` raising `HierarchyRequestError`, for a node appended under its own descendant, is not modelled. `AppendChild` always succeeds.
- After an exception, the source's `workLoop` never re-arms, so the engine stops. The model returns the exception and leaves the state as the source leaves it, but does not forbid further calls.
- `Runtime.Engine.Render`: the container is a host node id that must exist. With a `null` container the source does not fail: the root has no node, so `updateHostComponent` gives it a fresh detached element from `document.createElement(undefined)`, and the page is rendered into that element. This case is not modelled.
- `PropSync.Has`: props count only their own entries and `children`. JavaScript's `key in next` is also true for names inherited from `Object.prototype` (`toString`, `constructor`, `valueOf`, `hasOwnProperty`, ...). So a prop of `prev` with such a name that `next` lacks is blanked to `''` by the model, while the source keeps it.
- `PropSync.ToLower`: only ASCII letters are case-mapped. JavaScript's `toLowerCase` maps all of Unicode, and can change the length of a string (`'İ'` becomes two code units). Event-handler keys such as `onClick` are ASCII in practice.
- `Runtime.Engine.UseState`: outside a component render (`wipFiber` null) the source raises, and the model requires a `wipFiber`.
- `hookIndex` starts at `null` in the source and at `0` here. Every use of it follows the reset to `0` in `updateFunctionComponent`.
- A fiber that no render uses anymore, and a cell that no fiber lists, stay in the arena and in the cell map (the source leaves them to the garbage collector).
