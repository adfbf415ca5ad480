/**
 * State cells (`useState` hooks): a value and the queue of update functions
 * that `setState` has enqueued since it was created.
 */
module Hooks {
  import opened Elements

  type HookId = nat

  /** An update passed to `setState`: maps the current state to the next one. */
  type Action = Value -> Value

  datatype Hook = Hook(state: Value, queue: seq<Action>)

  /** `actions.forEach(a => state = a(state))`: applies the actions in order, oldest first. */
  function Fold(actions: seq<Action>, s: Value): Value
  {
    if |actions| == 0 then s else actions[|actions| - 1](Fold(actions[..|actions| - 1], s))
  }

  /** Folding a concatenation folds the first part, then the second. */
  lemma {:induction false} FoldAppend(a: seq<Action>, b: seq<Action>, s: Value)
    ensures Fold(a + b, s) == Fold(b, Fold(a, s))
  {
    if |b| == 0 {
      assert a + b == a;
    } else {
      assert (a + b)[..|a + b| - 1] == a + b[..|b| - 1];
      FoldAppend(a, b[..|b| - 1], s);
    }
  }

  /** The first queued action is applied first. */
  lemma FoldFirst(actions: seq<Action>, s: Value)
    requires |actions| > 0
    ensures Fold(actions, s) == Fold(actions[1..], actions[0](s))
  {
    assert actions == [actions[0]] + actions[1..];
    FoldAppend([actions[0]], actions[1..], s);
    assert [actions[0]][..0] == [];
  }

  /**
   * The value position `index` of a component's state cells starts from on a
   * render: the old cell's state with its queue folded in when the previous
   * render of that fiber had a cell there, `initial` otherwise.
   */
  function SeedState(cells: map<HookId, Hook>, previous: seq<HookId>, index: nat, initial: Value): Value
    requires forall i :: 0 <= i < |previous| ==> previous[i] in cells
  {
    if index < |previous| then Fold(cells[previous[index]].queue, cells[previous[index]].state) else initial
  }

  /** The demo `Counter` component: `useState(1)` with one `c => c + 1` queued, so the next render sees 2. */
  lemma CounterIncrement()
    ensures var inc: Action := (c: Value) => if c.Num? then Num(c.n + 1) else c;
      SeedState(map[0 := Hook(Num(1), [inc])], [0], 0, Num(1)) == Num(2)
  {
    var inc: Action := (c: Value) => if c.Num? then Num(c.n + 1) else c;
    assert [inc][..0] == [];
  }

  /** The states a component's `useState(inits[0])`, `useState(inits[1])`, ... calls return on one render. */
  function Seeds(cells: map<HookId, Hook>, previous: seq<HookId>, inits: seq<Value>): (r: seq<Value>)
    requires forall i :: 0 <= i < |previous| ==> previous[i] in cells
    ensures |r| == |inits|
  {
    seq(|inits|, j requires 0 <= j < |inits| => SeedState(cells, previous, j, inits[j]))
  }

  /**
   * A component's state cells are positional: adding cells under new ids does
   * not change what any position of the previous render seeds.
   */
  lemma SeedsIgnoreNewCells(cells: map<HookId, Hook>, more: map<HookId, Hook>, previous: seq<HookId>, index: nat, initial: Value)
    requires forall i :: 0 <= i < |previous| ==> previous[i] in cells
    requires forall h :: h in cells ==> h in more && more[h] == cells[h]
    ensures SeedState(more, previous, index, initial) == SeedState(cells, previous, index, initial)
  {
  }
}
