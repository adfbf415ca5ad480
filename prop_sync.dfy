/**
 * Property sync (`updateDom` and its key predicates): brings a host node's
 * properties and listeners from one props mapping to the next.
 */
module PropSync {
  import opened Wrappers
  import opened Elements
  import opened Host

  /** `key.startsWith('on')`. */
  predicate IsEvent(key: string)
  {
    |key| >= 2 && key[..2] == "on"
  }

  /** A plain attribute: neither `children` nor an event key. */
  predicate IsProperty(key: string)
  {
    key != ChildrenKey && !IsEvent(key)
  }

  /** `props[key]`, with JavaScript's `undefined` as `None`. */
  function Lookup(p: Props, key: string): Option<Value>
  {
    if key in p.fields then Some(p.fields[key]) else None
  }

  /**
   * `key in props`, over the props' own entries: the named entries and the
   * `children` entry every props has.  Keys inherited from `Object.prototype`
   * are not counted.
   */
  predicate Has(p: Props, key: string)
  {
    key == ChildrenKey || key in p.fields
  }

  /** `isNew(prev, next)(key)`: `prev[key] !== next[key]`. */
  predicate IsNew(prev: Props, next: Props, key: string)
  {
    Lookup(prev, key) != Lookup(next, key)
  }

  /** `isGone(prev, next)(key)`: `!(key in next)`. */
  predicate IsGone(next: Props, key: string)
  {
    !Has(next, key)
  }

  /** ASCII lower-casing of one character. */
  function LowerChar(c: char): char
  {
    if 'A' <= c <= 'Z' then (c as int + 32) as char else c
  }

  /** `toLowerCase`, with the case mapping of ASCII letters only. */
  function ToLower(s: string): (r: string)
    ensures |r| == |s|
    ensures forall i :: 0 <= i < |s| ==> r[i] == LowerChar(s[i])
  {
    if s == [] then [] else [LowerChar(s[0])] + ToLower(s[1..])
  }

  /** `s.substring(2)`. */
  function DropTwo(s: string): string
  {
    if |s| >= 2 then s[2..] else ""
  }

  /** The DOM event a listener key registers for: `name.toLowerCase().substring(2)`. */
  function EventType(key: string): string
  {
    DropTwo(ToLower(key))
  }

  // The four filters of `updateDom`, one per key.

  predicate StaleListenerKey(prev: Props, next: Props, k: string)
  {
    k in prev.fields && IsEvent(k) && (!Has(next, k) || IsNew(prev, next, k))
  }

  predicate GonePropertyKey(prev: Props, next: Props, k: string)
  {
    k in prev.fields && IsProperty(k) && IsGone(next, k)
  }

  predicate ChangedPropertyKey(prev: Props, next: Props, k: string)
  {
    k in next.fields && IsProperty(k) && IsNew(prev, next, k)
  }

  predicate NewListenerKey(prev: Props, next: Props, k: string)
  {
    k in next.fields && IsEvent(k) && IsNew(prev, next, k)
  }

  // What each phase does, over a set of keys already visited.

  function StaleFrom(prev: Props, next: Props, ks: set<string>): set<Listener>
  {
    set k | k in ks && StaleListenerKey(prev, next, k) :: Listener(EventType(k), prev.fields[k])
  }

  function BlankedFrom(prev: Props, next: Props, ks: set<string>): map<string, Value>
  {
    map k | k in ks && GonePropertyKey(prev, next, k) :: Str("")
  }

  function AssignedFrom(prev: Props, next: Props, ks: set<string>): map<string, Value>
  {
    map k | k in ks && ChangedPropertyKey(prev, next, k) :: next.fields[k]
  }

  function AddedFrom(prev: Props, next: Props, ks: set<string>): set<Listener>
  {
    set k | k in ks && NewListenerKey(prev, next, k) :: Listener(EventType(k), next.fields[k])
  }

  /**
   * The node after `updateDom(node, prev, next)`: stale listeners removed, gone
   * attributes blanked, new or changed attributes assigned and new or changed
   * listeners added, in that order.
   */
  function Synced(node: HostNode, prev: Props, next: Props): (r: HostNode)
    ensures r.kind == node.kind && r.children == node.children
  {
    node.(attrs := node.attrs + BlankedFrom(prev, next, prev.fields.Keys) + AssignedFrom(prev, next, next.fields.Keys),
          listeners := node.listeners - StaleFrom(prev, next, prev.fields.Keys) + AddedFrom(prev, next, next.fields.Keys))
  }

  // One more key visited, one phase at a time.

  lemma StaleStep(prev: Props, next: Props, done: set<string>, k: string)
    ensures StaleFrom(prev, next, done + {k})
         == StaleFrom(prev, next, done) + (if StaleListenerKey(prev, next, k) then {Listener(EventType(k), prev.fields[k])} else {})
  {
  }

  lemma BlankedStep(prev: Props, next: Props, done: set<string>, k: string)
    ensures BlankedFrom(prev, next, done + {k})
         == if GonePropertyKey(prev, next, k) then BlankedFrom(prev, next, done)[k := Str("")] else BlankedFrom(prev, next, done)
  {
  }

  lemma AssignedStep(prev: Props, next: Props, done: set<string>, k: string)
    ensures AssignedFrom(prev, next, done + {k})
         == if ChangedPropertyKey(prev, next, k) then AssignedFrom(prev, next, done)[k := next.fields[k]] else AssignedFrom(prev, next, done)
  {
  }

  lemma AddedStep(prev: Props, next: Props, done: set<string>, k: string)
    ensures AddedFrom(prev, next, done + {k})
         == AddedFrom(prev, next, done) + (if NewListenerKey(prev, next, k) then {Listener(EventType(k), next.fields[k])} else {})
  {
  }

  lemma MergeUpdate(m: map<string, Value>, a: map<string, Value>, k: string, v: Value)
    ensures (m + a)[k := v] == m + a[k := v]
  {
  }

  /** First pass of `updateDom`: remove the listeners of event keys gone from or changed in `next`. */
  method RemoveStaleListeners(node: HostNode, prev: Props, next: Props) returns (r: HostNode)
    ensures r == node.(listeners := node.listeners - StaleFrom(prev, next, prev.fields.Keys))
  {
    r := node;
    var todo := prev.fields.Keys;
    while todo != {}
      invariant todo <= prev.fields.Keys
      invariant r == node.(listeners := node.listeners - StaleFrom(prev, next, prev.fields.Keys - todo))
      decreases todo
    {
      var name :| name in todo;
      var done := prev.fields.Keys - todo;
      StaleStep(prev, next, done, name);
      assert prev.fields.Keys - (todo - {name}) == done + {name};
      if IsEvent(name) && (!Has(next, name) || IsNew(prev, next, name)) {
        r := r.(listeners := r.listeners - {Listener(EventType(name), prev.fields[name])});
      }
      todo := todo - {name};
    }
  }

  /** Second pass: blank every property of `prev` that `next` does not have. */
  method BlankGoneProperties(node: HostNode, prev: Props, next: Props) returns (r: HostNode)
    ensures r == node.(attrs := node.attrs + BlankedFrom(prev, next, prev.fields.Keys))
  {
    r := node;
    var todo := prev.fields.Keys;
    while todo != {}
      invariant todo <= prev.fields.Keys
      invariant r == node.(attrs := node.attrs + BlankedFrom(prev, next, prev.fields.Keys - todo))
      decreases todo
    {
      var name :| name in todo;
      var done := prev.fields.Keys - todo;
      BlankedStep(prev, next, done, name);
      assert prev.fields.Keys - (todo - {name}) == done + {name};
      if IsProperty(name) && IsGone(next, name) {
        MergeUpdate(node.attrs, BlankedFrom(prev, next, done), name, Str(""));
        r := r.(attrs := r.attrs[name := Str("")]);
      }
      todo := todo - {name};
    }
  }

  /** Third pass: assign every property of `next` that is new or changed. */
  method AssignChangedProperties(node: HostNode, prev: Props, next: Props) returns (r: HostNode)
    ensures r == node.(attrs := node.attrs + AssignedFrom(prev, next, next.fields.Keys))
  {
    r := node;
    var todo := next.fields.Keys;
    while todo != {}
      invariant todo <= next.fields.Keys
      invariant r == node.(attrs := node.attrs + AssignedFrom(prev, next, next.fields.Keys - todo))
      decreases todo
    {
      var name :| name in todo;
      var done := next.fields.Keys - todo;
      AssignedStep(prev, next, done, name);
      assert next.fields.Keys - (todo - {name}) == done + {name};
      if IsProperty(name) && IsNew(prev, next, name) {
        MergeUpdate(node.attrs, AssignedFrom(prev, next, done), name, next.fields[name]);
        r := r.(attrs := r.attrs[name := next.fields[name]]);
      }
      todo := todo - {name};
    }
  }

  /** Fourth pass: add the listeners of event keys of `next` that are new or changed. */
  method AddNewListeners(node: HostNode, prev: Props, next: Props) returns (r: HostNode)
    ensures r == node.(listeners := node.listeners + AddedFrom(prev, next, next.fields.Keys))
  {
    r := node;
    var todo := next.fields.Keys;
    while todo != {}
      invariant todo <= next.fields.Keys
      invariant r == node.(listeners := node.listeners + AddedFrom(prev, next, next.fields.Keys - todo))
      decreases todo
    {
      var name :| name in todo;
      var done := next.fields.Keys - todo;
      AddedStep(prev, next, done, name);
      assert next.fields.Keys - (todo - {name}) == done + {name};
      if IsEvent(name) && IsNew(prev, next, name) {
        r := r.(listeners := r.listeners + {Listener(EventType(name), next.fields[name])});
      }
      todo := todo - {name};
    }
  }

  /** `updateDom(dom, prevProps, nextProps)`: the four passes in the source's order. */
  method UpdateDom(node: HostNode, prev: Props, next: Props) returns (r: HostNode)
    ensures r == Synced(node, prev, next)
  {
    r := RemoveStaleListeners(node, prev, next);
    r := BlankGoneProperties(r, prev, next);
    r := AssignChangedProperties(r, prev, next);
    r := AddNewListeners(r, prev, next);
  }

  /** Syncing a node from a props mapping to itself changes nothing. */
  lemma SyncIdempotent(node: HostNode, p: Props)
    ensures Synced(node, p, p) == node
  {
    assert StaleFrom(p, p, p.fields.Keys) == {};
    assert AddedFrom(p, p, p.fields.Keys) == {};
    assert BlankedFrom(p, p, p.fields.Keys) == map[];
    assert AssignedFrom(p, p, p.fields.Keys) == map[];
    assert node.attrs + map[] + map[] == node.attrs;
  }

  /**
   * The attribute `k` after a sync: blanked when it is a property that is gone,
   * `next[k]` when it is a property that is new or changed, and otherwise exactly
   * what it was (so `children`, event keys and keys in neither mapping are
   * never written).
   */
  lemma SyncedAttr(node: HostNode, prev: Props, next: Props, k: string)
    ensures var r := Synced(node, prev, next);
      if IsProperty(k) && k in prev.fields && k !in next.fields then
        k in r.attrs && r.attrs[k] == Str("")
      else if IsProperty(k) && k in next.fields && Lookup(prev, k) != Some(next.fields[k]) then
        k in r.attrs && r.attrs[k] == next.fields[k]
      else
        (k in r.attrs <==> k in node.attrs) && (k in node.attrs ==> r.attrs[k] == node.attrs[k])
  {
    var r := Synced(node, prev, next);
    var b := BlankedFrom(prev, next, prev.fields.Keys);
    var a := AssignedFrom(prev, next, next.fields.Keys);
    assert r.attrs == node.attrs + b + a;
    if IsProperty(k) && k in prev.fields && k !in next.fields {
      assert k in b && k !in a;
    } else if IsProperty(k) && k in next.fields && Lookup(prev, k) != Some(next.fields[k]) {
      assert k in a;
    } else {
      assert k !in a && k !in b;
    }
  }

  /** A node whose attributes and listeners show what the props mapping says. */
  ghost predicate Reflects(node: HostNode, p: Props)
  {
    && (forall k :: k in p.fields && IsProperty(k) ==> k in node.attrs && node.attrs[k] == p.fields[k])
    && (forall k :: k in p.fields && IsEvent(k) ==> Listener(EventType(k), p.fields[k]) in node.listeners)
  }

  /** No two different listener keys of the two mappings name the same event. */
  ghost predicate UnambiguousEvents(prev: Props, next: Props)
  {
    forall k1, k2 :: k1 in prev.fields && k2 in next.fields && IsEvent(k1) && IsEvent(k2) && EventType(k1) == EventType(k2) ==> k1 == k2
  }

  /**
   * A node that reflects `prev` reflects `next` after the sync, when no listener
   * key of `prev` shares its event with a different key of `next`.
   */
  lemma SyncReflects(node: HostNode, prev: Props, next: Props)
    requires Reflects(node, prev)
    requires UnambiguousEvents(prev, next)
    ensures Reflects(Synced(node, prev, next), next)
  {
    var r := Synced(node, prev, next);
    forall k | k in next.fields && IsProperty(k) ensures k in r.attrs && r.attrs[k] == next.fields[k] {
      SyncedAttr(node, prev, next, k);
    }
    forall k | k in next.fields && IsEvent(k) ensures Listener(EventType(k), next.fields[k]) in r.listeners {
      var l := Listener(EventType(k), next.fields[k]);
      if IsNew(prev, next, k) {
        assert l in AddedFrom(prev, next, next.fields.Keys);
      } else {
        assert k in prev.fields && prev.fields[k] == next.fields[k];
        assert l in node.listeners;
      }
    }
  }

  /** A freshly created node, synced from no props to `p` (as `createDom` does), reflects `p`. */
  lemma CreatedReflects(kind: NodeKind, p: Props)
    ensures Reflects(Synced(EmptyNode(kind), NoProps, p), p)
  {
    assert Reflects(EmptyNode(kind), NoProps);
    SyncReflects(EmptyNode(kind), NoProps, p);
  }

  /** A listener key's event is the rest of the key after `on`, lower-cased. */
  lemma EventTypeOfListenerKey(k: string)
    requires IsEvent(k)
    ensures EventType(k) == ToLower(k[2..])
  {
    assert ToLower(k)[2..] == ToLower(k[2..]);
  }
}
