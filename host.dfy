/**
 * An abstract host tree standing in for the browser DOM: each node has a kind,
 * a property map, a set of event listeners and an ordered list of children.
 * Only the two tree operations the engine uses are modelled, `appendChild` and
 * `removeChild`.
 */
module Host {
  import opened Wrappers
  import opened Elements

  type NodeId = nat

  datatype NodeKind = TextNode | ElementNode(tag: string)

  /** A registered listener: the event name and the handler (compared by identity). */
  datatype Listener = Listener(event: string, handler: Value)

  datatype HostNode = HostNode(kind: NodeKind, attrs: map<string, Value>, listeners: set<Listener>, children: seq<NodeId>)

  type Dom = map<NodeId, HostNode>

  /** A freshly created node: no properties, no listeners, no children. */
  function EmptyNode(kind: NodeKind): HostNode
  {
    HostNode(kind, map[], {}, [])
  }

  /** `s` with every occurrence of `x` taken out, the rest in order. */
  function Without(s: seq<NodeId>, x: NodeId): (r: seq<NodeId>)
    ensures forall y :: y in r <==> y in s && y != x
    ensures x !in s ==> r == s
    ensures |r| <= |s|
  {
    if s == [] then []
    else if s[0] == x then Without(s[1..], x)
    else [s[0]] + Without(s[1..], x)
  }

  /** Takes `c` out of the child list of every node (a node has at most one parent). */
  function Detach(dom: Dom, c: NodeId): (r: Dom)
    ensures r.Keys == dom.Keys
    ensures forall n :: n in r ==> c !in r[n].children
  {
    map n | n in dom :: dom[n].(children := Without(dom[n].children, c))
  }

  /**
   * `parent.appendChild(child)`: the child leaves its current parent, if any,
   * and becomes the last child of `parent`.
   */
  function AppendChild(dom: Dom, parent: NodeId, child: NodeId): (r: Dom)
    requires parent in dom
    ensures r.Keys == dom.Keys
    ensures r[parent].children == Without(dom[parent].children, child) + [child]
    ensures forall n :: n in r && n != parent ==> r[n].children == Without(dom[n].children, child)
    ensures forall n :: n in r ==> r[n].kind == dom[n].kind && r[n].attrs == dom[n].attrs && r[n].listeners == dom[n].listeners
  {
    var d := Detach(dom, child);
    d[parent := d[parent].(children := d[parent].children + [child])]
  }

  /**
   * `parent.removeChild(child)`; `None` is the host's "not a child of this
   * node" failure.
   */
  function RemoveChild(dom: Dom, parent: NodeId, child: NodeId): (r: Option<Dom>)
    ensures r.Some? <==> parent in dom && child in dom[parent].children
    ensures r.Some? ==> r.value.Keys == dom.Keys
    ensures r.Some? ==> r.value[parent] == dom[parent].(children := Without(dom[parent].children, child))
    ensures r.Some? ==> forall n :: n in dom && n != parent ==> r.value[n] == dom[n]
  {
    if parent in dom && child in dom[parent].children then
      Some(dom[parent := dom[parent].(children := Without(dom[parent].children, child))])
    else
      None
  }

  /** Every node appears at most once in a child list and has at most one parent. */
  ghost predicate Forest(dom: Dom)
  {
    && (forall n :: n in dom ==> NoDuplicates(dom[n].children))
    && (forall n, m, c :: n in dom && m in dom && c in dom[n].children && c in dom[m].children ==> n == m)
  }

  predicate NoDuplicates(s: seq<NodeId>)
  {
    forall i, j :: 0 <= i < j < |s| ==> s[i] != s[j]
  }

  lemma {:induction false} WithoutKeepsNoDuplicates(s: seq<NodeId>, x: NodeId)
    requires NoDuplicates(s)
    ensures NoDuplicates(Without(s, x))
  {
    if s != [] {
      assert NoDuplicates(s[1..]) by {
        forall i, j | 0 <= i < j < |s[1..]| ensures s[1..][i] != s[1..][j] {
          assert s[1..][i] == s[i + 1] && s[1..][j] == s[j + 1];
        }
      }
      WithoutKeepsNoDuplicates(s[1..], x);
      if s[0] != x {
        var r := Without(s[1..], x);
        assert s[0] !in r by { assert s[0] !in s[1..]; }
        assert NoDuplicates([s[0]] + r) by {
          forall i, j | 0 <= i < j < |[s[0]] + r| ensures ([s[0]] + r)[i] != ([s[0]] + r)[j] {
            if i == 0 { assert ([s[0]] + r)[j] == r[j - 1]; }
            else { assert ([s[0]] + r)[i] == r[i - 1] && ([s[0]] + r)[j] == r[j - 1]; }
          }
        }
      }
    }
  }

  /** After `appendChild` no child list holds a node twice. */
  lemma AppendChildNoDuplicates(dom: Dom, parent: NodeId, child: NodeId, n: NodeId)
    requires Forest(dom) && parent in dom && n in dom
    ensures NoDuplicates(AppendChild(dom, parent, child)[n].children)
  {
    WithoutKeepsNoDuplicates(dom[n].children, child);
    if n == parent {
      var w := Without(dom[parent].children, child);
      assert forall i :: 0 <= i < |w| ==> w[i] != child by {
        forall i | 0 <= i < |w| ensures w[i] != child { assert w[i] in w; }
      }
    }
  }

  /** After `appendChild` every node is in at most one child list. */
  lemma AppendChildOneParent(dom: Dom, parent: NodeId, child: NodeId, n: NodeId, m: NodeId, c: NodeId)
    requires Forest(dom) && parent in dom && n in dom && m in dom
    requires var r := AppendChild(dom, parent, child); c in r[n].children && c in r[m].children
    ensures n == m
  {
    var r := AppendChild(dom, parent, child);
    if c != child {
      assert c in dom[n].children by {
        if n == parent { assert c in Without(dom[parent].children, child); }
      }
      assert c in dom[m].children by {
        if m == parent { assert c in Without(dom[parent].children, child); }
      }
    }
  }

  /** `appendChild` keeps the host tree a forest. */
  lemma AppendChildKeepsForest(dom: Dom, parent: NodeId, child: NodeId)
    requires Forest(dom) && parent in dom
    ensures Forest(AppendChild(dom, parent, child))
  {
    var r := AppendChild(dom, parent, child);
    forall n | n in r ensures NoDuplicates(r[n].children) {
      AppendChildNoDuplicates(dom, parent, child, n);
    }
    forall n, m, c | n in r && m in r && c in r[n].children && c in r[m].children ensures n == m {
      AppendChildOneParent(dom, parent, child, n, m, c);
    }
  }

  /** `removeChild` keeps the host tree a forest. */
  lemma RemoveChildKeepsForest(dom: Dom, parent: NodeId, child: NodeId)
    requires Forest(dom)
    requires RemoveChild(dom, parent, child).Some?
    ensures Forest(RemoveChild(dom, parent, child).value)
  {
    WithoutKeepsNoDuplicates(dom[parent].children, child);
  }

  /** Removing the child just appended succeeds and leaves it detached everywhere. */
  lemma {:induction false} RemoveAfterAppend(dom: Dom, parent: NodeId, child: NodeId)
    requires parent in dom
    ensures RemoveChild(AppendChild(dom, parent, child), parent, child) == Some(Detach(dom, child))
  {
    var a := AppendChild(dom, parent, child);
    var w := Without(dom[parent].children, child);
    var d := Detach(dom, child);
    WithoutAppendLast(w, child);
    assert Without(a[parent].children, child) == w;
    var r := RemoveChild(a, parent, child).value;
    assert r.Keys == d.Keys;
    forall n | n in r ensures r[n] == d[n] {
      if n == parent {
        assert r[n] == a[parent].(children := w);
        assert d[n] == dom[parent].(children := w);
      }
    }
    assert r == d;
  }

  lemma {:induction false} WithoutAppendLast(w: seq<NodeId>, x: NodeId)
    requires x !in w
    ensures Without(w + [x], x) == w
  {
    if w == [] {
      assert Without([x], x) == Without([x][1..], x);
    } else {
      assert (w + [x])[1..] == w[1..] + [x];
      WithoutAppendLast(w[1..], x);
    }
  }
}
