/**
 * The element model: immutable descriptions of what should be on screen,
 * as built by `createElement` and `createTextElement`.
 */
module Elements {

  type ComponentId = nat

  /**
   * An abstract prop value.  Event handlers and other closures are compared
   * by reference in the source; here each closure is a `Func` with an identity.
   */
  datatype Value = Str(s: string) | Num(n: int) | Bool(b: bool) | Func(id: nat)

  /** An element's `type`: a host tag name (or the text marker), or a component reference. */
  datatype ElementType = Tag(name: string) | Component(id: ComponentId)

  /** `props`: the named props, and the `children` entry every element carries. */
  datatype Props = Props(fields: map<string, Value>, children: seq<Element>)

  datatype Element = Element(kind: ElementType, props: Props)

  /**
   * An argument passed as a child to `createElement`: an element object, or a
   * raw value (a string, a number, ...) that gets wrapped as a text element.
   */
  datatype Child = Nested(element: Element) | Raw(value: Value)

  /** The string `'TextElement'` the source uses as the type of text elements. */
  const TextType: ElementType := Tag("TextElement")

  const NodeValueKey: string := "nodeValue"

  const ChildrenKey: string := "children"

  /** Props with no named entries and no children. */
  const NoProps: Props := Props(map[], [])

  /** A text element carrying `text` as its only payload. */
  function CreateTextElement(text: Value): (e: Element)
    ensures e.kind == TextType && e.props.children == []
    ensures e.props.fields.Keys == {NodeValueKey} && e.props.fields[NodeValueKey] == text
  {
    Element(TextType, Props(map[NodeValueKey := text], []))
  }

  /** What one `createElement` child argument becomes in `props.children`. */
  function Wrap(c: Child): Element
  {
    match c
    case Nested(e) => e
    case Raw(v) => CreateTextElement(v)
  }

  /** `children.map(...)`: wraps every child, keeping length and order. */
  function WrapAll(cs: seq<Child>): (es: seq<Element>)
    ensures |es| == |cs|
    ensures forall i :: 0 <= i < |cs| ==> es[i] == Wrap(cs[i])
  {
    if cs == [] then [] else [Wrap(cs[0])] + WrapAll(cs[1..])
  }

  /**
   * `createElement(type, props, ...children)`: the given props, with `children`
   * replaced by the wrapped child arguments.
   */
  function CreateElement(kind: ElementType, props: map<string, Value>, children: seq<Child>): (e: Element)
    ensures e.kind == kind
    ensures e.props.fields.Keys == props.Keys - {ChildrenKey}
    ensures forall k :: k in e.props.fields ==> e.props.fields[k] == props[k]
    ensures |e.props.children| == |children|
    ensures forall i :: 0 <= i < |children| && children[i].Nested? ==> e.props.children[i] == children[i].element
    ensures forall i :: 0 <= i < |children| && children[i].Raw? ==>
              e.props.children[i] == Element(TextType, Props(map[NodeValueKey := children[i].value], []))
  {
    Element(kind, Props(props - {ChildrenKey}, WrapAll(children)))
  }

  /** Element children passed to `createElement` come back unchanged, in order. */
  lemma {:induction false} ObjectChildrenKept(kind: ElementType, props: map<string, Value>, es: seq<Element>)
    ensures CreateElement(kind, props, seq(|es|, i requires 0 <= i < |es| => Nested(es[i]))).props.children == es
  {
    var cs := seq(|es|, i requires 0 <= i < |es| => Nested(es[i]));
    var r := CreateElement(kind, props, cs).props.children;
    assert |r| == |es|;
    forall i | 0 <= i < |es| ensures r[i] == es[i] {
      assert cs[i] == Nested(es[i]);
    }
  }

  /** Wrapping distributes over concatenation of the child arguments. */
  lemma {:induction false} WrapAllAppend(a: seq<Child>, b: seq<Child>)
    ensures WrapAll(a + b) == WrapAll(a) + WrapAll(b)
  {
    if a == [] {
      assert a + b == b;
    } else {
      assert (a + b)[1..] == a[1..] + b;
      WrapAllAppend(a[1..], b);
    }
  }
}
