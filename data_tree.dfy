/**
 * The data document the template is filled from (an XDocument in the source): elements
 * with a name and mixed content, text nodes as leaves. Names are plain strings without
 * a namespace, so a lookup by name succeeds whenever the strings agree.
 */
module DataTree {
  import opened Wrappers

  datatype Element = Element(name: string, content: seq<XNode>)
  datatype XNode = XText(text: string) | XElem(elem: Element)

  /** XElement.Value: the text of every descendant text node, in document order. */
  function Value(e: Element): string {
    ContentValue(e.content)
  }

  /** The text of a content sequence: its nodes' texts, concatenated. */
  function ContentValue(cs: seq<XNode>): string
    decreases cs
  {
    if cs == [] then "" else NodeValue(cs[0]) + ContentValue(cs[1..])
  }

  function NodeValue(n: XNode): string
    decreases n
  {
    match n
    case XText(s) => s
    case XElem(c) => ContentValue(c.content)
  }

  /** The child elements among a content sequence, in order. */
  function ElementsOf(cs: seq<XNode>): (r: seq<Element>)
    ensures |r| <= |cs|
    ensures forall c :: c in r <==> XElem(c) in cs
  {
    if cs == [] then []
    else if cs[0].XElem? then [cs[0].elem] + ElementsOf(cs[1..])
    else ElementsOf(cs[1..])
  }

  /** The child elements of consecutive content follow one another: together with
      ElementsOfOne this fixes the order and multiplicity of Elements(). */
  lemma {:induction false} ElementsOfAppend(a: seq<XNode>, b: seq<XNode>)
    ensures ElementsOf(a + b) == ElementsOf(a) + ElementsOf(b)
    decreases |a|
  {
    if a == [] {
      assert a + b == b;
    } else {
      assert (a + b)[0] == a[0] && (a + b)[1..] == a[1..] + b;
      ElementsOfAppend(a[1..], b);
    }
  }

  /** A single node contributes itself when it is an element, and nothing otherwise. */
  lemma ElementsOfOne(n: XNode)
    ensures ElementsOf([n]) == if n.XElem? then [n.elem] else []
  {
    assert [n][1..] == [];
  }

  /** XElement.Elements(): the child elements, in document order. */
  function Children(e: Element): seq<Element> {
    ElementsOf(e.content)
  }

  /** The first element of `es` with the given name. */
  function FirstNamed(es: seq<Element>, name: string): (r: Option<nat>)
    ensures r.Some? ==> r.value < |es| && es[r.value].name == name
    ensures r.Some? ==> forall j :: 0 <= j < r.value ==> es[j].name != name
    ensures r.None? ==> forall j :: 0 <= j < |es| ==> es[j].name != name
  {
    if es == [] then None
    else if es[0].name == name then Some(0)
    else match FirstNamed(es[1..], name)
      case None => None
      case Some(k) => Some(k + 1)
  }

  /** XElement.Elements(name).FirstOrDefault(), equivalently XElement.Element(name). */
  function FirstChildNamed(e: Element, name: string): (r: Option<Element>)
    ensures r.Some? ==> r.value.name == name && r.value in Children(e)
    ensures r.None? <==> forall c :: c in Children(e) ==> c.name != name
    ensures r.Some? ==>
      exists k :: 0 <= k < |Children(e)| && Children(e)[k] == r.value && forall j :: 0 <= j < k ==> Children(e)[j].name != name
  {
    match FirstNamed(Children(e), name)
    case None => None
    case Some(k) => Some(Children(e)[k])
  }

  /** `element.Element(name)?.Value ?? ""`: the text of the first child with that name. */
  function ChildValue(e: Element, name: string): string {
    match FirstChildNamed(e, name)
    case None => ""
    case Some(c) => Value(c)
  }

  /** The names of a list of elements (`.Select(e => e.Name.LocalName)`). */
  function Names(es: seq<Element>): (r: seq<string>)
    ensures |r| == |es|
    ensures forall i :: 0 <= i < |es| ==> r[i] == es[i].name
  {
    seq(|es|, i requires 0 <= i < |es| => es[i].name)
  }

  /** An element holding only text has that text as its value. */
  lemma ValueOfTextElement(name: string, s: string)
    ensures Value(Element(name, [XText(s)])) == s
  {
    var cs := [XText(s)];
    assert cs[1..] == [];
    assert ContentValue(cs) == NodeValue(XText(s)) + ContentValue([]);
  }
}
