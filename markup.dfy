/** The markup document the tree is encoded into, as the XML library hands it
    over: an ordered tree of elements, each with a tag name, the two string
    attributes the tree code reads and writes, and its child elements in
    document order. Parsing and printing of the text itself belong to the
    library and are not modelled. */
module Markup {

  import opened Wrappers

  /** The text of an attribute. The library keeps and hands out attribute
      values as C strings, so an attribute never holds a NUL. */
  type AttrText = s: string | '\0' !in s

  /** An element; an attribute the element does not carry is `None`, as
      `Attribute(name)` returns a null pointer for it. */
  datatype Element = Element(name: string, typeAttr: Option<AttrText>, valAttr: Option<AttrText>, children: seq<Element>)

  /** A document: its top-level elements in order. */
  datatype Document = Document(top: seq<Element>)

  /** `FirstChildElement(name)`: the position of the first element called `name`. */
  function FirstNamed(es: seq<Element>, name: string): (r: Option<nat>)
    ensures r.Some? ==> r.value < |es| && es[r.value].name == name
    ensures r.Some? ==> forall j :: 0 <= j < r.value ==> es[j].name != name
    ensures r.None? ==> forall j :: 0 <= j < |es| ==> es[j].name != name
  {
    if es == [] then None
    else if es[0].name == name then Some(0)
    else match FirstNamed(es[1..], name)
      case None => None
      case Some(i) => Some(i + 1)
  }
}
