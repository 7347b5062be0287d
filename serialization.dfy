/** The decoder and encoder as the program runs them: recursive walks that
    allocate nodes and append them to their parents, and that build elements
    and link them under their parents. Each is proved to compute the value
    the `Codec` functions describe. */
module Serialization {

  import opened Wrappers
  import opened Markup
  import opened Nodes
  import opened Factories
  import opened Codec

  /** `deSerializeSubTree`: each child element of `current`, in document
      order, becomes a new node of `parent`. `false` stands for the exception
      a failing factory throws; the partly built subtree is abandoned then. */
  method DeserializeSubTree(current: Element, parent: Node, dt: DoubleText) returns (ok: bool)
    requires parent.Valid()
    modifies parent
    decreases current, 0
    ensures ok <==> DecodeChildren(current, |current.children|, dt).Some?
    ensures ok ==> parent.Valid() && fresh(parent.Repr - old(parent.Repr))
    ensures ok ==> old(parent.children) <= parent.children
    ensures ok ==> parent.model == Tree(parent.value, old(parent.model.children) + DecodeChildren(current, |current.children|, dt).value)
  {
    var i := 0;
    while i < |current.children|
      invariant 0 <= i <= |current.children|
      invariant parent.Valid() && fresh(parent.Repr - old(parent.Repr))
      invariant old(parent.children) <= parent.children
      invariant DecodeChildren(current, i, dt).Some?
      invariant parent.model == Tree(parent.value, old(parent.model.children) + DecodeChildren(current, i, dt).value)
    {
      ok := AppendChild(current.children[i], parent, dt);
      if !ok {
        DecodeChildrenFailsAt(current, i, dt);
        return false;
      }
      ghost var done := DecodeChildren(current, i, dt).value;
      ghost var t := DecodeElement(current.children[i], dt).value;
      DecodeChildrenSnoc(current, i, t, dt);
      ghost var start := old(parent.model.children);
      assert (start + done) + [t] == start + (done + [t]);
      i := i + 1;
    }
    ok := true;
  }

  /** One turn of the loop of `deSerializeSubTree`: the node for `child` is
      made by the factory its `type` selects, filled from `child`'s own child
      elements and appended to `parent`. */
  method AppendChild(child: Element, parent: Node, dt: DoubleText) returns (ok: bool)
    requires parent.Valid()
    modifies parent
    decreases child, 1
    ensures ok <==> DecodeElement(child, dt).Some?
    ensures ok ==> parent.Valid() && fresh(parent.Repr - old(parent.Repr))
    ensures ok ==> old(parent.children) <= parent.children && |parent.children| == |old(parent.children)| + 1
    ensures ok ==> parent.model == Tree(parent.value, old(parent.model.children) + [DecodeElement(child, dt).value])
  {
    var v := CreateNode(child.typeAttr, child.valAttr, dt);
    if v.None? {
      return false;
    }
    var childNode := new Node(v.value);
    ok := DeserializeSubTree(child, childNode, dt);
    if !ok {
      return false;
    }
    ghost var grandchildren := DecodeChildren(child, |child.children|, dt).value;
    assert childNode.model == Tree(v.value, grandchildren) by {
      assert [] + grandchildren == grandchildren;
    }
    DecodeElementOf(child, v.value, grandchildren, dt);
    parent.PushChild(childNode);
  }

  /** `xmlToTree`: the first top-level `node` element becomes the root, then
      its subtree is read. A document without such an element, and any
      failure, give the null pointer. */
  method XmlToTree(doc: Document, dt: DoubleText) returns (root: Node?)
    ensures root == null <==> DecodeDocument(doc, dt).None?
    ensures root != null ==> root.Valid() && fresh(root.Repr) && root.model == DecodeDocument(doc, dt).value
  {
    var cursor := FirstNamed(doc.top, "node");
    if cursor.None? {
      return null;
    }
    var e := doc.top[cursor.value];
    var v := CreateNode(e.typeAttr, e.valAttr, dt);
    if v.None? {
      return null;
    }
    root := new Node(v.value);
    var ok := DeserializeSubTree(e, root, dt);
    if !ok {
      root := null;
    }
  }

  /** `serializeSubTree`: for each child of `parent`, in order, an element
      with its `type` and `val` is made, filled with the child's own subtree
      and linked as the last child of `current`. */
  method SerializeSubTree(current: Element, parent: Node, dt: DoubleText) returns (linked: Element)
    requires parent.Valid()
    decreases parent.Repr, 0
    ensures linked == current.(children := current.children + Encode(parent.model, dt).children)
  {
    linked := current;
    var i := 0;
    while i < |parent.children|
      invariant 0 <= i <= |parent.children|
      invariant linked == current.(children := current.children + EncodeChildren(parent.model, i, dt))
    {
      var child := parent.children[i];
      assert child.Valid() && child.model == parent.model.children[i] && child.Repr < parent.Repr;
      var before := linked.children;
      linked := LinkChild(linked, child, dt);
      assert current.children + EncodeChildren(parent.model, i + 1, dt)
          == before + [Encode(parent.model.children[i], dt)];
      i := i + 1;
    }
  }

  /** One turn of the loop of `serializeSubTree`: the element for `child` is
      made, filled with the child's own subtree and linked as the last child
      of `current`. */
  method LinkChild(current: Element, child: Node, dt: DoubleText) returns (linked: Element)
    requires child.Valid()
    decreases child.Repr, 1
    ensures linked == current.(children := current.children + [Encode(child.model, dt)])
  {
    var elem := NodeElement(child.value, dt);
    elem := SerializeSubTree(elem, child, dt);
    assert [] + Encode(child.model, dt).children == Encode(child.model, dt).children;
    linked := current.(children := current.children + [elem]);
  }

  /** `treeToXML`: the null tree gives an empty document; otherwise the root
      element is made, filled and linked as the document's only element. */
  method TreeToXml(root: Node?, dt: DoubleText) returns (doc: Document)
    requires root != null ==> root.Valid()
    ensures doc == EncodeDocument(if root == null then None else Some(root.model), dt)
  {
    if root == null {
      return Document([]);
    }
    var rootElement := NodeElement(root.value, dt);
    rootElement := SerializeSubTree(rootElement, root, dt);
    assert rootElement == Encode(root.model, dt);
    doc := Document([rootElement]);
  }
}
