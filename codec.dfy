/** Decoding a document into a tree and encoding a tree into a document,
    stated on values: the pre-order walks of `xmlToTree`/`deSerializeSubTree`
    and `treeToXML`/`serializeSubTree`, with every failure of the decoder
    collapsed into "no tree". */
module Codec {

  import opened Wrappers
  import opened CStd
  import opened Markup
  import opened Nodes
  import opened Factories

  // ---------------------------------------------------------------- decoding

  /** The tree an element decodes to: its own node from its attributes, then
      its child elements in document order as the node's children. Child
      elements are read whatever their tag name. Any failure anywhere in the
      subtree yields no tree. */
  function DecodeElement(e: Element, dt: DoubleText): (r: Option<Tree>)
    decreases e, |e.children| + 1
    ensures r.Some? ==> CreateNode(e.typeAttr, e.valAttr, dt) == Some(r.value.value)
    ensures r.Some? ==> |r.value.children| == |e.children|
  {
    match CreateNode(e.typeAttr, e.valAttr, dt)
    case None => None
    case Some(v) =>
      match DecodeChildren(e, |e.children|, dt)
      case None => None
      case Some(ts) => Some(Tree(v, ts))
  }

  /** The first `n` child elements of `e`, decoded and appended in order; it
      succeeds exactly when each of them decodes, and then the `k`-th tree
      is the `k`-th element's. */
  function DecodeChildren(e: Element, n: nat, dt: DoubleText): (r: Option<seq<Tree>>)
    requires n <= |e.children|
    decreases e, n
    ensures r.Some? ==> |r.value| == n
    ensures r.Some? ==> forall k {:trigger r.value[k]} :: 0 <= k < n ==> DecodeElement(e.children[k], dt) == Some(r.value[k])
    ensures r.None? ==> exists k :: 0 <= k < n && DecodeElement(e.children[k], dt).None?
  {
    if n == 0 then Some([])
    else
      match DecodeChildren(e, n - 1, dt)
      case None => None
      case Some(ts) =>
        match DecodeElement(e.children[n - 1], dt)
        case None => None
        case Some(t) => Some(ts + [t])
  }

  /** Decoding one more child element appends its tree. */
  lemma DecodeChildrenSnoc(e: Element, i: nat, t: Tree, dt: DoubleText)
    requires i < |e.children| && DecodeChildren(e, i, dt).Some?
    requires DecodeElement(e.children[i], dt) == Some(t)
    ensures DecodeChildren(e, i + 1, dt) == Some(DecodeChildren(e, i, dt).value + [t])
  {
  }

  /** An element whose attributes give `v` and whose children decode to `ts`
      decodes to the tree with root `v` and subtrees `ts`. */
  lemma DecodeElementOf(e: Element, v: Value, ts: seq<Tree>, dt: DoubleText)
    requires CreateNode(e.typeAttr, e.valAttr, dt) == Some(v)
    requires DecodeChildren(e, |e.children|, dt) == Some(ts)
    ensures DecodeElement(e, dt) == Some(Tree(v, ts))
  {
  }

  /** One child element that fails to decode makes its siblings fail too. */
  lemma DecodeChildrenFailsAt(e: Element, k: nat, dt: DoubleText)
    requires k < |e.children| && DecodeElement(e.children[k], dt).None?
    ensures DecodeChildren(e, |e.children|, dt).None?
  {
    var r := DecodeChildren(e, |e.children|, dt);
    if r.Some? {
      assert DecodeElement(e.children[k], dt) == Some(r.value[k]);
    }
  }

  /** `xmlToTree`: the first top-level element called `node` is decoded; a
      document without one yields no tree, as does any failure. */
  function DecodeDocument(doc: Document, dt: DoubleText): (r: Option<Tree>)
    ensures (forall i :: 0 <= i < |doc.top| ==> doc.top[i].name != "node") ==> r.None?
  {
    match FirstNamed(doc.top, "node")
    case None => None
    case Some(i) => DecodeElement(doc.top[i], dt)
  }

  /** Only the first top-level `node` element is read; whatever follows it is ignored. */
  lemma DecodeReadsFirstNode(doc: Document, i: nat, dt: DoubleText)
    requires i < |doc.top| && doc.top[i].name == "node"
    requires forall j :: 0 <= j < i ==> doc.top[j].name != "node"
    ensures DecodeDocument(doc, dt) == DecodeElement(doc.top[i], dt)
  {
  }

  /** Every element of the subtree has attributes the factories accept. */
  predicate AllCreatable(e: Element, dt: DoubleText)
    decreases e
  {
    && CreateNode(e.typeAttr, e.valAttr, dt).Some?
    && forall k :: 0 <= k < |e.children| ==> AllCreatable(e.children[k], dt)
  }

  /** All or nothing: an element decodes exactly when every element beneath
      it, at any depth, has a known kind tag and a value its factory parses. */
  lemma {:induction false} DecodeSucceedsIff(e: Element, dt: DoubleText)
    decreases e
    ensures DecodeElement(e, dt).Some? <==> AllCreatable(e, dt)
  {
    forall k | 0 <= k < |e.children|
      ensures DecodeElement(e.children[k], dt).Some? <==> AllCreatable(e.children[k], dt)
    {
      DecodeSucceedsIff(e.children[k], dt);
    }
    var r := DecodeChildren(e, |e.children|, dt);
    if r.None? {
      var k :| 0 <= k < |e.children| && DecodeElement(e.children[k], dt).None?;
    } else {
      forall k | 0 <= k < |e.children| ensures DecodeElement(e.children[k], dt).Some? {
        assert DecodeElement(e.children[k], dt) == Some(r.value[k]);
      }
    }
  }

  /** An element without a `type` or a `val` attribute does not decode. */
  lemma DecodeRejectsMissingAttribute(e: Element, dt: DoubleText)
    requires e.typeAttr.None? || e.valAttr.None?
    ensures DecodeElement(e, dt).None?
  {
  }

  /** An element whose `type` is a number other than 0, 1 and 2 does not decode. */
  lemma DecodeRejectsUnknownKind(e: Element, dt: DoubleText)
    requires ParseTag(e.typeAttr).Some? && !(0 <= ParseTag(e.typeAttr).value <= 2)
    ensures DecodeElement(e, dt).None?
  {
    UnknownTagRejected(e.typeAttr, e.valAttr, dt);
  }

  /** An integer element whose `val` is "abc" does not decode, nor does any
      subtree holding it. */
  lemma DecodeRejectsCorruptInteger(dt: DoubleText, children: seq<Element>)
    ensures DecodeElement(Element("node", Some("1"), Some("abc"), children), dt).None?
  {
    CorruptIntegerRejected(dt);
  }

  // ---------------------------------------------------------------- encoding

  /** The element `serializeSubTree` makes for one node before linking it:
      tag `node`, `type` the decimal kind tag (as `SetAttribute(name, int)`
      writes it), `val` the C string of `getStrData()`. */
  function NodeElement(v: Value, dt: DoubleText): Element
  {
    Element("node", Some(ToDecimal(Tag(KindOf(v)))), Some(CStr(StrData(v, dt))), [])
  }

  /** The element a tree is encoded to. */
  function Encode(t: Tree, dt: DoubleText): (e: Element)
    decreases t, |t.children| + 1
    ensures e.name == "node" && |e.children| == |t.children|
  {
    NodeElement(t.value, dt).(children := EncodeChildren(t, |t.children|, dt))
  }

  /** The elements of the first `n` children of `t`, in child order. */
  function EncodeChildren(t: Tree, n: nat, dt: DoubleText): (r: seq<Element>)
    requires n <= |t.children|
    decreases t, n
    ensures |r| == n
    ensures forall k {:trigger r[k]} :: 0 <= k < n ==> r[k] == Encode(t.children[k], dt)
  {
    if n == 0 then [] else EncodeChildren(t, n - 1, dt) + [Encode(t.children[n - 1], dt)]
  }

  /** Each node becomes one `node` element carrying its kind tag and text,
      whose child elements are its children's, in the same number and order. */
  lemma EncodeMirrorsTree(t: Tree, dt: DoubleText)
    ensures Encode(t, dt).(children := []) == NodeElement(t.value, dt)
    ensures Encode(t, dt).name == "node"
    ensures |Encode(t, dt).children| == |t.children|
    ensures forall k :: 0 <= k < |t.children| ==> Encode(t, dt).children[k] == Encode(t.children[k], dt)
  {
  }

  /** `treeToXML`: the null tree gives an empty document, a tree one top-level element. */
  function EncodeDocument(t: Option<Tree>, dt: DoubleText): (r: Document)
    ensures t.None? <==> r.top == []
    ensures t.Some? ==> |r.top| == 1 && r.top[0].name == "node"
  {
    match t
    case None => Document([])
    case Some(root) => Document([Encode(root, dt)])
  }

  /** The document has no top-level element for the null tree, and exactly
      one, a `node` element, for any other. */
  lemma EncodeDocumentShape(t: Option<Tree>, dt: DoubleText)
    ensures t.None? <==> EncodeDocument(t, dt).top == []
    ensures t.Some? ==> |EncodeDocument(t, dt).top| == 1 && EncodeDocument(t, dt).top[0].name == "node"
  {
  }

  // ---------------------------------------------------------------- round trip

  /** Every value in the tree survives being written and read back. */
  predicate Representable(t: Tree, dt: DoubleText)
    decreases t
  {
    && ReadsBack(t.value, dt)
    && forall k :: 0 <= k < |t.children| ==> Representable(t.children[k], dt)
  }

  /** Decoding the encoding of a tree gives the tree back: the same kinds,
      values, child order and shape. */
  lemma {:induction false} DecodeEncode(t: Tree, dt: DoubleText)
    requires Representable(t, dt)
    decreases t
    ensures DecodeElement(Encode(t, dt), dt) == Some(t)
  {
    var e := Encode(t, dt);
    EncodeMirrorsTree(t, dt);
    forall k | 0 <= k < |t.children|
      ensures DecodeElement(e.children[k], dt) == Some(t.children[k])
    {
      DecodeEncode(t.children[k], dt);
    }
    DecodeChildrenOf(e, t.children, |t.children|, dt);
    assert t.children[..|t.children|] == t.children;
    CreateNodeInvertsStrData(t.value, dt);
    DecodeElementOf(e, t.value, t.children, dt);
  }

  /** Child elements that each decode to the tree at the same position decode
      together to those trees, in order. */
  lemma {:induction false} DecodeChildrenOf(e: Element, ts: seq<Tree>, n: nat, dt: DoubleText)
    requires n <= |e.children| && n <= |ts|
    requires forall k :: 0 <= k < n ==> DecodeElement(e.children[k], dt) == Some(ts[k])
    ensures DecodeChildren(e, n, dt) == Some(ts[..n])
  {
    if n > 0 {
      var m := n - 1;
      DecodeChildrenOf(e, ts, m, dt);
      DecodeChildrenSnoc(e, m, ts[m], dt);
      assert m + 1 == n;
      PrefixSnoc(ts, n);
    }
  }

  lemma PrefixSnoc<T>(s: seq<T>, n: nat)
    requires 0 < n <= |s|
    ensures s[..n] == s[..n - 1] + [s[n - 1]]
  {
  }

  /** The round trip at the document level, the null tree included. */
  lemma DocumentRoundTrip(t: Option<Tree>, dt: DoubleText)
    requires t.Some? ==> Representable(t.value, dt)
    ensures DecodeDocument(EncodeDocument(t, dt), dt) == t
  {
    if t.Some? {
      DecodeEncode(t.value, dt);
      DecodeReadsFirstNode(EncodeDocument(t, dt), 0, dt);
    }
  }

  /** A tree of text and integer nodes whose texts hold no NUL. */
  predicate TextIntOnly(t: Tree)
    decreases t
  {
    && !t.value.Real?
    && (t.value.Text? ==> '\0' !in t.value.s)
    && forall k :: 0 <= k < |t.children| ==> TextIntOnly(t.children[k])
  }

  /** Trees of text and integer nodes round-trip whatever the real
      conversions do. */
  lemma {:induction false} TextIntTreesRoundTrip(t: Tree, dt: DoubleText)
    requires TextIntOnly(t)
    ensures DecodeElement(Encode(t, dt), dt) == Some(t)
  {
    TextIntRepresentable(t, dt);
    DecodeEncode(t, dt);
  }

  lemma {:induction false} TextIntRepresentable(t: Tree, dt: DoubleText)
    requires TextIntOnly(t)
    decreases t
    ensures Representable(t, dt)
  {
    forall k | 0 <= k < |t.children| ensures Representable(t.children[k], dt) {
      TextIntRepresentable(t.children[k], dt);
    }
  }

  // ---------------------------------------------------------------- pre-order

  /** The elements of the subtree at `e` in document order. */
  function Elements(e: Element): (r: seq<Element>)
    decreases e, |e.children| + 1
    ensures |r| >= 1 && r[0] == e
  {
    [e] + ElementsOf(e, |e.children|)
  }

  function ElementsOf(e: Element, n: nat): seq<Element>
    requires n <= |e.children|
    decreases e, n
  {
    if n == 0 then [] else ElementsOf(e, n - 1) + Elements(e.children[n - 1])
  }

  lemma ElementsOfSnoc(e: Element, n: nat)
    requires 0 < n <= |e.children|
    ensures ElementsOf(e, n) == ElementsOf(e, n - 1) + Elements(e.children[n - 1])
  {
  }

  /** The values of the tree's nodes in pre-order. */
  function Values(t: Tree): (r: seq<Value>)
    decreases t, |t.children| + 1
    ensures |r| >= 1 && r[0] == t.value
  {
    [t.value] + ValuesOf(t, |t.children|)
  }

  function ValuesOf(t: Tree, n: nat): seq<Value>
    requires n <= |t.children|
    decreases t, n
  {
    if n == 0 then [] else ValuesOf(t, n - 1) + Values(t.children[n - 1])
  }

  lemma ValuesOfSnoc(t: Tree, n: nat)
    requires 0 < n <= |t.children|
    ensures ValuesOf(t, n) == ValuesOf(t, n - 1) + Values(t.children[n - 1])
  {
  }

  /** `f` applied to each entry of `s`, in order. */
  function MapSeq<A, B>(f: A -> B, s: seq<A>): (r: seq<B>)
    ensures |r| == |s|
    ensures forall k {:trigger r[k]} :: 0 <= k < |s| ==> r[k] == f(s[k])
  {
    if s == [] then [] else [f(s[0])] + MapSeq(f, s[1..])
  }

  lemma {:induction false} MapSeqConcat<A, B>(f: A -> B, s1: seq<A>, s2: seq<A>)
    ensures MapSeq(f, s1 + s2) == MapSeq(f, s1) + MapSeq(f, s2)
  {
    if s1 == [] {
      assert s1 + s2 == s2;
    } else {
      assert (s1 + s2)[0] == s1[0] && (s1 + s2)[1..] == s1[1..] + s2;
      MapSeqConcat(f, s1[1..], s2);
      var h := [f(s1[0])];
      assert h + (MapSeq(f, s1[1..]) + MapSeq(f, s2)) == (h + MapSeq(f, s1[1..])) + MapSeq(f, s2);
    }
  }

  /** What `f` says of the elements of the first `n` child subtrees, in
      document order, is what `g` says of the nodes of the first `n` subtrees
      of `t`, in pre-order, when it is so child by child. */
  lemma {:induction false} MapSeqChildren<B>(f: Element -> B, g: Value -> B, e: Element, t: Tree, n: nat)
    requires n <= |e.children| && n <= |t.children|
    requires forall k :: 0 <= k < n ==> MapSeq(f, Elements(e.children[k])) == MapSeq(g, Values(t.children[k]))
    ensures MapSeq(f, ElementsOf(e, n)) == MapSeq(g, ValuesOf(t, n))
  {
    if n > 0 {
      var m := n - 1;
      MapSeqChildren(f, g, e, t, m);
      ElementsOfSnoc(e, n);
      ValuesOfSnoc(t, n);
      MapSeqConcat(f, ElementsOf(e, m), Elements(e.children[m]));
      MapSeqConcat(g, ValuesOf(t, m), Values(t.children[m]));
    }
  }

  /** The same for a whole subtree: its root, then its children. */
  lemma MapSeqNode<B>(f: Element -> B, g: Value -> B, e: Element, t: Tree)
    requires |e.children| == |t.children| && f(e) == g(t.value)
    requires forall k :: 0 <= k < |e.children| ==> MapSeq(f, Elements(e.children[k])) == MapSeq(g, Values(t.children[k]))
    ensures MapSeq(f, Elements(e)) == MapSeq(g, Values(t))
  {
    MapSeqChildren(f, g, e, t, |e.children|);
    MapSeqConcat(f, [e], ElementsOf(e, |e.children|));
    MapSeqConcat(g, [t.value], ValuesOf(t, |t.children|));
  }

  /** What the factories make of an element. */
  function Creator(dt: DoubleText): Element -> Option<Value>
  {
    (e: Element) => CreateNode(e.typeAttr, e.valAttr, dt)
  }

  function Succeeded(v: Value): Option<Value>
  {
    Some(v)
  }

  /** Decoding is a pre-order walk in document order: the factories make,
      from the elements of the subtree in document order, exactly the values
      of the decoded tree in pre-order. */
  lemma {:induction false} DecodePreorder(e: Element, t: Tree, dt: DoubleText)
    requires DecodeElement(e, dt) == Some(t)
    decreases e, |e.children| + 1
    ensures MapSeq(Creator(dt), Elements(e)) == MapSeq(Succeeded, Values(t))
  {
    forall k | 0 <= k < |e.children|
      ensures MapSeq(Creator(dt), Elements(e.children[k])) == MapSeq(Succeeded, Values(t.children[k]))
    {
      DecodePreorderChild(e, t, k, dt);
    }
    assert Creator(dt)(e) == Succeeded(t.value);
    MapSeqNode(Creator(dt), Succeeded, e, t);
  }

  lemma {:induction false} DecodePreorderChild(e: Element, t: Tree, k: nat, dt: DoubleText)
    requires DecodeElement(e, dt) == Some(t) && k < |e.children|
    decreases e, k
    ensures k < |t.children| && MapSeq(Creator(dt), Elements(e.children[k])) == MapSeq(Succeeded, Values(t.children[k]))
  {
    DecodedChild(e, t, k, dt);
    DecodePreorder(e.children[k], t.children[k], dt);
  }

  /** The `k`-th child of a decoded tree is the decoding of the `k`-th child element. */
  lemma DecodedChild(e: Element, t: Tree, k: nat, dt: DoubleText)
    requires DecodeElement(e, dt) == Some(t) && k < |e.children|
    ensures k < |t.children| && DecodeElement(e.children[k], dt) == Some(t.children[k])
  {
    var ts := DecodeChildren(e, |e.children|, dt).value;
    assert t.children == ts;
  }

  /** Position by position: the `k`-th node of the decoded tree in pre-order
      is built from the `k`-th element of the subtree in document order. */
  lemma DecodePreorderAt(e: Element, t: Tree, dt: DoubleText)
    requires DecodeElement(e, dt) == Some(t)
    ensures |Elements(e)| == |Values(t)|
    ensures forall k :: 0 <= k < |Values(t)| ==>
      CreateNode(Elements(e)[k].typeAttr, Elements(e)[k].valAttr, dt) == Some(Values(t)[k])
  {
    DecodePreorder(e, t, dt);
    forall k | 0 <= k < |Values(t)|
      ensures CreateNode(Elements(e)[k].typeAttr, Elements(e)[k].valAttr, dt) == Some(Values(t)[k])
    {
      assert MapSeq(Creator(dt), Elements(e))[k] == MapSeq(Succeeded, Values(t))[k];
    }
  }

  /** An element without its children: its name and attributes. */
  function Shape(e: Element): Element
  {
    e.(children := [])
  }

  /** The element written for a value, before its children are linked. */
  function Writer(dt: DoubleText): Value -> Element
  {
    (v: Value) => NodeElement(v, dt)
  }

  /** Encoding writes one `node` element per node, in pre-order: apart from
      their children, the elements of the document in document order are the
      elements written for the tree's values in pre-order. */
  lemma {:induction false} EncodePreorder(t: Tree, dt: DoubleText)
    decreases t
    ensures MapSeq(Shape, Elements(Encode(t, dt))) == MapSeq(Writer(dt), Values(t))
  {
    var e := Encode(t, dt);
    EncodeMirrorsTree(t, dt);
    forall k | 0 <= k < |t.children|
      ensures MapSeq(Shape, Elements(e.children[k])) == MapSeq(Writer(dt), Values(t.children[k]))
    {
      EncodePreorder(t.children[k], dt);
    }
    assert Shape(e) == Writer(dt)(t.value);
    MapSeqNode(Shape, Writer(dt), e, t);
  }

  /** Position by position: the `k`-th element written carries the kind tag
      and text of the `k`-th node of the tree in pre-order. */
  lemma EncodePreorderAt(t: Tree, dt: DoubleText)
    ensures |Elements(Encode(t, dt))| == |Values(t)|
    ensures forall k :: 0 <= k < |Values(t)| ==>
      Elements(Encode(t, dt))[k].(children := []) == NodeElement(Values(t)[k], dt)
  {
    EncodePreorder(t, dt);
    forall k | 0 <= k < |Values(t)|
      ensures Elements(Encode(t, dt))[k].(children := []) == NodeElement(Values(t)[k], dt)
    {
      assert MapSeq(Shape, Elements(Encode(t, dt)))[k] == MapSeq(Writer(dt), Values(t))[k];
    }
  }

  // ---------------------------------------------------------------- example

  /** The leaves of the example below: a text and a real node. */
  lemma ExampleLeaves(d: Double, dt: DoubleText)
    ensures Encode(Tree(Text("hello"), []), dt) == Element("node", Some("0"), Some("hello"), [])
    ensures Encode(Tree(Real(d), []), dt) == Element("node", Some("2"), Some(CStr(dt.show(d))), [])
  {
    assert ToDecimal(0) == "0" && ToDecimal(2) == "2";
    assert CStr("hello") == "hello";
    EncodeMirrorsTree(Tree(Text("hello"), []), dt);
    EncodeMirrorsTree(Tree(Real(d), []), dt);
  }

  /** A root integer 5 with the text "hello" and a real as children is
      written as a `node` element with `type="1" val="5"` holding two `node`
      elements, `type="0" val="hello"` then `type="2"` with the real's text. */
  lemma IntegerRootWithTwoChildren(d: Double, dt: DoubleText)
    ensures Encode(Tree(Int(5), [Tree(Text("hello"), []), Tree(Real(d), [])]), dt)
         == Element("node", Some("1"), Some("5"), [
              Element("node", Some("0"), Some("hello"), []),
              Element("node", Some("2"), Some(CStr(dt.show(d))), [])])
  {
    var t := Tree(Int(5), [Tree(Text("hello"), []), Tree(Real(d), [])]);
    assert ToDecimal(1) == "1";
    assert StrData(Int(5), dt) == "5";
    assert CStr("5") == "5";
    assert NodeElement(t.value, dt) == Element("node", Some("1"), Some("5"), []);
    EncodeMirrorsTree(t, dt);
    ExampleLeaves(d, dt);
    var es := Encode(t, dt).children;
    assert es == [Encode(t.children[0], dt), Encode(t.children[1], dt)];
  }

  /** The same tree is read back, provided the real's text reads back. */
  lemma IntegerRootWithTwoChildrenReadsBack(d: Double, dt: DoubleText)
    requires dt.read(CStr(dt.show(d))) == Some(d)
    ensures var t := Tree(Int(5), [Tree(Text("hello"), []), Tree(Real(d), [])]);
      DecodeElement(Encode(t, dt), dt) == Some(t)
  {
    ExampleRepresentable(d, dt);
    DecodeEncode(Tree(Int(5), [Tree(Text("hello"), []), Tree(Real(d), [])]), dt);
  }

  lemma ExampleRepresentable(d: Double, dt: DoubleText)
    requires dt.read(CStr(dt.show(d))) == Some(d)
    ensures Representable(Tree(Int(5), [Tree(Text("hello"), []), Tree(Real(d), [])]), dt)
  {
    var t := Tree(Int(5), [Tree(Text("hello"), []), Tree(Real(d), [])]);
    assert Representable(t.children[0], dt) && Representable(t.children[1], dt);
  }
}
