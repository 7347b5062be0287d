/** The typed tree: the closed set of node kinds, their values and the text
    each value is written as, and the node object whose child list grows in
    place. */
module Nodes {

  import opened Wrappers
  import opened CStd

  /** `enum nodeType`; a kind's tag is its position in the declaration and is
      the discriminator written to the `type` attribute. */
  datatype NodeType = StringVal | IntNum | RealNum

  function Tag(k: NodeType): (t: nat)
    ensures t <= 2
  {
    match k
    case StringVal => 0
    case IntNum => 1
    case RealNum => 2
  }

  /** The enumerator a tag stands for, if any. */
  function KindOfTag(t: int): (r: Option<NodeType>)
    ensures r.Some? <==> 0 <= t <= 2
    ensures r.Some? ==> Tag(r.value) == t
  {
    if t == 0 then Some(StringVal)
    else if t == 1 then Some(IntNum)
    else if t == 2 then Some(RealNum)
    else None
  }

  /** Distinct kinds have distinct tags, and every tag reads back as its kind. */
  lemma TagsRoundTrip(k: NodeType)
    ensures KindOfTag(Tag(k)) == Some(k)
  {
  }

  /** The IEEE-754 bit pattern of a C++ `double`. */
  type Double = bv64

  /** The two floating-point conversions the real-valued node uses:
      `show` for writing a `double` to a `std::stringstream` (six significant
      digits by default) and `read` for `std::stod`, `None` where it throws.
      Both are outside this model and are given as parameters. */
  datatype DoubleText = DoubleText(show: Double -> string, read: string -> Option<Double>)

  /** The value a node holds; the variant is the node's kind. */
  datatype Value = Text(s: string) | Int(n: Int32) | Real(d: Double)

  /** The kind tag each node class passes to the base constructor. */
  function KindOf(v: Value): NodeType
  {
    match v
    case Text(_) => StringVal
    case Int(_) => IntNum
    case Real(_) => RealNum
  }

  /** `getStrData`: the text a node's value is written as. */
  function StrData(v: Value, dt: DoubleText): (r: string)
    ensures v.Int? ==> |r| >= 1 && '\0' !in r && (r[0] == '-' <==> v.n < 0)
  {
    match v
    case Text(s) => s
    case Int(n) => ToDecimal(n)
    case Real(d) => dt.show(d)
  }

  /** A text node's string is returned unchanged, an integer is written in
      decimal, with a minus sign exactly for negatives, in a form `std::stoi`
      reads back, and a real is written by the stream. */
  lemma StrDataReadsBack(v: Value, dt: DoubleText)
    ensures v.Text? ==> StrData(v, dt) == v.s
    ensures v.Int? ==> Stoi(StrData(v, dt)) == Some(v.n) && (StrData(v, dt)[0] == '-' <==> v.n < 0)
    ensures v.Real? ==> StrData(v, dt) == dt.show(v.d)
  {
    if v.Int? {
      StoiToDecimal(v.n);
    }
  }

  /** A tree as a value: a root node's value and its subtrees in order. */
  datatype Tree = Tree(value: Value, children: seq<Tree>)

  /** `baseNode` with its variant's value. The value, and with it the kind, is
      fixed by the constructor; the child list only grows, at its end. The
      ghost field `model` is the tree rooted here, `Repr` the nodes it owns. */
  class Node {
    const value: Value
    var children: seq<Node>
    ghost var model: Tree
    ghost var Repr: set<object>

    /** The node owns its children exclusively (no child shared between two
        parents, no cycle) and `model` mirrors the object tree. */
    ghost predicate Valid()
      reads this, Repr
      decreases Repr
    {
      && this in Repr
      && model.value == value
      && |model.children| == |children|
      && (forall i :: 0 <= i < |children| ==>
            && children[i] in Repr
            && children[i].Repr <= Repr
            && this !in children[i].Repr
            && children[i].Valid()
            && model.children[i] == children[i].model)
      && (forall i, j :: 0 <= i < j < |children| ==> children[i].Repr !! children[j].Repr)
    }

    /** `getType`: the tag the constructor set, for the life of the node. */
    function GetType(): (r: NodeType)
      ensures r == StringVal <==> value.Text?
      ensures r == IntNum <==> value.Int?
      ensures r == RealNum <==> value.Real?
    {
      KindOf(value)
    }

    /** The `stringNode`, `intNode` and `realNode` constructors: a node with
        the given value and no children. */
    constructor (v: Value)
      ensures Valid() && fresh(Repr)
      ensures value == v && GetType() == KindOf(v) && children == []
      ensures model == Tree(v, [])
    {
      value := v;
      children := [];
      model := Tree(v, []);
      Repr := {this};
    }

    /** `pushChild`: `c` becomes the last child; earlier children keep their
        identity and order. `c` must not already belong to this tree. */
    method PushChild(c: Node)
      requires Valid() && c.Valid() && Repr !! c.Repr
      modifies this
      ensures Valid()
      ensures children == old(children) + [c]
      ensures model == Tree(value, old(model.children) + [c.model])
      ensures Repr == old(Repr) + c.Repr
    {
      children := children + [c];
      model := Tree(value, model.children + [c.model]);
      Repr := Repr + c.Repr;
    }
  }
}
