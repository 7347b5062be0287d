/** The factory dispatch of the decoder: the `type` attribute is parsed into
    a tag, the tag selects a factory, and the factory parses the `val`
    attribute into a node of its kind. */
module Factories {

  import opened Wrappers
  import opened CStd
  import opened Nodes

  /** `nodes::getType`: the `type` attribute read by `std::stoi`. A missing
      attribute reaches `std::stoi` as a null `const char*`, whose conversion
      to `std::string` throws. */
  function ParseTag(typeAttr: Option<string>): (r: Option<Int32>)
    ensures typeAttr.None? ==> r.None?
  {
    match typeAttr
    case None => None
    case Some(t) => Stoi(t)
  }

  /** What `factories[tag]` holds once the three factories are registered;
      `std::map::operator[]` inserts an empty pointer for any other key. */
  datatype Factory = NoFactory | StrFactory | IntFactory | RealFactory

  function FactoryFor(tag: int): (f: Factory)
    ensures f == NoFactory <==> KindOfTag(tag).None?
  {
    match KindOfTag(tag)
    case None => NoFactory
    case Some(StringVal) => StrFactory
    case Some(IntNum) => IntFactory
    case Some(RealNum) => RealFactory
  }

  /** `createNode(strValue)` of a registered factory: the text factory keeps
      the string, the integer factory calls `std::stoi`, the real factory
      `std::stod`. A missing `val` attribute arrives as a null pointer, which
      every factory turns into a `std::string` and so throws. */
  function RunFactory(f: Factory, valAttr: Option<string>, dt: DoubleText): (r: Option<Value>)
    requires f != NoFactory
    ensures r.Some? ==> valAttr.Some?
    ensures r.Some? ==> KindOf(r.value) == match f
      case StrFactory => StringVal case IntFactory => IntNum case _ => RealNum
  {
    match valAttr
    case None => None
    case Some(s) =>
      match f
      case StrFactory => Some(Text(s))
      case IntFactory => (match Stoi(s) case None => None case Some(n) => Some(Int(n)))
      case RealFactory => (match dt.read(s) case None => None case Some(d) => Some(Real(d)))
  }

  /** How `factories[getType(e)]->createNode(e->Attribute("val"))` ends, as
      written: with a node, with an exception, or with a call through the
      empty pointer that an unknown tag puts in the table. */
  datatype Outcome = Created(v: Value) | Threw | NullFactoryCall

  function CreateAsWritten(typeAttr: Option<string>, valAttr: Option<string>, dt: DoubleText): (r: Outcome)
    ensures r == NullFactoryCall <==> ParseTag(typeAttr).Some? && KindOfTag(ParseTag(typeAttr).value).None?
  {
    match ParseTag(typeAttr)
    case None => Threw
    case Some(tag) =>
      var f := FactoryFor(tag);
      if f == NoFactory then NullFactoryCall
      else match RunFactory(f, valAttr, dt)
        case None => Threw
        case Some(v) => Created(v)
  }

  /** The factory dispatch as intended: a tag without a factory is a failure
      like any other, so an element yields a node exactly when its `type`
      names a known kind and its `val` parses as that kind's value. */
  function CreateNode(typeAttr: Option<string>, valAttr: Option<string>, dt: DoubleText): (r: Option<Value>)
    ensures r.Some? <==>
      && typeAttr.Some? && valAttr.Some?
      && ParseTag(typeAttr).Some? && 0 <= ParseTag(typeAttr).value <= 2
      && (ParseTag(typeAttr).value == 1 ==> Stoi(valAttr.value).Some?)
      && (ParseTag(typeAttr).value == 2 ==> dt.read(valAttr.value).Some?)
    ensures r.Some? ==> Stoi(typeAttr.value) == Some(Tag(KindOf(r.value)) as Int32)
    ensures r.Some? && r.value.Text? ==> r.value.s == valAttr.value
    ensures r.Some? && r.value.Int? ==> Stoi(valAttr.value) == Some(r.value.n)
    ensures r.Some? && r.value.Real? ==> dt.read(valAttr.value) == Some(r.value.d)
  {
    match ParseTag(typeAttr)
    case None => None
    case Some(tag) =>
      var f := FactoryFor(tag);
      if f == NoFactory then None else RunFactory(f, valAttr, dt)
  }

  /** Wherever the source does not call through an empty pointer, the
      corrected dispatch does what the source does; where it does, the
      corrected dispatch fails. */
  lemma CreateNodeAgreesWithSource(typeAttr: Option<string>, valAttr: Option<string>, dt: DoubleText)
    ensures CreateAsWritten(typeAttr, valAttr, dt) == NullFactoryCall ==> CreateNode(typeAttr, valAttr, dt).None?
    ensures CreateAsWritten(typeAttr, valAttr, dt) == Threw <==> CreateNode(typeAttr, valAttr, dt).None? && CreateAsWritten(typeAttr, valAttr, dt) != NullFactoryCall
    ensures forall v :: CreateAsWritten(typeAttr, valAttr, dt) == Created(v) <==> CreateNode(typeAttr, valAttr, dt) == Some(v)
  {
  }

  /** An element whose `type` is 3 sends the source through the empty pointer
      `factories[3]`; the corrected dispatch rejects it. */
  lemma UnknownTagCallsEmptyFactory(valAttr: Option<string>, dt: DoubleText)
    ensures CreateAsWritten(Some("3"), valAttr, dt) == NullFactoryCall
    ensures CreateNode(Some("3"), valAttr, dt) == None
  {
    assert Stoi("3") == Some(3) by { StoiToDecimal(3); assert ToDecimal(3) == "3"; }
  }

  /** Any tag other than 0, 1 and 2 is rejected. */
  lemma UnknownTagRejected(typeAttr: Option<string>, valAttr: Option<string>, dt: DoubleText)
    requires ParseTag(typeAttr).Some? && !(0 <= ParseTag(typeAttr).value <= 2)
    ensures CreateNode(typeAttr, valAttr, dt) == None
  {
  }

  /** An integer element whose `val` is not a numeral is rejected rather than
      read as zero. */
  lemma CorruptIntegerRejected(dt: DoubleText)
    ensures CreateNode(Some("1"), Some("abc"), dt) == None
  {
    assert Stoi("1") == Some(1) by { StoiToDecimal(1); assert ToDecimal(1) == "1"; }
    StoiRejectsNoDigits();
  }

  /** The value survives being written by `getStrData().c_str()` and read by
      its factory: a text holds no NUL (the C string would end there) and the
      real conversions read back what they write. */
  predicate ReadsBack(v: Value, dt: DoubleText)
  {
    match v
    case Text(s) => '\0' !in s
    case Int(_) => true
    case Real(d) => dt.read(CStr(dt.show(d))) == Some(d)
  }

  /** The factory inverts `getStrData`: the attributes the encoder writes for
      a value are read back as that value, as long as text values hold no NUL
      and the real conversions read back what they write. */
  lemma CreateNodeInvertsStrData(v: Value, dt: DoubleText)
    requires ReadsBack(v, dt)
    ensures CreateNode(Some(ToDecimal(Tag(KindOf(v)))), Some(CStr(StrData(v, dt))), dt) == Some(v)
  {
    StoiToDecimal(Tag(KindOf(v)));
    StrDataReadsBack(v, dt);
  }
}
