# Typed tree serialization: a Dafny model

The program reads and writes a tree of typed nodes as an XML document. A
node holds a text, a 32-bit integer or a double, and an ordered list of
children that only grows by appending. Each node is written as a `node`
element:

- `type` is the decimal kind tag (0 text, 1 integer, 2 real);
- `val` is the node's text form (`getStrData`);
- its child elements are the node's children, in order.

Reading walks the elements in pre-order. A tag-indexed table of factories
builds each node from its `val`. Any failure (an exception in `std::stoi`
and the like) makes the whole result the null pointer. The command line
accepts only `-i <file>` and `-o <file>`.

The model has these modules:

- `Wrappers`: the `Option` type.
- `CStd`: the C library behaviour the program relies on.
  - `CStr` is a `std::string` read back through `c_str()`, cut at the first NUL.
  - `ToDecimal` is `std::to_string` for integers.
  - `Stoi` is `std::stoi` with a 32-bit `int`. It skips leading white space, takes an optional sign, then the longest run of digits. It fails on no digits or on a value out of range.
- `Markup`: the element tree of a document. XML text is not modelled: the model starts from the parsed elements. Attribute values are C strings, so they never hold a NUL.
- `Nodes`:
  - the kind enumeration and its tags;
  - a node's value and `getStrData`;
  - the value-level `Tree`;
  - the heap class `Node`. Its `children` sequence is appended to in place by `PushChild`. Its ghost `model` is the `Tree` the node heads.
- `Factories`: the factory table as a match on the tag. It comes in two versions: as written (an unknown tag reaches a null factory) and as intended (an unknown tag is a failure).
- `Codec`: decoding and encoding as functions on values. It carries the round-trip, all-or-nothing and pre-order properties.
- `Serialization`: the program's recursive walks as methods over `Node` objects. Each is proved to compute the `Codec` function.
- `Options`: `parseOpts` as a loop. It is proved against a recursive reference reading, and then characterised completely.

Reals are kept abstract. A `Double` is a 64-bit pattern. Its text conversions
(`stringstream` output and `std::stod`) are a parameter `DoubleText` of every
operation that needs them. The round-trip lemmas therefore assume of a real
only that its text reads back.

## Model

| member | source | states |
|---|---|---|
| Nodes.KindOfTag | nodes.h:30-33 | the tags are exactly 0, 1 and 2, and `KindOfTag` inverts `Tag` on them |
| Nodes.Node.constructor | nodes.h:39 | a new node holds its value and kind, has no children, and heads the one-node tree |
| Nodes.Node.PushChild | nodes.h:41-43 | the child is appended at the end, the earlier children are kept in order, and the modelled tree gains the child's tree as its last child |
| Nodes.Node.GetType | nodes.h:57-59 | the kind a node reports is text, integer or real exactly when its value is |
| Nodes.StrData | nodes.h:80-119 | an integer node's data is non-empty, holds no NUL and starts with a minus sign exactly for negatives; the rest of what it returns is stated by `Nodes.StrDataReadsBack` |
| Nodes.StrDataReadsBack | nodes.h:80-119 | a text node's data is its text unchanged; an integer node's is decimal text, with a minus sign exactly for negatives, that `std::stoi` reads back as the same integer; a real node's is the `stringstream` text of the real |
| CStd.CStr | nodes.h:205 | a string passed through `c_str()` is its prefix before the first NUL, and the whole string when it has no NUL |
| CStd.ToDecimal | nodes.h:98 | `std::to_string`: a minus sign exactly for negatives, then the digits of the magnitude without leading zeros, and never a NUL |
| CStd.Stoi | nodes.h:151 | `std::stoi` fails on a string of white space only, and a negative result has a minus sign right after the leading white space; its round trip, stopping point and failures are the lemmas below |
| CStd.StoiToDecimal | nodes.h:150-152 | `std::stoi(std::to_string(n)) == n` for every 32-bit `n` |
| CStd.StoiStopsAtNonDigit | nodes.h:151 | `std::stoi` stops at the first non-digit: "12abc" gives 12 |
| CStd.StoiSkipsSpaceAndSign | nodes.h:151 | leading white space and a sign are accepted: " \t-7" gives -7, "+3" gives 3 |
| CStd.StoiRejectsNoDigits | nodes.h:151 | "abc", "" and " -x" make `std::stoi` fail |
| CStd.StoiRejectsTooLarge | nodes.h:151 | a decimal above 2147483647 makes `std::stoi` fail |
| CStd.StoiRejectsTooSmall | nodes.h:151 | a negative decimal below -2147483648 makes `std::stoi` fail |
| Factories.ParseTag | nodes.h:165-167 | a missing `type` attribute is a failure (the tag is otherwise read by `std::stoi`) |
| Factories.FactoryFor | nodes.h:183-186 | the table has a factory exactly for the tags 0, 1 and 2 |
| Factories.RunFactory | nodes.h:139-161 | a missing `val` is a failure, and a node a factory makes has that factory's kind |
| Factories.CreateNode | nodes.h:139-171 | a node is made exactly when both attributes are present, `type` reads as 0, 1 or 2, and `val` reads as an integer for tag 1 and as a real for tag 2; the node's tag is then the `stoi` of `type`, and its payload is the `val` text, the `stoi` or the `stod` of `val` |
| Factories.CreateNodeAgreesWithSource | nodes.h:171 | wherever the table as written holds a factory, the corrected creation gives the same node or the same failure |
| Factories.CreateAsWritten | nodes.h:171 | the creation as written: an unknown tag reaches a null factory |
| Factories.UnknownTagCallsEmptyFactory | nodes.h:191 | `type="3"` reaches the null factory in the code as written |
| Factories.UnknownTagRejected | nodes.h:183-186 | in the corrected creation, a tag outside 0..2 is a failure |
| Factories.CorruptIntegerRejected | nodes.h:151 | an integer node with `val="abc"` is not created |
| Factories.CreateNodeInvertsStrData | nodes.h:169-225 | the attributes the encoder writes for a value make the factory build that value again |
| Markup.FirstNamed | nodes.h:188 | `FirstChildElement("node")`: the position of the first element with that name, or none when no element has it |
| Codec.DecodeElement | nodes.h:169-176 | an element decodes to a node made by the factory from its attributes, with as many children as it has child elements |
| Codec.DecodeChildren | nodes.h:170-175 | the first `n` child elements decode, in order, to `n` trees, each being that element's decoding; when they do not decode, one of them fails |
| Codec.DecodeDocument | nodes.h:188-189 | a document without a top-level `node` element decodes to the null tree |
| Codec.DecodeReadsFirstNode | nodes.h:188-192 | only the first top-level `node` element is read |
| Codec.DecodeSucceedsIff | nodes.h:182-195 | an element decodes exactly when every element under it can be created: failure anywhere collapses the whole result |
| Codec.DecodeRejectsMissingAttribute | nodes.h:166 | an element missing `type` or `val` does not decode |
| Codec.DecodeRejectsUnknownKind | nodes.h:183-186 | an element whose tag is a number other than 0, 1 and 2 does not decode |
| Codec.DecodeRejectsCorruptInteger | nodes.h:151 | an integer element with `val="abc"` does not decode, whatever its children |
| Codec.DecodePreorder | nodes.h:169-176 | what the factories make of the elements of the subtree, in document order, is exactly the sequence of the decoded tree's values in pre-order |
| Codec.DecodePreorderAt | nodes.h:169-176 | position by position, the `k`-th node of the decoded tree in pre-order is the one the factory makes from the `k`-th element in document order |
| Codec.Encode | nodes.h:200-210 | a tree is written as one `node` element with one child element per child; what each element carries is stated by `Codec.EncodeMirrorsTree` |
| Codec.EncodeChildren | nodes.h:201-208 | as many elements as children, each the encoding of the child at the same position |
| Codec.EncodeMirrorsTree | nodes.h:200-210 | a node becomes one `node` element with its tag and data, whose child elements are its children's encodings in the same number and order |
| Codec.EncodeDocument | nodes.h:212-225 | `treeToXML`: the null tree gives a document without elements, any other tree a document with exactly one `node` element |
| Codec.EncodeDocumentShape | nodes.h:212-225 | the null tree gives a document with no top-level element; any other tree gives exactly one `node` element |
| Codec.EncodePreorder | nodes.h:200-225 | the elements written, in document order and apart from their children, are exactly the elements made for the tree's values in pre-order |
| Codec.EncodePreorderAt | nodes.h:200-225 | position by position, the `k`-th element written carries the kind tag and data of the `k`-th node of the tree in pre-order |
| Codec.DecodeEncode | nodes.h:169-225 | decoding the encoding of a tree whose values read back gives the same tree: kinds, values, child order and shape |
| Codec.DocumentRoundTrip | nodes.h:178-225 | the round trip at document level, the null tree included |
| Codec.TextIntTreesRoundTrip | nodes.h:169-225 | any tree of text and integer nodes, with NUL-free texts, survives the round trip |
| Codec.IntegerRootWithTwoChildren | nodes.h:212-225 | the integer 5 with children "hello" and a real is written as `type="1" val="5"` holding `type="0" val="hello"` then `type="2"` with the real's text |
| Codec.IntegerRootWithTwoChildrenReadsBack | nodes.h:178-198 | that tree is read back unchanged when the real's text reads back |
| Serialization.DeserializeSubTree | nodes.h:169-176 | the walk succeeds exactly when the child elements decode; the parent keeps its earlier children, and its tree gains the decoded children in document order |
| Serialization.AppendChild | nodes.h:171-174 | one child element becomes a new node, filled from its own child elements and appended as the parent's last child; it fails exactly when the element does not decode |
| Serialization.XmlToTree | nodes.h:178-198 | the result is null exactly when the document decodes to nothing; otherwise a freshly allocated tree heading the decoded tree |
| Serialization.SerializeSubTree | nodes.h:200-210 | the element gains, after its existing children, the encodings of the node's children in order |
| Serialization.LinkChild | nodes.h:203-208 | the element for one child is made, filled with the child's own subtree and linked after the existing children |
| Serialization.TreeToXml | nodes.h:212-225 | the document is the encoding of the tree, empty for the null pointer |
| Options.OptionLetter | main.cpp:82-85 | an argument is an option exactly when, as a C string, it is two characters starting with `-`; the letter is the second character |
| Options.ParseOpts | main.cpp:76-111 | the loop computes the reference reading of the arguments after `argv[0]`, both the answer and the two file names |
| Options.ParseOptsAcceptsExactly | main.cpp:76-111 | the answer is 0 exactly for no arguments, `-i X`, `-o X`, or both options once each in either order. The names then hold the values given; an absent option leaves its name untouched |
| Options.ScanAnswersZeroOrOne | main.cpp:76-111 | the answer is always 0 or 1 |
| Options.ValueMayLookLikeAnOption | main.cpp:90 | the word after `-i` is taken as its value even when it is `-o` |

## Left out

- TinyXML itself is not modelled: loading, saving, text parsing and printing, white-space condensing, and element memory management. Documents are the `Markup` element trees.
- `printTree`, `getStrType` and the `PRINT_TABS` macro are left out: they only write to the console.
- Real numbers are not modelled arithmetically. `stringstream` formatting and `std::stod` are the functions of a `DoubleText` parameter. A real survives the round trip only when its text reads back, which six significant digits generally prevent.
- Raw-pointer ownership is not modelled: the recursive `delete` in `~baseNode`, and the leak of a partly built tree when an exception is thrown.
- `main()`, its file handling and messages, and `printUsage` are left out. The messages `parseOpts` prints are output only and are not modelled.
- The factory class hierarchy and virtual dispatch are a match on the tag.
- Serialization.AppendChild: the source appends the new node to its parent before filling it; the model fills it first, then appends. The finished tree is the same. On failure the whole result is discarded in both, so the order is not observable.
- Serialization.LinkChild: the source links the new element to its parent before `serializeSubTree` fills it; the model fills it first, then links it. The finished document is the same, and nothing reads the element in between.
- Serialization.DeserializeSubTree: on failure nothing is stated about the partly built parent; the program drops it, since the exception reaches `xmlToTree`, which returns null.
- Codec.DecodeEncode: requires that texts hold no NUL, because `c_str()` cuts a text at its first NUL.
- A missing `type` or `val` attribute is a failure: `Attribute` returns a null pointer, and building a `std::string` from it throws under libstdc++. That exception is caught as a failure by `xmlToTree`.
- Decoding returns null both for a document without a `node` element and for a failure. The model keeps that; the two cases are told apart only by `Codec.DecodeDocument`'s contract.
- Child elements of any name are decoded: the source walks every child element, not only those named `node`.
- Nodes.Node.PushChild: requires that the child is not already in the parent's tree; the source does not check this, but a shared or cyclic child would be deleted twice by `~baseNode`.

## Findings

| source | as written | input that shows it | evidently intended | confidence | as-written member | corrected member |
|---|---|---|---|---|---|---|
| nodes.h:171 | `factories[getType(child)]` inserts an empty `unique_ptr` for a tag with no factory and calls `createNode` through it; the same holds for the root at nodes.h:191 | `<node type="3" val="x"/>` | an unknown kind is a decode failure, so `xmlToTree` returns null | not executed | Factories.UnknownTagCallsEmptyFactory | Factories.UnknownTagRejected |
