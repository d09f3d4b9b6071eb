/** Header bookkeeping of the Stanford PLY polygon file format reader:
    property type names, list capacities, and the byte offsets that an
    element accumulates from its properties and that the parser
    accumulates from its elements. The size of one value of a field type
    (pcl::getFieldSize) is a parameter throughout. */
module Ply {

  /** sensor_msgs::PointField datatype codes. */
  const INT8: int := 1
  const UINT8: int := 2
  const INT16: int := 3
  const UINT16: int := 4
  const INT32: int := 5
  const UINT32: int := 6
  const FLOAT32: int := 7
  const FLOAT64: int := 8

  /** `(size_t) -1`, the "not found" offset, for a 64-bit size_t. */
  const SIZE_MAX: nat := 0xFFFF_FFFF_FFFF_FFFF

  /** The eight scalar type names of the format, in the order they are tried. */
  const TypeNames: seq<string> := ["char", "uchar", "short", "ushort", "int", "uint", "float", "double"]
  const TypeCodes: seq<int> := [INT8, UINT8, INT16, UINT16, INT32, UINT32, FLOAT32, FLOAT64]

  /** getTypeFromTypeName: the field type of a scalar type name, -1 for
      "list", -2 for any other name. */
  function TypeFromTypeName(name: string): (t: int)
    ensures INT8 <= t <= FLOAT64 || t == -1 || t == -2
  {
    if name == "char" then INT8
    else if name == "uchar" then UINT8
    else if name == "short" then INT16
    else if name == "ushort" then UINT16
    else if name == "int" then INT32
    else if name == "uint" then UINT32
    else if name == "float" then FLOAT32
    else if name == "double" then FLOAT64
    else if name == "list" then -1
    else -2
  }

  /** The reverse direction: the name of each scalar type. */
  function TypeName(t: int): (name: string)
    requires INT8 <= t <= FLOAT64
    ensures name in TypeNames
  {
    TypeNames[t - 1]
  }

  /** Every scalar type name maps to its own code, and back. */
  lemma TypeNamesRoundTrip(t: int)
    requires INT8 <= t <= FLOAT64
    ensures TypeFromTypeName(TypeName(t)) == t
  {
    assert TypeName(t) == TypeNames[t - 1];
    assert TypeCodes[t - 1] == t;
  }

  /** A name maps to a scalar type exactly when it is one of the eight
      names, to -1 exactly for "list", and to -2 otherwise. */
  lemma TypeFromTypeNameCases(name: string)
    ensures INT8 <= TypeFromTypeName(name) <= FLOAT64 <==> name in TypeNames
    ensures name in TypeNames ==> TypeName(TypeFromTypeName(name)) == name
    ensures TypeFromTypeName(name) == -1 <==> name == "list"
    ensures TypeFromTypeName(name) == -2 <==> name !in TypeNames && name != "list"
  {
    if name in TypeNames {
      var j :| 0 <= j < 8 && TypeNames[j] == name;
      assert TypeFromTypeName(name) == TypeCodes[j];
    }
  }

  /** getMaximumCapacity: the largest count an unsigned list-size type can
      hold; 0 for any other type. */
  function MaximumCapacity(sizeType: int): (cap: nat)
    ensures sizeType == UINT8 ==> cap + 1 == 0x100
    ensures sizeType == UINT16 ==> cap + 1 == 0x1_0000
    ensures sizeType == UINT32 ==> cap + 1 == 0x1_0000_0000
    ensures sizeType !in {UINT8, UINT16, UINT32} ==> cap == 0
  {
    if sizeType == UINT8 then 0xFF
    else if sizeType == UINT16 then 0xFFFF
    else if sizeType == UINT32 then 0xFFFF_FFFF
    else 0
  }

  /** A property of an element: a scalar of one field type, or a list with
      a count type and an item type. `offset` is its size in bytes. */
  datatype Property =
    | Scalar(name: string, dataType: int, offset: nat)
    | List(name: string, sizeType: int, itemType: int, offset: nat)

  /** property(name, data_type): one value of the type. */
  function NewProperty(name: string, dataType: int, fieldSize: int -> nat): (p: Property)
    ensures p.Scalar? && p.name == name && p.offset == fieldSize(dataType)
  {
    Scalar(name, dataType, fieldSize(dataType))
  }

  /** list_property(name, size_type, data_type): a count followed by the
      largest number of items the count type allows. */
  function NewListProperty(name: string, sizeType: int, itemType: int, fieldSize: int -> nat): (p: Property)
    ensures p.List? && p.name == name
    ensures p.offset == fieldSize(sizeType) + MaximumCapacity(sizeType) * fieldSize(itemType)
  {
    List(name, sizeType, itemType, fieldSize(sizeType) + MaximumCapacity(sizeType) * fieldSize(itemType))
  }

  /** The count read by set_size from the first byte of the buffer: as an
      unsigned char for UINT8, otherwise the (signed) char converted to the
      wider unsigned type, so a negative char c wraps to 2^16 + c or
      2^32 + c. */
  function CountFromByte(sizeType: int, b: bv8): (n: nat)
    ensures n <= MaximumCapacity(sizeType)
    ensures (b as nat) < 0x80 && sizeType in {UINT8, UINT16, UINT32} ==> n == b as nat
    ensures sizeType == UINT8 ==> n == b as nat
  {
    var u: nat := b as nat;
    if sizeType != UINT8 && sizeType != UINT16 && sizeType != UINT32 then 0
    else if sizeType == UINT8 || u < 0x80 then u
    else if sizeType == UINT16 then u - 0x100 + 0x1_0000
    else u - 0x100 + 0x1_0000_0000
  }



  /** list_property::set_size as written: the count is multiplied by the
      size of the count type, not of the item type. */
  function SetSizeAsWritten(p: Property, b: bv8, fieldSize: int -> nat): (q: Property)
    requires p.List?
    ensures q.List? && q.name == p.name && q.sizeType == p.sizeType && q.itemType == p.itemType
  {
    var n := CountFromByte(p.sizeType, b);
    MulMonotone(0, n, fieldSize(p.sizeType));
    List(p.name, p.sizeType, p.itemType, fieldSize(p.sizeType) + n * fieldSize(p.sizeType))
  }

  /** list_property::set_size: the property's size becomes the count
      followed by that many items. */
  function SetSize(p: Property, b: bv8, fieldSize: int -> nat): (q: Property)
    requires p.List?
    ensures q.List? && q.name == p.name && q.sizeType == p.sizeType && q.itemType == p.itemType
    ensures q.offset == fieldSize(p.sizeType) + CountFromByte(p.sizeType, b) * fieldSize(p.itemType)
  {
    var n := CountFromByte(p.sizeType, b);
    MulMonotone(0, n, fieldSize(p.itemType));
    List(p.name, p.sizeType, p.itemType, fieldSize(p.sizeType) + n * fieldSize(p.itemType))
  }

  /** The size of a list is at most the size the constructor reserves. */
  lemma SetSizeWithinCapacity(p: Property, b: bv8, fieldSize: int -> nat)
    requires p.List? && p == NewListProperty(p.name, p.sizeType, p.itemType, fieldSize)
    ensures SetSize(p, b, fieldSize).offset <= p.offset
  {
    var n := CountFromByte(p.sizeType, b);
    var cap := MaximumCapacity(p.sizeType);
    if p.sizeType == UINT8 || p.sizeType == UINT16 || p.sizeType == UINT32 {
      assert n <= cap;
      MulMonotone(n, cap, fieldSize(p.itemType));
    }
  }

  /** As written, a uchar-counted list of three doubles is sized as if it
      held three one-byte items. */
  lemma SetSizeAsWrittenWrong(p: Property, fieldSize: int -> nat)
    requires p.List? && p.sizeType == UINT8 && p.itemType == FLOAT64
    requires fieldSize(UINT8) == 1 && fieldSize(FLOAT64) == 8
    ensures SetSizeAsWritten(p, 3, fieldSize).offset == 4
    ensures SetSize(p, 3, fieldSize).offset == 25
  {
  }

  lemma MulMonotone(a: nat, b: nat, c: nat)
    requires a <= b
    ensures a * c <= b * c
  {
  }

  /** Sum of the sizes of a run of properties. */
  function SumOffsets(ps: seq<Property>): nat
  {
    if ps == [] then 0 else SumOffsets(ps[..|ps| - 1]) + ps[|ps| - 1].offset
  }

  lemma SumOffsetsSnoc(ps: seq<Property>, p: Property)
    ensures SumOffsets(ps + [p]) == SumOffsets(ps) + p.offset
  {
    assert (ps + [p])[..|ps|] == ps;
  }

  /** Positions of the list properties, in order. */
  function ListPositions(ps: seq<Property>): (r: seq<nat>)
    ensures forall i :: i in r <==> 0 <= i < |ps| && ps[i].List?
  {
    if ps == [] then []
    else
      var init := ListPositions(ps[..|ps| - 1]);
      if ps[|ps| - 1].List? then init + [|ps| - 1] else init
  }

  lemma ListPositionsSnoc(ps: seq<Property>, p: Property)
    ensures ListPositions(ps + [p]) == ListPositions(ps) + (if p.List? then [|ps|] else [])
  {
    assert (ps + [p])[..|ps|] == ps;
  }

  /** The index of the first occurrence of a name, if any: the search of
      both operator[]s and both offset_befores. */
  function FirstIndex(names: seq<string>, name: string): (r: Option<nat>)
    ensures r.Some? ==> r.value < |names| && names[r.value] == name
                        && forall j :: 0 <= j < r.value ==> names[j] != name
    ensures r.None? ==> forall j :: 0 <= j < |names| ==> names[j] != name
  {
    if names == [] then None
    else if names[0] == name then Some(0)
    else
      match FirstIndex(names[1..], name)
      case None => None
      case Some(j) => Some(j + 1)
  }

  /** The first occurrence is at i when no earlier name matches. */
  lemma {:induction false} FirstIndexAt(names: seq<string>, name: string, i: nat)
    requires i < |names| && names[i] == name && forall j :: 0 <= j < i ==> names[j] != name
    ensures FirstIndex(names, name) == Some(i)
  {
    if i > 0 {
      FirstIndexAt(names[1..], name, i - 1);
    }
  }

  /** The names of a run of properties, in order. */
  function PropertyNames(ps: seq<Property>): (names: seq<string>)
    ensures |names| == |ps| && forall j :: 0 <= j < |ps| ==> names[j] == ps[j].name
  {
    seq(|ps|, j requires 0 <= j < |ps| => ps[j].name)
  }

  datatype Option<T> = None | Some(value: T)

  /** ply::element: a named block of `count` records, each laid out as its
      properties in order. `offset` is the record size in bytes. */
  class Element {
    var name: string
    var count: nat
    var offset: nat
    var properties: seq<Property>
    /** Where the list properties sit in `properties`. */
    var listProperties: seq<nat>

    /** The list positions are exactly those of the list properties. */
    ghost predicate Valid()
      reads this
    {
      listProperties == ListPositions(properties)
    }

    /** The record size agrees with the properties (true after every push
        and after update_offset; a later set_size makes it stale). */
    ghost predicate InSync()
      reads this
    {
      offset == SumOffsets(properties)
    }

    constructor (name: string, count: nat)
      ensures this.name == name && this.count == count && offset == 0
      ensures properties == [] && listProperties == []
      ensures Valid() && InSync()
    {
      this.name := name;
      this.count := count;
      offset := 0;
      properties := [];
      listProperties := [];
    }

    /** push_property(name, data_type): append a scalar property, grow the
        record size by its size, return the number of properties. */
    method PushProperty(name: string, dataType: int, fieldSize: int -> nat) returns (n: int)
      modifies this`properties, this`offset
      ensures properties == old(properties) + [NewProperty(name, dataType, fieldSize)]
      ensures offset == old(offset) + fieldSize(dataType)
      ensures n == |properties|
      ensures old(Valid()) ==> Valid()
      ensures old(InSync()) ==> InSync()
    {
      var p := NewProperty(name, dataType, fieldSize);
      ListPositionsSnoc(properties, p);
      SumOffsetsSnoc(properties, p);
      properties := properties + [p];
      offset := offset + p.offset;
      n := |properties|;
    }

    /** push_property(name, size_type, data_type): append a list property,
        record its position, grow the record size by its reserved size,
        return the number of properties. */
    method PushListProperty(name: string, sizeType: int, itemType: int, fieldSize: int -> nat) returns (n: int)
      modifies this`properties, this`listProperties, this`offset
      ensures properties == old(properties) + [NewListProperty(name, sizeType, itemType, fieldSize)]
      ensures listProperties == old(listProperties) + [|old(properties)|]
      ensures offset == old(offset) + NewListProperty(name, sizeType, itemType, fieldSize).offset
      ensures n == |properties| && HasListProperties()
      ensures old(Valid()) ==> Valid()
      ensures old(InSync()) ==> InSync()
    {
      var p := NewListProperty(name, sizeType, itemType, fieldSize);
      ListPositionsSnoc(properties, p);
      SumOffsetsSnoc(properties, p);
      listProperties := listProperties + [|properties|];
      properties := properties + [p];
      offset := offset + p.offset;
      n := |properties|;
    }

    /** has_list_properties. */
    predicate HasListProperties()
      reads this
    {
      listProperties != []
    }

    /** In a valid element, has_list_properties holds exactly when some
        property is a list. */
    lemma HasListPropertiesMeans()
      requires Valid()
      ensures HasListProperties() <==> exists i :: 0 <= i < |properties| && properties[i].List?
    {
      if HasListProperties() {
        assert listProperties[0] in listProperties;
      } else {
        forall i | 0 <= i < |properties| ensures !properties[i].List? {
          assert i !in listProperties;
        }
      }
    }

    /** operator[]: the first property with the name, or nothing. */
    method Lookup(propName: string) returns (r: Option<Property>)
      ensures r.None? <==> forall j :: 0 <= j < |properties| ==> properties[j].name != propName
      ensures r.Some? ==> exists j :: FirstIndex(PropertyNames(properties), propName) == Some(j) && r.value == properties[j]
    {
      var i := 0;
      while i < |properties| && properties[i].name != propName
        invariant 0 <= i <= |properties|
        invariant forall j :: 0 <= j < i ==> properties[j].name != propName
      {
        i := i + 1;
      }
      if i == |properties| {
        r := None;
      } else {
        FirstIndexAt(PropertyNames(properties), propName, i);
        r := Some(properties[i]);
      }
    }

    /** offset_before: the bytes of a record that precede the first
        property with the name; SIZE_MAX when there is none. */
    method OffsetBefore(propName: string) returns (r: nat)
      ensures r == match FirstIndex(PropertyNames(properties), propName)
                   case None => SIZE_MAX
                   case Some(j) => SumOffsets(properties[..j])
    {
      var acc := 0;
      var i := 0;
      while i < |properties| && properties[i].name != propName
        invariant 0 <= i <= |properties|
        invariant forall j :: 0 <= j < i ==> properties[j].name != propName
        invariant acc == SumOffsets(properties[..i])
      {
        assert properties[..i + 1] == properties[..i] + [properties[i]];
        SumOffsetsSnoc(properties[..i], properties[i]);
        acc := acc + properties[i].offset;
        i := i + 1;
      }
      if i == |properties| {
        r := SIZE_MAX;
      } else {
        FirstIndexAt(PropertyNames(properties), propName, i);
        r := acc;
      }
    }

    /** update_offset: recompute the record size from the properties. */
    method UpdateOffset()
      modifies this`offset
      ensures InSync()
      ensures old(InSync()) ==> offset == old(offset)
    {
      var acc := 0;
      var i := 0;
      while i < |properties|
        invariant 0 <= i <= |properties|
        invariant acc == SumOffsets(properties[..i])
      {
        assert properties[..i + 1] == properties[..i] + [properties[i]];
        SumOffsetsSnoc(properties[..i], properties[i]);
        acc := acc + properties[i].offset;
        i := i + 1;
      }
      assert properties[..i] == properties;
      offset := acc;
    }

    /** list_property::set_size applied to the list property at `pos`,
        which the element shares by reference: the property's size changes,
        the element's record size does not until update_offset. The size
        is the intended one (SetSize), not the count-type product that
        SetSizeAsWritten records. */
    method SetListSize(pos: nat, b: bv8, fieldSize: int -> nat)
      requires pos < |properties| && properties[pos].List?
      modifies this`properties
      ensures properties == old(properties)[pos := SetSize(old(properties)[pos], b, fieldSize)]
      ensures old(Valid()) ==> Valid()
    {
      var p := properties[pos];
      properties := properties[pos := SetSize(p, b, fieldSize)];
      if old(Valid()) {
        ListPositionsUpdate(old(properties), pos, properties[pos]);
      }
    }
  }

  lemma {:induction false} ListPositionsUpdate(ps: seq<Property>, pos: nat, q: Property)
    requires pos < |ps| && (ps[pos].List? <==> q.List?)
    ensures ListPositions(ps[pos := q]) == ListPositions(ps)
  {
    if pos < |ps| - 1 {
      ListPositionsUpdate(ps[..|ps| - 1], pos, q);
      assert ps[pos := q][..|ps| - 1] == ps[..|ps| - 1][pos := q];
    } else {
      assert ps[pos := q][..|ps| - 1] == ps[..|ps| - 1];
    }
  }

  /** Bytes taken by a run of elements: record size times record count. */
  function ElementBytes(es: seq<Element>): nat
    reads set e | e in es
  {
    if es == [] then 0 else ElementBytes(es[..|es| - 1]) + es[|es| - 1].offset * es[|es| - 1].count
  }

  /** The names of a run of elements, in order. */
  function ElementNames(es: seq<Element>): (names: seq<string>)
    reads set e | e in es
    ensures |names| == |es| && forall j :: 0 <= j < |es| ==> names[j] == es[j].name
  {
    if es == [] then [] else [es[0].name] + ElementNames(es[1..])
  }

  /** ply::parser: the elements of the header in order; properties are
      added to the most recently pushed element. */
  class Parser {
    var elements: seq<Element>
    var lastElement: Element?

    /** The last element pushed is the last in the list. */
    ghost predicate Valid()
      reads this
    {
      if elements == [] then lastElement == null else lastElement == elements[|elements| - 1]
    }

    constructor ()
      ensures elements == [] && lastElement == null && Valid()
    {
      elements := [];
      lastElement := null;
    }

    /** push_element: append a new, empty element and make it the last
        one; return the number of elements. */
    method PushElement(name: string, count: nat) returns (n: int)
      modifies this
      ensures fresh(lastElement) && lastElement != null
      ensures lastElement.name == name && lastElement.count == count && lastElement.offset == 0
      ensures lastElement.properties == [] && lastElement.listProperties == []
      ensures elements == old(elements) + [lastElement] && n == |elements|
      ensures Valid()
    {
      var e := new Element(name, count);
      lastElement := e;
      elements := elements + [e];
      n := |elements|;
    }

    /** push_property(name, data_type) on the last element. */
    method PushProperty(name: string, dataType: int, fieldSize: int -> nat) returns (n: int)
      requires lastElement != null
      modifies lastElement`properties, lastElement`offset
      ensures lastElement.properties == old(lastElement.properties) + [NewProperty(name, dataType, fieldSize)]
      ensures lastElement.offset == old(lastElement.offset) + fieldSize(dataType)
      ensures n == |lastElement.properties|
    {
      n := lastElement.PushProperty(name, dataType, fieldSize);
    }

    /** push_property(name, size_type, data_type) on the last element. */
    method PushListProperty(name: string, sizeType: int, itemType: int, fieldSize: int -> nat) returns (n: int)
      requires lastElement != null
      modifies lastElement`properties, lastElement`listProperties, lastElement`offset
      ensures lastElement.properties == old(lastElement.properties) + [NewListProperty(name, sizeType, itemType, fieldSize)]
      ensures lastElement.listProperties == old(lastElement.listProperties) + [|old(lastElement.properties)|]
      ensures lastElement.offset == old(lastElement.offset) + NewListProperty(name, sizeType, itemType, fieldSize).offset
      ensures n == |lastElement.properties|
    {
      n := lastElement.PushListProperty(name, sizeType, itemType, fieldSize);
    }

    /** operator[]: the first element with the name, or null. */
    method Lookup(elementName: string) returns (r: Element?)
      ensures r == null <==> forall j :: 0 <= j < |elements| ==> elements[j].name != elementName
      ensures r != null ==> exists j :: FirstIndex(ElementNames(elements), elementName) == Some(j) && r == elements[j]
    {
      var i := 0;
      while i < |elements| && elements[i].name != elementName
        invariant 0 <= i <= |elements|
        invariant forall j :: 0 <= j < i ==> elements[j].name != elementName
      {
        i := i + 1;
      }
      if i == |elements| {
        r := null;
      } else {
        FirstIndexAt(ElementNames(elements), elementName, i);
        r := elements[i];
      }
    }

    /** offset_before: the bytes of the body that precede the first element
        with the name; SIZE_MAX when there is none. */
    method OffsetBefore(elementName: string) returns (r: nat)
      ensures r == match FirstIndex(ElementNames(elements), elementName)
                   case None => SIZE_MAX
                   case Some(j) => ElementBytes(elements[..j])
    {
      var acc := 0;
      var i := 0;
      while i < |elements| && elements[i].name != elementName
        invariant 0 <= i <= |elements|
        invariant forall j :: 0 <= j < i ==> elements[j].name != elementName
        invariant acc == ElementBytes(elements[..i])
      {
        assert elements[..i + 1][..i] == elements[..i];
        acc := acc + elements[i].offset * elements[i].count;
        i := i + 1;
      }
      if i == |elements| {
        r := SIZE_MAX;
      } else {
        FirstIndexAt(ElementNames(elements), elementName, i);
        r := acc;
      }
    }
  }
}
