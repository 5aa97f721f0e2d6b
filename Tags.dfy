/** The NBT tag tree: the wire type ids and one constructor per tag class. */
module Tags {
  import opened Bytes

  datatype Option<T> = None | Some(value: T)

  const END: uint8 := 0
  const BYTE: uint8 := 1
  const SHORT: uint8 := 2
  const INT: uint8 := 3
  const LONG: uint8 := 4
  const FLOAT: uint8 := 5
  const DOUBLE: uint8 := 6
  const BYTE_ARRAY: uint8 := 7
  const STRING: uint8 := 8
  const LIST: uint8 := 9
  const COMPOUND: uint8 := 10
  const INT_ARRAY: uint8 := 11

  /** The type ids the decoder has a parser for (END has none). */
  predicate Implemented(id: int) {
    BYTE as int <= id <= INT_ARRAY as int
  }

  /** A tag. Every tag has a name, empty unless it was read with one.
      A Float keeps the IEEE-754 bit pattern it was read from, and a Double
      the payload word its decoder evidently means to read
      (DoubleBits.DoubleAsWritten has what it does). A Byte_Array is
      a sequence of (anonymous) Byte tags, kept here as their int8 values. */
  datatype Tag =
    | End(name: string)
    | Byte(name: string, byteValue: int8)
    | Short(name: string, shortValue: int16)
    | Int(name: string, intValue: int32)
    | Long(name: string, longValue: int64)
    | Float(name: string, floatBits: uint32)
    | Double(name: string, doubleBits: uint64)
    | ByteArray(name: string, bytes: seq<int8>)
    | String(name: string, text: string)
    | List(name: string, listType: uint8, items: seq<Tag>)
    | Compound(name: string, children: seq<Tag>)
    | IntArray(name: string, ints: seq<int32>)

  /** The type constant each tag class declares. */
  function TypeId(t: Tag): (id: uint8)
    ensures id == END <==> t.End?
    ensures Implemented(id) <==> !t.End?
  {
    match t
    case End(_) => END
    case Byte(_, _) => BYTE
    case Short(_, _) => SHORT
    case Int(_, _) => INT
    case Long(_, _) => LONG
    case Float(_, _) => FLOAT
    case Double(_, _) => DOUBLE
    case ByteArray(_, _) => BYTE_ARRAY
    case String(_, _) => STRING
    case List(_, _, _) => LIST
    case Compound(_, _) => COMPOUND
    case IntArray(_, _) => INT_ARRAY
  }

  /** The value-initialised tag a parser returns when the type byte it is
      handed is not its own: no name, zero payload, no children. */
  function Default(kind: uint8): (t: Tag)
    requires Implemented(kind)
    ensures TypeId(t) == kind && t.name == ""
  {
    if kind == BYTE then Byte("", 0)
    else if kind == SHORT then Short("", 0)
    else if kind == INT then Int("", 0)
    else if kind == LONG then Long("", 0)
    else if kind == FLOAT then Float("", 0)
    else if kind == DOUBLE then Double("", 0)
    else if kind == BYTE_ARRAY then ByteArray("", [])
    else if kind == STRING then String("", "")
    else if kind == LIST then List("", END, [])
    else if kind == COMPOUND then Compound("", [])
    else IntArray("", [])
  }

  /** The first child called key, as a by-name lookup in a compound finds it. */
  function Lookup(children: seq<Tag>, key: string): (r: Option<Tag>)
    ensures r.None? <==> forall i :: 0 <= i < |children| ==> children[i].name != key
    ensures r.Some? ==> exists i :: 0 <= i < |children| && children[i] == r.value
                                   && r.value.name == key
                                   && forall j :: 0 <= j < i ==> children[j].name != key
  {
    if children == [] then None
    else if children[0].name == key then Some(children[0])
    else
      var r := Lookup(children[1..], key);
      assert forall i :: 1 <= i < |children| ==> children[i] == children[1..][i - 1];
      r
  }
}
