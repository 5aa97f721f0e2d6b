/** The NBT parsers as they run: a cursor moved forward one byte per read
    (`data[++c]`), names and payloads accumulated byte by byte, the list
    loop counting its elements and the compound loop running to an END
    byte. Each parser is proved to compute what NbtDecode says it does. */
module NbtParser {
  import opened Bytes
  import opened Tags
  import opened NbtDecode

  /** Two bytes after the cursor, high byte first: `tmp |= data[++c]<<8; tmp |= data[++c]`. */
  method ReadUint16(data: seq<uint8>, c0: nat) returns (u: nat, c: nat)
    requires c0 + 2 < |data|
    ensures ReadWord(data, c0, 2) == Ok(u, c)
  {
    c := c0;
    c := c + 1;
    u := data[c] as int * 0x100;
    c := c + 1;
    u := u + data[c];
    BigEndian2(data[c0 + 1 .. c0 + 3]);
  }

  /** Four bytes after the cursor, high byte first. */
  method ReadUint32(data: seq<uint8>, c0: nat) returns (u: nat, c: nat)
    requires c0 + 4 < |data|
    ensures ReadWord(data, c0, 4) == Ok(u, c)
  {
    c := c0;
    c := c + 1;
    u := data[c] as int * 0x100_0000;
    c := c + 1;
    u := u + data[c] as int * 0x1_0000;
    c := c + 1;
    u := u + data[c] as int * 0x100;
    c := c + 1;
    u := u + data[c];
    BigEndian4(data[c0 + 1 .. c0 + 5]);
  }

  /** Eight bytes after the cursor, high byte first. */
  method ReadUint64(data: seq<uint8>, c0: nat) returns (u: nat, c: nat)
    requires c0 + 8 < |data|
    ensures ReadWord(data, c0, 8) == Ok(u, c)
  {
    var hi, lo;
    hi, c := ReadUint32(data, c0);
    lo, c := ReadUint32(data, c);
    u := hi * 0x1_0000_0000 + lo;
    BigEndian8(data[c0 + 1 .. c0 + 9]);
    BigEndian4(data[c0 + 1 .. c0 + 5]);
    BigEndian4(data[c0 + 5 .. c0 + 9]);
  }

  /** The name prologue every parser shares: an int16_t length from two
      bytes, then that many bytes appended to the name one at a time. */
  method ParseName(data: seq<uint8>, c0: nat) returns (name: string, c: nat)
    requires c0 < |data| && DecodeName(data, c0, true).Ok?
    ensures DecodeName(data, c0, true) == Ok(name, c)
  {
    var u;
    u, c := ReadUint16(data, c0);
    Pow256Values();
    var size := Signed(u, 2);
    name := "";
    var i := 0;
    while i < size
      invariant 0 <= i <= size && c == c0 + 2 + i
      invariant name == Text(data[c0 + 3 .. c0 + 3 + i])
    {
      c := c + 1;
      name := name + [data[c] as char];
      i := i + 1;
    }
  }

  /** parse_byte ... parse_double after the name. The source ORs shifted
      bytes together; here the same word is summed, as the bytes occupy
      disjoint bit ranges. FLOAT and DOUBLE keep the bit pattern they would
      cast. */
  method ParseScalar(data: seq<uint8>, c0: nat, kind: uint8, name: string) returns (tag: Tag, c: nat)
    requires c0 < |data| && BYTE <= kind <= DOUBLE && DecodeScalar(data, c0, kind, name).Ok?
    ensures DecodeScalar(data, c0, kind, name) == Ok(tag, c)
  {
    Pow256Values();
    var u;
    if kind == BYTE {
      c := c0 + 1;
      u := data[c];
      assert data[c0 + 1 .. c0 + 2][..0] == [];
    } else if kind == SHORT {
      u, c := ReadUint16(data, c0);
    } else if kind == INT || kind == FLOAT {
      u, c := ReadUint32(data, c0);
    } else {
      u, c := ReadUint64(data, c0);
    }
    if kind == BYTE {
      tag := Byte(name, Signed(u, 1));
    } else if kind == SHORT {
      tag := Short(name, Signed(u, 2));
    } else if kind == INT {
      tag := Int(name, Signed(u, 4));
    } else if kind == LONG {
      tag := Long(name, Signed(u, 8));
    } else if kind == FLOAT {
      tag := Float(name, u);
    } else {
      tag := Double(name, u);
    }
  }

  /** parse_byte_array after the name: the count, then one Byte per byte. */
  method ParseByteArray(data: seq<uint8>, c0: nat, name: string) returns (tag: Tag, c: nat)
    requires c0 < |data| && DecodeByteArray(data, c0, name).Ok?
    ensures DecodeByteArray(data, c0, name) == Ok(tag, c)
  {
    Pow256Values();
    var count;
    count, c := ReadUint32(data, c0);
    var bytes: seq<int8> := [];
    var i := 0;
    while i < count
      invariant 0 <= i <= count && c == c0 + 4 + i
      invariant bytes == SignedBytes(data[c0 + 5 .. c0 + 5 + i])
    {
      c := c + 1;
      bytes := bytes + [Signed(data[c], 1)];
      i := i + 1;
    }
    tag := ByteArray(name, bytes);
  }

  /** parse_string after the name: a uint16_t length, then that many bytes. */
  method ParseString(data: seq<uint8>, c0: nat, name: string) returns (tag: Tag, c: nat)
    requires c0 < |data| && DecodeString(data, c0, name).Ok?
    ensures DecodeString(data, c0, name) == Ok(tag, c)
  {
    var size;
    size, c := ReadUint16(data, c0);
    var text := "";
    var i := 0;
    while i < size
      invariant 0 <= i <= size && c == c0 + 2 + i
      invariant text == Text(data[c0 + 3 .. c0 + 3 + i])
    {
      c := c + 1;
      text := text + [data[c] as char];
      i := i + 1;
    }
    tag := String(name, text);
  }

  /** parse_int_array after the name: the count only. */
  method ParseIntArray(data: seq<uint8>, c0: nat, name: string) returns (tag: Tag, c: nat)
    requires c0 < |data| && DecodeIntArray(data, c0, name).Ok?
    ensures DecodeIntArray(data, c0, name) == Ok(tag, c)
  {
    var count;
    count, c := ReadUint32(data, c0);
    tag := IntArray(name, []);
  }

  /** parse_list after the name: the element type, the count, and one
      anonymous element per turn of the loop when the type has a parser. */
  method ParseList(data: seq<uint8>, c0: nat, name: string) returns (tag: Tag, c: nat)
    requires c0 < |data| && DecodeList(data, c0, name).Ok?
    ensures DecodeList(data, c0, name) == Ok(tag, c)
    decreases |data| - c0, 1
  {
    c := c0 + 1;
    var elemType := data[c];
    var count;
    count, c := ReadUint32(data, c);
    var items: seq<Tag> := [];
    var i := 0;
    while i < count
      invariant 0 <= i <= count && c0 + 5 <= c < |data|
      invariant DecodeItems(data, c, elemType, count - i, items) == DecodeItems(data, c0 + 5, elemType, count, [])
    {
      items, c := ParseElement(data, c, elemType, count - i, items);
      i := i + 1;
    }
    tag := List(name, elemType, items);
  }

  /** The switch in the list loop on the element type: an anonymous
      element is read and appended, or, for a type without a parser,
      nothing is read and nothing appended. */
  method ParseElement(data: seq<uint8>, c0: nat, elemType: uint8, remaining: nat, items: seq<Tag>)
    returns (items': seq<Tag>, c: nat)
    requires c0 < |data| && 0 < remaining && DecodeItems(data, c0, elemType, remaining, items).Ok?
    ensures c0 <= c < |data|
    ensures DecodeItems(data, c, elemType, remaining - 1, items') == DecodeItems(data, c0, elemType, remaining, items)
    decreases |data| - c0, 3
  {
    if Implemented(elemType) {
      ItemsStep(data, c0, elemType, remaining, items);
      var item;
      item, c := ParseTag(data, c0, elemType, false, false);
      items' := items + [item];
    } else {
      ItemsSkip(data, c0, elemType, remaining, items);
      items', c := items, c0;
    }
  }

  /** parse_compound after the name: `while (data[++c] != END)`, one
      member (or one skipped byte) per turn. */
  method ParseCompound(data: seq<uint8>, c0: nat, name: string) returns (tag: Tag, c: nat)
    requires c0 < |data| && DecodeCompound(data, c0, name).Ok?
    ensures DecodeCompound(data, c0, name) == Ok(tag, c)
    decreases |data| - c0, 1
  {
    var children: seq<Tag> := [];
    c := c0 + 1;
    while data[c] != END
      invariant c0 < c < |data|
      invariant DecodeEntries(data, c - 1, children) == DecodeEntries(data, c0, [])
      decreases |data| - c
    {
      children, c := ParseMember(data, c, children);
      c := c + 1;
    }
    EntriesEnd(data, c - 1, children);
    tag := Compound(name, children);
  }

  /** The switch in the compound loop on the type byte at the cursor: a
      named member of that type is read and appended, and a byte without
      a parser is left behind with nothing appended. */
  method ParseMember(data: seq<uint8>, c0: nat, children: seq<Tag>) returns (children': seq<Tag>, c: nat)
    requires 0 < c0 < |data| && data[c0] != END && DecodeEntries(data, c0 - 1, children).Ok?
    ensures c0 <= c < |data| && DecodeEntries(data, c, children') == DecodeEntries(data, c0 - 1, children)
    decreases |data| - c0, 3
  {
    var kind := data[c0];
    if Implemented(kind) {
      EntriesStep(data, c0 - 1, children);
      var child;
      child, c := ParseTag(data, c0, kind, true, true);
      children' := children + [child];
    } else {
      EntriesSkip(data, c0 - 1, children);
      children', c := children, c0;
    }
  }

  /** One parse_* function: the type check, the name, then the payload. */
  method ParseTag(data: seq<uint8>, c0: nat, kind: uint8, hasTag: bool, hasName: bool) returns (tag: Tag, c: nat)
    requires c0 < |data| && Implemented(kind) && DecodeTag(data, c0, kind, hasTag, hasName).Ok?
    ensures DecodeTag(data, c0, kind, hasTag, hasName) == Ok(tag, c)
    decreases |data| - c0, 2
  {
    c := c0;
    if hasTag && data[c] != kind {
      return Default(kind), c;
    }
    var name := "";
    if hasName {
      name, c := ParseName(data, c);
    }
    TagStep(data, c0, kind, hasTag, hasName);
    if kind <= DOUBLE {
      tag, c := ParseScalar(data, c, kind, name);
    } else if kind == BYTE_ARRAY {
      tag, c := ParseByteArray(data, c, name);
    } else if kind == STRING {
      tag, c := ParseString(data, c, name);
    } else if kind == LIST {
      tag, c := ParseList(data, c, name);
    } else if kind == COMPOUND {
      tag, c := ParseCompound(data, c, name);
    } else {
      tag, c := ParseIntArray(data, c, name);
    }
  }

  /** parse_nbt: parse_compound with a type byte and a name; the cursor is
      taken by value, so only the tag comes back. */
  method ParseNbt(data: seq<uint8>, cursor: nat) returns (root: Tag)
    requires DecodeNbt(data, cursor).Ok?
    ensures DecodeNbt(data, cursor).value == root
  {
    var c;
    root, c := ParseTag(data, cursor, COMPOUND, true, true);
  }
}
