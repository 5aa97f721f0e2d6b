/** What the NBT parsers compute, as functions of the byte buffer and the
    cursor. A cursor is the index of the last byte already consumed: on
    entry it is on the type byte (or on the byte before the payload when
    there is no type byte) and every read takes the byte after it; on
    return it is on the last byte the tag used. */
module NbtDecode {
  import opened Bytes
  import opened Tags

  /** The outcome of a read: the value and the index of its last byte, or
      one of the two inputs on which the parsers' behaviour is undefined:
      a read past the end of the buffer (the parsers never look at the
      length they are given), or a name length of 0x8000 or more, which the
      parsers hold in an int16_t and use as the size of a local array. */
  datatype Decoded<T> = Ok(value: T, last: nat) | ReadPastEnd | NegativeNameLength
  {
    function Fail<U>(): (r: Decoded<U>)
      requires !Ok?
      ensures !r.Ok? && r.ReadPastEnd? == ReadPastEnd?
    {
      if ReadPastEnd? then ReadPastEnd else NegativeNameLength
    }
  }

  /** The width bytes after the cursor, high byte first. */
  function ReadWord(data: seq<uint8>, c: nat, width: nat): (r: Decoded<nat>)
    ensures r.Ok? <==> c + width < |data|
    ensures r.Ok? ==> r.last == c + width && r.value < Pow256(width)
  {
    if c + width < |data| then Ok(BigEndian(data[c + 1 .. c + 1 + width]), c + width) else ReadPastEnd
  }

  /** The int8 values of a run of bytes, as a Byte tag stores each of them. */
  function SignedBytes(bytes: seq<uint8>): (r: seq<int8>)
    ensures |r| == |bytes|
    ensures forall i :: 0 <= i < |bytes| ==> ToUint8(r[i]) == bytes[i]
  {
    Pow256Values();
    seq(|bytes|, i requires 0 <= i < |bytes| => Signed(bytes[i], 1))
  }

  /** The optional name: a two-byte big-endian length n, then n name bytes. */
  function DecodeName(data: seq<uint8>, c: nat, hasName: bool): (r: Decoded<string>)
    requires c < |data|
    ensures r.Ok? ==> c <= r.last < |data| && IsByteText(r.value)
    ensures !hasName ==> r == Ok("", c)
    ensures hasName && r.Ok? ==>
              c + 2 < |data| &&
              var n := BigEndian(data[c + 1 .. c + 3]);
              && n < 0x8000 && r.last == c + 2 + n && |r.value| == n
              && forall i :: 0 <= i < n ==> r.value[i] as int == data[c + 3 + i]
    ensures hasName && r.NegativeNameLength? ==> c + 2 < |data| && BigEndian(data[c + 1 .. c + 3]) >= 0x8000
  {
    if !hasName then Ok("", c)
    else
      var size := ReadWord(data, c, 2);
      if !size.Ok? then size.Fail()
      else if size.value >= 0x8000 then NegativeNameLength
      else if size.last + size.value < |data| then
        Ok(Text(data[size.last + 1 .. size.last + 1 + size.value]), size.last + size.value)
      else ReadPastEnd
  }

  /** parse_byte ... parse_int_array: the type check, the name, then the payload. */
  function DecodeTag(data: seq<uint8>, c: nat, kind: uint8, hasTag: bool, hasName: bool): (r: Decoded<Tag>)
    requires c < |data| && Implemented(kind)
    ensures r.Ok? ==> c <= r.last < |data| && TypeId(r.value) == kind
    ensures r.Ok? ==> (r.last == c <==> hasTag && data[c] != kind)
    ensures r.Ok? && !hasName ==> r.value.name == ""
    ensures hasTag && data[c] != kind ==> r == Ok(Default(kind), c)
    ensures r.Ok? && kind == COMPOUND && r.last != c ==> data[r.last] == END
    decreases |data| - c, 3, 0
  {
    if hasTag && data[c] != kind then Ok(Default(kind), c)
    else
      var name := DecodeName(data, c, hasName);
      if !name.Ok? then name.Fail()
      else DecodePayload(data, name.last, kind, name.value)
  }

  /** The payload of a tag of the given kind, after its name. */
  function DecodePayload(data: seq<uint8>, c: nat, kind: uint8, name: string): (r: Decoded<Tag>)
    requires c < |data| && Implemented(kind)
    ensures r.Ok? ==> c < r.last < |data| && TypeId(r.value) == kind && r.value.name == name
    ensures r.Ok? && kind == COMPOUND ==> data[r.last] == END
    decreases |data| - c, 2, 0
  {
    if kind <= DOUBLE then DecodeScalar(data, c, kind, name)
    else if kind == BYTE_ARRAY then DecodeByteArray(data, c, name)
    else if kind == STRING then DecodeString(data, c, name)
    else if kind == LIST then DecodeList(data, c, name)
    else if kind == COMPOUND then DecodeCompound(data, c, name)
    else DecodeIntArray(data, c, name)
  }

  /** The payload width of the fixed-size kinds BYTE ... DOUBLE. */
  function Width(kind: uint8): (w: nat)
    requires BYTE <= kind <= DOUBLE
    ensures 1 <= w <= 8
  {
    if kind == BYTE then 1
    else if kind == SHORT then 2
    else if kind == INT || kind == FLOAT then 4
    else 8
  }

  /** The tag a fixed-size payload u of the given kind stands for: the
      integer kinds read it as two's complement, FLOAT keeps the bit
      pattern, and so does DOUBLE. */
  function ScalarTag(kind: uint8, name: string, u: nat): (t: Tag)
    requires BYTE <= kind <= DOUBLE && u < Pow256(Width(kind))
    ensures TypeId(t) == kind && t.name == name
  {
    Pow256Values();
    if kind == BYTE then Byte(name, Signed(u, 1))
    else if kind == SHORT then Short(name, Signed(u, 2))
    else if kind == INT then Int(name, Signed(u, 4))
    else if kind == LONG then Long(name, Signed(u, 8))
    else if kind == FLOAT then Float(name, u)
    else Double(name, u)
  }

  /** parse_byte, parse_short, parse_int, parse_long, parse_float and
      parse_double after the name: one big-endian word of Width(kind) bytes. */
  function DecodeScalar(data: seq<uint8>, c: nat, kind: uint8, name: string): (r: Decoded<Tag>)
    requires c < |data| && BYTE <= kind <= DOUBLE
    ensures r.Ok? <==> c + Width(kind) < |data|
    ensures r.Ok? ==> r.last == c + Width(kind) && TypeId(r.value) == kind && r.value.name == name
  {
    var w := ReadWord(data, c, Width(kind));
    if !w.Ok? then w.Fail() else Ok(ScalarTag(kind, name, w.value), w.last)
  }

  /** parse_byte_array after the name: a four-byte count n, then n bytes. */
  function DecodeByteArray(data: seq<uint8>, c: nat, name: string): (r: Decoded<Tag>)
    requires c < |data|
    ensures r.Ok? ==>
              c + 4 < |data| &&
              var n := BigEndian(data[c + 1 .. c + 5]);
              && c + 4 + n < |data|
              && r.last == c + 4 + n && r.value.ByteArray? && r.value.name == name && |r.value.bytes| == n
              && forall i :: 0 <= i < n ==> ToUint8(r.value.bytes[i]) == data[c + 5 + i]
  {
    var count := ReadWord(data, c, 4);
    if !count.Ok? then count.Fail()
    else if count.last + count.value < |data| then
      Ok(ByteArray(name, SignedBytes(data[count.last + 1 .. count.last + 1 + count.value])),
         count.last + count.value)
    else ReadPastEnd
  }

  /** parse_string after the name: a two-byte unsigned length n, then n bytes. */
  function DecodeString(data: seq<uint8>, c: nat, name: string): (r: Decoded<Tag>)
    requires c < |data|
    ensures r.Ok? ==>
              c + 2 < |data| &&
              var n := BigEndian(data[c + 1 .. c + 3]);
              && c + 2 + n < |data|
              && r.last == c + 2 + n && r.value.String? && r.value.name == name && |r.value.text| == n
              && forall i :: 0 <= i < n ==> r.value.text[i] as int == data[c + 3 + i]
  {
    var size := ReadWord(data, c, 2);
    if !size.Ok? then size.Fail()
    else if size.last + size.value < |data| then
      Ok(String(name, Text(data[size.last + 1 .. size.last + 1 + size.value])), size.last + size.value)
    else ReadPastEnd
  }

  /** parse_list after the name: the element type byte, a four-byte count,
      then the elements. */
  function DecodeList(data: seq<uint8>, c: nat, name: string): (r: Decoded<Tag>)
    requires c < |data|
    ensures r.Ok? ==> c + 5 <= r.last < |data| && r.value.List? && r.value.name == name
    ensures r.Ok? ==>
              var elemType := data[c + 1];
              && r.value.listType == elemType
              && |r.value.items| == (if Implemented(elemType) then BigEndian(data[c + 2 .. c + 6]) else 0)
              && (forall i :: 0 <= i < |r.value.items| ==>
                    TypeId(r.value.items[i]) == elemType && r.value.items[i].name == "")
              && (!Implemented(elemType) ==> r.last == c + 5)
    decreases |data| - c, 1, 0
  {
    if c + 1 >= |data| then ReadPastEnd
    else
      var elemType := data[c + 1];
      var count := ReadWord(data, c + 1, 4);
      if !count.Ok? then count.Fail()
      else
        var items := DecodeItems(data, count.last, elemType, count.value, []);
        if !items.Ok? then items.Fail() else Ok(List(name, elemType, items.value), items.last)
  }

  /** parse_compound after the name: the members up to an END byte. */
  function DecodeCompound(data: seq<uint8>, c: nat, name: string): (r: Decoded<Tag>)
    requires c < |data|
    ensures r.Ok? ==> c < r.last < |data| && r.value.Compound? && r.value.name == name
    ensures r.Ok? ==> data[r.last] == END
    ensures r.Ok? ==> forall i :: 0 <= i < |r.value.children| ==> Implemented(TypeId(r.value.children[i]))
    decreases |data| - c, 1, 0
  {
    var entries := DecodeEntries(data, c, []);
    if !entries.Ok? then entries.Fail() else Ok(Compound(name, entries.value), entries.last)
  }

  /** parse_int_array after the name: a four-byte count, and no elements. */
  function DecodeIntArray(data: seq<uint8>, c: nat, name: string): (r: Decoded<Tag>)
    requires c < |data|
    ensures r.Ok? <==> c + 4 < |data|
    ensures r.Ok? ==> r == Ok(IntArray(name, []), c + 4)
  {
    var count := ReadWord(data, c, 4);
    if !count.Ok? then count.Fail() else Ok(IntArray(name, []), count.last)
  }

  /** The element loop of parse_list: `remaining` more anonymous elements of
      elemType, appended to acc. An element type without a parser adds
      nothing and leaves the cursor where it is, on every iteration. */
  function DecodeItems(data: seq<uint8>, c: nat, elemType: uint8, remaining: nat, acc: seq<Tag>)
    : (r: Decoded<seq<Tag>>)
    requires c < |data|
    ensures r.Ok? ==> c <= r.last < |data| && |acc| <= |r.value| && r.value[..|acc|] == acc
    ensures r.Ok? ==> |r.value| == |acc| + if Implemented(elemType) then remaining else 0
    ensures r.Ok? ==> forall i :: |acc| <= i < |r.value| ==>
                        TypeId(r.value[i]) == elemType && r.value[i].name == ""
    ensures r.Ok? && !Implemented(elemType) ==> r.last == c
    decreases |data| - c, 4, remaining
  {
    if remaining == 0 then Ok(acc, c)
    else if !Implemented(elemType) then DecodeItems(data, c, elemType, remaining - 1, acc)
    else
      var item := DecodeTag(data, c, elemType, false, false);
      if !item.Ok? then item.Fail()
      else DecodeItems(data, item.last, elemType, remaining - 1, acc + [item.value])
  }

  /** The member loop of parse_compound: take the next byte as a type id;
      stop on END, skip a byte without a parser, otherwise read a named,
      typed member and append it to acc. */
  function DecodeEntries(data: seq<uint8>, c: nat, acc: seq<Tag>): (r: Decoded<seq<Tag>>)
    requires c < |data|
    ensures r.Ok? ==> c < r.last < |data| && data[r.last] == END
    ensures r.Ok? ==> |acc| <= |r.value| && r.value[..|acc|] == acc
    ensures r.Ok? ==> forall i :: |acc| <= i < |r.value| ==> Implemented(TypeId(r.value[i]))
    decreases |data| - c, 0, 0
  {
    if c + 1 >= |data| then ReadPastEnd
    else if data[c + 1] == END then Ok(acc, c + 1)
    else if !Implemented(data[c + 1]) then DecodeEntries(data, c + 1, acc)
    else
      var child := DecodeTag(data, c + 1, data[c + 1], true, true);
      if !child.Ok? then child.Fail()
      else DecodeEntries(data, child.last, acc + [child.value])
  }

  /** One turn of the element loop: an element of a parsed type is read
      without a type byte or a name and appended. */
  lemma ItemsStep(data: seq<uint8>, c: nat, elemType: uint8, remaining: nat, acc: seq<Tag>)
    requires c < |data| && 0 < remaining && Implemented(elemType)
    ensures var item := DecodeTag(data, c, elemType, false, false);
            item.Ok? ==> DecodeItems(data, c, elemType, remaining, acc)
                         == DecodeItems(data, item.last, elemType, remaining - 1, acc + [item.value])
  {
  }

  /** One turn of the element loop for a type without a parser: nothing happens. */
  lemma ItemsSkip(data: seq<uint8>, c: nat, elemType: uint8, remaining: nat, acc: seq<Tag>)
    requires c < |data| && 0 < remaining && !Implemented(elemType)
    ensures DecodeItems(data, c, elemType, remaining, acc) == DecodeItems(data, c, elemType, remaining - 1, acc)
  {
  }

  /** One turn of the member loop on a byte with a parser: a named member
      whose type byte is that byte is read and appended. */
  lemma EntriesStep(data: seq<uint8>, c: nat, acc: seq<Tag>)
    requires c + 1 < |data| && Implemented(data[c + 1])
    ensures var child := DecodeTag(data, c + 1, data[c + 1], true, true);
            child.Ok? ==> DecodeEntries(data, c, acc) == DecodeEntries(data, child.last, acc + [child.value])
  {
  }

  /** One turn of the member loop on a byte without a parser: it is stepped over. */
  lemma EntriesSkip(data: seq<uint8>, c: nat, acc: seq<Tag>)
    requires c + 1 < |data| && data[c + 1] != END && !Implemented(data[c + 1])
    ensures DecodeEntries(data, c, acc) == DecodeEntries(data, c + 1, acc)
  {
  }

  /** The member loop stops on an END byte. */
  lemma EntriesEnd(data: seq<uint8>, c: nat, acc: seq<Tag>)
    requires c + 1 < |data| && data[c + 1] == END
    ensures DecodeEntries(data, c, acc) == Ok(acc, c + 1)
  {
  }

  /** A tag whose type byte matches (or is absent) is its name followed by its payload. */
  lemma TagStep(data: seq<uint8>, c: nat, kind: uint8, hasTag: bool, hasName: bool)
    requires c < |data| && Implemented(kind) && (hasTag ==> data[c] == kind)
    ensures var name := DecodeName(data, c, hasName);
            name.Ok? ==> DecodeTag(data, c, kind, hasTag, hasName) == DecodePayload(data, name.last, kind, name.value)
  {
  }

  /** A run of k bytes that are neither END nor a parsed type id, then
      END: the member loop steps over each of them, one byte at a time, and
      stops on the END byte without adding a member. */
  lemma {:induction false} UnknownBytesSkipped(data: seq<uint8>, c: nat, k: nat, acc: seq<Tag>)
    requires c + 1 + k < |data| && data[c + 1 + k] == END
    requires forall j :: c + 1 <= j < c + 1 + k ==> data[j] != END && !Implemented(data[j])
    ensures DecodeEntries(data, c, acc) == Ok(acc, c + 1 + k)
    decreases k
  {
    if k > 0 {
      UnknownBytesSkipped(data, c + 1, k - 1, acc);
    }
  }

  /** A list whose element type has no parser: however large its count,
      no element is added and the cursor stays after the count. */
  lemma {:induction false} UnknownElementType(data: seq<uint8>, c: nat, elemType: uint8, remaining: nat, acc: seq<Tag>)
    requires c < |data| && !Implemented(elemType)
    ensures DecodeItems(data, c, elemType, remaining, acc) == Ok(acc, c)
    decreases remaining
  {
    if remaining > 0 {
      UnknownElementType(data, c, elemType, remaining - 1, acc);
    }
  }

  /** parse_nbt: a named compound with its type byte at the cursor. */
  function DecodeNbt(data: seq<uint8>, cursor: nat): (r: Decoded<Tag>)
    ensures r.Ok? ==> r.value.Compound? && cursor <= r.last < |data|
    ensures r.Ok? && data[cursor] != COMPOUND ==> r == Ok(Compound("", []), cursor)
    ensures r.Ok? && data[cursor] == COMPOUND ==> data[r.last] == END
  {
    if cursor < |data| then DecodeTag(data, cursor, COMPOUND, true, true) else ReadPastEnd
  }
}
