/** The NBT writer the decoder is the inverse of, and the round trip:
    every tag tree the decoder can reproduce comes back from its encoding,
    with the cursor on the last byte of that encoding. */
module NbtEncode {
  import opened Bytes
  import opened Tags
  import opened NbtDecode

  /** A name that fits the two-byte length the decoder reads into an int16_t. */
  predicate ValidName(name: string) {
    |name| < 0x8000 && IsByteText(name)
  }

  /** The trees the decoder can reproduce. END has no parser, so no End tag;
      lengths fit their prefixes; list elements are anonymous tags of the
      list's element type, which has a parser unless the list is empty;
      members of a compound have valid names; and an Int_Array is empty,
      since its parser reads the count but not the elements. */
  predicate WellFormed(t: Tag) {
    match t
    case End(_) => false
    case ByteArray(_, bytes) => |bytes| < 0x1_0000_0000
    case String(_, text) => |text| < 0x1_0000 && IsByteText(text)
    case List(_, elemType, items) =>
      && |items| < 0x1_0000_0000
      && (items == [] || Implemented(elemType))
      && forall i :: 0 <= i < |items| ==>
           items[i].name == "" && TypeId(items[i]) == elemType && WellFormed(items[i])
    case Compound(_, children) =>
      forall i :: 0 <= i < |children| ==> ValidName(children[i].name) && WellFormed(children[i])
    case IntArray(_, ints) => ints == []
    case _ => true
  }

  function EncodeName(name: string): (bytes: seq<uint8>)
    requires ValidName(name)
    ensures |bytes| == 2 + |name|
  {
    Pow256Values();
    ToBigEndian(|name|, 2) + TextBytes(name)
  }

  function UnsignedBytes(values: seq<int8>): (bytes: seq<uint8>)
    ensures |bytes| == |values|
  {
    seq(|values|, i requires 0 <= i < |values| => ToUint8(values[i]))
  }

  /** The fixed-size payload of a BYTE ... DOUBLE tag as an unsigned word. */
  function ScalarBits(t: Tag): (u: nat)
    requires BYTE <= TypeId(t) <= DOUBLE
    ensures u < Pow256(Width(TypeId(t)))
  {
    Pow256Values();
    if t.Byte? then Unsigned(t.byteValue, 1)
    else if t.Short? then Unsigned(t.shortValue, 2)
    else if t.Int? then Unsigned(t.intValue, 4)
    else if t.Long? then Unsigned(t.longValue, 8)
    else if t.Float? then t.floatBits
    else t.doubleBits
  }

  /** Reading back the word of a fixed-size tag gives the tag. */
  lemma ScalarBitsRoundTrip(t: Tag)
    requires BYTE <= TypeId(t) <= DOUBLE
    ensures ScalarTag(TypeId(t), t.name, ScalarBits(t)) == t
  {
    Pow256Values();
  }

  function EncodePayload(t: Tag): (bytes: seq<uint8>)
    requires WellFormed(t)
    ensures |bytes| >= 1
    decreases t, 1
  {
    Pow256Values();
    match t
    case ByteArray(_, bytes) => ToBigEndian(|bytes|, 4) + UnsignedBytes(bytes)
    case String(_, text) => ToBigEndian(|text|, 2) + TextBytes(text)
    case List(_, elemType, items) => [elemType] + ToBigEndian(|items|, 4) + EncodeItems(items)
    case Compound(_, children) => EncodeEntries(children) + [END]
    case IntArray(_, ints) => ToBigEndian(|ints|, 4)
    case Byte(_, _) | Short(_, _) | Int(_, _) | Long(_, _) | Float(_, _) | Double(_, _) =>
      ToBigEndian(ScalarBits(t), Width(TypeId(t)))
  }

  function EncodeItems(items: seq<Tag>): seq<uint8>
    requires forall i :: 0 <= i < |items| ==> WellFormed(items[i])
    decreases items, 0
  {
    if items == [] then [] else EncodePayload(items[0]) + EncodeItems(items[1..])
  }

  /** A compound member: its type byte, its name, its payload. */
  function EncodeEntry(t: Tag): seq<uint8>
    requires ValidName(t.name) && WellFormed(t)
    decreases t, 2
  {
    [TypeId(t)] + (EncodeName(t.name) + EncodePayload(t))
  }

  function EncodeEntries(children: seq<Tag>): seq<uint8>
    requires forall i :: 0 <= i < |children| ==> ValidName(children[i].name) && WellFormed(children[i])
    decreases children, 0
  {
    if children == [] then [] else EncodeEntry(children[0]) + EncodeEntries(children[1..])
  }

  /** bytes lie in data right after the cursor c. */
  predicate Follows(data: seq<uint8>, c: nat, bytes: seq<uint8>) {
    c + |bytes| < |data| && data[c + 1 .. c + 1 + |bytes|] == bytes
  }

  lemma FollowsSplit(data: seq<uint8>, c: nat, a: seq<uint8>, b: seq<uint8>)
    requires Follows(data, c, a + b)
    ensures Follows(data, c, a) && Follows(data, c + |a|, b)
  {
    assert data[c + 1 .. c + 1 + |a|] == (a + b)[..|a|];
    assert data[c + |a| + 1 .. c + |a| + 1 + |b|] == (a + b)[|a|..];
  }

  lemma AppendAssociates(a: seq<uint8>, b: seq<uint8>, c: seq<uint8>)
    ensures (a + b) + c == a + (b + c)
  {
  }

  lemma ReadWordRoundTrip(data: seq<uint8>, c: nat, v: nat, width: nat)
    requires v < Pow256(width) && Follows(data, c, ToBigEndian(v, width))
    ensures ReadWord(data, c, width) == Ok(v, c + width)
  {
    BigEndianRoundTrip(v, width);
  }

  lemma {:induction false} NameRoundTrip(data: seq<uint8>, c: nat, name: string)
    requires ValidName(name) && Follows(data, c, EncodeName(name))
    ensures DecodeName(data, c, true) == Ok(name, c + 2 + |name|)
  {
    Pow256Values();
    FollowsSplit(data, c, ToBigEndian(|name|, 2), TextBytes(name));
    ReadWordRoundTrip(data, c, |name|, 2);
  }

  /** A list element: no type byte, no name, just the payload. */
  lemma {:induction false} AnonymousTagRoundTrip(data: seq<uint8>, c: nat, t: Tag)
    requires WellFormed(t) && t.name == "" && Follows(data, c, EncodePayload(t))
    ensures DecodeTag(data, c, TypeId(t), false, false) == Ok(t, c + |EncodePayload(t)|)
    decreases t, 2
  {
    PayloadRoundTrip(data, c, t);
    TagStep(data, c, TypeId(t), false, false);
  }

  /** A compound member: its type byte at the cursor, then its name and payload. */
  lemma {:induction false} NamedTagRoundTrip(data: seq<uint8>, c: nat, t: Tag)
    requires WellFormed(t) && ValidName(t.name)
    requires Follows(data, c, EncodeName(t.name) + EncodePayload(t)) && data[c] == TypeId(t)
    ensures DecodeTag(data, c, TypeId(t), true, true)
            == Ok(t, c + |EncodeName(t.name)| + |EncodePayload(t)|)
    decreases t, 2
  {
    var nameBytes := EncodeName(t.name);
    var payload := EncodePayload(t);
    var next := c + |nameBytes|;
    assert DecodeName(data, c, true) == Ok(t.name, next) && Follows(data, next, payload) by {
      FollowsSplit(data, c, nameBytes, payload);
      NameRoundTrip(data, c, t.name);
    }
    PayloadRoundTrip(data, next, t);
    TagStep(data, c, TypeId(t), true, true);
  }

  lemma {:induction false} PayloadRoundTrip(data: seq<uint8>, c: nat, t: Tag)
    requires WellFormed(t) && Follows(data, c, EncodePayload(t))
    ensures DecodePayload(data, c, TypeId(t), t.name) == Ok(t, c + |EncodePayload(t)|)
    decreases t, 1
  {
    match t
    case List(_, _, _) => ListRoundTrip(data, c, t);
    case Compound(_, children) => CompoundRoundTrip(data, c, t);
    case ByteArray(_, _) => ByteArrayRoundTrip(data, c, t);
    case String(_, _) => StringRoundTrip(data, c, t);
    case IntArray(_, _) => IntArrayRoundTrip(data, c, t);
    case _ => ScalarRoundTrip(data, c, t);
  }

  lemma ScalarRoundTrip(data: seq<uint8>, c: nat, t: Tag)
    requires BYTE <= TypeId(t) <= DOUBLE
    requires WellFormed(t) && Follows(data, c, EncodePayload(t))
    ensures DecodeScalar(data, c, TypeId(t), t.name) == Ok(t, c + |EncodePayload(t)|)
  {
    var kind := TypeId(t);
    assert EncodePayload(t) == ToBigEndian(ScalarBits(t), Width(kind));
    ReadWordRoundTrip(data, c, ScalarBits(t), Width(kind));
    ScalarBitsRoundTrip(t);
  }

  lemma ByteArrayRoundTrip(data: seq<uint8>, c: nat, t: Tag)
    requires t.ByteArray? && WellFormed(t) && Follows(data, c, EncodePayload(t))
    ensures DecodeByteArray(data, c, t.name) == Ok(t, c + |EncodePayload(t)|)
  {
    Pow256Values();
    var prefix := ToBigEndian(|t.bytes|, 4);
    assert EncodePayload(t) == prefix + UnsignedBytes(t.bytes);
    FollowsSplit(data, c, prefix, UnsignedBytes(t.bytes));
    ReadWordRoundTrip(data, c, |t.bytes|, 4);
    assert SignedBytes(UnsignedBytes(t.bytes)) == t.bytes;
  }

  lemma StringRoundTrip(data: seq<uint8>, c: nat, t: Tag)
    requires t.String? && WellFormed(t) && Follows(data, c, EncodePayload(t))
    ensures DecodeString(data, c, t.name) == Ok(t, c + |EncodePayload(t)|)
  {
    Pow256Values();
    var prefix := ToBigEndian(|t.text|, 2);
    assert EncodePayload(t) == prefix + TextBytes(t.text);
    FollowsSplit(data, c, prefix, TextBytes(t.text));
    ReadWordRoundTrip(data, c, |t.text|, 2);
  }

  lemma IntArrayRoundTrip(data: seq<uint8>, c: nat, t: Tag)
    requires t.IntArray? && WellFormed(t) && Follows(data, c, EncodePayload(t))
    ensures DecodeIntArray(data, c, t.name) == Ok(t, c + |EncodePayload(t)|)
  {
    Pow256Values();
    assert EncodePayload(t) == ToBigEndian(0, 4);
  }

  lemma {:induction false} ListRoundTrip(data: seq<uint8>, c: nat, t: Tag)
    requires t.List? && WellFormed(t) && Follows(data, c, EncodePayload(t))
    ensures DecodeList(data, c, t.name) == Ok(t, c + |EncodePayload(t)|)
    decreases t, 0
  {
    ListHeaderRoundTrip(data, c, t);
    ItemsRoundTrip(data, c + 5, t.listType, t.items, []);
  }

  /** The element type and the count of an encoded list, and where its elements lie. */
  lemma ListHeaderRoundTrip(data: seq<uint8>, c: nat, t: Tag)
    requires t.List? && WellFormed(t) && Follows(data, c, EncodePayload(t))
    ensures c + 1 < |data| && data[c + 1] == t.listType
    ensures ReadWord(data, c + 1, 4) == Ok(|t.items|, c + 5)
    ensures |EncodePayload(t)| == 5 + |EncodeItems(t.items)| && Follows(data, c + 5, EncodeItems(t.items))
    ensures (t.items == [] || Implemented(t.listType)) && ListElements(t.items, t.listType)
  {
    Pow256Values();
    var count := ToBigEndian(|t.items|, 4);
    var itemBytes := EncodeItems(t.items);
    assert EncodePayload(t) == [t.listType] + count + itemBytes;
    FollowsSplit(data, c, [t.listType] + count, itemBytes);
    FollowsSplit(data, c, [t.listType], count);
    assert data[c + 1 .. c + 2] == [t.listType];
    ReadWordRoundTrip(data, c + 1, |t.items|, 4);
  }

  lemma {:induction false} CompoundRoundTrip(data: seq<uint8>, c: nat, t: Tag)
    requires t.Compound? && WellFormed(t) && Follows(data, c, EncodePayload(t))
    ensures DecodeCompound(data, c, t.name) == Ok(t, c + |EncodePayload(t)|)
    decreases t, 0
  {
    assert EncodePayload(t) == EncodeEntries(t.children) + [END];
    EntriesRoundTrip(data, c, t.children, []);
  }

  /** The elements a list of elemType may hold. */
  predicate ListElements(items: seq<Tag>, elemType: uint8) {
    forall i :: 0 <= i < |items| ==>
      items[i].name == "" && TypeId(items[i]) == elemType && WellFormed(items[i])
  }

  /** The members a compound may hold. */
  predicate Members(children: seq<Tag>) {
    forall i :: 0 <= i < |children| ==> ValidName(children[i].name) && WellFormed(children[i])
  }

  lemma {:induction false} ItemsRoundTrip(data: seq<uint8>, c: nat, elemType: uint8, items: seq<Tag>, acc: seq<Tag>)
    requires (items == [] || Implemented(elemType)) && ListElements(items, elemType)
    requires Follows(data, c, EncodeItems(items))
    ensures DecodeItems(data, c, elemType, |items|, acc) == Ok(acc + items, c + |EncodeItems(items)|)
    decreases items, 1
  {
    if items == [] {
      assert acc + items == acc;
    } else {
      var next := FirstItemRoundTrip(data, c, elemType, items);
      assert ListElements(items[1..], elemType) by {
        assert forall i :: 0 <= i < |items| - 1 ==> items[1..][i] == items[i + 1];
      }
      ItemsRoundTrip(data, next, elemType, items[1..], acc + [items[0]]);
      ItemsStep(data, c, elemType, |items|, acc);
      AppendFirst(acc, items);
    }
  }

  /** The first element of a non-empty list decodes, and the others follow it. */
  lemma {:induction false} FirstItemRoundTrip(data: seq<uint8>, c: nat, elemType: uint8, items: seq<Tag>)
    returns (next: nat)
    requires items != [] && ListElements(items, elemType)
    requires Follows(data, c, EncodeItems(items))
    ensures next == c + |EncodePayload(items[0])| && |EncodeItems(items)| == |EncodePayload(items[0])| + |EncodeItems(items[1..])|
    ensures Follows(data, next, EncodeItems(items[1..]))
    ensures DecodeTag(data, c, elemType, false, false) == Ok(items[0], next)
    decreases items, 0
  {
    next := FirstItemLayout(data, c, elemType, items);
    AnonymousTagRoundTrip(data, c, items[0]);
  }

  /** Where the first element and the rest of a list lie. */
  lemma FirstItemLayout(data: seq<uint8>, c: nat, elemType: uint8, items: seq<Tag>) returns (next: nat)
    requires items != [] && ListElements(items, elemType)
    requires Follows(data, c, EncodeItems(items))
    ensures next == c + |EncodePayload(items[0])| && |EncodeItems(items)| == |EncodePayload(items[0])| + |EncodeItems(items[1..])|
    ensures Follows(data, c, EncodePayload(items[0])) && Follows(data, next, EncodeItems(items[1..]))
    ensures WellFormed(items[0]) && items[0].name == "" && TypeId(items[0]) == elemType
  {
    var firstBytes := EncodePayload(items[0]);
    next := c + |firstBytes|;
    assert EncodeItems(items) == firstBytes + EncodeItems(items[1..]);
    FollowsSplit(data, c, firstBytes, EncodeItems(items[1..]));
  }

  lemma {:induction false} EntriesRoundTrip(data: seq<uint8>, c: nat, children: seq<Tag>, acc: seq<Tag>)
    requires Members(children)
    requires Follows(data, c, EncodeEntries(children) + [END])
    ensures DecodeEntries(data, c, acc) == Ok(acc + children, c + |EncodeEntries(children)| + 1)
    decreases children, 1
  {
    if children == [] {
      EndRoundTrip(data, c, acc);
    } else {
      var next := FirstMemberRoundTrip(data, c, children);
      MembersTail(children);
      EntriesRoundTrip(data, next, children[1..], acc + [children[0]]);
      EntriesStep(data, c, acc);
      AppendFirst(acc, children);
    }
  }

  /** The END byte closes a compound with no more members. */
  lemma EndRoundTrip(data: seq<uint8>, c: nat, acc: seq<Tag>)
    requires Follows(data, c, EncodeEntries([]) + [END])
    ensures DecodeEntries(data, c, acc) == Ok(acc + [], c + |EncodeEntries([])| + 1)
  {
    assert data[c + 1 .. c + 2] == [END];
    assert acc + [] == acc;
  }

  lemma MembersTail(children: seq<Tag>)
    requires children != [] && Members(children)
    ensures Members(children[1..])
  {
    assert forall i :: 0 <= i < |children| - 1 ==> children[1..][i] == children[i + 1];
  }

  lemma AppendFirst(acc: seq<Tag>, s: seq<Tag>)
    requires s != []
    ensures acc + [s[0]] + s[1..] == acc + s
  {
    assert [s[0]] + s[1..] == s;
  }

  /** The first member of a non-empty compound decodes, and the others follow it. */
  lemma {:induction false} FirstMemberRoundTrip(data: seq<uint8>, c: nat, children: seq<Tag>)
    returns (next: nat)
    requires children != [] && Members(children)
    requires Follows(data, c, EncodeEntries(children) + [END])
    ensures c + 1 < |data| && data[c + 1] == TypeId(children[0])
    ensures next == c + |EncodeEntry(children[0])|
    ensures |EncodeEntries(children)| == |EncodeEntry(children[0])| + |EncodeEntries(children[1..])|
    ensures Follows(data, next, EncodeEntries(children[1..]) + [END])
    ensures DecodeTag(data, c + 1, TypeId(children[0]), true, true) == Ok(children[0], next)
    decreases children, 0
  {
    next := FirstMemberLayout(data, c, children);
    NamedTagRoundTrip(data, c + 1, children[0]);
  }

  /** Where the type byte, the name and payload, and the rest of a compound lie. */
  lemma FirstMemberLayout(data: seq<uint8>, c: nat, children: seq<Tag>) returns (next: nat)
    requires children != [] && Members(children)
    requires Follows(data, c, EncodeEntries(children) + [END])
    ensures c + 1 < |data| && data[c + 1] == TypeId(children[0])
    ensures next == c + |EncodeEntry(children[0])|
    ensures |EncodeEntries(children)| == |EncodeEntry(children[0])| + |EncodeEntries(children[1..])|
    ensures Follows(data, c + 1, EncodeName(children[0].name) + EncodePayload(children[0]))
    ensures Follows(data, next, EncodeEntries(children[1..]) + [END])
    ensures ValidName(children[0].name) && WellFormed(children[0])
  {
    var child := children[0];
    var kind := TypeId(child);
    var body := EncodeName(child.name) + EncodePayload(child);
    var tail := EncodeEntries(children[1..]) + [END];
    next := c + 1 + |body|;
    assert EncodeEntries(children) == ([kind] + body) + EncodeEntries(children[1..]);
    AppendAssociates([kind] + body, EncodeEntries(children[1..]), [END]);
    FollowsSplit(data, c, [kind] + body, tail);
    FollowsSplit(data, c, [kind], body);
    assert data[c + 1 .. c + 2] == [kind];
  }

  /** parse_nbt on an encoded named root compound, whatever follows it. */
  lemma NbtRoundTrip(root: Tag, rest: seq<uint8>)
    requires root.Compound? && ValidName(root.name) && WellFormed(root)
    ensures DecodeNbt(EncodeEntry(root) + rest, 0) == Ok(root, |EncodeEntry(root)| - 1)
  {
    var body := EncodeName(root.name) + EncodePayload(root);
    var data := EncodeEntry(root) + rest;
    assert data[0] == COMPOUND;
    assert data[1 .. 1 + |body|] == body;
    NamedTagRoundTrip(data, 0, root);
  }
}
