# Voxelator: NBT decoder and Anvil region loader

This is a Dafny model of the two parts of Voxelator that turn Minecraft world files into voxels.

- **The NBT tag-tree decoder.** `parse_nbt` and its eleven `parse_*` functions walk a byte buffer with a shared cursor. Each reads an optional type byte and an optional name, then a payload, and returns a tree of `Tags::*` values. A twelfth, `parse_end`, is declared but never defined or called.
- **The Anvil region loader.** `MapLoader::load` reads the 1024-entry location and timestamp tables of a region file. For each populated slot it reads the chunk blob, decompresses it when it is zlib-compressed, and parses it as NBT. It then copies every 16×16×16 section of the level's "Sections" list into a flat 65536-entry block buffer, with rows flipped and sections stacked top first.

The files, in dependency order:

- `Bytes.dfy`: fixed-width integers, big-endian word assembly, two's-complement readings, bytes as chars.
- `Tags.dfy`: the type ids, the `Tag` tree, the default tag a parser returns on a type mismatch, and by-name lookup in a compound.
- `NbtDecode.dfy`: what each parser computes, as functions of the buffer and the cursor. The cursor convention is the source's: it is the index of the last consumed byte, and every read takes the byte after it. Reads past the end of the buffer and negative name lengths are results (`ReadPastEnd`, `NegativeNameLength`), not preconditions.
- `NbtEncode.dfy`: an NBT writer and the round trip. Decoding the encoding of any well-formed tree gives the tree back and leaves the cursor on its last byte.
- `NbtParser.dfy`: the parsers as the source runs them. The cursor is advanced one byte per read, names and arrays are built in loops, the list loop counts its elements and the compound loop runs to END. Each method is proved to return what the matching `NbtDecode` function says.
- `DoubleBits.dfy`: the word `parse_double` assembles, as written (see Findings).
- `RegionFormat.dfy`: the byte swap, the location and timestamp entries, the blob header, the section transform, and what each slot holds after a load.
- `MapLoader.dfy`: `MC::Region` as a class with three fixed-size arrays, and the loader's loops: the two table loops, the two diagnostic maxima, the zero fill, the section loop and the `_z`/`_y`/`_x` copy nest.

Some details of what the code does, which the model follows:

- A compound member whose type byte has no parser is skipped one byte at a time, because the loop condition `data[++c]` advances the cursor.
- A compound leaves the cursor on its END byte.
- The level is the first child of the root (`data[0]`); the loader does not look up "Level" by name.
- The loader writes voxel (x, y, z) of the section at height index Y to `(15-Y)*4096 + (15-y)*256 + z*16 + x`.
- The return code of `uncompress` is ignored.
- `loaded` is set before any section is copied.
- `MapLoader.hpp` declares `load(filename, offset_x, offset_y)` and a `regions` grid. `MapLoader.cpp` defines `load(filename)` over the fields of a single `MC::Region`. The model follows the `.cpp`, on one `Region`.

## Model

| member | source | states |
|---|---|---|
| Bytes.BigEndianRoundTrip | src/NBTParser/NBTParser.cpp:139-143 | Reading back the big-endian bytes of any value below 256^width gives that value. |
| Bytes.ToUint8 | src/MapLoader/MapLoader.cpp:107 | Converting an int8 block id to uint8_t gives the byte whose two's-complement reading is that id. |
| Tags.TypeId | src/NBTParser/NBTParser.hpp:8-22 | A tag's type id is END exactly for End tags, and it is an id with a parser exactly for every other tag. |
| Tags.Default | src/NBTParser/NBTParser.cpp:31-37 | A parser handed the wrong type byte returns an unnamed tag of its own type. |
| Tags.Lookup | src/MapLoader/MapLoader.cpp:79 | Lookup by name finds nothing exactly when no child has that name; otherwise it finds the first child with that name. |
| NbtDecode.ReadWord | src/NBTParser/NBTParser.cpp:323-327 | A width-byte read succeeds exactly when the buffer holds the width bytes after the cursor; the cursor moves by width and the value is below 256^width. |
| NbtDecode.SignedBytes | src/NBTParser/NBTParser.cpp:329-333 | Each Byte of a Byte_Array holds the int8 whose uint8_t conversion is the file byte. |
| NbtDecode.DecodeName | src/NBTParser/NBTParser.cpp:41-56 | Without a name the cursor stays put. With a name: a length n below 0x8000, then n name bytes, leaving the cursor on the last one. A length of 0x8000 or more (negative as int16_t) is an error. |
| NbtDecode.DecodeTag | src/NBTParser/NBTParser.cpp:26-64 | A parser returns a tag of its own type. It leaves the cursor where it was exactly when the type byte does not match, and then returns the default tag. It is unnamed when read without a name. A compound ends on an END byte. |
| NbtDecode.DecodeScalar | src/NBTParser/NBTParser.cpp:98-100 | The scalar parsers succeed exactly when 1, 2, 4, 4, 8 or 8 bytes follow (byte, short, int, float, long, double), and the tag has the right type and name. |
| NbtDecode.DecodeByteArray | src/NBTParser/NBTParser.cpp:323-332 | A four-byte count n, then n bytes. Each element converts back to its byte, and the cursor ends on the last one. |
| NbtDecode.DecodeString | src/NBTParser/NBTParser.cpp:379-385 | A two-byte unsigned length n, then n chars equal to the n following bytes. |
| NbtDecode.DecodeList | src/NBTParser/NBTParser.cpp:424-487 | The list records the element-type byte. It has as many unnamed elements of that type as the count says when the type has a parser, and none otherwise; in that case the cursor stays on the count's last byte. |
| NbtDecode.DecodeCompound | src/NBTParser/NBTParser.cpp:527-571 | A compound ends on an END byte after its name, and all its members have types with a parser. |
| NbtDecode.DecodeIntArray | src/NBTParser/NBTParser.cpp:607-618 | It succeeds exactly when four count bytes follow. The array is always empty and the cursor ends on the count. |
| NbtDecode.DecodeItems | src/NBTParser/NBTParser.cpp:436-487 | The element loop keeps what it has and appends `remaining` unnamed elements of the element type. For a type without a parser it appends nothing and does not move. |
| NbtDecode.DecodeEntries | src/NBTParser/NBTParser.cpp:527-568 | The member loop keeps what it has, appends only members whose types have a parser, and stops on an END byte. |
| NbtDecode.UnknownBytesSkipped | src/NBTParser/NBTParser.cpp:563-567 | A run of k bytes that are neither END nor a parsed type id, followed by END, is stepped over one byte at a time, and no member is added. |
| NbtDecode.UnknownElementType | src/NBTParser/NBTParser.cpp:482-485 | A list whose element type has no parser adds no element and does not move the cursor, whatever its count. |
| NbtDecode.ScalarTag | src/NBTParser/NBTParser.cpp:58-284 | The tag read from a scalar word has the requested kind and name; NbtEncode.ScalarBitsRoundTrip shows it inverts the written word (two's complement for the integers, the bit pattern for float and double). |
| NbtDecode.DecodePayload | src/NBTParser/NBTParser.cpp:528-561 | The member switch's dispatch: a payload of a kind with a parser ends after the cursor, inside the buffer, as a tag of that kind with the given name; a compound ends on an END byte. |
| NbtDecode.DecodeNbt | src/NBTParser/NBTParser.cpp:20-22 | parse_nbt returns a compound. With no COMPOUND byte at the cursor it returns the empty default compound; otherwise the compound ends on an END byte. |
| NbtEncode.ScalarBitsRoundTrip | src/NBTParser/NBTParser.cpp:182-190 | The tag read from the word a scalar tag is written as is that tag: two's complement for the integers, the bit pattern for float and double. |
| NbtEncode.ReadWordRoundTrip | src/NBTParser/NBTParser.cpp:139-143 | A word written big-endian after the cursor is read back as the same value, with the cursor on its last byte. |
| NbtEncode.NameRoundTrip | src/NBTParser/NBTParser.cpp:41-56 | A written name is read back, with the cursor on its last byte. |
| NbtEncode.ScalarRoundTrip | src/NBTParser/NBTParser.cpp:58 | A written byte, short, int, long, float or double payload is read back as the same tag. |
| NbtEncode.ByteArrayRoundTrip | src/NBTParser/NBTParser.cpp:323-332 | A written Byte_Array payload is read back as the same tag. |
| NbtEncode.StringRoundTrip | src/NBTParser/NBTParser.cpp:379-385 | A written String payload is read back as the same tag. |
| NbtEncode.IntArrayRoundTrip | src/NBTParser/NBTParser.cpp:607-618 | A written (empty) Int_Array payload is read back as the same tag. |
| NbtEncode.ListHeaderRoundTrip | src/NBTParser/NBTParser.cpp:424-434 | A written list starts with its element type, then its element count, then its elements. |
| NbtEncode.ListRoundTrip | src/NBTParser/NBTParser.cpp:393-493 | A written list payload is read back as the same list. |
| NbtEncode.CompoundRoundTrip | src/NBTParser/NBTParser.cpp:495-574 | A written compound payload, closed by END, is read back as the same compound. |
| NbtEncode.PayloadRoundTrip | src/NBTParser/NBTParser.cpp:26-619 | The payload of any well-formed tag is read back as that tag by the parser of its type. |
| NbtEncode.AnonymousTagRoundTrip | src/NBTParser/NBTParser.cpp:437-440 | A list element written as a bare payload is read back by the element parser without a type byte or a name. |
| NbtEncode.NamedTagRoundTrip | src/NBTParser/NBTParser.cpp:529-531 | A compound member written as type byte, name and payload is read back by the parser of its type. |
| NbtEncode.ItemsRoundTrip | src/NBTParser/NBTParser.cpp:436-487 | The element loop reads back every written element, in order. |
| NbtEncode.FirstItemRoundTrip | src/NBTParser/NBTParser.cpp:437-440 | The first written element is read back, and the rest of the encoding follows it. |
| NbtEncode.EntriesRoundTrip | src/NBTParser/NBTParser.cpp:527-568 | The member loop reads back every written member, in order, and stops on the END that follows them. |
| NbtEncode.FirstMemberRoundTrip | src/NBTParser/NBTParser.cpp:528-531 | The first written member is read back, and the rest of the members follow it. |
| NbtEncode.NbtRoundTrip | src/NBTParser/NBTParser.cpp:20-22 | parse_nbt on a written named root compound, whatever follows it, returns that compound with the cursor on its END byte. |
| NbtParser.ReadUint16 | src/NBTParser/NBTParser.cpp:98-100 | The two `data[++c]` reads assemble the big-endian word and leave the cursor on its last byte. |
| NbtParser.ReadUint32 | src/NBTParser/NBTParser.cpp:139-143 | The four `data[++c]` reads assemble the big-endian word and leave the cursor on its last byte. |
| NbtParser.ReadUint64 | src/NBTParser/NBTParser.cpp:182-190 | The eight `data[++c]` reads assemble the big-endian word and leave the cursor on its last byte. |
| NbtParser.ParseName | src/NBTParser/NBTParser.cpp:41-56 | The name loop appends one byte per turn and returns DecodeName's name and cursor. |
| NbtParser.ParseScalar | src/NBTParser/NBTParser.cpp:229-235 | The scalar parsers return DecodeScalar's tag and cursor. |
| NbtParser.ParseByteArray | src/NBTParser/NBTParser.cpp:323-333 | The byte loop returns DecodeByteArray's tag and cursor. |
| NbtParser.ParseString | src/NBTParser/NBTParser.cpp:379-385 | The char loop returns DecodeString's tag and cursor. |
| NbtParser.ParseIntArray | src/NBTParser/NBTParser.cpp:607-618 | parse_int_array returns DecodeIntArray's tag and cursor. |
| NbtParser.ParseList | src/NBTParser/NBTParser.cpp:393-493 | The counted element loop returns DecodeList's tag and cursor. |
| NbtParser.ParseElement | src/NBTParser/NBTParser.cpp:437-486 | One turn of the element switch consumes one step of DecodeItems and moves the cursor only forward. |
| NbtParser.ParseCompound | src/NBTParser/NBTParser.cpp:495-574 | The loop to END returns DecodeCompound's tag and cursor. |
| NbtParser.ParseMember | src/NBTParser/NBTParser.cpp:528-567 | One turn of the member switch consumes one step of DecodeEntries and moves the cursor only forward. |
| NbtParser.ParseTag | src/NBTParser/NBTParser.cpp:26-64 | The type check, name and payload of a parser return DecodeTag's tag and cursor. |
| NbtParser.ParseNbt | src/NBTParser/NBTParser.cpp:20-22 | parse_nbt returns DecodeNbt's compound. |
| DoubleBits.DoubleAsWrittenCounterexample | src/NBTParser/NBTParser.cpp:274-284 | As written, an all-zero double payload ORed into a variable holding 1 gives the pattern 1. |
| DoubleBits.DoubleAsWrittenZero | src/NBTParser/NBTParser.cpp:274-282 | With the variable initialised to 0, the ORed word is the payload. |
| RegionFormat.HostBytesWord | src/MapLoader/MapLoader.cpp:24 | The int a little-endian host reads from four file bytes holds those bytes, lowest first. |
| RegionFormat.InvertEndian | src/MapLoader/MapLoader.cpp:8-15 | invert_endian puts the four bytes of its argument in reverse order. |
| RegionFormat.InvertEndianInvolution | src/MapLoader/MapLoader.cpp:8-15 | invert_endian applied twice gives its argument back. |
| RegionFormat.InvertHostWord | src/MapLoader/MapLoader.cpp:31-33 | Swapping the host reading of four file bytes gives their big-endian value. |
| RegionFormat.SizeAsWrittenAgrees | src/MapLoader/MapLoader.cpp:25 | As written, the size is the sector count times 4096 while the count is below 128. |
| RegionFormat.SizeAsWrittenWraps | src/MapLoader/MapLoader.cpp:25 | As written, from 128 sectors on the size is 2^32 − (256 − count)·4096, which is not the count times 4096. |
| RegionFormat.DecodeLocation | src/MapLoader/MapLoader.cpp:22-27 | A location entry is a 3-byte big-endian sector offset and a 1-byte sector count, each times 4096. |
| RegionFormat.LocationTable | src/MapLoader/MapLoader.cpp:22-27 | Entry i of the location table is bytes 4i..4i+2 read big-endian times 4096 for the offset, and byte 4i+3 times 4096 for the size. |
| RegionFormat.DecodeTimestamp | src/MapLoader/MapLoader.cpp:29-34 | A timestamp entry is the four file bytes read big-endian. |
| RegionFormat.TimestampTable | src/MapLoader/MapLoader.cpp:29-34 | Entry i of the timestamp table is the four bytes at 4096 + 4i read big-endian. |
| RegionFormat.PopulatedEntry | src/MapLoader/MapLoader.cpp:52-55 | A slot is read exactly when one of its three offset bytes is non-zero and its size byte is non-zero. |
| RegionFormat.Extent | src/MapLoader/MapLoader.cpp:45-46 | Offset plus size in unsigned int is their sum whenever that sum fits. |
| RegionFormat.BlobLength | src/MapLoader/MapLoader.cpp:60 | A blob's length field is its first four bytes read big-endian. |
| RegionFormat.Capacity | src/MapLoader/MapLoader.cpp:63 | The output buffer is fifty times the length whenever that fits a uint32_t. |
| RegionFormat.CompressedInput | src/MapLoader/MapLoader.cpp:65-70 | The compressed stream is the `length - 1` blob bytes after the compression byte. |
| RegionFormat.SectionOf | src/MapLoader/MapLoader.cpp:90-98 | A section is found only in a compound whose "Y" is a Byte in [0, 16) and whose "Blocks" is a Byte_Array of at least 4096 ids, and it holds those two values. |
| RegionFormat.SectionOfUsable | src/MapLoader/MapLoader.cpp:90-98 | Conversely, every compound with such a "Y" and such a "Blocks" is a usable section with that height index and those ids. |
| RegionFormat.ApplySection | src/MapLoader/MapLoader.cpp:100-110 | Copying a section keeps the buffer's 65536 entries and changes none outside the 4096-entry band of its height index. |
| RegionFormat.ApplySections | src/MapLoader/MapLoader.cpp:89-111 | The section loop keeps the buffer's 65536 entries; what each entry then holds is in UncoveredUnchanged and LastSectionWins. |
| RegionFormat.SourceIndexInvolution | src/MapLoader/MapLoader.cpp:105-106 | Flipping the rows twice is the identity, so a section's 4096 ids and its 4096 buffer entries correspond one to one. |
| RegionFormat.SectionPlacement | src/MapLoader/MapLoader.cpp:100-107 | After a section is copied, voxel (x, y, z) is at `(15-Y)*4096 + (15-y)*256 + z*16 + x`, inside the section's 4096-entry band. It holds id `y*256 + z*16 + x` as uint8_t. |
| RegionFormat.SectionsCommute | src/MapLoader/MapLoader.cpp:89-111 | Sections with different Y write disjoint bands, so copying them in either order gives the same buffer. |
| RegionFormat.SectionsStep | src/MapLoader/MapLoader.cpp:89-111 | One turn of the section loop changes a position exactly when that turn's section covers it. |
| RegionFormat.UncoveredUnchanged | src/MapLoader/MapLoader.cpp:84-111 | A position that no usable section covers keeps its value, so in the zeroed buffer it stays 0. |
| RegionFormat.LastSectionWins | src/MapLoader/MapLoader.cpp:89-111 | A covered position holds the id from the last usable section that covers it. |
| RegionFormat.ChunkSections | src/MapLoader/MapLoader.cpp:71-82 | The section list is found only when the chunk decodes and its first child is a compound holding a "Sections" list; it is that list's elements. |
| RegionFormat.ChunkSectionsFound | src/MapLoader/MapLoader.cpp:71-82 | Conversely, a chunk that decodes, whose first child is a compound holding a "Sections" list, yields that list's elements. |
| RegionFormat.SlotChunk | src/MapLoader/MapLoader.cpp:50-114 | A slot is loaded exactly when it is populated, its blob is zlib-compressed and its decompressed level has a "Sections" list. A loaded slot holds ApplySections of that list on 65536 zeroes; an unloaded slot keeps its old blocks. |
| MapLoader.TurnOfTarget | src/MapLoader/MapLoader.cpp:102-105 | The loop turn `z*256 + y*16 + x` writes the buffer entry `(15-y)*256 + z*16 + x` of the band, and no other entry. |
| MapLoader.CopyStep | src/MapLoader/MapLoader.cpp:105-107 | One turn of the copy nest writes the target entry from the source id and leaves all else alone. |
| MapLoader.CopySection | src/MapLoader/MapLoader.cpp:100-110 | The `_z`/`_y`/`_x` nest leaves the buffer equal to ApplySection of the section on the old buffer. |
| MapLoader.LevelSections | src/MapLoader/MapLoader.cpp:71-82 | Parsing the decompressed chunk and looking up "Sections" in its first child gives ChunkSections. |
| MapLoader.BuildBlocks | src/MapLoader/MapLoader.cpp:84-111 | The zero fill and the section loop give ApplySections of the list on 65536 zeroes. |
| MapLoader.Region.constructor | src/MapLoader/MapLoader.hpp:23-27 | A fresh region has 1024 zeroed locations and timestamps and 1024 empty, unloaded chunks. |
| MapLoader.Region.ReadLocations | src/MapLoader/MapLoader.cpp:22-27 | The location loop fills the table with the 1024 decoded entries. |
| MapLoader.Region.ReadTimestamps | src/MapLoader/MapLoader.cpp:29-34 | The timestamp loop fills the table with the 1024 entries after the location table, read big-endian. |
| MapLoader.Region.LargestTimestamp | src/MapLoader/MapLoader.cpp:36-40 | The result is at least every timestamp, and it is one of them unless it is the initial 0. |
| MapLoader.Region.LargestExtent | src/MapLoader/MapLoader.cpp:43-47 | The result is at least every offset + size, and it is one of them unless it is the initial 0. |
| MapLoader.Region.LoadSlot | src/MapLoader/MapLoader.cpp:50-114 | One turn of the slot loop sets slot i to SlotChunk and leaves every other slot alone. |
| MapLoader.Region.Load | src/MapLoader/MapLoader.cpp:17-117 | An unopenable file changes nothing. Otherwise both tables are read, every slot is SlotChunk of its old blocks, and the two results are the largest timestamp and the largest extent: each bounds every entry and is one of them unless it is 0. |

## Left out

- Console output (`std::cout` and `std::wcout` in every parser and in `load`) is not modelled. The two maxima that `load` prints are returned by `Region.Load` instead.
- The `len` argument of the parsers, which the source never reads, is not modelled.
- The `indent` argument of the parsers, which only affects printing, is not modelled.
- The parsers' heap copies (`new auto(t)`) and the leaked chunk and blob buffers are not modelled. Tags are values.
- Float and double values are not modelled, because Dafny has no IEEE-754 type. A Float keeps the bit pattern `parse_float` reinterprets. A Double keeps the eight payload bytes as one word, the corrected value of the second Findings row; `parse_double` reinterprets that word ORed into an uninitialised variable.
- zlib's `uncompress` is not modelled. It is the function parameter `inflate`, given the compressed stream and the output capacity. What it leaves in the buffer is whatever `inflate` returns; that covers an ignored failure.
- File I/O is not modelled. The region file is a byte sequence, and a file that cannot be opened is `None`.
- Region.Load requires RegionFile: both tables lie in the file, every offset's top byte is below 8, and every populated blob lies in the file. For a zlib-compressed blob the length field is at least 1, and the `length - 1` compressed bytes it declares (blob bytes 5 to 4 + length) lie inside the blob. Outside this the source mostly reads uninitialised memory, overflows an int multiply or hands zlib a length past its buffer, which is undefined behaviour. The precondition also excludes some files the source reads without fault. One is a blob cut short by the end of the file when no populated slot comes after it and the bytes the loader uses were all read. Another is a declared `length - 1` that runs past the blob while zlib stops inside it.
- Region.ReadLocations fills the table with the corrected size of Findings row 1, the count byte read unsigned. For a count byte of 0x80 or more the source's table, the file size it prints and the blob it reads all differ; RegionFile does not exclude such entries.
- Several loader inputs are undefined behaviour in the source and are modelled as skips:
  - an undecodable chunk, a root without children and a first child that is not a compound leave the slot unloaded;
  - a "Sections" that is not a List leaves the slot unloaded;
  - a list element that is not a compound, a "Y" that is not a Byte or lies outside [0, 16), and a "Blocks" that is not a Byte_Array or has fewer than 4096 ids cause the section to be skipped.

  A missing "Y", "Blocks" or "Sections" is a skip in the source as well.
- RegionFormat.SlotChunk sets the `loaded` flag together with the final buffer. The source sets it before copying the sections, a difference no later reader can observe.
- The lookup operator `(*compound)["key"]` is used by the loader but is not defined in either header. Tags.Lookup takes the first child with the name and returns None where the operator would throw.
- NbtParser methods require their NbtDecode function to succeed. Reads past the end of the buffer and negative name lengths are undefined behaviour in the source, and they are the error results of the NbtDecode functions.
- Lists and Byte_Arrays with more than 2^31 elements are not modelled apart. The source counts their elements with an `int` loop counter, which would overflow (undefined behaviour); the model counts to the full `uint32_t` count.
- Tags.Default gives a mismatched List the element type END. The source leaves `list_type` uninitialised in that case.
- Region.constructor gives zeroed tables and empty, unloaded chunks. `MapLoader.hpp:23-27` declares these members without initialisers, so they hold those values only when the region is value-initialised and are indeterminate otherwise. Region.Load overwrites both tables and every `loaded` flag, so no later reader sees the difference.
- The `MapLoader` constructor and destructor, the `regions` grid and the header's `offset_x`/`offset_y` parameters are not modelled, because the `.cpp` does not use them.

## Findings

| source | as written | input that shows it | evidently intended | confidence | as-written member | corrected member |
|---|---|---|---|---|---|---|
| src/MapLoader/MapLoader.cpp:25 | `(tmp>>24)*4096` shifts a signed `int`, so a sector count of 128 or more is read as negative, and the store into `uint32_t` wraps it | location bytes `00 00 02 80`: 4294443008 instead of 524288 | the count byte unsigned: `count * 4096` | not executed | RegionFormat.SizeAsWrittenWraps | RegionFormat.DecodeLocation |
| src/NBTParser/NBTParser.cpp:274 | `uint64_t tmp;` is never initialised before the eight payload bytes are ORed into it | an all-zero double payload over a variable holding 1 gives pattern 1 | `uint64_t tmp = 0;`, as in parse_float | not executed | DoubleBits.DoubleAsWrittenCounterexample | NbtEncode.ScalarBitsRoundTrip |
