/** What the Anvil region loader computes from the bytes of a region file:
    the 32-bit byte swap, the location and timestamp tables of the 8 KiB
    header, the header of a chunk blob, and the placement of a 16x16x16
    section into the flat 65536-entry block buffer of a chunk. */
module RegionFormat {
  import opened Bytes
  import opened Tags
  import opened NbtDecode

  const SLOTS: nat := 1024
  const SECTOR: nat := 4096
  const SECTION_VOLUME: nat := 4096
  const CHUNK_VOLUME: nat := 65536
  /** The compression byte of a zlib-compressed blob. */
  const ZLIB: uint8 := 2

  /** An entry of the location table, both fields in bytes. */
  datatype Location = Location(offset: uint32, size: uint32)

  /** A chunk slot of a region: its block ids and whether they were loaded. */
  datatype Chunk = Chunk(blocks: seq<uint8>, loaded: bool)

  /** The int a little-endian host reads from four bytes of the file, as a
      32-bit pattern. */
  function HostWord(b: seq<uint8>): (w: uint32)
    requires |b| == 4
  {
    b[0] as int + b[1] as int * 0x100 + b[2] as int * 0x1_0000 + b[3] as int * 0x100_0000
  }

  /** The bytes of a 32-bit pattern in memory order on a little-endian host. */
  function HostBytes(w: uint32): (b: seq<uint8>)
    ensures |b| == 4
  {
    [w % 0x100, w / 0x100 % 0x100, w / 0x1_0000 % 0x100, w / 0x100_0000]
  }

  lemma HostBytesWord(b: seq<uint8>)
    requires |b| == 4
    ensures HostBytes(HostWord(b)) == b
  {
    var w := HostWord(b);
    assert w / 0x100 == b[1] as int + b[2] as int * 0x100 + b[3] as int * 0x1_0000;
    assert w / 0x1_0000 == b[2] as int + b[3] as int * 0x100;
  }

  lemma HostWordBytes(w: uint32)
    ensures HostWord(HostBytes(w)) == w
  {
    assert w == w % 0x100 + w / 0x100 * 0x100;
    assert w / 0x100 == w / 0x100 % 0x100 + w / 0x1_0000 * 0x100;
    assert w / 0x1_0000 == w / 0x1_0000 % 0x100 + w / 0x100_0000 * 0x100;
  }

  /** invert_endian on a 32-bit value: each byte masked out and shifted to
      the mirrored position; the masked bytes occupy disjoint bits, so the
      ORs are sums. */
  function InvertEndian(a: uint32): (r: uint32)
    ensures HostBytes(r) == [HostBytes(a)[3], HostBytes(a)[2], HostBytes(a)[1], HostBytes(a)[0]]
  {
    var r := (a % 0x100) * 0x100_0000 + (a / 0x100 % 0x100) * 0x1_0000
             + (a / 0x1_0000 % 0x100) * 0x100 + a / 0x100_0000;
    assert r == HostWord([a / 0x100_0000, a / 0x1_0000 % 0x100, a / 0x100 % 0x100, a % 0x100]);
    HostBytesWord([a / 0x100_0000, a / 0x1_0000 % 0x100, a / 0x100 % 0x100, a % 0x100]);
    r
  }

  /** Swapping twice gives the value back. */
  lemma InvertEndianInvolution(a: uint32)
    ensures InvertEndian(InvertEndian(a)) == a
  {
    HostWordBytes(a);
    HostWordBytes(InvertEndian(InvertEndian(a)));
  }

  /** Swapping the host reading of four file bytes gives their big-endian value. */
  lemma InvertHostWord(b: seq<uint8>)
    requires |b| == 4
    ensures InvertEndian(HostWord(b)) == BigEndian(b)
  {
    HostBytesWord(b);
    var r := InvertEndian(HostWord(b));
    HostWordBytes(r);
    BigEndian4(b);
  }

  /** One entry of the location table: the int read from the file, its top
      byte shifted down (arithmetically, the int being signed) for the size
      in sectors, and its low three bytes byte-swapped and shifted for the
      offset in sectors. This is the size as written; DecodeLocation keeps
      the size the table holds. */
  function SizeAsWritten(b: seq<uint8>): (size: uint32)
    requires |b| == 4
  {
    Pow256Values();
    (Signed(HostWord(b), 4) / 0x100_0000 * SECTOR) % 0x1_0000_0000
  }

  /** The shift agrees with the sector count while the count is below 128. */
  lemma SizeAsWrittenAgrees(b: seq<uint8>)
    requires |b| == 4 && b[3] < 0x80
    ensures SizeAsWritten(b) == b[3] as int * SECTOR
  {
    Pow256Values();
    assert Signed(HostWord(b), 4) == HostWord(b);
  }

  /** From 128 sectors on, the sign bit drags the size below zero and the
      store into uint32_t wraps it to nearly 4 GiB. */
  lemma SizeAsWrittenWraps(b: seq<uint8>)
    requires |b| == 4 && b[3] >= 0x80
    ensures SizeAsWritten(b) == 0x1_0000_0000 - (0x100 - b[3] as int) * SECTOR
    ensures SizeAsWritten(b) != b[3] as int * SECTOR
  {
    Pow256Values();
    var v := Signed(HostWord(b), 4);
    assert v == HostWord(b) - 0x1_0000_0000;
    assert v == (b[3] as int - 0x100) * 0x100_0000 + (b[0] as int + b[1] as int * 0x100 + b[2] as int * 0x1_0000);
    assert v / 0x100_0000 == b[3] as int - 0x100;
  }

  /** A location table entry: three bytes of offset and one byte of size,
      both counted in 4096-byte sectors, big-endian in the file. The byte
      swap and shifts run on a host int; the first byte is kept below 8 so
      that the offset in bytes stays within an int. */
  function DecodeLocation(b: seq<uint8>): (loc: Location)
    requires |b| == 4 && b[0] < 8
    ensures loc.offset == (b[0] as int * 0x1_0000 + b[1] as int * 0x100 + b[2] as int) * SECTOR
    ensures loc.size == b[3] as int * SECTOR
  {
    var host := HostWord(b);
    assert host % 0x100_0000 == HostWord([b[0], b[1], b[2], 0]);
    InvertHostWord([b[0], b[1], b[2], 0]);
    BigEndian4([b[0], b[1], b[2], 0]);
    Location(InvertEndian(host % 0x100_0000) / 0x100 * SECTOR, host / 0x100_0000 * SECTOR)
  }

  /** A timestamp table entry: the host int byte-swapped, that is the four
      bytes read big-endian. */
  function DecodeTimestamp(b: seq<uint8>): (t: uint32)
    requires |b| == 4
    ensures t == BigEndian(b)
  {
    InvertHostWord(b);
    InvertEndian(HostWord(b))
  }

  /** The i-th four-byte entry of the header. */
  function Entry(file: seq<uint8>, i: nat): (b: seq<uint8>)
    requires 4 * i + 4 <= |file|
    ensures |b| == 4
  {
    file[4 * i .. 4 * i + 4]
  }

  /** The file holds both tables, and no offset overflows an int. */
  predicate HeaderReadable(file: seq<uint8>) {
    |file| >= 2 * SECTOR && forall i | 0 <= i < SLOTS :: Entry(file, i)[0] < 8
  }

  /** The location table: entry i is the four bytes at 4*i, three bytes of
      offset then one of size, both in sectors. */
  function LocationTable(file: seq<uint8>): (table: seq<Location>)
    requires HeaderReadable(file)
    ensures |table| == SLOTS
    ensures forall i | 0 <= i < SLOTS ::
      && table[i].offset == (file[4 * i] as int * 0x1_0000 + file[4 * i + 1] as int * 0x100 + file[4 * i + 2] as int) * SECTOR
      && table[i].size == file[4 * i + 3] as int * SECTOR
  {
    var table := seq(SLOTS, i requires 0 <= i < SLOTS => DecodeLocation(Entry(file, i)));
    assert forall i | 0 <= i < SLOTS :: table[i] == DecodeLocation(Entry(file, i));
    table
  }

  /** The timestamp table: entry i is the four bytes at 4096 + 4*i, read
      big-endian. */
  function TimestampTable(file: seq<uint8>): (table: seq<uint32>)
    requires |file| >= 2 * SECTOR
    ensures |table| == SLOTS
    ensures forall i | 0 <= i < SLOTS :: table[i] == BigEndian(file[SECTOR + 4 * i .. SECTOR + 4 * i + 4])
  {
    var table := seq(SLOTS, i requires 0 <= i < SLOTS => DecodeTimestamp(Entry(file, SLOTS + i)));
    assert forall k | 0 <= k < SLOTS :: table[k] == DecodeTimestamp(Entry(file, SLOTS + k));
    table
  }

  /** Where a chunk blob ends, summed in unsigned int. */
  function Extent(loc: Location): (end: uint32)
    ensures loc.offset + loc.size < 0x1_0000_0000 ==> end == loc.offset + loc.size
  {
    (loc.offset + loc.size) % 0x1_0000_0000
  }

  /** A header entry is populated when both its offset and its size are non-zero. */
  predicate Populated(loc: Location) {
    loc.offset != 0 && loc.size != 0
  }

  /** A location entry is populated exactly when one of its three offset
      bytes and its size byte are non-zero. */
  lemma PopulatedEntry(b: seq<uint8>)
    requires |b| == 4 && b[0] < 8
    ensures Populated(DecodeLocation(b)) <==> (b[0] != 0 || b[1] != 0 || b[2] != 0) && b[3] != 0
  {
  }

  function Blob(file: seq<uint8>, loc: Location): (blob: seq<uint8>)
    requires loc.offset + loc.size <= |file|
    ensures |blob| == loc.size
  {
    file[loc.offset .. loc.offset + loc.size]
  }

  /** The length field that opens a chunk blob: a uint32_t byte-swapped,
      that is big-endian in the file. */
  function BlobLength(blob: seq<uint8>): (n: uint32)
    requires |blob| >= 4
    ensures n == BigEndian(blob[..4])
  {
    InvertHostWord(blob[..4]);
    InvertEndian(HostWord(blob[..4]))
  }

  /** The output buffer handed to zlib: fifty times the length, in uint32_t. */
  function Capacity(length: uint32): (capacity: uint32)
    ensures length < 0x51E_B852 ==> capacity == length * 50
  {
    (length * 50) % 0x1_0000_0000
  }

  /** The compressed stream: `length - 1` bytes after the compression byte. */
  function CompressedInput(blob: seq<uint8>): (input: seq<uint8>)
    requires |blob| >= 4 && 1 <= BlobLength(blob) && 4 + BlobLength(blob) <= |blob|
    ensures |input| == BlobLength(blob) - 1
    ensures forall k :: 0 <= k < |input| ==> input[k] == blob[5 + k]
  {
    blob[5 .. 4 + BlobLength(blob)]
  }

  /** Every read the loader makes of slot i stays inside the file and
      inside its blob. */
  predicate SlotReadable(file: seq<uint8>, i: nat)
    requires HeaderReadable(file) && i < SLOTS
  {
    var loc := DecodeLocation(Entry(file, i));
    Populated(loc) ==>
      && loc.offset + loc.size <= |file|
      && (Blob(file, loc)[4] == ZLIB ==>
            1 <= BlobLength(Blob(file, loc)) && 4 + BlobLength(Blob(file, loc)) <= loc.size)
  }

  /** A region file the loader reads without undefined behaviour. */
  predicate RegionFile(file: seq<uint8>) {
    HeaderReadable(file) && forall i | 0 <= i < SLOTS :: SlotReadable(file, i)
  }

  /** A usable section: its height index and at least 4096 block ids. */
  datatype Section = Section(y: nat, ids: seq<int8>)

  predicate ValidSection(s: Section) {
    s.y < 16 && |s.ids| >= SECTION_VOLUME
  }

  /** The section a list element describes: a compound with a Byte "Y" in
      [0, 16) and a Byte_Array "Blocks" of at least 4096 ids. A missing "Y"
      or "Blocks" is skipped, as the loader skips it; every other failed
      condition would be undefined behaviour in the loader and is skipped
      here as well. */
  function SectionOf(t: Tag): (r: Option<Section>)
    ensures r.Some? ==> ValidSection(r.value) && t.Compound?
    ensures r.Some? ==> Lookup(t.children, "Y") == Some(Byte("Y", r.value.y))
    ensures r.Some? ==> Lookup(t.children, "Blocks") == Some(ByteArray("Blocks", r.value.ids))
  {
    if !t.Compound? then None
    else
      match (Lookup(t.children, "Y"), Lookup(t.children, "Blocks"))
      case (Some(Byte(_, y)), Some(ByteArray(_, ids))) =>
        if 0 <= y < 16 && |ids| >= SECTION_VOLUME then Some(Section(y, ids)) else None
      case _ => None
  }

  /** The converse of SectionOf's contract: a compound with a Byte "Y" in
      [0, 16) and a Byte_Array "Blocks" of at least 4096 ids is a usable
      section with that height index and those ids. */
  lemma SectionOfUsable(t: Tag, y: int8, ids: seq<int8>)
    requires t.Compound? && 0 <= y < 16 && |ids| >= SECTION_VOLUME
    requires Lookup(t.children, "Y") == Some(Byte("Y", y))
    requires Lookup(t.children, "Blocks") == Some(ByteArray("Blocks", ids))
    ensures SectionOf(t) == Some(Section(y as nat, ids))
  {
  }

  /** Where voxel (x, y, z) of the section at height index sy lands in the
      chunk buffer: the sections stacked top first, the rows of a section
      top first. */
  function Target(sy: nat, x: nat, y: nat, z: nat): nat
    requires sy < 16 && x < 16 && y < 16 && z < 16
  {
    (15 - sy) * SECTION_VOLUME + (15 - y) * 256 + z * 16 + x
  }

  /** The index in a section's ids that the buffer position local (within
      the section's band) is copied from. */
  function SourceIndex(local: nat): (src: nat)
    requires local < SECTION_VOLUME
    ensures src < SECTION_VOLUME
  {
    (15 - local / 256) * 256 + local % 256
  }

  /** Flipping the rows twice gives the position back, so the copy of a
      section is a bijection between its ids and its band. */
  lemma SourceIndexInvolution(local: nat)
    requires local < SECTION_VOLUME
    ensures SourceIndex(SourceIndex(local)) == local
  {
    var src := SourceIndex(local);
    assert src / 256 == 15 - local / 256;
    assert src % 256 == local % 256;
  }

  /** The buffer after the triple loop copies a section: the band of
      4096 entries of its height index holds its ids, unsigned, rows
      flipped; every other entry is unchanged. */
  function ApplySection(blocks: seq<uint8>, s: Section): (r: seq<uint8>)
    requires |blocks| == CHUNK_VOLUME && ValidSection(s)
    ensures |r| == CHUNK_VOLUME
    ensures forall k | 0 <= k < CHUNK_VOLUME && k / SECTION_VOLUME != 15 - s.y :: r[k] == blocks[k]
  {
    seq(CHUNK_VOLUME, k requires 0 <= k < CHUNK_VOLUME =>
      if k / SECTION_VOLUME == 15 - s.y then ToUint8(s.ids[SourceIndex(k % SECTION_VOLUME)])
      else blocks[k])
  }

  /** The loop body's assignment, read back from the copied buffer: voxel
      (x, y, z) of the section, at index y*256 + z*16 + x of its ids, is at
      Target, which lies in the band of its height index. */
  lemma SectionPlacement(blocks: seq<uint8>, s: Section, x: nat, y: nat, z: nat)
    requires |blocks| == CHUNK_VOLUME && ValidSection(s) && x < 16 && y < 16 && z < 16
    ensures (15 - s.y) * SECTION_VOLUME <= Target(s.y, x, y, z) < (16 - s.y) * SECTION_VOLUME
    ensures ApplySection(blocks, s)[Target(s.y, x, y, z)] == ToUint8(s.ids[y * 256 + z * 16 + x])
  {
    var t := Target(s.y, x, y, z);
    var local := (15 - y) * 256 + z * 16 + x;
    assert t / SECTION_VOLUME == 15 - s.y && t % SECTION_VOLUME == local;
    assert local / 256 == 15 - y && local % 256 == z * 16 + x;
  }

  /** Sections with different height indices write disjoint bands, so
      the order in which they are copied does not matter. */
  lemma SectionsCommute(blocks: seq<uint8>, s1: Section, s2: Section)
    requires |blocks| == CHUNK_VOLUME && ValidSection(s1) && ValidSection(s2) && s1.y != s2.y
    ensures ApplySection(ApplySection(blocks, s1), s2) == ApplySection(ApplySection(blocks, s2), s1)
  {
  }

  /** A chunk buffer of zeroes, as resize and the fill loop leave it. */
  function Zeros(): (z: seq<uint8>)
    ensures |z| == CHUNK_VOLUME && forall k :: 0 <= k < CHUNK_VOLUME ==> z[k] == 0
  {
    seq(CHUNK_VOLUME, k => 0)
  }

  /** The buffer after the loop over the "Sections" list: each usable
      section copied in list order, the others skipped. */
  function ApplySections(blocks: seq<uint8>, sections: seq<Tag>): (r: seq<uint8>)
    requires |blocks| == CHUNK_VOLUME
    ensures |r| == CHUNK_VOLUME
    decreases |sections|
  {
    if sections == [] then blocks
    else
      var previous := ApplySections(blocks, sections[..|sections| - 1]);
      match SectionOf(sections[|sections| - 1])
      case None => previous
      case Some(s) => ApplySection(previous, s)
  }

  /** Whether the list element t is a usable section whose band holds position k. */
  predicate Covers(t: Tag, k: nat) {
    SectionOf(t).Some? && k / SECTION_VOLUME == 15 - SectionOf(t).value.y
  }

  /** One turn of the section loop seen at a single position: the last
      element overwrites position k exactly when it covers k. */
  lemma SectionsStep(blocks: seq<uint8>, sections: seq<Tag>, k: nat)
    requires |blocks| == CHUNK_VOLUME && k < CHUNK_VOLUME && sections != []
    ensures var last := sections[|sections| - 1];
      ApplySections(blocks, sections)[k]
      == if Covers(last, k) then ToUint8(SectionOf(last).value.ids[SourceIndex(k % SECTION_VOLUME)])
         else ApplySections(blocks, sections[..|sections| - 1])[k]
  {
    var previous := ApplySections(blocks, sections[..|sections| - 1]);
    match SectionOf(sections[|sections| - 1])
    case None =>
      assert ApplySections(blocks, sections) == previous;
    case Some(s) =>
      assert ApplySections(blocks, sections) == ApplySection(previous, s);
  }

  /** A position no usable section covers keeps its value; in a freshly
      zeroed buffer it stays 0. */
  lemma {:induction false} UncoveredUnchanged(blocks: seq<uint8>, sections: seq<Tag>, k: nat)
    requires |blocks| == CHUNK_VOLUME && k < CHUNK_VOLUME
    requires forall i | 0 <= i < |sections| :: !Covers(sections[i], k)
    ensures ApplySections(blocks, sections)[k] == blocks[k]
    decreases |sections|
  {
    if sections != [] {
      var init := sections[..|sections| - 1];
      assert forall i | 0 <= i < |init| :: init[i] == sections[i];
      UncoveredUnchanged(blocks, init, k);
      SectionsStep(blocks, sections, k);
    }
  }

  /** A covered position holds the id of the last usable section that
      covers it: later sections with the same height index overwrite
      earlier ones. */
  lemma {:induction false} LastSectionWins(blocks: seq<uint8>, sections: seq<Tag>, i: nat, k: nat)
    requires |blocks| == CHUNK_VOLUME && k < CHUNK_VOLUME && i < |sections| && Covers(sections[i], k)
    requires forall j | i < j < |sections| :: !Covers(sections[j], k)
    ensures ApplySections(blocks, sections)[k]
         == ToUint8(SectionOf(sections[i]).value.ids[SourceIndex(k % SECTION_VOLUME)])
    decreases |sections|
  {
    SectionsStep(blocks, sections, k);
    if i < |sections| - 1 {
      var init := sections[..|sections| - 1];
      assert forall j | 0 <= j < |init| :: init[j] == sections[j];
      LastSectionWins(blocks, init, i, k);
    }
  }

  /** The "Sections" list of a decompressed chunk: the first child of the
      root (the "Level" compound) looked up by name. A missing "Sections"
      leaves the chunk unloaded, as in the loader; an input the decoder
      cannot read, a root without children, a first child that is not a
      compound and a "Sections" that is not a list would be undefined
      behaviour in the loader, and leave the chunk unloaded here. */
  function ChunkSections(nbt: seq<uint8>): (r: Option<seq<Tag>>)
    ensures r.Some? ==> DecodeNbt(nbt, 0).Ok? && |DecodeNbt(nbt, 0).value.children| > 0
    ensures r.Some? ==>
      var level := DecodeNbt(nbt, 0).value.children[0];
      level.Compound? &&
      var sections := Lookup(level.children, "Sections");
      sections.Some? && sections.value.List? && sections.value.items == r.value
  {
    var decoded := DecodeNbt(nbt, 0);
    if !decoded.Ok? || |decoded.value.children| == 0 || !decoded.value.children[0].Compound? then None
    else
      match Lookup(decoded.value.children[0].children, "Sections")
      case Some(List(_, _, items)) => Some(items)
      case _ => None
  }

  /** The converse of ChunkSections' contract: a chunk that decodes, whose
      first child is a compound holding a "Sections" list, yields that
      list's elements. */
  lemma ChunkSectionsFound(nbt: seq<uint8>, name: string, kind: uint8, items: seq<Tag>)
    requires DecodeNbt(nbt, 0).Ok? && |DecodeNbt(nbt, 0).value.children| > 0
    requires DecodeNbt(nbt, 0).value.children[0].Compound?
    requires Lookup(DecodeNbt(nbt, 0).value.children[0].children, "Sections") == Some(List(name, kind, items))
    ensures ChunkSections(nbt) == Some(items)
  {
  }

  /** What zlib's uncompress leaves in the output buffer for a compressed
      input and an output capacity. */
  type Inflate = (seq<uint8>, uint32) -> seq<uint8>

  /** Slot i after the loader's turn for it: unloaded and untouched when
      the slot is empty, the blob is not zlib-compressed or the chunk has
      no "Sections"; otherwise loaded, with a zeroed buffer and every usable
      section copied into it. */
  function SlotChunk(file: seq<uint8>, inflate: Inflate, i: nat, previous: seq<uint8>): (chunk: Chunk)
    requires RegionFile(file) && i < SLOTS
    ensures !chunk.loaded ==> chunk.blocks == previous
    ensures chunk.loaded ==> |chunk.blocks| == CHUNK_VOLUME
    ensures var loc := DecodeLocation(Entry(file, i));
      chunk.loaded <==>
        && Populated(loc) && Blob(file, loc)[4] == ZLIB
        && ChunkSections(inflate(CompressedInput(Blob(file, loc)), Capacity(BlobLength(Blob(file, loc))))).Some?
    ensures var loc := DecodeLocation(Entry(file, i));
      chunk.loaded ==>
        chunk.blocks == ApplySections(Zeros(),
          ChunkSections(inflate(CompressedInput(Blob(file, loc)), Capacity(BlobLength(Blob(file, loc))))).value)
  {
    assert SlotReadable(file, i);
    var loc := DecodeLocation(Entry(file, i));
    if !Populated(loc) then Chunk(previous, false)
    else
      var blob := Blob(file, loc);
      if blob[4] != ZLIB then Chunk(previous, false)
      else
        match ChunkSections(inflate(CompressedInput(blob), Capacity(BlobLength(blob))))
        case None => Chunk(previous, false)
        case Some(sections) => Chunk(ApplySections(Zeros(), sections), true)
  }
}
