/** The region loader as it runs: the two header tables filled entry by
    entry, the two diagnostic maxima, and for every populated slot the
    blob decompressed, parsed, and its sections copied voxel by voxel into
    a zeroed 65536-entry buffer. */
module MapLoader {
  import opened Bytes
  import opened Tags
  import opened NbtDecode
  import opened NbtParser
  import opened RegionFormat

  /** The turn of the triple loop (z outermost, x innermost) at which the
      buffer position local of a section's band is written. */
  function Turn(local: nat): (n: nat)
    requires local < SECTION_VOLUME
    ensures n < SECTION_VOLUME
  {
    (local / 16 % 16) * 256 + (15 - local / 256) * 16 + local % 16
  }

  /** Three base-16 digits determine the number they spell. */
  lemma Digits(a: nat, b: nat, c: nat, x: nat, y: nat, z: nat)
    requires a < 16 && b < 16 && c < 16 && x < 16 && y < 16 && z < 16
    requires a * 256 + b * 16 + c == z * 256 + y * 16 + x
    ensures a == z && b == y && c == x
  {
  }

  /** The turn of voxel (x, y, z) is z*256 + y*16 + x, and no other
      position of the band has that turn. */
  lemma TurnOfTarget(local: nat, x: nat, y: nat, z: nat)
    requires local < SECTION_VOLUME && x < 16 && y < 16 && z < 16
    ensures Turn(local) == z * 256 + y * 16 + x <==> local == (15 - y) * 256 + z * 16 + x
  {
    var hi, mid, lo := local / 256, local / 16 % 16, local % 16;
    assert local == hi * 256 + mid * 16 + lo;
    if Turn(local) == z * 256 + y * 16 + x {
      Digits(mid, 15 - hi, lo, x, y, z);
    }
    if local == (15 - y) * 256 + z * 16 + x {
      Digits(hi, mid, lo, x, z, 15 - y);
    }
  }

  /** The buffer after the first n turns of the triple loop. */
  ghost function Copied(original: seq<uint8>, s: Section, n: nat, k: nat): uint8
    requires |original| == CHUNK_VOLUME && ValidSection(s) && k < CHUNK_VOLUME
  {
    if k / SECTION_VOLUME == 15 - s.y && Turn(k % SECTION_VOLUME) < n
    then ToUint8(s.ids[SourceIndex(k % SECTION_VOLUME)])
    else original[k]
  }

  /** Turn z*256 + y*16 + x writes exactly one position: Target, from
      index y*256 + z*16 + x of the ids. */
  lemma CopyStep(original: seq<uint8>, s: Section, x: nat, y: nat, z: nat, n: nat)
    requires |original| == CHUNK_VOLUME && ValidSection(s)
    requires x < 16 && y < 16 && z < 16 && n == z * 256 + y * 16 + x
    ensures forall k | 0 <= k < CHUNK_VOLUME ::
      Copied(original, s, n + 1, k)
      == if k == Target(s.y, x, y, z) then ToUint8(s.ids[y * 256 + z * 16 + x])
         else Copied(original, s, n, k)
  {
    forall k | 0 <= k < CHUNK_VOLUME
      ensures Copied(original, s, n + 1, k)
           == if k == Target(s.y, x, y, z) then ToUint8(s.ids[y * 256 + z * 16 + x])
              else Copied(original, s, n, k)
    {
      CopyStepAt(original, s, x, y, z, k);
    }
  }

  lemma CopyStepAt(original: seq<uint8>, s: Section, x: nat, y: nat, z: nat, k: nat)
    requires |original| == CHUNK_VOLUME && ValidSection(s) && k < CHUNK_VOLUME
    requires x < 16 && y < 16 && z < 16
    ensures Copied(original, s, z * 256 + y * 16 + x + 1, k)
         == if k == Target(s.y, x, y, z) then ToUint8(s.ids[y * 256 + z * 16 + x])
            else Copied(original, s, z * 256 + y * 16 + x, k)
  {
    var t := Target(s.y, x, y, z);
    var local := (15 - y) * 256 + z * 16 + x;
    assert t / SECTION_VOLUME == 15 - s.y && t % SECTION_VOLUME == local;
    if k / SECTION_VOLUME == 15 - s.y {
      TurnOfTarget(k % SECTION_VOLUME, x, y, z);
      if k % SECTION_VOLUME == local {
        assert k == t;
        assert local / 256 == 15 - y && local % 256 == z * 16 + x;
      }
    }
  }

  /** After all 4096 turns the buffer is ApplySection's. */
  lemma CopyDone(original: seq<uint8>, s: Section, k: nat)
    requires |original| == CHUNK_VOLUME && ValidSection(s) && k < CHUNK_VOLUME
    ensures Copied(original, s, SECTION_VOLUME, k) == ApplySection(original, s)[k]
  {
  }

  /** The loop nest over _z, _y, _x: `blocks[offset + (15-_y)*256 + _z*16 + _x]
      = ids[_y*256 + _z*16 + _x]`, each id converted to uint8_t. */
  method CopySection(blocks: array<uint8>, s: Section)
    requires blocks.Length == CHUNK_VOLUME && ValidSection(s)
    modifies blocks
    ensures blocks[..] == ApplySection(old(blocks[..]), s)
  {
    ghost var original := blocks[..];
    var offset := (15 - s.y) * SECTION_VOLUME;
    var z := 0;
    while z < 16
      invariant z <= 16
      invariant forall k | 0 <= k < CHUNK_VOLUME :: blocks[k] == Copied(original, s, z * 256, k)
    {
      var y := 0;
      while y < 16
        invariant y <= 16
        invariant forall k | 0 <= k < CHUNK_VOLUME :: blocks[k] == Copied(original, s, z * 256 + y * 16, k)
      {
        var x := 0;
        while x < 16
          invariant x <= 16
          invariant forall k | 0 <= k < CHUNK_VOLUME :: blocks[k] == Copied(original, s, z * 256 + y * 16 + x, k)
        {
          CopyStep(original, s, x, y, z, z * 256 + y * 16 + x);
          blocks[offset + (15 - y) * 256 + z * 16 + x] := ToUint8(s.ids[y * 256 + z * 16 + x]);
          x := x + 1;
        }
        y := y + 1;
      }
      z := z + 1;
    }
    forall k | 0 <= k < CHUNK_VOLUME {
      CopyDone(original, s, k);
    }
  }

  /** The decompressed chunk parsed, its first child taken as the level,
      and "Sections" looked up in it. The loader calls parse_nbt without a
      check; the guard on DecodeNbt stands in for the input it cannot read,
      which is undefined behaviour there and a skip here. */
  method LevelSections(nbt: seq<uint8>) returns (sections: Option<seq<Tag>>)
    ensures sections == ChunkSections(nbt)
  {
    if !DecodeNbt(nbt, 0).Ok? {
      return None;
    }
    var root := ParseNbt(nbt, 0);
    if |root.children| == 0 || !root.children[0].Compound? {
      return None;
    }
    var level := root.children[0];
    var found := Lookup(level.children, "Sections");
    if !found.Some? || !found.value.List? {
      return None;
    }
    sections := Some(found.value.items);
  }

  /** A buffer of 65536 zeroes, then every usable section copied into it
      in list order. */
  method BuildBlocks(sections: seq<Tag>) returns (blocks: seq<uint8>)
    ensures blocks == ApplySections(Zeros(), sections)
  {
    var buffer := new uint8[CHUNK_VOLUME];
    for k := 0 to CHUNK_VOLUME
      invariant forall j | 0 <= j < k :: buffer[j] == 0
    {
      buffer[k] := 0;
    }
    assert buffer[..] == Zeros();
    var n := 0;
    while n < |sections|
      invariant n <= |sections| && buffer[..] == ApplySections(Zeros(), sections[..n])
    {
      var section := SectionOf(sections[n]);
      if section.Some? {
        CopySection(buffer, section.value);
      }
      assert sections[..n + 1][..n] == sections[..n];
      n := n + 1;
    }
    assert sections[..n] == sections;
    blocks := buffer[..];
  }

  /** An MC::Region: the location table, the timestamp table and the
      1024 chunk slots, each a fixed-size array updated in place. */
  class Region {
    const locations: array<Location>
    const times: array<uint32>
    const chunks: array<Chunk>

    predicate Valid()
      reads this
    {
      locations.Length == SLOTS && times.Length == SLOTS && chunks.Length == SLOTS
    }

    /** A region before any load: empty tables and unloaded, empty slots. */
    constructor()
      ensures Valid() && fresh(locations) && fresh(times) && fresh(chunks)
      ensures forall i | 0 <= i < SLOTS :: locations[i] == Location(0, 0) && times[i] == 0
      ensures forall i | 0 <= i < SLOTS :: chunks[i] == Chunk([], false)
    {
      locations := new Location[SLOTS](_ => Location(0, 0));
      times := new uint32[SLOTS](_ => 0);
      chunks := new Chunk[SLOTS](_ => Chunk([], false));
    }

    /** The location table loop: one four-byte entry per slot. */
    method ReadLocations(file: seq<uint8>)
      requires Valid() && HeaderReadable(file)
      modifies locations
      ensures locations[..] == LocationTable(file)
    {
      for loc := 0 to SLOTS
        invariant forall j | 0 <= j < loc :: locations[j] == DecodeLocation(Entry(file, j))
      {
        locations[loc] := DecodeLocation(Entry(file, loc));
      }
    }

    /** The timestamp table loop: the 1024 entries after the location table. */
    method ReadTimestamps(file: seq<uint8>)
      requires Valid() && |file| >= 2 * SECTOR
      modifies times
      ensures times[..] == TimestampTable(file)
    {
      for t := 0 to SLOTS
        invariant forall j | 0 <= j < t :: times[j] == DecodeTimestamp(Entry(file, SLOTS + j))
      {
        times[t] := DecodeTimestamp(Entry(file, SLOTS + t));
      }
    }

    /** The largest timestamp, starting from 0. */
    method LargestTimestamp() returns (max: uint32)
      requires Valid()
      ensures forall i | 0 <= i < SLOTS :: times[i] <= max
      ensures max == 0 || exists i | 0 <= i < SLOTS :: times[i] == max
    {
      max := 0;
      for i := 0 to SLOTS
        invariant forall j | 0 <= j < i :: times[j] <= max
        invariant max == 0 || exists j | 0 <= j < i :: times[j] == max
      {
        if times[i] > max {
          max := times[i];
        }
      }
    }

    /** The largest end of a blob (offset plus size, in unsigned int),
        starting from 0: the size the file would need. */
    method LargestExtent() returns (max: uint32)
      requires Valid()
      ensures forall i | 0 <= i < SLOTS :: Extent(locations[i]) <= max
      ensures max == 0 || exists i | 0 <= i < SLOTS :: Extent(locations[i]) == max
    {
      max := 0;
      for i := 0 to SLOTS
        invariant forall j | 0 <= j < i :: Extent(locations[j]) <= max
        invariant max == 0 || exists j | 0 <= j < i :: Extent(locations[j]) == max
      {
        if Extent(locations[i]) > max {
          max := Extent(locations[i]);
        }
      }
    }

    /** One turn of the slot loop: the slot is marked unloaded, and if its
        blob is populated and zlib-compressed it is decompressed, parsed,
        and, when its level has "Sections", given a zeroed buffer into
        which every usable section is copied. */
    method LoadSlot(file: seq<uint8>, inflate: Inflate, i: nat)
      requires Valid() && RegionFile(file) && i < SLOTS && locations[..] == LocationTable(file)
      modifies chunks
      ensures chunks[..] == old(chunks[..])[i := SlotChunk(file, inflate, i, old(chunks[i].blocks))]
    {
      ghost var previous := chunks[i].blocks;
      chunks[i] := chunks[i].(loaded := false);
      var loc := locations[i];
      assert loc == DecodeLocation(Entry(file, i));
      assert SlotReadable(file, i);
      if loc.offset == 0 || loc.size == 0 {
        assert SlotChunk(file, inflate, i, previous) == Chunk(previous, false);
        return;
      }
      var blob := Blob(file, loc);
      var length := BlobLength(blob);
      var compression := blob[4];
      if compression == ZLIB {
        var sections := LevelSections(inflate(CompressedInput(blob), Capacity(length)));
        if sections.None? {
          assert SlotChunk(file, inflate, i, previous) == Chunk(previous, false);
          return;
        }
        var blocks := BuildBlocks(sections.value);
        assert SlotChunk(file, inflate, i, previous) == Chunk(blocks, true);
        chunks[i] := Chunk(blocks, true);
      } else {
        assert SlotChunk(file, inflate, i, previous) == Chunk(previous, false);
      }
    }

    /** MapLoader::load: nothing happens when the file cannot be opened;
        otherwise both tables are read, the two diagnostic maxima computed
        (returned here rather than printed), and every slot loaded in turn. */
    method Load(file: Option<seq<uint8>>, inflate: Inflate) returns (largestTimestamp: uint32, fileSize: uint32)
      requires Valid() && (file.Some? ==> RegionFile(file.value))
      modifies locations, times, chunks
      ensures file.None? ==> unchanged(locations) && unchanged(times) && unchanged(chunks)
      ensures file.Some? ==> locations[..] == LocationTable(file.value) && times[..] == TimestampTable(file.value)
      ensures file.Some? ==> forall i | 0 <= i < SLOTS :: chunks[i] == SlotChunk(file.value, inflate, i, old(chunks[i].blocks))
      ensures file.Some? ==> forall i | 0 <= i < SLOTS :: times[i] <= largestTimestamp && Extent(locations[i]) <= fileSize
      ensures file.Some? ==> largestTimestamp == 0 || exists i | 0 <= i < SLOTS :: times[i] == largestTimestamp
      ensures file.Some? ==> fileSize == 0 || exists i | 0 <= i < SLOTS :: Extent(locations[i]) == fileSize
    {
      if file.None? {
        return 0, 0;
      }
      var bytes := file.value;
      ReadLocations(bytes);
      ReadTimestamps(bytes);
      largestTimestamp := LargestTimestamp();
      fileSize := LargestExtent();
      for i := 0 to SLOTS
        invariant locations[..] == LocationTable(bytes) && times[..] == TimestampTable(bytes)
        invariant forall j | 0 <= j < i :: chunks[j] == SlotChunk(bytes, inflate, j, old(chunks[j].blocks))
        invariant forall j | i <= j < SLOTS :: chunks[j] == old(chunks[j])
      {
        LoadSlot(bytes, inflate, i);
      }
    }
  }
}
