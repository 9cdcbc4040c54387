/** What the packer makes of what the unpacker writes: the metadata records
    read back field by field, the names that lead the packer to the
    unpacker's files, and the whole trip from image to tree to image where
    it can be followed. encoding/json is taken to read back what it
    writes. */
module RoundTrip {
  import opened Bytes
  import opened Wrappers
  import opened DskTypes
  import opened Json
  import opened Files
  import opened Formatters
  import AsciiHex
  import Variants
  import Unpacker
  import Packer

  // ----- track.meta -----

  /** The fields of a track.meta as the unpacker writes them. */
  lemma TrackMetaFields(h: TrackHeader, v: Variants.Variant)
    ensures var m := Unpacker.TrackMeta(h, v);
      "unused" in m && m["unused"] == Unpacker.ByteField(h.unused, v)
      && "track_number" in m && m["track_number"] == JNumber(h.trackNum)
      && "side_number" in m && m["side_number"] == JNumber(h.sideNum)
      && "unused2" in m && m["unused2"] == Unpacker.ByteField(h.unused2, v)
      && "sector_size" in m && m["sector_size"] == JNumber(h.sectorSize)
      && "sector_count" in m && m["sector_count"] == JNumber(h.sectorCount)
      && "gap3_length" in m && m["gap3_length"] == JNumber(h.gap3Length)
      && "filler_byte" in m && m["filler_byte"] == JNumber(h.fillerByte)
  {
    TrackMetaField(h, v, 0);
    TrackMetaField(h, v, 1);
    TrackMetaField(h, v, 2);
    TrackMetaField(h, v, 3);
    TrackMetaField(h, v, 4);
    TrackMetaField(h, v, 5);
    TrackMetaField(h, v, 6);
    TrackMetaField(h, v, 7);
  }

  /** Field j of a track.meta holds the value listed for it. */
  lemma TrackMetaField(h: TrackHeader, v: Variants.Variant, j: nat)
    requires j < 8
    ensures var fs := Unpacker.TrackFields(Unpacker.ByteField(h.unused, v), h.trackNum, h.sideNum,
                                           Unpacker.ByteField(h.unused2, v), h.sectorSize, h.sectorCount,
                                           h.gap3Length, h.fillerByte, true);
      fs[j].0 in Unpacker.TrackMeta(h, v) && Unpacker.TrackMeta(h, v)[fs[j].0] == fs[j].1
  {
    var fs := Unpacker.TrackFields(Unpacker.ByteField(h.unused, v), h.trackNum, h.sideNum,
                                   Unpacker.ByteField(h.unused2, v), h.sectorSize, h.sectorCount,
                                   h.gap3Length, h.fillerByte, true);
    ObjectField(fs, j);
  }

  /** A byte array written as an array of numbers is read back whole. */
  lemma NumbersReadBack(m: Record, k: string, b: seq<byte>)
    requires k in m && m[k] == JArray(Numbers(b))
    ensures Packer.ArrayBytes(m, k, |b|) == b
  {
    forall j | 0 <= j < |b|
      ensures Packer.ArrayBytes(m, k, |b|)[j] == b[j]
    {
      Packer.ArrayBytesAt(m, k, |b|, j);
    }
  }

  /** With the corrected unpacker, the packer rebuilds a track header
      exactly, except for the signature, which it always writes fixed. */
  lemma TrackMetaRoundTrip(h: TrackHeader)
    ensures Packer.TrackHeaderFrom(Unpacker.TrackMeta(h, Variants.Corrected)) == h.(signature := Packer.TrackSignature)
  {
    var m := Unpacker.TrackMeta(h, Variants.Corrected);
    TrackMetaFields(h, Variants.Corrected);
    NumbersReadBack(m, "unused", h.unused);
    NumbersReadBack(m, "unused2", h.unused2);
  }

  /** As written, the unpacker stores the unused bytes as Go byte slices,
      which encoding/json writes as base-64 strings; the packer only reads
      arrays, so those five bytes come back as zeros. */
  lemma TrackMetaAsWritten(h: TrackHeader)
    ensures Packer.TrackHeaderFrom(Unpacker.TrackMeta(h, Variants.AsWritten))
      == h.(signature := Packer.TrackSignature, unused := [0, 0, 0], unused2 := [0, 0])
  {
    TrackMetaFields(h, Variants.AsWritten);
  }

  /** The track header the packer gets back from a track.meta. */
  function ReadBackHeader(h: TrackHeader, v: Variants.Variant): TrackHeader
  {
    if v == Variants.Corrected then h.(signature := Packer.TrackSignature)
    else h.(signature := Packer.TrackSignature, unused := [0, 0, 0], unused2 := [0, 0])
  }

  lemma TrackMetaReadBack(h: TrackHeader, v: Variants.Variant)
    ensures Packer.TrackHeaderFrom(Unpacker.TrackMeta(h, v)) == ReadBackHeader(h, v)
  {
    if v == Variants.Corrected {
      TrackMetaRoundTrip(h);
    } else {
      TrackMetaAsWritten(h);
    }
  }

  /** A header whose unused bytes are not all zero does not survive the
      trip as written. */
  lemma UnusedBytesLost()
    ensures var h := TrackHeader(Packer.TrackSignature, [1, 2, 3], 0, 0, [4, 5], 2, 9, 0x4E, 0xE5);
      Packer.TrackHeaderFrom(Unpacker.TrackMeta(h, Variants.AsWritten)) != h
  {
    var h := TrackHeader(Packer.TrackSignature, [1, 2, 3], 0, 0, [4, 5], 2, 9, 0x4E, 0xE5);
    TrackMetaAsWritten(h);
  }

  // ----- sector-R.meta -----

  /** The packer rebuilds every sector descriptor exactly. */
  lemma SectorMetaRoundTrip(i: SectorInfo)
    ensures Packer.SectorInfoFrom(Unpacker.SectorMeta(i)) == i
  {
    SectorMetaField(i, 0);
    SectorMetaField(i, 1);
    SectorMetaField(i, 2);
    SectorMetaField(i, 3);
    SectorMetaField(i, 4);
    SectorMetaField(i, 5);
    SectorMetaField(i, 6);
  }

  /** The fields of a sector-R.meta, in the order written. */
  function SectorMetaList(i: SectorInfo): (fs: seq<(string, JValue)>)
    ensures Object(fs) == Unpacker.SectorMeta(i)
  {
    [("cylinder", JNumber(i.c)), ("head", JNumber(i.h)), ("sector_id", JNumber(i.r)),
     ("sector_size", JNumber(i.n)), ("fdc_status1", JNumber(i.fdcStatus1)),
     ("fdc_status2", JNumber(i.fdcStatus2)), ("data_length", JNumber(i.dataLength))]
  }

  lemma SectorMetaField(i: SectorInfo, j: nat)
    requires j < 7
    ensures var fs := SectorMetaList(i);
      fs[j].0 in Unpacker.SectorMeta(i) && Unpacker.SectorMeta(i)[fs[j].0] == fs[j].1
  {
    ObjectField(SectorMetaList(i), j);
  }

  // ----- disk-image.meta -----

  /** A Standard image's metadata has no size table, so the packer refuses
      it. */
  lemma StandardMetaRefused(d: DSK)
    requires d.format == FormatStandard
    ensures Packer.HeaderFrom(Unpacker.DiskMeta(d)) == Failure(Packer.MissingTrackSizeTable)
  {
    StandardMetaFields(d);
  }

  /** The fields of a Standard image's metadata, in the order written. */
  function StandardMetaList(d: DSK): (fs: seq<(string, JValue)>)
    requires d.format == FormatStandard
    ensures Object(fs) == Unpacker.DiskMeta(d)
  {
    [("creator", JString(Unpacker.TrimNul(d.header.creator))),
     ("tracks", JNumber(d.header.tracks)),
     ("sides", JNumber(d.header.sides)),
     ("format", JString(Ascii("standard"))),
     ("track_size", JNumber(d.standardTrackSize))]
  }

  /** A Standard image's metadata: creator, tracks and sides of the right
      JSON types and no track_size_table field. */
  lemma StandardMetaFields(d: DSK)
    requires d.format == FormatStandard
    ensures var m := Unpacker.DiskMeta(d);
      "creator" in m && m["creator"].JString? && "tracks" in m && m["tracks"].JNumber?
      && "sides" in m && m["sides"].JNumber? && "track_size_table" !in m
  {
    StandardMetaField(d, 0);
    StandardMetaField(d, 1);
    StandardMetaField(d, 2);
    StandardMetaLacksTable(d);
  }

  lemma StandardMetaField(d: DSK, j: nat)
    requires d.format == FormatStandard && j < 3
    ensures var fs := StandardMetaList(d);
      fs[j].0 in Unpacker.DiskMeta(d) && Unpacker.DiskMeta(d)[fs[j].0] == fs[j].1
  {
    var fs := StandardMetaList(d);
    assert fs[1].0[0] != fs[3].0[0];
    ObjectField(fs, j);
  }

  lemma StandardMetaLacksTable(d: DSK)
    requires d.format == FormatStandard
    ensures "track_size_table" !in Unpacker.DiskMeta(d)
  {
    ObjectLacks(StandardMetaList(d), "track_size_table");
  }

  /** The disk header the packer rebuilds from an Extended image's
      metadata: the Extended signature, the creator with its NUL padding
      trimmed and padded again, zero padding, and tracks, sides and the size
      table as they were. */
  lemma ExtendedMetaRoundTrip(d: DSK)
    requires d.format == FormatExtended
    ensures Packer.HeaderFrom(Unpacker.DiskMeta(d))
      == Success(DiskHeader(Packer.ExtendedSignature, FitTo(Unpacker.TrimNul(d.header.creator), CreatorLen),
                            d.header.tracks, d.header.sides, [0, 0], d.header.trackSizeTable))
  {
    ExtendedMetaField(d, 0);
    ExtendedMetaField(d, 1);
    ExtendedMetaField(d, 2);
    ExtendedMetaField(d, 3);
    ExtendedMetaField(d, 4);
    ExtendedHeaderFrom(Unpacker.DiskMeta(d), Unpacker.TrimNul(d.header.creator),
                       d.header.tracks, d.header.sides, d.header.trackSizeTable);
  }

  /** A metadata record whose format is not "standard" and whose fields
      hold a creator, byte-sized counts and a full table gives an Extended
      header with those values. */
  lemma ExtendedHeaderFrom(m: Record, creator: seq<byte>, tracks: byte, sides: byte, table: SizeTable)
    requires "creator" in m && m["creator"] == JString(creator)
    requires "tracks" in m && m["tracks"] == JNumber(tracks)
    requires "sides" in m && m["sides"] == JNumber(sides)
    requires "format" in m && m["format"] == JString(Ascii("extended"))
    requires "track_size_table" in m && m["track_size_table"] == JArray(Numbers(table))
    ensures Packer.HeaderFrom(m)
      == Success(DiskHeader(Packer.ExtendedSignature, FitTo(creator, CreatorLen), tracks, sides, [0, 0], table))
  {
    assert Ascii("extended")[0] != Ascii("standard")[0];
    var values := Packer.TableValues(Numbers(table));
    assert values.Success?;
    assert values.value == table;
    assert FitTo(table, TrackSizeTableLen) == table;
    Packer.HeaderFromFields(m);
  }

  /** The fields of an Extended image's metadata, in the order written. */
  function ExtendedMetaList(d: DSK): (fs: seq<(string, JValue)>)
    requires d.format == FormatExtended
    ensures Object(fs) == Unpacker.DiskMeta(d)
  {
    [("creator", JString(Unpacker.TrimNul(d.header.creator))),
     ("tracks", JNumber(d.header.tracks)),
     ("sides", JNumber(d.header.sides)),
     ("format", JString(Ascii("extended"))),
     ("track_size_table", JArray(Numbers(d.header.trackSizeTable)))]
  }

  lemma ExtendedMetaField(d: DSK, j: nat)
    requires d.format == FormatExtended && j < 5
    ensures var fs := ExtendedMetaList(d);
      fs[j].0 in Unpacker.DiskMeta(d) && Unpacker.DiskMeta(d)[fs[j].0] == fs[j].1
  {
    var fs := ExtendedMetaList(d);
    assert fs[1].0[0] != fs[3].0[0];
    ObjectField(fs, j);
  }

  /** The creator survives the trip exactly when it does not start with a
      NUL, or is all NULs: bytes.Trim drops leading NULs that the fixed-size
      copy does not put back. */
  lemma CreatorRestored(c: Bytes14)
    ensures FitTo(Unpacker.TrimNul(c), CreatorLen) == c <==> c[0] != 0 || c == Zeros(CreatorLen)
  {
    var l := Unpacker.DropLeadingNul(c);
    var t := Unpacker.TrimNul(c);
    assert t == Unpacker.DropTrailingNul(l);
    if c[0] != 0 {
      assert l == c;
      assert FitTo(t, CreatorLen) == c by {
        forall k | 0 <= k < CreatorLen
          ensures FitTo(t, CreatorLen)[k] == c[k]
        {
          if k < |t| {
            assert t[k] == l[k];
          }
        }
      }
    } else if c == Zeros(CreatorLen) {
      assert l == [];
    } else {
      assert t[0] == l[0] != 0;
      assert FitTo(t, CreatorLen)[0] != c[0];
    }
  }

  // ----- the whole trip -----

  /** The disk header Pack rebuilds from an unpacked Extended image. */
  function RepackedHeader(d: DSK): DiskHeader
  {
    DiskHeader(Packer.ExtendedSignature, FitTo(Unpacker.TrimNul(d.header.creator), CreatorLen),
               d.header.tracks, d.header.sides, [0, 0], d.header.trackSizeTable)
  }

  /** A Standard image, once unpacked, cannot be packed again: its
      disk-image.meta has no track_size_table. */
  lemma StandardImageNotRepacked(d: DSK, t: Tree, format: string, json: JsonCodec, lib: LibraryCodecs,
                                 v: Variants.Variant, listing: Unpacker.Dir -> seq<string>)
    requires JsonRoundTrips(json)
    requires FormatByName(format).Success?
    requires d.format == FormatStandard
    ensures Packer.PackSpec(Unpacker.UnpackSpec(d, t, format, json, lib, v).tree, json, lib, listing)
      == Packer.PackOutcome(None, Some(Packer.MissingTrackSizeTable))
  {
    Unpacker.UnpackTree(d, t, format, json, lib, v);
    StandardMetaRefused(d);
  }

  /** Packing an unpacked Extended image writes the image the rebuilt
      header describes; when there are at most 204 positions the file starts
      with that header, its table cut to the positions in use, and
      otherwise Pack stops after the first 52 bytes. */
  lemma ExtendedImageRepacked(d: DSK, t: Tree, format: string, json: JsonCodec, lib: LibraryCodecs,
                              v: Variants.Variant, listing: Unpacker.Dir -> seq<string>)
    requires JsonRoundTrips(json)
    requires FormatByName(format).Success?
    requires d.format == FormatExtended
    ensures var tree := Unpacker.UnpackSpec(d, t, format, json, lib, v).tree;
      var res := Packer.PackSpec(tree, json, lib, listing);
      var h := RepackedHeader(d);
      res == Packer.WriteImage(tree, h, json, lib, listing)
      && (TotalBlocks(d.header) <= TrackSizeTableLen ==>
            res.output.Some? && |res.output.value| >= HeaderSize
            && res.output.value[..HeaderSize]
               == EncodeDiskHeader(h.(trackSizeTable := Packer.WrittenTable(h, TotalBlocks(d.header)))))
      && (TotalBlocks(d.header) > TrackSizeTableLen ==>
            res == Packer.PackOutcome(Some(EncodeDiskHeader(h)[..TableOffset]),
                                      Some(Packer.TableSizeExceeded(TotalBlocks(d.header)))))
  {
    var tree := Unpacker.UnpackSpec(d, t, format, json, lib, v).tree;
    var h := RepackedHeader(d);
    Unpacker.UnpackTree(d, t, format, json, lib, v);
    ExtendedMetaRoundTrip(d);
    assert h.(padding := [0, 0]) == h;
    if TotalBlocks(d.header) <= TrackSizeTableLen {
      Packer.PackedHeader(tree, h, json, lib, listing);
    } else {
      Packer.OversizedTableStopsEarly(tree, h, json, lib, listing);
    }
  }

  /** No track-NN entry at the root of a tree. */
  ghost predicate NoPlainNames(t: Tree)
  {
    forall i: nat :: Unpacker.PlainDirName(i) !in t.dirs && Unpacker.PlainDirName(i) !in t.files
  }

  /** On a tree unpacked where no track-NN entry was, Pack looks for every
      position in the directory Unpack wrote it to. */
  lemma RepackFindsTrackDirs(d: DSK, t: Tree, format: string, json: JsonCodec, lib: LibraryCodecs,
                             v: Variants.Variant, i: nat)
    requires FormatByName(format).Success?
    requires NoPlainNames(t)
    requires i < TotalBlocks(d.header)
    ensures var tree := Unpacker.UnpackSpec(d, t, format, json, lib, v).tree;
      Packer.FindTrackDir(tree, i, d.header.sides) == Unpacker.DirName(i, d.header.sides)
      && Unpacker.DirName(i, d.header.sides) in tree.dirs
  {
    var sides := d.header.sides;
    var total := TotalBlocks(d.header);
    Unpacker.UnpackTree(d, t, format, json, lib, v);
    Unpacker.PositionNamed(total, sides, i);
    if sides > 1 {
      Unpacker.PlainNotPositionName(total, sides, i);
      Unpacker.PlainIsNotDiskMeta(i);
    }
  }

  /** The track.meta Unpack leaves in a position's directory is the one
      written for that position: the sector files never overwrite it. */
  lemma UnpackedTrackMeta(d: DSK, t: Tree, format: string, json: JsonCodec, lib: LibraryCodecs,
                          v: Variants.Variant, j: nat)
    requires FormatByName(format).Success?
    requires j < TotalBlocks(d.header)
    ensures d.header.sides > 0
    ensures var tree := Unpacker.UnpackSpec(d, t, format, json, lib, v).tree;
      var name := Unpacker.DirName(j, d.header.sides);
      name in tree.dirs && Unpacker.TrackMetaName in tree.dirs[name]
      && tree.dirs[name][Unpacker.TrackMetaName] == json.render(Unpacker.PositionMeta(d, j, v))
  {
    Unpacker.UnpackedDir(d, t, format, json, lib, v, j);
    var m := Unpacker.TrackMap(d);
    if j in m {
      var sectors := d.tracks[m[j]].sectors;
      var f := FormatByName(format).value;
      var name := Unpacker.DirName(j, d.header.sides);
      var withMeta := Unpacker.DirOf(t, name)[Unpacker.TrackMetaName := json.render(Unpacker.PositionMeta(d, j, v))];
      forall r: byte
        ensures Unpacker.TrackMetaName != SectorMetaName(r) && Unpacker.TrackMetaName != SectorFileName(r, f)
      {
        assert SectorMetaName(r)[0] == 's' && SectorFileName(r, f)[0] == 's';
      }
      Unpacker.SectorWritesOthers(sectors, |sectors|, withMeta, f, json, lib, v, Unpacker.TrackMetaName);
    }
  }

  /** Pack rebuilds the header of every formatted track of an unpacked
      Extended image: whatever it then writes of the block starts with that
      track's header as it reads back (its signature fixed and, as written,
      its unused bytes zeroed) and pads with its filler byte. */
  lemma RepackedTrackHeader(d: DSK, t: Tree, format: string, json: JsonCodec, lib: LibraryCodecs,
                            v: Variants.Variant, listing: Unpacker.Dir -> seq<string>, j: nat)
    requires JsonRoundTrips(json)
    requires FormatByName(format).Success?
    requires d.format == FormatExtended
    requires NoPlainNames(t)
    requires j < TotalBlocks(d.header) <= TrackSizeTableLen
    requires j in Unpacker.TrackMap(d) && d.header.trackSizeTable[j] != 0
    ensures var tree := Unpacker.UnpackSpec(d, t, format, json, lib, v).tree;
      var th := ReadBackHeader(d.tracks[Unpacker.TrackMap(d)[j]].header, v);
      match Packer.TrackBlock(tree, RepackedHeader(d), j, json, lib, listing)
      case Skip => false
      case Fail(p, _) => p == EncodeTrackHeader(th)
      case Block(b, filler) => |b| >= TrackHeaderSize && b[..TrackHeaderSize] == EncodeTrackHeader(th) && filler == th.fillerByte
  {
    var tree := Unpacker.UnpackSpec(d, t, format, json, lib, v).tree;
    var header := d.tracks[Unpacker.TrackMap(d)[j]].header;
    RepackFindsTrackDirs(d, t, format, json, lib, v, j);
    UnpackedTrackMeta(d, t, format, json, lib, v, j);
    TrackMetaReadBack(header, v);
    assert Unpacker.PositionMeta(d, j, v) == Unpacker.TrackMeta(header, v);
    Packer.TrackBlockHeader(tree, RepackedHeader(d), j, json, lib, listing, Unpacker.TrackMeta(header, v));
  }

  /** The files Unpack leaves for sector ID R of a formatted position,
      written into a directory that did not exist: the metadata and payload
      of the last sector with that ID, and no payload file of another
      format, so detection finds the format written. */
  lemma UnpackedSectorFiles(d: DSK, t: Tree, format: string, json: JsonCodec, lib: LibraryCodecs,
                            v: Variants.Variant, j: nat, r: byte)
    requires FormatByName(format).Success?
    requires j < TotalBlocks(d.header)
    requires Unpacker.DirName(j, d.header.sides) !in t.dirs
    requires j in Unpacker.TrackMap(d)
    requires var sectors := d.tracks[Unpacker.TrackMap(d)[j]].sectors;
      Unpacker.LastWith(sectors, |sectors|, r).Some?
    ensures var tree := Unpacker.UnpackSpec(d, t, format, json, lib, v).tree;
      var f := FormatByName(format).value;
      var sectors := d.tracks[Unpacker.TrackMap(d)[j]].sectors;
      var s := sectors[Unpacker.LastWith(sectors, |sectors|, r).value];
      var name := Unpacker.DirName(j, d.header.sides);
      name in tree.dirs
      && DetectFormat(tree.dirs[name].Keys, r) == Success((f, SectorFileName(r, f)))
      && SectorFileName(r, f) in tree.dirs[name]
      && tree.dirs[name][SectorFileName(r, f)] == WritePayload(f, lib, v, s.data)
      && SectorMetaName(r) in tree.dirs[name]
      && tree.dirs[name][SectorMetaName(r)] == json.render(Unpacker.SectorMeta(s.info))
  {
    Unpacker.UnpackedDir(d, t, format, json, lib, v, j);
    var tree := Unpacker.UnpackSpec(d, t, format, json, lib, v).tree;
    var f := FormatByName(format).value;
    var sectors := d.tracks[Unpacker.TrackMap(d)[j]].sectors;
    var name := Unpacker.DirName(j, d.header.sides);
    var withMeta := map[][Unpacker.TrackMetaName := json.render(Unpacker.PositionMeta(d, j, v))];
    var out := Unpacker.SectorWrites(sectors, |sectors|, withMeta, f, json, lib, v);
    assert tree.dirs[name] == out;
    Unpacker.SectorWritesKeyed(sectors, |sectors|, withMeta, f, json, lib, v, r);
    forall g: PayloadFormat | g != f
      ensures SectorFileName(r, g) !in out
    {
      forall q: byte
        ensures SectorFileName(r, g) != SectorMetaName(q) && SectorFileName(r, g) != SectorFileName(q, f)
      {
        SectorNamesDistinct(q, r, g);
        PayloadNamesDisjoint(r, q, g, f);
      }
      assert SectorFileName(r, g)[0] != Unpacker.TrackMetaName[0];
      Unpacker.SectorWritesOthers(sectors, |sectors|, withMeta, f, json, lib, v, SectorFileName(r, g));
    }
    DetectFindsSoleFile(out.Keys, r, f);
  }

  /** ... which Pack reads back as the sector's descriptor and data, for
      payloads the format can carry: binary and hex in either variant,
      quoted in the corrected one or, as written, without line breaks. */
  lemma RepackedSector(d: DSK, t: Tree, format: string, json: JsonCodec, lib: LibraryCodecs,
                       v: Variants.Variant, j: nat, r: byte)
    requires JsonRoundTrips(json)
    requires FormatByName(format).Success?
    requires FormatByName(format).value == Hex ==> HexRoundTrips(lib)
    requires FormatByName(format).value == Quoted ==> QuotedRoundTrips(lib)
    requires j < TotalBlocks(d.header)
    requires Unpacker.DirName(j, d.header.sides) !in t.dirs
    requires j in Unpacker.TrackMap(d)
    requires var sectors := d.tracks[Unpacker.TrackMap(d)[j]].sectors;
      var k := Unpacker.LastWith(sectors, |sectors|, r);
      k.Some? && (FormatByName(format).value == Quoted && v == Variants.AsWritten ==> NoLineBreak(sectors[k.value].data))
      && (FormatByName(format).value == AsciiHexText ==>
                  0 < |sectors[k.value].data| <= AsciiHex.MaxCount
                  && (v == Variants.AsWritten ==> AsciiHex.AsWrittenSafe(sectors[k.value].data)))
    ensures var tree := Unpacker.UnpackSpec(d, t, format, json, lib, v).tree;
      var sectors := d.tracks[Unpacker.TrackMap(d)[j]].sectors;
      var s := sectors[Unpacker.LastWith(sectors, |sectors|, r).value];
      var name := Unpacker.DirName(j, d.header.sides);
      name in tree.dirs
      && var dir := tree.dirs[name];
      SectorMetaName(r) in dir && json.parse(dir[SectorMetaName(r)]).Some?
      && Packer.SectorInfoFrom(json.parse(dir[SectorMetaName(r)]).value) == s.info
      && DetectFormat(dir.Keys, r).Success?
      && var (f, file) := DetectFormat(dir.Keys, r).value;
         file in dir && ReadPayload(f, lib, dir[file]) == Success(s.data)
  {
    var sectors := d.tracks[Unpacker.TrackMap(d)[j]].sectors;
    var s := sectors[Unpacker.LastWith(sectors, |sectors|, r).value];
    UnpackedSectorFiles(d, t, format, json, lib, v, j, r);
    SectorMetaRoundTrip(s.info);
    PayloadRoundTrip(FormatByName(format).value, lib, v, s.data);
  }
}
