/** Unpacking a parsed image into a directory tree: disk-image.meta at the
    root, one directory per track position holding track.meta, and for a
    formatted position a sector-R.meta and a payload file per sector, keyed
    by the sector ID R. */
module Unpacker {
  import opened Bytes
  import opened Wrappers
  import opened DskTypes
  import opened Json
  import opened Files
  import opened Formatters
  import AsciiHex
  import Variants
  import opened Overwrites

  const DiskMetaName := "disk-image.meta"
  const TrackMetaName := "track.meta"

  // ----- disk-image.meta -----

  function DropLeadingNul(s: seq<byte>): (r: seq<byte>)
    ensures |r| <= |s| && r == s[|s| - |r|..]
    ensures r != [] ==> r[0] != 0
    ensures forall k :: 0 <= k < |s| - |r| ==> s[k] == 0
  {
    if s != [] && s[0] == 0 then DropLeadingNul(s[1..]) else s
  }

  function DropTrailingNul(s: seq<byte>): (r: seq<byte>)
    ensures |r| <= |s| && r == s[..|r|]
    ensures r != [] ==> r[|r| - 1] != 0
    ensures forall k :: |r| <= k < |s| ==> s[k] == 0
  {
    if s != [] && s[|s| - 1] == 0 then DropTrailingNul(s[..|s| - 1]) else s
  }

  /** bytes.Trim(s, "\x00"): the NULs at both ends removed. */
  function TrimNul(s: seq<byte>): seq<byte>
  {
    DropTrailingNul(DropLeadingNul(s))
  }

  /** The disk-image.meta record: the creator without its NUL padding,
      tracks and sides, and either the 204-entry size table (Extended) or
      the fixed track size (Standard). */
  function DiskMeta(d: DSK): Record
  {
    if d.format == FormatStandard then
      Object([("creator", JString(TrimNul(d.header.creator))),
              ("tracks", JNumber(d.header.tracks)),
              ("sides", JNumber(d.header.sides)),
              ("format", JString(Ascii("standard"))),
              ("track_size", JNumber(d.standardTrackSize))])
    else
      Object([("creator", JString(TrimNul(d.header.creator))),
              ("tracks", JNumber(d.header.tracks)),
              ("sides", JNumber(d.header.sides)),
              ("format", JString(Ascii("extended"))),
              ("track_size_table", JArray(Numbers(d.header.trackSizeTable)))])
  }

  // ----- the position map -----

  /** Where a track is placed: TrackNum * Sides + SideNum, from its own
      header. */
  function Position(t: LogicalTrack, sides: byte): nat
  {
    t.header.trackNum * sides + t.header.sideNum
  }

  /** trackMap after the first n tracks: each position mapped to the index
      of the last track placed there. */
  function TrackIndex(tracks: seq<LogicalTrack>, sides: byte, n: nat): (m: map<nat, nat>)
    requires n <= |tracks|
    ensures forall p :: p in m ==> m[p] < n
  {
    if n == 0 then map[] else TrackIndex(tracks, sides, n - 1)[Position(tracks[n - 1], sides) := n - 1]
  }

  function TrackMap(d: DSK): (m: map<nat, nat>)
    ensures forall p :: p in m ==> m[p] < |d.tracks|
  {
    TrackIndex(d.tracks, d.header.sides, |d.tracks|)
  }

  /** The loop that fills trackMap. */
  method BuildTrackMap(tracks: seq<LogicalTrack>, sides: byte) returns (m: map<nat, nat>)
    ensures m == TrackIndex(tracks, sides, |tracks|)
  {
    m := map[];
    var i := 0;
    while i < |tracks|
      invariant 0 <= i <= |tracks|
      invariant m == TrackIndex(tracks, sides, i)
    {
      m := m[Position(tracks[i], sides) := i];
      i := i + 1;
    }
  }

  /** A position holds the last track placed on it, and only positions some
      track is placed on are held. */
  lemma {:induction false} TrackIndexLastWins(tracks: seq<LogicalTrack>, sides: byte, n: nat, p: nat)
    requires n <= |tracks|
    ensures p in TrackIndex(tracks, sides, n) <==> exists k :: 0 <= k < n && Position(tracks[k], sides) == p
    ensures p in TrackIndex(tracks, sides, n) ==> (
      var k := TrackIndex(tracks, sides, n)[p];
      Position(tracks[k], sides) == p && forall j :: k < j < n ==> Position(tracks[j], sides) != p)
  {
    if n > 0 {
      TrackIndexLastWins(tracks, sides, n - 1, p);
      if Position(tracks[n - 1], sides) != p && p !in TrackIndex(tracks, sides, n - 1) {
        assert !exists k :: 0 <= k < n && Position(tracks[k], sides) == p by {
          forall k | 0 <= k < n
            ensures Position(tracks[k], sides) != p
          {
            if k < n - 1 {
              assert !(0 <= k < n - 1 && Position(tracks[k], sides) == p);
            }
          }
        }
      }
    }
  }

  // ----- directory names -----

  function PlainDirName(i: nat): string
  {
    "track-" + Decimal2(i)
  }

  function SideDirName(t: nat, s: nat): string
  {
    "track-" + Decimal2(t) + "-side-" + Decimal(s)
  }

  /** The directory of position i: track-%02d for one side, otherwise
      track-%02d-side-%d of i / sides and i % sides. */
  function DirName(i: nat, sides: nat): string
  {
    if sides > 1 then SideDirName(i / sides, i % sides) else PlainDirName(i)
  }

  lemma SideDirNameInjective(t: nat, s: nat, t2: nat, s2: nat)
    requires SideDirName(t, s) == SideDirName(t2, s2)
    ensures t == t2 && s == s2
  {
    SideDirNameParts(t, s, t2, s2);
    Decimal2Injective(t, t2);
    SideSuffixInjective(s, s2);
  }

  /** Equal side names have equal track digits and equal side parts. */
  lemma SideDirNameParts(t: nat, s: nat, t2: nat, s2: nat)
    requires SideDirName(t, s) == SideDirName(t2, s2)
    ensures Decimal2(t) == Decimal2(t2) && "-side-" + Decimal(s) == "-side-" + Decimal(s2)
  {
    SideDirNameTail(t, s);
    SideDirNameTail(t2, s2);
    DigitsSplit(Decimal2(t), "-side-" + Decimal(s), Decimal2(t2), "-side-" + Decimal(s2));
  }

  /** What follows "track-" in a side name. */
  lemma SideDirNameTail(t: nat, s: nat)
    ensures |SideDirName(t, s)| >= 6 && SideDirName(t, s)[6..] == Decimal2(t) + ("-side-" + Decimal(s))
  {
    var p := "track-";
    assert SideDirName(t, s) == p + (Decimal2(t) + ("-side-" + Decimal(s)));
  }

  lemma SideSuffixInjective(s: nat, s2: nat)
    requires "-side-" + Decimal(s) == "-side-" + Decimal(s2)
    ensures s == s2
  {
    assert Decimal(s) == ("-side-" + Decimal(s))[6..];
    assert Decimal(s2) == ("-side-" + Decimal(s2))[6..];
    DecimalInjective(s, s2);
  }

  lemma PlainDirNameInjective(i: nat, j: nat)
    requires PlainDirName(i) == PlainDirName(j)
    ensures i == j
  {
    assert Decimal2(i) == PlainDirName(i)[6..];
    assert Decimal2(j) == PlainDirName(j)[6..];
    Decimal2Injective(i, j);
  }

  /** A one-sided name is never a side name. */
  lemma PlainIsNotSideName(i: nat, t: nat, s: nat)
    ensures PlainDirName(i) != SideDirName(t, s)
  {
    var a := PlainDirName(i);
    var b := SideDirName(t, s);
    var k := 6 + |Decimal2(t)|;
    assert b[k] == '-';
    if k < |a| {
      ConcatAt("track-", Decimal2(i), k);
      assert a[k] != b[k];
    } else {
      assert |a| < |b|;
    }
  }

  /** Distinct positions get distinct directories. */
  lemma DirNameInjective(i: nat, j: nat, sides: nat)
    requires DirName(i, sides) == DirName(j, sides)
    ensures i == j
  {
    if sides > 1 {
      SideDirNameInjective(i / sides, i % sides, j / sides, j % sides);
      assert i == sides * (i / sides) + i % sides;
      assert j == sides * (j / sides) + j % sides;
    } else {
      PlainDirNameInjective(i, j);
    }
  }

  // ----- track.meta and sector-R.meta -----

  /** A Go []uint8 field: as written, encoding/json writes it as a base-64
      string; the corrected unpacker writes an array of numbers, which is
      what the packer reads. */
  function ByteField(b: seq<byte>, v: Variants.Variant): JValue
  {
    if v == Variants.AsWritten then ByteSlice(b) else JArray(Numbers(b))
  }

  /** The track.meta of a formatted position: the track header's fields. */
  function TrackMeta(h: TrackHeader, v: Variants.Variant): Record
  {
    Object(TrackFields(ByteField(h.unused, v), h.trackNum, h.sideNum, ByteField(h.unused2, v),
                       h.sectorSize, h.sectorCount, h.gap3Length, h.fillerByte, true))
  }

  /** The fields of a track.meta, in the order the source lists them. */
  function TrackFields(unused: JValue, trackNum: int, sideNum: int, unused2: JValue, sectorSize: int,
                       sectorCount: int, gap3: int, filler: int, formatted: bool): seq<(string, JValue)>
  {
    [("unused", unused), ("track_number", JNumber(trackNum)), ("side_number", JNumber(sideNum)),
     ("unused2", unused2), ("sector_size", JNumber(sectorSize)), ("sector_count", JNumber(sectorCount)),
     ("gap3_length", JNumber(gap3)), ("filler_byte", JNumber(filler)), ("formatted", JBool(formatted))]
  }

  /** The track.meta of a position no track is placed on. */
  function UnformattedMeta(i: nat, sides: nat, v: Variants.Variant): Record
    requires sides > 0
  {
    Object(TrackFields(ByteField([0, 0, 0], v), ToUint8(i / sides), ToUint8(i % sides), ByteField([0, 0], v),
                       0, 0, 0, 0, false))
  }

  /** sector-R.meta: the descriptor's seven fields. */
  function SectorMeta(i: SectorInfo): Record
  {
    Object([("cylinder", JNumber(i.c)), ("head", JNumber(i.h)), ("sector_id", JNumber(i.r)),
            ("sector_size", JNumber(i.n)), ("fdc_status1", JNumber(i.fdcStatus1)),
            ("fdc_status2", JNumber(i.fdcStatus2)), ("data_length", JNumber(i.dataLength))])
  }

  // ----- the tree -----

  datatype UnpackOutcome = UnpackOutcome(tree: Tree, error: Option<string>)

  type Dir = map<string, seq<byte>>

  function DirOf(t: Tree, name: string): Dir
  {
    if name in t.dirs then t.dirs[name] else map[]
  }

  /** The two files one sector leaves in its track's directory. */
  function WriteSector(dir: Dir, s: LogicalSector, f: PayloadFormat, json: JsonCodec, lib: LibraryCodecs,
                       v: Variants.Variant): Dir
  {
    dir[SectorFileName(s.info.r, f) := WritePayload(f, lib, v, s.data)][SectorMetaName(s.info.r) := json.render(SectorMeta(s.info))]
  }

  /** The directory after the first n sectors of a track are written. */
  function SectorWrites(sectors: seq<LogicalSector>, n: nat, dir: Dir, f: PayloadFormat, json: JsonCodec,
                        lib: LibraryCodecs, v: Variants.Variant): Dir
    requires n <= |sectors|
  {
    Apply(sectors, n, dir, Writer(f, json, lib, v))
  }

  /** The sector loop: the writer is looked up for every sector, so an
      unknown format fails at the first sector and a track without sectors
      never looks it up. */
  function WriteSectors(sectors: seq<LogicalSector>, dir: Dir, format: string, json: JsonCodec,
                        lib: LibraryCodecs, v: Variants.Variant): (Dir, Option<string>)
  {
    if sectors == [] then (dir, None)
    else match FormatByName(format)
      case Failure(e) => (dir, Some("failed to get format writer: " + e))
      case Success(f) => (SectorWrites(sectors, |sectors|, dir, f, json, lib, v), None)
  }

  /** The track.meta a position gets. */
  function PositionMeta(d: DSK, i: nat, v: Variants.Variant): Record
    requires d.header.sides > 0
  {
    var m := TrackMap(d);
    if i in m then TrackMeta(d.tracks[m[i]].header, v) else UnformattedMeta(i, d.header.sides, v)
  }

  /** The directory of position i, starting from what was there. */
  function PositionDir(d: DSK, i: nat, dir: Dir, format: string, json: JsonCodec, lib: LibraryCodecs,
                       v: Variants.Variant): (Dir, Option<string>)
    requires d.header.sides > 0
  {
    var m := TrackMap(d);
    var withMeta := dir[TrackMetaName := json.render(PositionMeta(d, i, v))];
    if i in m then WriteSectors(d.tracks[m[i]].sectors, withMeta, format, json, lib, v)
    else (withMeta, None)
  }


  /** What the loop does at one position: the directory it leaves and the
      error that stops the loop, if any. */
  type Step = (nat, Dir) -> (Dir, Option<string>)

  /** The position loop from position i on, over `total` positions named
      for `sides` sides: each position's directory is rebuilt from what it
      held, and the first error stops the loop. */
  function Positions(total: nat, sides: nat, step: Step, i: nat, t: Tree): UnpackOutcome
    decreases total - i
  {
    if i >= total then UnpackOutcome(t, None)
    else
      var name := DirName(i, sides);
      var (dir, err) := step(i, DirOf(t, name));
      var t2 := t.(dirs := t.dirs[name := dir]);
      if err.Some? then UnpackOutcome(t2, err) else Positions(total, sides, step, i + 1, t2)
  }

  /** Unpack's step. With no sides there are no positions, so the first
      branch is never taken by the loop. */
  function PositionStep(d: DSK, format: string, json: JsonCodec, lib: LibraryCodecs, v: Variants.Variant): Step
  {
    (i: nat, dir: Dir) => if d.header.sides == 0 then (dir, None) else PositionDir(d, i, dir, format, json, lib, v)
  }

  function WithDiskMeta(d: DSK, t: Tree, json: JsonCodec): Tree
  {
    t.(files := t.files[DiskMetaName := json.render(DiskMeta(d))])
  }

  /** Unpack: disk-image.meta, then every position in order. `t` is what
      the root directory already holds; files of the same name are
      replaced. */
  function UnpackSpec(d: DSK, t: Tree, format: string, json: JsonCodec, lib: LibraryCodecs,
                      v: Variants.Variant): UnpackOutcome
  {
    Positions(TotalBlocks(d.header), d.header.sides, PositionStep(d, format, json, lib, v), 0, WithDiskMeta(d, t, json))
  }

  /** Unpack as written: the trackMap loop, then the loop over positions
      with the sector loop inside. */
  method Unpack(d: DSK, t: Tree, format: string, json: JsonCodec, lib: LibraryCodecs, v: Variants.Variant)
    returns (res: UnpackOutcome)
    ensures res == UnpackSpec(d, t, format, json, lib, v)
  {
    var tree := WithDiskMeta(d, t, json);
    ghost var start := tree;
    var trackMap := BuildTrackMap(d.tracks, d.header.sides);
    var totalBlocks := TotalBlocks(d.header);
    ghost var step := PositionStep(d, format, json, lib, v);
    var i := 0;
    while i < totalBlocks
      invariant 0 <= i <= totalBlocks
      invariant Positions(TotalBlocks(d.header), d.header.sides, step, i, tree) == Positions(TotalBlocks(d.header), d.header.sides, step, 0, start)
      decreases totalBlocks - i
    {
      TotalSides(d, i);
      var name := DirName(i, d.header.sides);
      var dir, err := UnpackPosition(d, trackMap, i, DirOf(tree, name), format, json, lib, v);
      tree := tree.(dirs := tree.dirs[name := dir]);
      if err.Some? {
        return UnpackOutcome(tree, err);
      }
      i := i + 1;
    }
    return UnpackOutcome(tree, None);
  }

  /** One pass of the position loop: track.meta, then the sector loop when
      a track is at position i. */
  method UnpackPosition(d: DSK, trackMap: map<nat, nat>, i: nat, dir: Dir, format: string, json: JsonCodec,
                        lib: LibraryCodecs, v: Variants.Variant)
    returns (out: Dir, err: Option<string>)
    requires d.header.sides > 0 && trackMap == TrackMap(d)
    ensures (out, err) == PositionStep(d, format, json, lib, v)(i, dir)
  {
    var meta := if i in trackMap then TrackMeta(d.tracks[trackMap[i]].header, v)
                else UnformattedMeta(i, d.header.sides, v);
    out := dir[TrackMetaName := json.render(meta)];
    err := None;
    if i in trackMap {
      out, err := WriteTrackSectors(d.tracks[trackMap[i]].sectors, out, format, json, lib, v);
    }
  }

  /** The sector loop of one formatted track. */
  method WriteTrackSectors(sectors: seq<LogicalSector>, dir: Dir, format: string, json: JsonCodec,
                           lib: LibraryCodecs, v: Variants.Variant)
    returns (out: Dir, err: Option<string>)
    ensures (out, err) == WriteSectors(sectors, dir, format, json, lib, v)
  {
    out := dir;
    var k := 0;
    while k < |sectors|
      invariant 0 <= k <= |sectors|
      invariant k > 0 ==> FormatByName(format).Success?
      invariant out == if k == 0 then dir else SectorWrites(sectors, k, dir, FormatByName(format).value, json, lib, v)
    {
      var writer := FormatByName(format);
      if writer.Failure? {
        assert k == 0;
        return out, Some("failed to get format writer: " + writer.error);
      }
      ghost var before := out;
      out := WriteOneSector(out, sectors[k], writer.value, json, lib, v);
      assert before == SectorWrites(sectors, k, dir, writer.value, json, lib, v);
      assert out == Writer(writer.value, json, lib, v)(before, sectors[k]);
      assert out == SectorWrites(sectors, k + 1, dir, writer.value, json, lib, v);
      k := k + 1;
    }
    return out, None;
  }

  /** The loop body: the payload file, then sector-R.meta. */
  method WriteOneSector(dir: Dir, s: LogicalSector, f: PayloadFormat, json: JsonCodec, lib: LibraryCodecs,
                        v: Variants.Variant)
    returns (out: Dir)
    ensures out == WriteSector(dir, s, f, json, lib, v)
  {
    out := dir[SectorFileName(s.info.r, f) := WritePayload(f, lib, v, s.data)];
    out := out[SectorMetaName(s.info.r) := json.render(SectorMeta(s.info))];
  }

  // ----- properties of the tree -----

  /** The index of the last of the first n sectors whose ID is r. */
  function LastWith(sectors: seq<LogicalSector>, n: nat, r: byte): (k: Option<nat>)
    requires n <= |sectors|
    ensures k.Some? ==>
      k.value < n && sectors[k.value].info.r == r && forall j :: k.value < j < n ==> sectors[j].info.r != r
    ensures k.None? ==> forall j :: 0 <= j < n ==> sectors[j].info.r != r
  {
    if n == 0 then None
    else if sectors[n - 1].info.r == r then Some(n - 1)
    else LastWith(sectors, n - 1, r)
  }

  /** Sector files are keyed by R alone: after the loop, sector-R.meta and
      the payload file hold the last sector with ID R; IDs no sector has
      keep what the directory held. */
  lemma SectorWritesKeyed(sectors: seq<LogicalSector>, n: nat, dir: Dir, f: PayloadFormat,
                           json: JsonCodec, lib: LibraryCodecs, v: Variants.Variant, r: byte)
    requires n <= |sectors|
    ensures var out := SectorWrites(sectors, n, dir, f, json, lib, v);
      match LastWith(sectors, n, r)
      case Some(k) =>
        SectorMetaName(r) in out && out[SectorMetaName(r)] == json.render(SectorMeta(sectors[k].info))
        && SectorFileName(r, f) in out && out[SectorFileName(r, f)] == WritePayload(f, lib, v, sectors[k].data)
      case None =>
        (SectorMetaName(r) in out <==> SectorMetaName(r) in dir)
        && (SectorMetaName(r) in dir ==> out[SectorMetaName(r)] == dir[SectorMetaName(r)])
        && (SectorFileName(r, f) in out <==> SectorFileName(r, f) in dir)
        && (SectorFileName(r, f) in dir ==> out[SectorFileName(r, f)] == dir[SectorFileName(r, f)])
  {
    var w := Writer(f, json, lib, v);
    var hit := (s: LogicalSector) => s.info.r == r;
    var meta := (s: LogicalSector) => json.render(SectorMeta(s.info));
    var payload := (s: LogicalSector) => WritePayload(f, lib, v, s.data);
    LastWithHit(sectors, n, r, hit);
    forall d: Dir, s: LogicalSector
      ensures Sets(w(d, s), d, SectorMetaName(r), hit(s), meta(s))
      ensures Sets(w(d, s), d, SectorFileName(r, f), hit(s), payload(s))
    {
      WriteSectorKeyed(d, s, f, json, lib, v, r);
    }
    LastWriteWins(sectors, n, dir, w, SectorMetaName(r), hit, meta);
    LastWriteWins(sectors, n, dir, w, SectorFileName(r, f), hit, payload);
  }

  /** The sector loop as a sequence of overwrites. */
  function Writer(f: PayloadFormat, json: JsonCodec, lib: LibraryCodecs, v: Variants.Variant): (Dir, LogicalSector) -> Dir
  {
    (d: Dir, s: LogicalSector) => WriteSector(d, s, f, json, lib, v)
  }

  lemma {:induction false} LastWithHit(sectors: seq<LogicalSector>, n: nat, r: byte, hit: LogicalSector -> bool)
    requires n <= |sectors|
    requires forall s :: hit(s) == (s.info.r == r)
    ensures LastWith(sectors, n, r) == LastHit(sectors, n, hit)
  {
    if n > 0 {
      LastWithHit(sectors, n - 1, r, hit);
    }
  }

  /** Writing one sector sets its own two files and leaves those of every
      other ID as they were. */
  lemma WriteSectorKeyed(dir: Dir, s: LogicalSector, f: PayloadFormat, json: JsonCodec, lib: LibraryCodecs,
                         v: Variants.Variant, r: byte)
    ensures var out := WriteSector(dir, s, f, json, lib, v);
      if s.info.r == r then
        SectorMetaName(r) in out && out[SectorMetaName(r)] == json.render(SectorMeta(s.info))
        && SectorFileName(r, f) in out && out[SectorFileName(r, f)] == WritePayload(f, lib, v, s.data)
      else
        (SectorMetaName(r) in out <==> SectorMetaName(r) in dir)
        && (SectorMetaName(r) in dir ==> out[SectorMetaName(r)] == dir[SectorMetaName(r)])
        && (SectorFileName(r, f) in out <==> SectorFileName(r, f) in dir)
        && (SectorFileName(r, f) in dir ==> out[SectorFileName(r, f)] == dir[SectorFileName(r, f)])
  {
    SectorNamesDistinct(r, s.info.r, f);
    SectorNamesDistinct(s.info.r, r, f);
  }

  /** Names that are not sector files of the format are left alone. */
  lemma SectorWritesOthers(sectors: seq<LogicalSector>, n: nat, dir: Dir, f: PayloadFormat,
                                              json: JsonCodec, lib: LibraryCodecs, v: Variants.Variant, name: string)
    requires n <= |sectors|
    requires forall r: byte :: name != SectorMetaName(r) && name != SectorFileName(r, f)
    ensures var out := SectorWrites(sectors, n, dir, f, json, lib, v);
      (name in out <==> name in dir) && (name in dir ==> out[name] == dir[name])
  {
    var w := Writer(f, json, lib, v);
    var miss := (s: LogicalSector) => false;
    var none := (s: LogicalSector) => [];
    forall d: Dir, s: LogicalSector
      ensures Sets(w(d, s), d, name, miss(s), none(s))
    {
      assert name != SectorMetaName(s.info.r) && name != SectorFileName(s.info.r, f);
    }
    LastWriteWins(sectors, n, dir, w, name, miss, none);
  }

  /** The names of the directories of positions i and on. */
  function DirNames(total: nat, sides: nat, i: nat): set<string>
    decreases total - i
  {
    if i >= total then {} else {DirName(i, sides)} + DirNames(total, sides, i + 1)
  }

  lemma {:induction false} InDirNames(total: nat, sides: nat, i: nat, name: string)
    ensures name in DirNames(total, sides, i) <==> exists j :: i <= j < total && DirName(j, sides) == name
    decreases total - i
  {
    if i < total {
      InDirNames(total, sides, i + 1, name);
      if name !in DirNames(total, sides, i) {
        forall j | i <= j < total
          ensures DirName(j, sides) != name
        {
          if j > i {
            assert !(i + 1 <= j < total && DirName(j, sides) == name);
          }
        }
      }
    }
  }

  lemma TotalSides(d: DSK, j: nat)
    requires j < TotalBlocks(d.header)
    ensures d.header.sides > 0
  {
  }

  lemma PositionNamed(total: nat, sides: nat, i: nat)
    requires i < total
    ensures DirName(i, sides) in DirNames(total, sides, 0)
  {
    InDirNames(total, sides, 0, DirName(i, sides));
  }

  /** On a two-sided disk no position is named track-NN. */
  lemma PlainNotPositionName(total: nat, sides: nat, i: nat)
    requires sides > 1
    ensures PlainDirName(i) !in DirNames(total, sides, 0)
  {
    var plain := PlainDirName(i);
    InDirNames(total, sides, 0, plain);
    if plain in DirNames(total, sides, 0) {
      var j :| 0 <= j < total && DirName(j, sides) == plain;
      PlainIsNotSideName(i, j / sides, j % sides);
    }
  }

  lemma PlainIsNotDiskMeta(i: nat)
    ensures PlainDirName(i) != DiskMetaName
  {
    assert PlainDirName(i)[0] != DiskMetaName[0];
  }

  /** The directory names of positions after i differ from position i's. */
  lemma LaterNamesDiffer(total: nat, sides: nat, i: nat)
    ensures DirName(i, sides) !in DirNames(total, sides, i + 1)
  {
    var name := DirName(i, sides);
    InDirNames(total, sides, i + 1, name);
    assert name !in DirNames(total, sides, i + 1) by {
      if name in DirNames(total, sides, i + 1) {
        var j :| i + 1 <= j < total && DirName(j, sides) == name;
        DirNameInjective(j, i, sides);
      }
    }
  }

  /** The loop from position i on touches the root files of the tree not at
      all and its directories only at the names of positions i and on. */
  lemma {:induction false} PositionsFrame(total: nat, sides: nat, step: Step, i: nat, t: Tree)
    requires Positions(total, sides, step, i, t).error.None?
    ensures var out := Positions(total, sides, step, i, t).tree;
      out.files == t.files
      && out.dirs.Keys == t.dirs.Keys + DirNames(total, sides, i)
      && (forall name :: name in t.dirs && name !in DirNames(total, sides, i) ==> out.dirs[name] == t.dirs[name])
    decreases total - i
  {
    if i < total {
      var name := DirName(i, sides);
      var (dir, err) := step(i, DirOf(t, name));
      PositionsFrame(total, sides, step, i + 1, t.(dirs := t.dirs[name := dir]));
      LaterNamesDiffer(total, sides, i);
    }
  }

  /** From position i on, the loop gives every position its directory,
      built by the step from what that directory held before. */
  lemma {:induction false} PositionsDir(total: nat, sides: nat, step: Step, i: nat, t: Tree, j: nat)
    requires Positions(total, sides, step, i, t).error.None?
    requires i <= j < total
    ensures DirName(j, sides) in Positions(total, sides, step, i, t).tree.dirs
    ensures Positions(total, sides, step, i, t).tree.dirs[DirName(j, sides)] == step(j, DirOf(t, DirName(j, sides))).0
    decreases total - i
  {
    var name := DirName(i, sides);
    var (dir, err) := step(i, DirOf(t, name));
    var t2 := t.(dirs := t.dirs[name := dir]);
    if j == i {
      if i + 1 < total {
        PositionsFrame(total, sides, step, i + 1, t2);
        LaterNamesDiffer(total, sides, i);
      }
    } else {
      PositionsDir(total, sides, step, i + 1, t2, j);
      if DirName(j, sides) == name {
        DirNameInjective(j, i, sides);
      }
      assert DirOf(t2, DirName(j, sides)) == DirOf(t, DirName(j, sides));
    }
  }

  /** A step that never fails never stops the loop. */
  lemma {:induction false} PositionsSucceed(total: nat, sides: nat, step: Step, i: nat, t: Tree)
    requires forall k, dir :: step(k, dir).1.None?
    ensures Positions(total, sides, step, i, t).error.None?
    decreases total - i
  {
    if i < total {
      var name := DirName(i, sides);
      var (dir, err) := step(i, DirOf(t, name));
      PositionsSucceed(total, sides, step, i + 1, t.(dirs := t.dirs[name := dir]));
    }
  }

  /** With a format name the writers know, no position fails. */
  lemma StepSucceeds(d: DSK, format: string, json: JsonCodec, lib: LibraryCodecs, v: Variants.Variant)
    requires FormatByName(format).Success?
    ensures forall k, dir :: PositionStep(d, format, json, lib, v)(k, dir).1.None?
  {
  }

  /** Unpack writes disk-image.meta and exactly the tracks x sides position
      directories; everything else in the tree is as it was. */
  lemma UnpackTree(d: DSK, t: Tree, format: string, json: JsonCodec, lib: LibraryCodecs, v: Variants.Variant)
    requires FormatByName(format).Success?
    ensures var res := UnpackSpec(d, t, format, json, lib, v);
      res.error.None?
      && res.tree.files == t.files[DiskMetaName := json.render(DiskMeta(d))]
      && res.tree.dirs.Keys == t.dirs.Keys + DirNames(TotalBlocks(d.header), d.header.sides, 0)
      && (forall name :: name in t.dirs && name !in DirNames(TotalBlocks(d.header), d.header.sides, 0) ==> res.tree.dirs[name] == t.dirs[name])
  {
    var step := PositionStep(d, format, json, lib, v);
    StepSucceeds(d, format, json, lib, v);
    PositionsSucceed(TotalBlocks(d.header), d.header.sides, step, 0, WithDiskMeta(d, t, json));
    PositionsFrame(TotalBlocks(d.header), d.header.sides, step, 0, WithDiskMeta(d, t, json));
  }

  /** ... and position j's directory is what PositionDir builds from what
      was there before. */
  lemma UnpackedDir(d: DSK, t: Tree, format: string, json: JsonCodec, lib: LibraryCodecs, v: Variants.Variant, j: nat)
    requires FormatByName(format).Success?
    requires j < TotalBlocks(d.header)
    ensures d.header.sides > 0
    ensures DirName(j, d.header.sides) in UnpackSpec(d, t, format, json, lib, v).tree.dirs
    ensures UnpackSpec(d, t, format, json, lib, v).tree.dirs[DirName(j, d.header.sides)]
      == PositionDir(d, j, DirOf(t, DirName(j, d.header.sides)), format, json, lib, v).0
  {
    TotalSides(d, j);
    var t1 := WithDiskMeta(d, t, json);
    var step := PositionStep(d, format, json, lib, v);
    StepSucceeds(d, format, json, lib, v);
    PositionsSucceed(TotalBlocks(d.header), d.header.sides, step, 0, t1);
    PositionsDir(TotalBlocks(d.header), d.header.sides, step, 0, t1, j);
    assert DirOf(t1, DirName(j, d.header.sides)) == DirOf(t, DirName(j, d.header.sides));
  }

  /** The writer lookup of a track with sectors reports an unknown format. */
  lemma WriteSectorsFails(sectors: seq<LogicalSector>, dir: Dir, format: string, json: JsonCodec,
                          lib: LibraryCodecs, v: Variants.Variant)
    requires sectors != [] && FormatByName(format).Failure?
    ensures WriteSectors(sectors, dir, format, json, lib, v).1 == Some("failed to get format writer: unknown format: " + format)
  {
    var e := FormatByName(format).error;
    assert "failed to get format writer: " + e == "failed to get format writer: unknown format: " + format;
  }

  /** An unknown format name stops Unpack at the first position when a
      track with sectors is placed there. */
  lemma UnknownFormatFails(d: DSK, t: Tree, format: string, json: JsonCodec, lib: LibraryCodecs, v: Variants.Variant)
    requires FormatByName(format).Failure?
    requires TotalBlocks(d.header) > 0 && 0 in TrackMap(d) && d.tracks[TrackMap(d)[0]].sectors != []
    ensures UnpackSpec(d, t, format, json, lib, v).error == Some("failed to get format writer: unknown format: " + format)
  {
    TotalSides(d, 0);
    var t1 := WithDiskMeta(d, t, json);
    var name := DirName(0, d.header.sides);
    var withMeta := DirOf(t1, name)[TrackMetaName := json.render(PositionMeta(d, 0, v))];
    WriteSectorsFails(d.tracks[TrackMap(d)[0]].sectors, withMeta, format, json, lib, v);
    assert PositionStep(d, format, json, lib, v)(0, DirOf(t1, name)).1
      == Some("failed to get format writer: unknown format: " + format);
  }

  /** There are exactly tracks x sides position directories. */
  lemma {:induction false} DirNamesCount(total: nat, sides: nat, i: nat)
    requires i <= total
    ensures |DirNames(total, sides, i)| == total - i
    decreases total - i
  {
    if i < total {
      DirNamesCount(total, sides, i + 1);
      LaterNamesDiffer(total, sides, i);
    }
  }
}
