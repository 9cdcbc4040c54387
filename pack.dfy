/** Packing an unpacked directory tree back into an Extended DSK image: the
    disk header from disk-image.meta, then each track position in table
    order, its block rebuilt from track.meta, the sector metadata files and
    the payload files, and padded to the size the table gives it. */
module Packer {
  import opened Bytes
  import opened Wrappers
  import opened DskTypes
  import opened Json
  import opened Files
  import opened Formatters
  import Unpacker

  /** The ways Pack can fail. The messages Go builds around them are not
      modelled; the constructors carry what they report. */
  datatype PackError =
    | DiskMetaUnreadable
    | DiskMetaInvalid
    | InvalidCreator
    | InvalidTracks
    | InvalidSides
    | MissingTrackSizeTable
    | InvalidTableEntry(index: nat)
    | InvalidTableFormat
    | TableTooLarge(size: nat)
    | TableSizeExceeded(size: nat)
    | TrackDirMissing(position: nat, track: nat, side: nat)
    | TrackMetaUnreadable(position: nat)
    | TrackMetaInvalid(position: nat)
    | SectorMetaUnreadable(entry: string)
    | SectorMetaInvalid(entry: string)
    | DetectFailed(sector: byte, position: nat, cause: DetectError)
    | SectorDataInvalid(sector: byte, message: string)

  /** What Pack leaves behind: the output file, once created, and the
      error that stopped it, if any. */
  datatype PackOutcome = PackOutcome(output: Option<seq<byte>>, error: Option<PackError>)

  // ----- the disk header -----

  const ExtendedSignature: seq<byte> := Ascii("EXTENDED CPC DSK File\r\nDisk-Info\r\n")
  const StandardSignature: seq<byte> := FitTo(Ascii("MV - CPCEMU Disk-File"), SignatureLen)

  predicate IsStandardMeta(meta: Record)
  {
    "format" in meta && meta["format"] == JString(Ascii("standard"))
  }

  /** The signature: the Standard one, zero-padded, when the format field
      is the string "standard", and otherwise the Extended one. */
  function SignatureFor(meta: Record): (r: Bytes34)
    ensures r == StandardSignature <==> IsStandardMeta(meta)
    ensures r == ExtendedSignature <==> !IsStandardMeta(meta)
  {
    assert StandardSignature[0] != ExtendedSignature[0];
    if IsStandardMeta(meta) then StandardSignature else ExtendedSignature
  }

  /** The index of the first entry of a table that is not a number, or the
      table's length when all are. */
  function FirstNonNumber(items: seq<JValue>): (k: nat)
    ensures k <= |items|
    ensures forall j :: 0 <= j < k ==> items[j].JNumber?
    ensures k < |items| ==> !items[k].JNumber?
  {
    if items == [] || !items[0].JNumber? then 0 else 1 + FirstNonNumber(items[1..])
  }

  /** The track size table read from a JSON array: every entry must be a
      number, which is cut to a byte; the first other entry is reported by
      its index. */
  function TableValues(items: seq<JValue>): (r: Result<seq<byte>, PackError>)
    ensures r.Success? <==> forall j :: 0 <= j < |items| ==> items[j].JNumber?
    ensures r.Success? ==> |r.value| == |items| && forall j :: 0 <= j < |items| ==> r.value[j] == ToUint8(items[j].n)
    ensures r.Failure? ==>
      (r.error.InvalidTableEntry? && r.error.index < |items|
       && !items[r.error.index].JNumber? && forall j :: 0 <= j < r.error.index ==> items[j].JNumber?)
  {
    var k := FirstNonNumber(items);
    if k < |items| then Failure(InvalidTableEntry(k))
    else Success(seq(|items|, j requires 0 <= j < |items| => ToUint8(ItemOr0(items[j]))))
  }

  /** The disk header rebuilt from disk-image.meta: the creator, tracks,
      sides and the size table are required, in that order; the table may
      hold at most 204 entries and is zero-padded to 204. */
  function HeaderFrom(meta: Record): Result<DiskHeader, PackError>
  {
    if !("creator" in meta && meta["creator"].JString?) then Failure(InvalidCreator)
    else if !("tracks" in meta && meta["tracks"].JNumber?) then Failure(InvalidTracks)
    else if !("sides" in meta && meta["sides"].JNumber?) then Failure(InvalidSides)
    else if "track_size_table" !in meta then Failure(MissingTrackSizeTable)
    else if !meta["track_size_table"].JArray? then Failure(InvalidTableFormat)
    else match TableValues(meta["track_size_table"].items)
      case Failure(e) => Failure(e)
      case Success(values) =>
        if |values| > TrackSizeTableLen then Failure(TableTooLarge(|values|))
        else Success(DiskHeader(SignatureFor(meta), FitTo(meta["creator"].s, CreatorLen),
                                ToUint8(meta["tracks"].n), ToUint8(meta["sides"].n), [0, 0],
                                FitTo(values, TrackSizeTableLen)))
  }

  /** The header is rebuilt exactly when the four fields have the right
      JSON types and the table has at most 204 number entries; it then holds
      the creator cut or padded to 14 bytes, tracks and sides cut to bytes,
      and the table padded with zeros. */
  lemma HeaderFromFields(meta: Record)
    ensures HeaderFrom(meta).Success? <==>
      "creator" in meta && meta["creator"].JString?
      && "tracks" in meta && meta["tracks"].JNumber?
      && "sides" in meta && meta["sides"].JNumber?
      && "track_size_table" in meta && meta["track_size_table"].JArray?
      && TableValues(meta["track_size_table"].items).Success?
      && |meta["track_size_table"].items| <= TrackSizeTableLen
    ensures HeaderFrom(meta).Success? ==>
      HeaderFrom(meta).value == DiskHeader(SignatureFor(meta), FitTo(meta["creator"].s, CreatorLen),
                                           ToUint8(meta["tracks"].n), ToUint8(meta["sides"].n), [0, 0],
                                           FitTo(TableValues(meta["track_size_table"].items).value, TrackSizeTableLen))
  {
  }

  /** The first 52 bytes written: signature, creator, tracks, sides and two
      zero bytes. */
  function HeaderPrefix(h: DiskHeader): (r: seq<byte>)
    ensures |r| == TableOffset
  {
    h.signature + h.creator + [h.tracks, h.sides] + [0, 0]
  }

  // ----- locating a track's directory -----

  /** os.Stat succeeds: a directory or a file of that name exists. */
  predicate Exists(t: Tree, name: string)
  {
    name in t.dirs || name in t.files
  }

  /** The directory tried for position i: track-%02d of i, and when that
      does not exist on a two-sided disk, track-%02d-side-%d of the track
      and side of i. */
  function FindTrackDir(t: Tree, i: nat, sides: nat): string
  {
    var plain := Unpacker.PlainDirName(i);
    if !Exists(t, plain) && sides > 1 then Unpacker.SideDirName(i / sides, i % sides) else plain
  }

  // ----- track.meta -----

  const TrackSignature: seq<byte> := Ascii("Track-Info\r\n") + [0]

  /** n bytes from the JSON array under k: the first n items, each as a
      number cut to a byte (0 when not a number), zeros after the array
      ends; all zeros when the field is not an array. */
  function ArrayBytes(m: Record, k: string, n: nat): (r: seq<byte>)
    ensures |r| == n
  {
    if k in m && m[k].JArray? then
      seq(n, j requires 0 <= j < n => if j < |m[k].items| then ToUint8(ItemOr0(m[k].items[j])) else 0)
    else Zeros(n)
  }

  /** Byte j of an array field: item j cut to a byte while the array
      lasts, then 0. */
  lemma ArrayBytesAt(m: Record, k: string, n: nat, j: nat)
    requires j < n
    ensures ArrayBytes(m, k, n)[j]
      == if k in m && m[k].JArray? && j < |m[k].items| then ToUint8(ItemOr0(m[k].items[j])) else 0
  {
  }

  /** The loop that copies an array field into a fixed-size buffer, stopping
      when the buffer is full. */
  method CopyArrayBytes(m: Record, k: string, n: nat) returns (r: seq<byte>)
    ensures r == ArrayBytes(m, k, n)
  {
    var buf := new byte[n];
    forall j | 0 <= j < n {
      buf[j] := 0;
    }
    if k in m && m[k].JArray? {
      var items := m[k].items;
      var j := 0;
      while j < |items|
        invariant 0 <= j <= |items|
        invariant forall q :: 0 <= q < n ==> buf[q] == if q < j && q < |items| then ToUint8(ItemOr0(items[q])) else 0
      {
        if j >= n {
          break;
        }
        buf[j] := ToUint8(ItemOr0(items[j]));
        j := j + 1;
      }
      assert forall q :: 0 <= q < n ==> buf[q] == if q < |items| then ToUint8(ItemOr0(items[q])) else 0;
    }
    r := buf[..];
    forall q | 0 <= q < n
      ensures r[q] == ArrayBytes(m, k, n)[q]
    {
      ArrayBytesAt(m, k, n, q);
    }
  }

  /** The track header rebuilt from track.meta: a fixed signature, and every
      other field 0 where the metadata lacks it. */
  function TrackHeaderFrom(tm: Record): (h: TrackHeader)
    ensures h.signature == TrackSignature
  {
    TrackHeader(TrackSignature, ArrayBytes(tm, "unused", 3),
                ToUint8(NumberOr0(tm, "track_number")), ToUint8(NumberOr0(tm, "side_number")),
                ArrayBytes(tm, "unused2", 2),
                ToUint8(NumberOr0(tm, "sector_size")), ToUint8(NumberOr0(tm, "sector_count")),
                ToUint8(NumberOr0(tm, "gap3_length")), ToUint8(NumberOr0(tm, "filler_byte")))
  }

  // ----- sector files -----

  function TrimPrefix(s: string, p: string): (r: string)
    ensures HasPrefix(s, p) ==> p + r == s
    ensures !HasPrefix(s, p) ==> r == s
  {
    if HasPrefix(s, p) then s[|p|..] else s
  }

  function TrimSuffix(s: string, p: string): (r: string)
    ensures HasSuffix(s, p) ==> r + p == s
    ensures !HasSuffix(s, p) ==> r == s
  {
    if HasSuffix(s, p) then s[..|s| - |p|] else s
  }

  /** The white space fmt's scanner skips before a number (its isSpace
      table); a newline is not skipped: Sscanf reports it
      as an error ("unexpected newline"). */
  predicate FmtSpace(c: char)
  {
    ('\t' <= c <= '\r' && c != '\n') || c == ' ' || c == '\U{85}' || c == '\U{A0}' || c == '\U{1680}'
    || ('\U{2000}' <= c <= '\U{200A}') || c == '\U{2028}' || c == '\U{2029}' || c == '\U{202F}'
    || c == '\U{205F}' || c == '\U{3000}'
  }

  function SkipSpace(s: string): (r: string)
    ensures |r| <= |s| && r == s[|s| - |r|..]
    ensures r != [] ==> !FmtSpace(r[0])
  {
    if s != [] && FmtSpace(s[0]) then SkipSpace(s[1..]) else s
  }

  /** The longest prefix of decimal digits. */
  function DigitRun(s: string): (r: string)
    ensures |r| <= |s| && r == s[..|r|]
    ensures forall k :: 0 <= k < |r| ==> IsDigit(r[k])
    ensures |r| < |s| ==> !IsDigit(s[|r|])
  {
    if s != [] && IsDigit(s[0]) then [s[0]] + DigitRun(s[1..]) else []
  }

  /** fmt.Sscanf(s, "%d", &n) into a uint8: leading white space, then at
      least one decimal digit; the digits must fit in a byte; no sign is
      accepted. The token ends at the first character that is not a
      decimal digit ('_' counts among the digits only for %v), and what
      follows it is not looked at. */
  function ScanUint8(s: string): (r: Option<byte>)
    ensures r.Some? <==>
      (var d := DigitRun(SkipSpace(s)); |d| > 0 && DecimalValue(d) < 0x100)
    ensures r.Some? ==> r.value == DecimalValue(DigitRun(SkipSpace(s)))
  {
    var d := DigitRun(SkipSpace(s));
    if |d| == 0 || DecimalValue(d) >= 0x100 then None
    else Some(DecimalValue(d))
  }

  /** The sector number a directory entry names when it is a sector
      metadata file: sector-<n>.meta, with n read by ScanUint8. */
  function SectorNumber(e: string): Option<byte>
  {
    if HasPrefix(e, "sector-") && HasSuffix(e, ".meta") then
      ScanUint8(TrimPrefix(TrimSuffix(e, ".meta"), "sector-"))
    else None
  }

  /** The sector descriptor rebuilt from sector-R.meta; missing fields are 0. */
  function SectorInfoFrom(sm: Record): SectorInfo
  {
    SectorInfo(ToUint8(NumberOr0(sm, "cylinder")), ToUint8(NumberOr0(sm, "head")),
               ToUint8(NumberOr0(sm, "sector_id")), ToUint8(NumberOr0(sm, "sector_size")),
               ToUint8(NumberOr0(sm, "fdc_status1")), ToUint8(NumberOr0(sm, "fdc_status2")),
               ToUint16(NumberOr0(sm, "data_length")))
  }

  /** The sector loop so far: the descriptors in the order of the entries,
      the payloads keyed by the number in the file name, and the error that
      stopped the loop. */
  datatype SectorScan = SectorScan(infos: seq<SectorInfo>, data: map<byte, seq<byte>>, error: Option<PackError>)

  /** The sector loop over entries[k..] of track position i. */
  function SectorsFrom(dir: Unpacker.Dir, entries: seq<string>, k: nat, i: nat, infos: seq<SectorInfo>,
                       data: map<byte, seq<byte>>, json: JsonCodec, lib: LibraryCodecs): (r: SectorScan)
    decreases |entries| - k
  {
    if k >= |entries| then SectorScan(infos, data, None)
    else
      var e := entries[k];
      match SectorNumber(e)
      case None => SectorsFrom(dir, entries, k + 1, i, infos, data, json, lib)
      case Some(r) =>
        if e !in dir then SectorScan(infos, data, Some(SectorMetaUnreadable(e)))
        else match json.parse(dir[e])
          case None => SectorScan(infos, data, Some(SectorMetaInvalid(e)))
          case Some(sm) =>
            var more := infos + [SectorInfoFrom(sm)];
            match DetectFormat(dir.Keys, r)
            case Failure(de) => SectorScan(more, data, Some(DetectFailed(r, i, de)))
            case Success(found) =>
              DetectNeedsSoleFile(dir.Keys, r);
              match ReadPayload(found.0, lib, dir[found.1])
              case Failure(msg) => SectorScan(more, data, Some(SectorDataInvalid(r, msg)))
              case Success(payload) => SectorsFrom(dir, entries, k + 1, i, more, data[r := payload], json, lib)
  }

  function InfoBytes(infos: seq<SectorInfo>): (r: seq<byte>)
    ensures |r| == SectorInfoSize * |infos|
  {
    if infos == [] then [] else InfoBytes(infos[..|infos| - 1]) + EncodeSectorInfo(infos[|infos| - 1])
  }

  /** The payloads in descriptor order, looked up by each descriptor's R; a
      descriptor with no payload of that number contributes nothing. */
  function DataBytes(infos: seq<SectorInfo>, data: map<byte, seq<byte>>): seq<byte>
  {
    if infos == [] then []
    else
      var r := infos[|infos| - 1].r;
      DataBytes(infos[..|infos| - 1], data) + (if r in data then data[r] else [])
  }

  // ----- one track position -----

  /** What position i contributes before padding: nothing, the bytes
      written before an error and the error, or the whole block. */
  datatype TrackData =
    | Skip
    | Fail(partial: seq<byte>, error: PackError)
    | Block(bytes: seq<byte>, filler: byte)

  function TrackSize(h: DiskHeader, i: nat): nat
    requires i < TrackSizeTableLen
  {
    (h.trackSizeTable[i] as nat) * 256
  }

  /** Where the block of position i starts when every earlier block has
      exactly its table size. */
  function TrackStart(h: DiskHeader, i: nat): nat
    requires i <= TrackSizeTableLen
  {
    HeaderSize + 256 * Sum(h.trackSizeTable[..i])
  }

  /** The track block of position i, read from its directory. */
  function TrackBlock(t: Tree, h: DiskHeader, i: nat, json: JsonCodec, lib: LibraryCodecs,
                      listing: Unpacker.Dir -> seq<string>): (r: TrackData)
    requires i < TotalBlocks(h) <= TrackSizeTableLen
    ensures r.Skip? <==> TrackSize(h, i) == 0
  {
    var name := FindTrackDir(t, i, h.sides);
    if !Exists(t, name) then
      if TrackSize(h, i) == 0 then Skip else Fail([], TrackDirMissing(i, i / h.sides, i % h.sides))
    else if TrackSize(h, i) == 0 then Skip
    else
      var dir := Unpacker.DirOf(t, name);
      if Unpacker.TrackMetaName !in dir then Fail([], TrackMetaUnreadable(i))
      else match json.parse(dir[Unpacker.TrackMetaName])
        case None => Fail([], TrackMetaInvalid(i))
        case Some(tm) =>
          var th := TrackHeaderFrom(tm);
          var scan := SectorsFrom(dir, listing(dir), 0, i, [], map[], json, lib);
          if scan.error.Some? then Fail(EncodeTrackHeader(th), scan.error.value)
          else Block(EncodeTrackHeader(th) + InfoBytes(scan.infos) + DataBytes(scan.infos, scan.data), th.fillerByte)
  }

  /** The file after position i: a block is padded with its filler byte up
      to where the table says it ends, measured from the start the earlier
      table entries give it. */
  function TrackStep(t: Tree, h: DiskHeader, i: nat, out: seq<byte>, json: JsonCodec, lib: LibraryCodecs,
                     listing: Unpacker.Dir -> seq<string>): (seq<byte>, Option<PackError>)
    requires i < TotalBlocks(h) <= TrackSizeTableLen
  {
    match TrackBlock(t, h, i, json, lib, listing)
    case Skip => (out, None)
    case Fail(p, e) => (out + p, Some(e))
    case Block(b, filler) => (PadBlock(h, i, out + b, filler), None)
  }

  /** The file after a block of position i: filler bytes up to where the
      table says the block ends, measured from the start the earlier
      entries give it; a block that already reaches that point is kept
      whole. */
  function PadBlock(h: DiskHeader, i: nat, o: seq<byte>, filler: byte): (r: seq<byte>)
    requires i < TrackSizeTableLen
    ensures |o| < TrackStart(h, i) + TrackSize(h, i) ==> r == o + Fill(TrackStart(h, i) + TrackSize(h, i) - |o|, filler)
    ensures |o| >= TrackStart(h, i) + TrackSize(h, i) ==> r == o
  {
    var written := |o| - TrackStart(h, i);
    if written < TrackSize(h, i) then o + Fill(TrackSize(h, i) - written, filler) else o
  }

  // ----- the position loop -----

  /** What the loop does at one position. */
  type Step = (nat, seq<byte>) --> (seq<byte>, Option<PackError>)

  /** The loop over positions i..n-1, stopping at the first error. */
  function Tracks(n: nat, step: Step, i: nat, out: seq<byte>): PackOutcome
    requires forall k: nat, o: seq<byte> :: k < n ==> step.requires(k, o)
    decreases n - i
  {
    if i >= n then PackOutcome(Some(out), None)
    else
      var (o, e) := step(i, out);
      if e.Some? then PackOutcome(Some(o), e) else Tracks(n, step, i + 1, o)
  }

  function PackStep(t: Tree, h: DiskHeader, json: JsonCodec, lib: LibraryCodecs,
                    listing: Unpacker.Dir -> seq<string>): Step
    requires TotalBlocks(h) <= TrackSizeTableLen
  {
    (k: nat, o: seq<byte>) requires k < TotalBlocks(h) => TrackStep(t, h, k, o, json, lib, listing)
  }

  /** The file from the header on: too many positions stop Pack after the
      first 52 bytes; otherwise the first tracks x sides table entries are
      written, zeros fill the header to 256 bytes, and the tracks follow. */
  function WriteImage(t: Tree, h: DiskHeader, json: JsonCodec, lib: LibraryCodecs,
                      listing: Unpacker.Dir -> seq<string>): PackOutcome
  {
    var n := TotalBlocks(h);
    if n > TrackSizeTableLen then PackOutcome(Some(HeaderPrefix(h)), Some(TableSizeExceeded(n)))
    else Tracks(n, PackStep(t, h, json, lib, listing), 0, HeaderPrefix(h) + h.trackSizeTable[..n] + Zeros(TrackSizeTableLen - n))
  }

  /** Pack: read disk-image.meta, rebuild the header, write the image. The
      listing stands for os.ReadDir of a track directory. */
  function PackSpec(t: Tree, json: JsonCodec, lib: LibraryCodecs, listing: Unpacker.Dir -> seq<string>): PackOutcome
  {
    if Unpacker.DiskMetaName !in t.files then PackOutcome(None, Some(DiskMetaUnreadable))
    else match json.parse(t.files[Unpacker.DiskMetaName])
      case None => PackOutcome(None, Some(DiskMetaInvalid))
      case Some(meta) =>
        match HeaderFrom(meta)
        case Failure(e) => PackOutcome(None, Some(e))
        case Success(h) => WriteImage(t, h, json, lib, listing)
  }

  // ----- the methods -----

  /** The conversion loop of the size table, into a buffer of the array's
      length. */
  method ConvertTable(items: seq<JValue>) returns (r: Result<seq<byte>, PackError>)
    ensures r == TableValues(items)
  {
    var values := new byte[|items|];
    var i := 0;
    while i < |items|
      invariant 0 <= i <= |items|
      invariant forall j :: 0 <= j < i ==> items[j].JNumber? && values[j] == ToUint8(items[j].n)
    {
      if !items[i].JNumber? {
        return Failure(InvalidTableEntry(i));
      }
      values[i] := ToUint8(items[i].n);
      i := i + 1;
    }
    assert values[..] == TableValues(items).value;
    return Success(values[..]);
  }

  /** The header part of Pack, up to the table check. */
  method ReadHeader(meta: Record) returns (r: Result<DiskHeader, PackError>)
    ensures r == HeaderFrom(meta)
  {
    var signature := SignatureFor(meta);
    if !("creator" in meta && meta["creator"].JString?) {
      return Failure(InvalidCreator);
    }
    var creator := FitTo(meta["creator"].s, CreatorLen);
    if !("tracks" in meta && meta["tracks"].JNumber?) {
      return Failure(InvalidTracks);
    }
    var tracks := ToUint8(meta["tracks"].n);
    if !("sides" in meta && meta["sides"].JNumber?) {
      return Failure(InvalidSides);
    }
    var sides := ToUint8(meta["sides"].n);
    if "track_size_table" !in meta {
      return Failure(MissingTrackSizeTable);
    }
    var table := meta["track_size_table"];
    if !table.JArray? {
      return Failure(InvalidTableFormat);
    }
    var values := ConvertTable(table.items);
    if values.Failure? {
      return Failure(values.error);
    }
    if |values.value| > TrackSizeTableLen {
      return Failure(TableTooLarge(|values.value|));
    }
    return Success(DiskHeader(signature, creator, tracks, sides, [0, 0], FitTo(values.value, TrackSizeTableLen)));
  }

  /** The sector loop of one track directory. */
  method ReadSectors(dir: Unpacker.Dir, entries: seq<string>, i: nat, json: JsonCodec, lib: LibraryCodecs)
    returns (r: SectorScan)
    ensures r == SectorsFrom(dir, entries, 0, i, [], map[], json, lib)
  {
    var infos: seq<SectorInfo> := [];
    var data: map<byte, seq<byte>> := map[];
    var k := 0;
    while k < |entries|
      invariant 0 <= k <= |entries|
      invariant SectorsFrom(dir, entries, k, i, infos, data, json, lib) == SectorsFrom(dir, entries, 0, i, [], map[], json, lib)
      decreases |entries| - k
    {
      var e := entries[k];
      var num := SectorNumber(e);
      if num.Some? {
        var r := num.value;
        if e !in dir {
          return SectorScan(infos, data, Some(SectorMetaUnreadable(e)));
        }
        var sm := json.parse(dir[e]);
        if sm.None? {
          return SectorScan(infos, data, Some(SectorMetaInvalid(e)));
        }
        infos := infos + [SectorInfoFrom(sm.value)];
        var found := DetectFormatFromFile(dir.Keys, r);
        if found.Failure? {
          return SectorScan(infos, data, Some(DetectFailed(r, i, found.error)));
        }
        DetectNeedsSoleFile(dir.Keys, r);
        var payload := ReadPayload(found.value.0, lib, dir[found.value.1]);
        if payload.Failure? {
          return SectorScan(infos, data, Some(SectorDataInvalid(r, payload.error)));
        }
        data := data[r := payload.value];
      }
      k := k + 1;
    }
    return SectorScan(infos, data, None);
  }

  /** The loop that adds each earlier table entry to the header size. */
  method TrackStartOf(h: DiskHeader, i: nat) returns (start: nat)
    requires i <= TrackSizeTableLen
    ensures start == TrackStart(h, i)
  {
    start := HeaderSize;
    var j := 0;
    while j < i
      invariant 0 <= j <= i
      invariant start == HeaderSize + 256 * Sum(h.trackSizeTable[..j])
    {
      SumPrefixStep(h.trackSizeTable, j);
      start := start + (h.trackSizeTable[j] as nat) * 256;
      j := j + 1;
    }
  }

  /** The padding buffer, every byte set to the filler. */
  method Padding(n: nat, filler: byte) returns (p: seq<byte>)
    ensures p == Fill(n, filler)
  {
    var buf := new byte[n];
    var j := 0;
    while j < n
      invariant 0 <= j <= n
      invariant forall q :: 0 <= q < j ==> buf[q] == filler
    {
      buf[j] := filler;
      j := j + 1;
    }
    p := buf[..];
  }

  /** A formatted position's block as Pack writes it: the header, the
      descriptors, then the payloads. */
  method ReadTrackBlock(t: Tree, h: DiskHeader, i: nat, json: JsonCodec, lib: LibraryCodecs,
                        listing: Unpacker.Dir -> seq<string>)
    returns (b: TrackData)
    requires i < TotalBlocks(h) <= TrackSizeTableLen
    ensures b == TrackBlock(t, h, i, json, lib, listing)
  {
    var trackSize := (h.trackSizeTable[i] as nat) * 256;
    var name := FindTrackDir(t, i, h.sides);
    if !Exists(t, name) {
      if trackSize == 0 {
        return Skip;
      }
      return Fail([], TrackDirMissing(i, i / h.sides, i % h.sides));
    }
    if trackSize == 0 {
      return Skip;
    }
    var dir := Unpacker.DirOf(t, name);
    if Unpacker.TrackMetaName !in dir {
      return Fail([], TrackMetaUnreadable(i));
    }
    var tm := json.parse(dir[Unpacker.TrackMetaName]);
    if tm.None? {
      return Fail([], TrackMetaInvalid(i));
    }
    var unused := CopyArrayBytes(tm.value, "unused", 3);
    var unused2 := CopyArrayBytes(tm.value, "unused2", 2);
    var th := TrackHeader(TrackSignature, unused,
                          ToUint8(NumberOr0(tm.value, "track_number")), ToUint8(NumberOr0(tm.value, "side_number")),
                          unused2,
                          ToUint8(NumberOr0(tm.value, "sector_size")), ToUint8(NumberOr0(tm.value, "sector_count")),
                          ToUint8(NumberOr0(tm.value, "gap3_length")), ToUint8(NumberOr0(tm.value, "filler_byte")));
    assert th == TrackHeaderFrom(tm.value);
    var bytes := EncodeTrackHeader(th);
    var scan := ReadSectors(dir, listing(dir), i, json, lib);
    if scan.error.Some? {
      return Fail(bytes, scan.error.value);
    }
    var infoBytes := WriteInfos(scan.infos);
    var dataBytes := WriteData(scan.infos, scan.data);
    bytes := bytes + infoBytes + dataBytes;
    return Block(bytes, th.fillerByte);
  }

  /** The loop writing the sector descriptors. */
  method WriteInfos(infos: seq<SectorInfo>) returns (o: seq<byte>)
    ensures o == InfoBytes(infos)
  {
    o := [];
    var k := 0;
    while k < |infos|
      invariant 0 <= k <= |infos|
      invariant o == InfoBytes(infos[..k])
    {
      assert infos[..k + 1][..k] == infos[..k];
      o := o + EncodeSectorInfo(infos[k]);
      k := k + 1;
    }
    assert infos[..k] == infos;
  }

  /** The loop writing the payloads in descriptor order. */
  method WriteData(infos: seq<SectorInfo>, data: map<byte, seq<byte>>) returns (o: seq<byte>)
    ensures o == DataBytes(infos, data)
  {
    o := [];
    var k := 0;
    while k < |infos|
      invariant 0 <= k <= |infos|
      invariant o == DataBytes(infos[..k], data)
    {
      assert infos[..k + 1][..k] == infos[..k];
      var r := infos[k].r;
      o := o + (if r in data then data[r] else []);
      k := k + 1;
    }
    assert infos[..k] == infos;
  }

  /** One position of Pack's loop, appending to the file. */
  method PackTrack(t: Tree, h: DiskHeader, i: nat, out: seq<byte>, json: JsonCodec, lib: LibraryCodecs,
                   listing: Unpacker.Dir -> seq<string>)
    returns (o: seq<byte>, err: Option<PackError>)
    requires i < TotalBlocks(h) <= TrackSizeTableLen
    ensures (o, err) == TrackStep(t, h, i, out, json, lib, listing)
  {
    var block := ReadTrackBlock(t, h, i, json, lib, listing);
    match block
    case Skip =>
      return out, None;
    case Fail(p, e) =>
      return out + p, Some(e);
    case Block(b, filler) =>
      o := PadTrack(h, i, out + b, filler);
      return o, None;
  }

  /** The padding after a block: the start from the table, then the
      filler buffer when the block falls short. */
  method PadTrack(h: DiskHeader, i: nat, o: seq<byte>, filler: byte) returns (r: seq<byte>)
    requires i < TrackSizeTableLen
    ensures r == PadBlock(h, i, o, filler)
  {
    r := o;
    var trackSize := (h.trackSizeTable[i] as nat) * 256;
    var start := TrackStartOf(h, i);
    var written := |o| - start;
    if written < trackSize {
      var pad := Padding(trackSize - written, filler);
      r := r + pad;
    }
  }

  /** The loop over positions, from the file after its header. */
  method WriteTracks(t: Tree, h: DiskHeader, out: seq<byte>, json: JsonCodec, lib: LibraryCodecs,
                     listing: Unpacker.Dir -> seq<string>)
    returns (res: PackOutcome)
    requires TotalBlocks(h) <= TrackSizeTableLen
    ensures res == Tracks(TotalBlocks(h), PackStep(t, h, json, lib, listing), 0, out)
  {
    ghost var step := PackStep(t, h, json, lib, listing);
    var n := TotalBlocks(h);
    var file := out;
    var i := 0;
    while i < n
      invariant 0 <= i <= n
      invariant Tracks(n, step, i, file) == Tracks(n, step, 0, out)
      decreases n - i
    {
      var o, err := PackTrack(t, h, i, file, json, lib, listing);
      assert (o, err) == step(i, file);
      if err.Some? {
        return PackOutcome(Some(o), err);
      }
      file := o;
      i := i + 1;
    }
    return PackOutcome(Some(file), None);
  }

  /** Pack as written: the header, then the loop over positions. */
  method Pack(t: Tree, json: JsonCodec, lib: LibraryCodecs, listing: Unpacker.Dir -> seq<string>)
    returns (res: PackOutcome)
    ensures res == PackSpec(t, json, lib, listing)
  {
    if Unpacker.DiskMetaName !in t.files {
      return PackOutcome(None, Some(DiskMetaUnreadable));
    }
    var meta := json.parse(t.files[Unpacker.DiskMetaName]);
    if meta.None? {
      return PackOutcome(None, Some(DiskMetaInvalid));
    }
    var header := ReadHeader(meta.value);
    if header.Failure? {
      return PackOutcome(None, Some(header.error));
    }
    var h := header.value;
    var out := HeaderPrefix(h);
    var n := TotalBlocks(h);
    if n > TrackSizeTableLen {
      return PackOutcome(Some(out), Some(TableSizeExceeded(n)));
    }
    out := out + h.trackSizeTable[..n] + Zeros(TrackSizeTableLen - n);
    res := WriteTracks(t, h, out, json, lib, listing);
  }

  // ----- properties -----

  /** The table part of the header as written: the first tracks x sides
      entries, then zeros. */
  function WrittenTable(h: DiskHeader, n: nat): SizeTable
    requires n <= TrackSizeTableLen
  {
    h.trackSizeTable[..n] + Zeros(TrackSizeTableLen - n)
  }

  /** Too many positions stop Pack after exactly the first 52 bytes of the
      header, its two padding bytes written as zeros. */
  lemma OversizedTableStopsEarly(t: Tree, h: DiskHeader, json: JsonCodec, lib: LibraryCodecs,
                                 listing: Unpacker.Dir -> seq<string>)
    requires TotalBlocks(h) > TrackSizeTableLen
    ensures WriteImage(t, h, json, lib, listing)
      == PackOutcome(Some(EncodeDiskHeader(h.(padding := [0, 0]))[..TableOffset]), Some(TableSizeExceeded(TotalBlocks(h))))
  {
    assert EncodeDiskHeader(h.(padding := [0, 0]))[..TableOffset] == HeaderPrefix(h);
  }

  lemma {:induction false} TracksExtend(n: nat, step: Step, i: nat, out: seq<byte>)
    requires forall k: nat, o: seq<byte> :: k < n ==> step.requires(k, o)
    requires forall k: nat, o: seq<byte> :: k < n ==> o <= step(k, o).0
    ensures Tracks(n, step, i, out).output.Some? && out <= Tracks(n, step, i, out).output.value
    decreases n - i
  {
    if i < n {
      var (o, e) := step(i, out);
      if e.None? {
        TracksExtend(n, step, i + 1, o);
      }
    }
  }

  /** Every position only appends to the file. */
  lemma TrackStepExtends(t: Tree, h: DiskHeader, i: nat, out: seq<byte>, json: JsonCodec, lib: LibraryCodecs,
                         listing: Unpacker.Dir -> seq<string>)
    requires i < TotalBlocks(h) <= TrackSizeTableLen
    ensures out <= TrackStep(t, h, i, out, json, lib, listing).0
  {
  }

  /** Once the header is written it stays: whatever the tracks do, the
      file starts with the disk header, its padding zero and its table cut
      to the positions in use. */
  lemma PackedHeader(t: Tree, h: DiskHeader, json: JsonCodec, lib: LibraryCodecs, listing: Unpacker.Dir -> seq<string>)
    requires TotalBlocks(h) <= TrackSizeTableLen
    ensures var res := WriteImage(t, h, json, lib, listing);
      res.output.Some? && |res.output.value| >= HeaderSize
      && res.output.value[..HeaderSize] == EncodeDiskHeader(h.(padding := [0, 0], trackSizeTable := WrittenTable(h, TotalBlocks(h))))
  {
    var n := TotalBlocks(h);
    var step := PackStep(t, h, json, lib, listing);
    var start := HeaderPrefix(h) + h.trackSizeTable[..n] + Zeros(TrackSizeTableLen - n);
    forall k: nat, o: seq<byte> | k < n
      ensures o <= step(k, o).0
    {
      TrackStepExtends(t, h, k, o, json, lib, listing);
    }
    TracksExtend(n, step, 0, start);
    assert start == EncodeDiskHeader(h.(padding := [0, 0], trackSizeTable := WrittenTable(h, n)));
  }

  /** A zero table entry contributes nothing, whether or not its
      directory exists. */
  lemma ZeroEntrySkipped(t: Tree, h: DiskHeader, i: nat, out: seq<byte>, json: JsonCodec, lib: LibraryCodecs,
                         listing: Unpacker.Dir -> seq<string>)
    requires i < TotalBlocks(h) <= TrackSizeTableLen
    requires h.trackSizeTable[i] == 0
    ensures TrackStep(t, h, i, out, json, lib, listing) == (out, None)
  {
  }

  /** A nonzero table entry needs its directory. */
  lemma MissingTrackDirFails(t: Tree, h: DiskHeader, i: nat, out: seq<byte>, json: JsonCodec, lib: LibraryCodecs,
                             listing: Unpacker.Dir -> seq<string>)
    requires i < TotalBlocks(h) <= TrackSizeTableLen
    requires h.trackSizeTable[i] != 0 && !Exists(t, FindTrackDir(t, i, h.sides))
    ensures TrackStep(t, h, i, out, json, lib, listing)
      == (out, Some(TrackDirMissing(i, i / h.sides, i % h.sides)))
  {
    assert out + [] == out;
  }

  /** Whatever of a track block gets written starts with the fixed track
      signature. */
  lemma BlockStartsWithSignature(t: Tree, h: DiskHeader, i: nat, json: JsonCodec, lib: LibraryCodecs,
                                 listing: Unpacker.Dir -> seq<string>)
    requires i < TotalBlocks(h) <= TrackSizeTableLen
    ensures match TrackBlock(t, h, i, json, lib, listing)
      case Skip => true
      case Fail(p, _) => p == [] || (|p| == TrackHeaderSize && p[..TrackSignatureLen] == TrackSignature)
      case Block(b, _) => |b| >= TrackHeaderSize && b[..TrackSignatureLen] == TrackSignature
  {
    var name := FindTrackDir(t, i, h.sides);
    var dir := Unpacker.DirOf(t, name);
    if Exists(t, name) && TrackSize(h, i) != 0 && Unpacker.TrackMetaName in dir
       && json.parse(dir[Unpacker.TrackMetaName]).Some? {
      var th := TrackHeaderFrom(json.parse(dir[Unpacker.TrackMetaName]).value);
      var x := EncodeTrackHeader(th);
      assert x[..TrackSignatureLen] == TrackSignature;
      var scan := SectorsFrom(dir, listing(dir), 0, i, [], map[], json, lib);
      if scan.error.None? {
        SignatureFirst(x, InfoBytes(scan.infos) + DataBytes(scan.infos, scan.data));
      }
    }
  }

  lemma SignatureFirst(x: seq<byte>, rest: seq<byte>)
    requires |x| == TrackHeaderSize && x[..TrackSignatureLen] == TrackSignature
    ensures |x + rest| >= TrackHeaderSize && (x + rest)[..TrackSignatureLen] == TrackSignature
  {
    assert (x + rest)[..TrackSignatureLen] == x[..TrackSignatureLen];
  }

  /** When the directory Pack finds for a position holds a readable
      track.meta and the table gives the position a size, whatever is
      written of its block starts with the header rebuilt from that
      track.meta, and the block is padded with that header's filler byte. */
  lemma TrackBlockHeader(t: Tree, h: DiskHeader, i: nat, json: JsonCodec, lib: LibraryCodecs,
                         listing: Unpacker.Dir -> seq<string>, tm: Record)
    requires i < TotalBlocks(h) <= TrackSizeTableLen
    requires TrackSize(h, i) != 0
    requires var name := FindTrackDir(t, i, h.sides);
      name in t.dirs && Unpacker.TrackMetaName in t.dirs[name]
      && json.parse(t.dirs[name][Unpacker.TrackMetaName]) == Some(tm)
    ensures var th := TrackHeaderFrom(tm);
      match TrackBlock(t, h, i, json, lib, listing)
      case Skip => false
      case Fail(p, _) => p == EncodeTrackHeader(th)
      case Block(b, filler) => |b| >= TrackHeaderSize && b[..TrackHeaderSize] == EncodeTrackHeader(th) && filler == th.fillerByte
  {
  }

  /** A block fits its table entry when it is no longer than the entry
      says. */
  predicate Fits(t: Tree, h: DiskHeader, i: nat, json: JsonCodec, lib: LibraryCodecs,
                 listing: Unpacker.Dir -> seq<string>)
    requires i < TotalBlocks(h) <= TrackSizeTableLen
  {
    var b := TrackBlock(t, h, i, json, lib, listing);
    b.Block? ==> |b.bytes| <= TrackSize(h, i)
  }

  /** A position starting where the table puts it ends where the table
      puts the next one exactly when its block fits; a longer block is
      written whole. */
  lemma TrackStepLength(t: Tree, h: DiskHeader, i: nat, out: seq<byte>, json: JsonCodec, lib: LibraryCodecs,
                        listing: Unpacker.Dir -> seq<string>)
    requires i < TotalBlocks(h) <= TrackSizeTableLen
    requires |out| == TrackStart(h, i)
    requires TrackStep(t, h, i, out, json, lib, listing).1.None?
    ensures |TrackStep(t, h, i, out, json, lib, listing).0| >= TrackStart(h, i + 1)
    ensures |TrackStep(t, h, i, out, json, lib, listing).0| == TrackStart(h, i + 1)
      <==> Fits(t, h, i, json, lib, listing)
  {
    SumPrefixStep(h.trackSizeTable, i);
  }

  /** A loop whose every step takes the file from the length given for
      its position to the length given for the next ends at the last
      length. */
  lemma {:induction false} TracksLength(n: nat, step: Step, i: nat, out: seq<byte>, len: seq<nat>)
    requires forall k: nat, o: seq<byte> :: k < n ==> step.requires(k, o)
    requires i <= n && |len| == n + 1 && |out| == len[i]
    requires forall k: nat, o: seq<byte> :: k < n && |o| == len[k] && step(k, o).1.None? ==> |step(k, o).0| == len[k + 1]
    requires Tracks(n, step, i, out).error.None?
    ensures Tracks(n, step, i, out).output.Some? && |Tracks(n, step, i, out).output.value| == len[n]
    decreases n - i
  {
    if i < n {
      TracksLength(n, step, i + 1, step(i, out).0, len);
    }
  }

  /** When every block fits, a successful Pack writes exactly 256 bytes of
      header plus 256 bytes per table unit of the positions in use. */
  lemma PackedLength(t: Tree, h: DiskHeader, json: JsonCodec, lib: LibraryCodecs, listing: Unpacker.Dir -> seq<string>)
    requires TotalBlocks(h) <= TrackSizeTableLen
    requires forall k: nat :: k < TotalBlocks(h) ==> Fits(t, h, k, json, lib, listing)
    requires WriteImage(t, h, json, lib, listing).error.None?
    ensures WriteImage(t, h, json, lib, listing).output.Some?
    ensures |WriteImage(t, h, json, lib, listing).output.value| == HeaderSize + 256 * Sum(h.trackSizeTable[..TotalBlocks(h)])
  {
    var n := TotalBlocks(h);
    var step := PackStep(t, h, json, lib, listing);
    var len := seq(n + 1, k requires 0 <= k <= n => TrackStart(h, k));
    assert h.trackSizeTable[..0] == [];
    forall k: nat, o: seq<byte> | k < n && |o| == len[k] && step(k, o).1.None?
      ensures |step(k, o).0| == len[k + 1]
    {
      TrackStepLength(t, h, k, o, json, lib, listing);
    }
    TracksLength(n, step, 0, HeaderPrefix(h) + h.trackSizeTable[..n] + Zeros(TrackSizeTableLen - n), len);
  }

  // ----- sector file names -----

  /** Sscanf reads a byte-sized number from its digits, whatever follows
      them when the next character is not a digit. */
  lemma ScanUint8Decimal(n: byte, rest: string)
    requires rest == [] || !IsDigit(rest[0])
    ensures ScanUint8(Decimal(n) + rest) == Some(n)
  {
    var s := Decimal(n) + rest;
    assert !FmtSpace(s[0]);
    DigitRunPrefix(Decimal(n), rest);
    DecimalValueOf(n);
  }

  /** A name such as sector-12_.meta is read as sector 12: the scan stops
      at the underscore. */
  lemma UnderscoreEndsNumber()
    ensures SectorNumber("sector-12_.meta") == Some(12)
  {
    assert Decimal(12) == "12";
    assert "sector-12_.meta" == "sector-" + (Decimal(12) + "_" + ".meta");
    SectorNumberWithTail(12, "_");
  }

  /** sector-R<rest>.meta names sector R when rest does not start with a
      digit. */
  lemma SectorNumberWithTail(r: byte, rest: string)
    requires rest == [] || !IsDigit(rest[0])
    ensures SectorNumber("sector-" + (Decimal(r) + rest + ".meta")) == Some(r)
  {
    var e := "sector-" + (Decimal(r) + rest + ".meta");
    assert HasPrefix(e, "sector-") && HasSuffix(e, ".meta");
    assert TrimSuffix(e, ".meta") == "sector-" + (Decimal(r) + rest);
    assert TrimPrefix("sector-" + (Decimal(r) + rest), "sector-") == Decimal(r) + rest;
    ScanUint8Decimal(r, rest);
  }

  lemma {:induction false} DigitRunPrefix(d: string, rest: string)
    requires forall k :: 0 <= k < |d| ==> IsDigit(d[k])
    requires rest == [] || !IsDigit(rest[0])
    ensures DigitRun(d + rest) == d
    decreases |d|
  {
    if d != [] {
      assert (d + rest)[1..] == d[1..] + rest;
      DigitRunPrefix(d[1..], rest);
    } else {
      assert d + rest == rest;
    }
  }

  /** The packer reads back the sector number of every sector-R.meta the
      unpacker writes, and skips payload files and track.meta. */
  lemma SectorNumberOfNames(r: byte, f: PayloadFormat)
    ensures SectorNumber(SectorMetaName(r)) == Some(r)
    ensures SectorNumber(SectorFileName(r, f)) == None
    ensures SectorNumber(Unpacker.TrackMetaName) == None
  {
    MetaNameNumber(r);
    PayloadNameSkipped(r, f);
    TrackMetaSkipped();
  }

  lemma TrackMetaSkipped()
    ensures SectorNumber(Unpacker.TrackMetaName) == None
  {
    assert !HasPrefix(Unpacker.TrackMetaName, "sector-") by {
      assert Unpacker.TrackMetaName[0] != 's';
    }
  }

  lemma MetaNameNumber(r: byte)
    ensures SectorNumber(SectorMetaName(r)) == Some(r)
  {
    assert SectorMetaName(r) == "sector-" + (Decimal(r) + [] + ".meta");
    SectorNumberWithTail(r, []);
  }

  lemma PayloadNameSkipped(r: byte, f: PayloadFormat)
    ensures SectorNumber(SectorFileName(r, f)) == None
  {
    var p := SectorFileName(r, f);
    var ext := Extension(f);
    assert p == ("sector-" + Decimal(r) + ".") + ext;
    assert p[|p| - 1] == ext[|ext| - 1] != 'a';
  }
}
