/** Parsing a disk image held in memory: signature detection, the Extended
    walk over the variable-size track table, and the Standard walk over
    fixed-size track blocks. Each walk is a method whose result is proved
    equal to a declarative description of the image layout; the properties
    of the layout are lemmas about that description. */
module Parser {
  import opened Bytes
  import opened Wrappers
  import opened DskTypes
  import Variants

  datatype ParseError =
    | FileTooSmallForHeader
    | InvalidSignature(sig: seq<byte>)
    | HeaderReadFailed
    | UnexpectedEOF(position: nat)
    | SectorInfoReadFailed
    | TableIndexOutOfRange(position: nat)
    | SectorLengthOverflow(position: nat)
    | InvalidTracks(tracks: byte)
    | InvalidSides(sides: byte)
    | InvalidTrackSize(size: uint16)
    | FileTooSmall(have: nat, need: nat)
    | InvalidSectorCount(position: nat, count: byte)
    | InvalidSectorSize(position: nat, n: byte)
    | SectorDataShort(trackNum: byte, sectorId: byte)

  const ExtendedTag: seq<byte> := Ascii("EXTENDED")
  const StandardTag: seq<byte> := Ascii("MV - CPC")
  /** The 12-byte tag a track header starts with. */
  const TrackInfoTag: seq<byte> := Ascii("Track-Info\r\n")
  /** Length of the signature prefix the detector looks at. */
  const DetectLen: nat := 22

  // ===================== Format detection =====================

  /** The detection step of ParseDSK, after the file has been read. */
  function DetectFormat(data: seq<byte>): (r: Result<DSKFormat, ParseError>)
    ensures |data| < HeaderSize <==> r == Failure(FileTooSmallForHeader)
    ensures r == Success(FormatExtended) <==> |data| >= HeaderSize && HasPrefix(data, ExtendedTag)
    ensures r == Success(FormatStandard) <==>
              |data| >= HeaderSize && !HasPrefix(data, ExtendedTag) && HasPrefix(data, StandardTag)
    ensures |data| >= HeaderSize && r.Failure? ==> r.error == InvalidSignature(data[..DetectLen])
  {
    if |data| < HeaderSize then Failure(FileTooSmallForHeader)
    else if data[..DetectLen][..|ExtendedTag|] == ExtendedTag then Success(FormatExtended)
    else if data[..DetectLen][..|StandardTag|] == StandardTag then Success(FormatStandard)
    else Failure(InvalidSignature(data[..DetectLen]))
  }

  // ===================== Extended layout =====================

  /** Go's `128 * (1 << N)` evaluated in a 64-bit int, case by case: the
      exact value below N = 56, the sign bit alone at N = 56, zero above. */
  function GoSectorLength(n: byte): int
  {
    if n < 56 then 128 * Pow2(n)
    else if n == 56 then -0x8000_0000_0000_0000
    else 0
  }

  /** The cases above are the 64-bit wrap-around of 128 × 2^N. */
  lemma GoSectorLengthWraps(n: byte)
    ensures GoSectorLength(n) == ToInt64(128 * Pow2(n))
  {
    Pow2Constants();
    Pow2Add(7, n);
    var x := 128 * Pow2(n);
    assert x == Pow2(n + 7);
    if n < 56 {
      Pow2Monotone(n + 7, 62);
      assert Pow2(63) == 2 * Pow2(62);
      FitsInt64(x);
    } else if n == 56 {
      assert ToInt64(0x8000_0000_0000_0000) == -0x8000_0000_0000_0000;
    } else {
      Pow2Add(64, n - 57);
      WrapsToZero(Pow2(n - 57));
    }
  }

  /** A value below 2^62 is itself in 64 bits. */
  lemma FitsInt64(x: nat)
    requires x <= 0x4000_0000_0000_0000
    ensures ToInt64(x) == x
  {
  }

  /** A multiple of 2^64 is 0 in 64 bits. */
  lemma WrapsToZero(k: nat)
    ensures ToInt64(0x1_0000_0000_0000_0000 * k) == 0
  {
  }

  /** The largest slice Go's make allocates on a 64-bit Linux target
      (the runtime's maxAlloc, 2^48 bytes); a longer one panics. */
  const MaxAlloc: nat := 0x1_0000_0000_0000

  /** A descriptor whose computed length Go's make refuses with a panic:
      negative, or longer than MaxAlloc. */
  predicate ExtLengthOverflows(i: SectorInfo)
  {
    i.dataLength == 0 && (GoSectorLength(i.n) < 0 || GoSectorLength(i.n) > MaxAlloc)
  }

  /** The panicking descriptors are exactly those with no data length and
      N from 42 to 56. */
  lemma ExtLengthOverflowsExactly(i: SectorInfo)
    ensures ExtLengthOverflows(i) <==> i.dataLength == 0 && 42 <= i.n <= 56
  {
    if i.n < 56 {
      SectorLengthIsPow2(i.n);
      Pow2Of48();
      if i.n < 42 {
        Pow2Monotone(i.n + 7, 48);
      } else {
        Pow2Monotone(49, i.n + 7);
        assert Pow2(49) == 2 * Pow2(48);
      }
    }
  }

  lemma Pow2Of48()
    ensures Pow2(48) == MaxAlloc
  {
    Pow2Of16();
    Pow2Add(16, 16);
    Pow2Add(16, 32);
  }

  lemma SectorLengthIsPow2(n: byte)
    requires n < 56
    ensures GoSectorLength(n) == Pow2(n + 7)
  {
    Pow2Add(7, n);
    assert Pow2(7) == 128;
  }

  /** The payload length of an Extended sector: DataLength when nonzero,
      otherwise the 64-bit value of 128 × 2^N. */
  function ExtSectorLength(i: SectorInfo): (len: nat)
    ensures i.dataLength != 0 ==> len == i.dataLength
    ensures i.dataLength == 0 && i.n < 56 ==> len == 128 * Pow2(i.n)
    ensures i.dataLength == 0 && i.n >= 57 ==> len == 0
  {
    if i.dataLength != 0 then i.dataLength
    else if GoSectorLength(i.n) < 0 then 0
    else GoSectorLength(i.n)
  }

  /** Offset within the block of the first payload: after the 24-byte
      header and `count` 8-byte descriptors. */
  function ExtPayloadBase(count: nat): nat
  {
    0x18 + 8 * count
  }

  /** The total length of the payloads before the k-th descriptor. */
  function LengthsBefore(infos: seq<SectorInfo>, k: nat): nat
    requires k <= |infos|
  {
    if k == 0 then 0 else LengthsBefore(infos, k - 1) + ExtSectorLength(infos[k - 1])
  }

  /** The descriptors of an Extended block, read back to back after the
      track header. */
  function ExtDescriptors(block: seq<byte>, count: nat): (r: seq<SectorInfo>)
    requires ExtPayloadBase(count) <= |block|
    ensures |r| == count
  {
    if count == 0 then []
    else ExtDescriptors(block, count - 1) + [DecodeSectorInfo(block[0x18 + 8 * (count - 1)..])]
  }

  /** Descriptor s of an Extended block is the 8 bytes at 0x18 + 8s. */
  lemma {:induction false} ExtDescriptorAt(block: seq<byte>, count: nat, s: nat)
    requires ExtPayloadBase(count) <= |block|
    ensures |ExtDescriptors(block, count)| == count
    ensures s < count ==> ExtDescriptors(block, count)[s] == DecodeSectorInfo(block[0x18 + 8 * s..])
  {
    if count > 0 {
      ExtDescriptorAt(block, count - 1, s);
    }
  }

  /** The k-th payload of an Extended block. */
  function ExtPayload(block: seq<byte>, infos: seq<SectorInfo>, k: nat): (d: seq<byte>)
    requires k < |infos|
    ensures |d| == ExtSectorLength(infos[k])
  {
    ReadPadded(block, ExtPayloadBase(|infos|) + LengthsBefore(infos, k), ExtSectorLength(infos[k]))
  }

  /** The first k payloads of an Extended block: back to back from the end
      of the descriptor list, each of exactly its computed length,
      zero-filled where the block runs out. */
  function ExtSectors(block: seq<byte>, infos: seq<SectorInfo>, k: nat): (r: seq<LogicalSector>)
    requires k <= |infos|
    ensures |r| == k
  {
    if k == 0 then []
    else ExtSectors(block, infos, k - 1) + [LogicalSector(infos[k - 1], ExtPayload(block, infos, k - 1))]
  }

  lemma {:induction false} ExtSectorsLength(block: seq<byte>, infos: seq<SectorInfo>, k: nat)
    requires k <= |infos|
    ensures |ExtSectors(block, infos, k)| == k
  {
    if k > 0 {
      ExtSectorsLength(block, infos, k - 1);
    }
  }

  /** Sector j of an Extended track carries the j-th descriptor and the
      j-th payload. */
  lemma {:induction false} ExtSectorAt(block: seq<byte>, infos: seq<SectorInfo>, k: nat, j: nat)
    requires j < k <= |infos|
    ensures |ExtSectors(block, infos, k)| == k
    ensures ExtSectors(block, infos, k)[j] == LogicalSector(infos[j], ExtPayload(block, infos, j))
  {
    ExtSectorsLength(block, infos, k);
    if j < k - 1 {
      ExtSectorAt(block, infos, k - 1, j);
    }
  }

  predicate AnyOverflows(infos: seq<SectorInfo>)
  {
    exists s :: 0 <= s < |infos| && ExtLengthOverflows(infos[s])
  }

  /** One Extended track block. The header is kept as read whatever its
      signature says; a mismatch only earns a warning. */
  function ExtTrack(block: seq<byte>, position: nat): (r: Result<LogicalTrack, ParseError>)
    requires |block| >= TrackHeaderSize
  {
    var h := DecodeTrackHeader(block);
    if ExtPayloadBase(h.sectorCount) > |block| then Failure(SectorInfoReadFailed)
    else
      var infos := ExtDescriptors(block, h.sectorCount);
      if AnyOverflows(infos) then Failure(SectorLengthOverflow(position))
      else Success(LogicalTrack(h, ExtSectors(block, infos, |infos|)))
  }

  /** Where the block of position i starts: after the header and the blocks
      of all earlier positions (zero entries take no room). */
  function BlockOffset(table: seq<byte>, i: nat): nat
    requires i <= |table|
  {
    0x100 + 0x100 * Sum(table[..i])
  }

  /** The outcome at one position of the Extended walk: an error, nothing
      (a zero entry), or the track read from the block. */
  function ExtAt(data: seq<byte>, table: SizeTable, i: nat): Result<Option<LogicalTrack>, ParseError>
  {
    if i >= TrackSizeTableLen then Failure(TableIndexOutOfRange(i))
    else if table[i] == 0 then Success(None)
    else
      var off := BlockOffset(table, i);
      var size := 0x100 * (table[i] as nat);
      if |data| < off + size then Failure(UnexpectedEOF(i))
      else
        match ExtTrack(data[off..off + size], i)
        case Failure(e) => Failure(e)
        case Success(t) => Success(Some(t))
  }

  /** The tracks the Extended walk emits for positions 0 .. n-1, or the
      first error it meets. */
  function ExtTracksUpTo(data: seq<byte>, table: SizeTable, n: nat): Result<seq<LogicalTrack>, ParseError>
  {
    if n == 0 then Success([])
    else
      match ExtTracksUpTo(data, table, n - 1)
      case Failure(e) => Failure(e)
      case Success(ts) =>
        match ExtAt(data, table, n - 1)
        case Failure(e) => Failure(e)
        case Success(None) => Success(ts)
        case Success(Some(t)) => Success(ts + [t])
  }

  lemma {:induction false} ExtFailureSticks(data: seq<byte>, table: SizeTable, m: nat, n: nat)
    requires m <= n && ExtTracksUpTo(data, table, m).Failure?
    ensures ExtTracksUpTo(data, table, n) == ExtTracksUpTo(data, table, m)
    decreases n
  {
    if m < n {
      ExtFailureSticks(data, table, m, n - 1);
    }
  }

  lemma ExtTracksStep(data: seq<byte>, table: SizeTable, i: nat, ts: seq<LogicalTrack>)
    requires ExtTracksUpTo(data, table, i) == Success(ts)
    ensures ExtTracksUpTo(data, table, i + 1) ==
              match ExtAt(data, table, i)
              case Failure(e) => Failure(e)
              case Success(None) => Success(ts)
              case Success(Some(t)) => Success(ts + [t])
  {
  }

  function ParseExtendedSpec(data: seq<byte>): Result<DSK, ParseError>
  {
    if |data| < HeaderSize then Failure(HeaderReadFailed)
    else
      var h := DecodeDiskHeader(data);
      match ExtTracksUpTo(data, h.trackSizeTable, TotalBlocks(h))
      case Failure(e) => Failure(e)
      case Success(ts) => Success(DSK(FormatExtended, h, ts, 0))
  }

  // ===================== Standard layout =====================

  /** Where the Standard track size is read, as written at parser.go:164:
      Go's data[32:34] is decimal 32, the last two signature bytes. */
  function StandardTrackSizeAsWritten(data: seq<byte>): uint16
    requires |data| >= HeaderSize
  {
    LE16(data[32], data[33])
  }

  /** The track size as the header layout defines it: the LE16 word at
      0x32-0x33, the field the Extended variant leaves as padding. */
  function StandardTrackSize(data: seq<byte>): (size: uint16)
    requires |data| >= HeaderSize
    ensures size == LE16(DecodeDiskHeader(data).padding[0], DecodeDiskHeader(data).padding[1])
  {
    LE16(data[0x32], data[0x33])
  }

  /** The size the Standard parse uses: the code as written reads it at
      decimal 32, the corrected code at 0x32. */
  function StandardSizeField(data: seq<byte>, v: Variants.Variant): uint16
    requires |data| >= HeaderSize
  {
    if v == Variants.AsWritten then StandardTrackSizeAsWritten(data) else StandardTrackSize(data)
  }

  /** The signature test as written at parser.go:211-212: it compares the
      13-byte field with the 12-byte tag, which can never be equal. */
  predicate SignatureValidAsWritten(sig: Bytes13)
  {
    sig == TrackInfoTag
  }

  /** The intended test: the field starts with the tag, whatever follows. */
  predicate SignatureValid(sig: Bytes13)
  {
    sig[..12] == TrackInfoTag
  }

  /** The unformatted-track heuristic: the first min(100, size) bytes of the
      block all equal the first. */
  predicate LooksUnformatted(block: seq<byte>)
    requires |block| > 0
  {
    forall j :: 1 <= j < |block| && j < 100 ==> block[j] == block[0]
  }

  /** The header of an unformatted track: only the position is set. */
  function UnformattedHeader(position: nat, sides: nat): (h: TrackHeader)
    requires sides >= 1
    ensures h.trackNum == (position / sides) % 0x100 && h.sideNum == (position % sides) % 0x100
    ensures h.sectorCount == 0 && h.sectorSize == 0 && h.gap3Length == 0 && h.fillerByte == 0
    ensures h.signature == Zeros(13) && h.unused == [0, 0, 0] && h.unused2 == [0, 0]
  {
    EmptyTrackHeader.(trackNum := (position / sides) % 0x100, sideNum := (position % sides) % 0x100)
  }

  /** The payload length of every sector of a Standard track: 128 × 2^N,
      except that N = 6 stores only 0x1800 bytes. */
  function StdSectorLength(n: byte): (len: nat)
    requires n <= 7
    ensures n == 6 ==> len == 0x1800
    ensures n != 6 ==> len == 128 * Pow2(n)
  {
    if n == 6 then 0x1800 else 128 * Pow2(n)
  }

  /** The s-th 6-byte descriptor: C, H, R, N, ST1, ST2 from offset
      0x18 + 6s, zero-filled if the block ends inside it; no data length. */
  function StdDescriptor(block: seq<byte>, s: nat): (i: SectorInfo)
    ensures i.dataLength == 0
  {
    var b := ReadPadded(block, 0x18 + 6 * s, 6);
    SectorInfo(b[0], b[1], b[2], b[3], b[4], b[5], 0)
  }

  /** The first `count` descriptors of a Standard block. */
  function StdDescriptors(block: seq<byte>, count: nat): (r: seq<SectorInfo>)
    ensures |r| == count
  {
    if count == 0 then [] else StdDescriptors(block, count - 1) + [StdDescriptor(block, count - 1)]
  }

  lemma {:induction false} StdDescriptorAt(block: seq<byte>, count: nat, s: nat)
    ensures |StdDescriptors(block, count)| == count
    ensures s < count ==> StdDescriptors(block, count)[s] == StdDescriptor(block, s)
  {
    if count > 0 {
      StdDescriptorAt(block, count - 1, s);
    }
  }

  /** The first k sectors of a Standard block: payload m at 0x100 + m·len. */
  function StdSectors(block: seq<byte>, infos: seq<SectorInfo>, len: nat, k: nat): (r: seq<LogicalSector>)
    requires k <= |infos|
    ensures |r| == k
  {
    if k == 0 then []
    else StdSectors(block, infos, len, k - 1)
         + [LogicalSector(infos[k - 1], ReadPadded(block, 0x100 + (k - 1) * len, len))]
  }

  lemma {:induction false} StdSectorAt(block: seq<byte>, infos: seq<SectorInfo>, len: nat, k: nat, m: nat)
    requires k <= |infos|
    ensures |StdSectors(block, infos, len, k)| == k
    ensures m < k ==> StdSectors(block, infos, len, k)[m]
                      == LogicalSector(infos[m], ReadPadded(block, 0x100 + m * len, len))
  {
    if k > 0 {
      StdSectorAt(block, infos, len, k - 1, m);
    }
  }

  /** One Standard block; `sigValid` is the signature test's verdict. */
  function StdTrack(block: seq<byte>, position: nat, sides: nat, sigValid: bool): (r: Result<LogicalTrack, ParseError>)
    requires |block| >= 0x100 && sides >= 1
  {
    var h := DecodeTrackHeader(block);
    if !sigValid && LooksUnformatted(block) then
      Success(LogicalTrack(UnformattedHeader(position, sides), []))
    else if h.sectorCount > 64 then Failure(InvalidSectorCount(position, h.sectorCount))
    else if h.sectorCount == 0 then Success(LogicalTrack(h, []))
    else if 0x18 + 6 * (h.sectorCount - 1) >= |block| then Failure(SectorInfoReadFailed)
    else if h.sectorSize > 7 then Failure(InvalidSectorSize(position, h.sectorSize))
    else
      var len := StdSectorLength(h.sectorSize);
      var infos := StdDescriptors(block, h.sectorCount);
      if |block| - 0x100 < len then Failure(SectorDataShort(h.trackNum, StdDescriptor(block, 0).r))
      else Success(LogicalTrack(h, StdSectors(block, infos, len, h.sectorCount)))
  }

  /** The track at position i of a Standard image with blocks of `size`. */
  function StdTrackAt(data: seq<byte>, sides: nat, size: nat, i: nat): Result<LogicalTrack, ParseError>
    requires sides >= 1 && size >= 0x100
  {
    var off := 0x100 + i * size;
    if |data| < off + size then Failure(UnexpectedEOF(i))
    else
      var block := data[off..off + size];
      StdTrack(block, i, sides, SignatureValid(DecodeTrackHeader(block).signature))
  }

  /** The tracks the Standard walk emits for positions 0 .. n-1. */
  function StdTracksUpTo(data: seq<byte>, sides: nat, size: nat, n: nat): Result<seq<LogicalTrack>, ParseError>
    requires sides >= 1 && size >= 0x100
  {
    if n == 0 then Success([])
    else
      match StdTracksUpTo(data, sides, size, n - 1)
      case Failure(e) => Failure(e)
      case Success(ts) =>
        match StdTrackAt(data, sides, size, n - 1)
        case Failure(e) => Failure(e)
        case Success(t) => Success(ts + [t])
  }

  lemma {:induction false} StdFailureSticks(data: seq<byte>, sides: nat, size: nat, m: nat, n: nat)
    requires sides >= 1 && size >= 0x100
    requires m <= n && StdTracksUpTo(data, sides, size, m).Failure?
    ensures StdTracksUpTo(data, sides, size, n) == StdTracksUpTo(data, sides, size, m)
    decreases n
  {
    if m < n {
      StdFailureSticks(data, sides, size, m, n - 1);
    }
  }

  lemma StdTracksStep(data: seq<byte>, sides: nat, size: nat, i: nat, ts: seq<LogicalTrack>, t: LogicalTrack)
    requires sides >= 1 && size >= 0x100
    requires StdTracksUpTo(data, sides, size, i) == Success(ts)
    requires StdTrackAt(data, sides, size, i) == Success(t)
    ensures StdTracksUpTo(data, sides, size, i + 1) == Success(ts + [t])
  {
  }

  function ParseStandardSpec(data: seq<byte>, v: Variants.Variant): Result<DSK, ParseError>
  {
    if |data| < HeaderSize then Failure(HeaderReadFailed)
    else
      var h := DecodeDiskHeader(data);
      var size := StandardSizeField(data, v);
      if h.tracks == 0 || h.tracks > 85 then Failure(InvalidTracks(h.tracks))
      else if h.sides == 0 || h.sides > 2 then Failure(InvalidSides(h.sides))
      else if size < 0x100 then Failure(InvalidTrackSize(size))
      else if |data| < 0x100 + TotalBlocks(h) * size then
        Failure(FileTooSmall(|data|, 0x100 + TotalBlocks(h) * size))
      else
        match StdTracksUpTo(data, h.sides, size, TotalBlocks(h))
        case Failure(e) => Failure(e)
        case Success(ts) => Success(DSK(FormatStandard, h, ts, size))
  }

  function ParseSpec(data: seq<byte>, v: Variants.Variant): Result<DSK, ParseError>
  {
    match DetectFormat(data)
    case Failure(e) => Failure(e)
    case Success(FormatExtended) => ParseExtendedSpec(data)
    case Success(FormatStandard) => ParseStandardSpec(data, v)
  }

  // ===================== The parsing methods =====================

  /** ParseDSK after the file read: detect the variant, then route. */
  method ParseDSK(data: seq<byte>, v: Variants.Variant) returns (r: Result<DSK, ParseError>)
    ensures r == ParseSpec(data, v)
  {
    var format := DetectFormat(data);
    if format.Failure? {
      return Failure(format.error);
    }
    if format.value == FormatStandard {
      r := ParseStandardDSK(data, v);
    } else {
      r := ParseExtendedDSK(data);
    }
  }

  /** The Extended variant: the 256-byte header, then the track walk. */
  method ParseExtendedDSK(data: seq<byte>) returns (r: Result<DSK, ParseError>)
    ensures r == ParseExtendedSpec(data)
  {
    if |data| < HeaderSize {
      return Failure(HeaderReadFailed);
    }
    var header := DecodeDiskHeader(data[..HeaderSize]);
    assert header == DecodeDiskHeader(data);
    var tracks := ReadExtTracks(data, header.trackSizeTable, TotalBlocks(header));
    if tracks.Failure? {
      return Failure(tracks.error);
    }
    return Success(DSK(FormatExtended, header, tracks.value, 0));
  }

  /** The Extended track walk: a running offset over the track-size table;
      zero entries are skipped and take no room. */
  method ReadExtTracks(data: seq<byte>, table: SizeTable, totalBlocks: nat)
    returns (r: Result<seq<LogicalTrack>, ParseError>)
    ensures r == ExtTracksUpTo(data, table, totalBlocks)
  {
    var currentOffset: nat := 0x100;
    var tracks: seq<LogicalTrack> := [];
    var i: nat := 0;
    while i < totalBlocks
      invariant i <= totalBlocks && i <= TrackSizeTableLen
      invariant currentOffset == BlockOffset(table, i)
      invariant ExtTracksUpTo(data, table, i) == Success(tracks)
    {
      if i >= TrackSizeTableLen {
        ExtFailureSticks(data, table, i + 1, totalBlocks);
        return Failure(TableIndexOutOfRange(i));
      }
      var at := ReadExtPosition(data, table, i, currentOffset);
      ExtTracksStep(data, table, i, tracks);
      if at.Failure? {
        ExtFailureSticks(data, table, i + 1, totalBlocks);
        return Failure(at.error);
      }
      if at.value.Some? {
        tracks := tracks + [at.value.value];
      }
      SumPrefixStep(table, i);
      currentOffset := currentOffset + 0x100 * (table[i] as nat);
      i := i + 1;
    }
    return Success(tracks);
  }

  /** One position of the Extended walk, the reader standing at `offset`. */
  method ReadExtPosition(data: seq<byte>, table: SizeTable, i: nat, offset: nat)
    returns (r: Result<Option<LogicalTrack>, ParseError>)
    requires i < TrackSizeTableLen && offset == BlockOffset(table, i)
    ensures r == ExtAt(data, table, i)
  {
    var trackSize := 0x100 * (table[i] as nat);
    if trackSize == 0 {
      return Success(None);
    }
    if |data| < offset + trackSize {
      return Failure(UnexpectedEOF(i));
    }
    var trackData := data[offset..offset + trackSize];
    var t := ParseExtendedTrack(trackData, i);
    if t.Failure? {
      return Failure(t.error);
    }
    return Success(Some(t.value));
  }

  /** One Extended block: the header, then the descriptors, then the
      payloads. */
  method ParseExtendedTrack(block: seq<byte>, position: nat) returns (r: Result<LogicalTrack, ParseError>)
    requires |block| >= TrackHeaderSize
    ensures r == ExtTrack(block, position)
  {
    var header := DecodeTrackHeader(block[..TrackHeaderSize]);
    assert header == DecodeTrackHeader(block);
    var infos := ReadExtDescriptors(block, header.sectorCount);
    if infos.None? {
      return Failure(SectorInfoReadFailed);
    }
    var sectors := ReadExtPayloads(block, infos.value);
    if sectors.None? {
      return Failure(SectorLengthOverflow(position));
    }
    return Success(LogicalTrack(header, sectors.value));
  }

  /** The descriptor loop: binary.Read of 8 bytes each, failing when fewer
      than 8 are left. */
  method ReadExtDescriptors(block: seq<byte>, count: nat) returns (r: Option<seq<SectorInfo>>)
    requires |block| >= TrackHeaderSize
    ensures ExtPayloadBase(count) > |block| ==> r.None?
    ensures ExtPayloadBase(count) <= |block| ==> r == Some(ExtDescriptors(block, count))
  {
    var pos: nat := 0x18;
    var infos: seq<SectorInfo> := [];
    var s: nat := 0;
    while s < count
      invariant s <= count
      invariant pos == 0x18 + 8 * s <= |block|
      invariant infos == ExtDescriptors(block, s)
    {
      if |block| - pos < 8 {
        return None;
      }
      infos := infos + [DecodeSectorInfo(block[pos..pos + 8])];
      pos := pos + 8;
      s := s + 1;
    }
    return Some(infos);
  }

  /** The payload loop over a bytes.Reader that starts after the
      descriptors; a short read only warns and leaves zeros. */
  method ReadExtPayloads(block: seq<byte>, infos: seq<SectorInfo>) returns (r: Option<seq<LogicalSector>>)
    requires ExtPayloadBase(|infos|) <= |block|
    ensures AnyOverflows(infos) ==> r.None?
    ensures !AnyOverflows(infos) ==> r == Some(ExtSectors(block, infos, |infos|))
  {
    var pos: nat := ExtPayloadBase(|infos|);
    var sectors: seq<LogicalSector> := [];
    var k: nat := 0;
    while k < |infos|
      invariant k <= |infos| && |sectors| == k
      invariant pos == Min(ExtPayloadBase(|infos|) + LengthsBefore(infos, k), |block|)
      invariant forall j :: 0 <= j < k ==> !ExtLengthOverflows(infos[j])
      invariant sectors == ExtSectors(block, infos, k)
    {
      var info := infos[k];
      var secLen := if info.dataLength != 0 then info.dataLength else GoSectorLength(info.n);
      if secLen < 0 || secLen > MaxAlloc {
        return None;
      }
      ExtReadStep(block, infos, k, pos);
      var secData := ReaderRead(block, pos, secLen);
      sectors := sectors + [LogicalSector(info, secData)];
      pos := pos + Min(secLen, |block| - pos);
      k := k + 1;
    }
    return Some(sectors);
  }

  /** One payload read of ReadExtPayloads lands where ExtPayload says and
      moves the reader to the position of the next payload. */
  lemma ExtReadStep(block: seq<byte>, infos: seq<SectorInfo>, k: nat, pos: nat)
    requires k < |infos| && !ExtLengthOverflows(infos[k])
    requires pos == Min(ExtPayloadBase(|infos|) + LengthsBefore(infos, k), |block|)
    ensures ExtSectorLength(infos[k]) == if infos[k].dataLength != 0 then infos[k].dataLength else GoSectorLength(infos[k].n)
    ensures ReaderRead(block, pos, ExtSectorLength(infos[k])) == ExtPayload(block, infos, k)
    ensures pos + Min(ExtSectorLength(infos[k]), |block| - pos)
            == Min(ExtPayloadBase(|infos|) + LengthsBefore(infos, k + 1), |block|)
  {
    ReaderReadIsPadded(block, ExtPayloadBase(|infos|) + LengthsBefore(infos, k), ExtSectorLength(infos[k]));
  }

  /** The Standard walk: validate the header, then one fixed-size block per
      position. */
  method ParseStandardDSK(data: seq<byte>, v: Variants.Variant) returns (r: Result<DSK, ParseError>)
    ensures r == ParseStandardSpec(data, v)
  {
    if |data| < HeaderSize {
      return Failure(HeaderReadFailed);
    }
    var header := DecodeDiskHeader(data[..HeaderSize]);
    assert header == DecodeDiskHeader(data);
    var trackSize: nat := if v == Variants.AsWritten then LE16(data[32], data[33]) else LE16(data[0x32], data[0x33]);
    if header.tracks == 0 || header.tracks > 85 {
      return Failure(InvalidTracks(header.tracks));
    }
    if header.sides == 0 || header.sides > 2 {
      return Failure(InvalidSides(header.sides));
    }
    if trackSize < 0x100 {
      return Failure(InvalidTrackSize(trackSize));
    }
    var totalBlocks: nat := TotalBlocks(header);
    var expectedFileSize := 0x100 + totalBlocks * trackSize;
    if |data| < expectedFileSize {
      assert ParseStandardSpec(data, v) == Failure(FileTooSmall(|data|, expectedFileSize));
      return Failure(FileTooSmall(|data|, expectedFileSize));
    }
    assert ParseStandardSpec(data, v) == match StdTracksUpTo(data, header.sides, trackSize, totalBlocks)
        case Failure(e) => Failure(e)
        case Success(ts) => Success(DSK(FormatStandard, header, ts, trackSize));
    var tracks := ReadStdTracks(data, header.sides, trackSize, totalBlocks);
    if tracks.Failure? {
      return Failure(tracks.error);
    }
    return Success(DSK(FormatStandard, header, tracks.value, trackSize));
  }

  /** The Standard track loop: block i at 0x100 + i·size. */
  method ReadStdTracks(data: seq<byte>, sides: nat, trackSize: nat, totalBlocks: nat)
    returns (r: Result<seq<LogicalTrack>, ParseError>)
    requires sides >= 1 && trackSize >= 0x100
    ensures r == StdTracksUpTo(data, sides, trackSize, totalBlocks)
  {
    var currentOffset: nat := 0x100;
    var tracks: seq<LogicalTrack> := [];
    var i: nat := 0;
    while i < totalBlocks
      invariant i <= totalBlocks
      invariant currentOffset == 0x100 + i * trackSize
      invariant StdTracksUpTo(data, sides, trackSize, i) == Success(tracks)
    {
      MulSucc(i, trackSize);
      var t := ReadStdPosition(data, sides, trackSize, i, currentOffset);
      if t.Failure? {
        StdFailureSticks(data, sides, trackSize, i + 1, totalBlocks);
        return Failure(t.error);
      }
      StdTracksStep(data, sides, trackSize, i, tracks, t.value);
      tracks := tracks + [t.value];
      currentOffset := currentOffset + trackSize;
      i := i + 1;
    }
    return Success(tracks);
  }

  /** One position of the Standard walk, its block at `offset`. */
  method ReadStdPosition(data: seq<byte>, sides: nat, trackSize: nat, i: nat, offset: nat)
    returns (r: Result<LogicalTrack, ParseError>)
    requires sides >= 1 && trackSize >= 0x100 && offset == 0x100 + i * trackSize
    ensures r == StdTrackAt(data, sides, trackSize, i)
  {
    if |data| < offset + trackSize {
      return Failure(UnexpectedEOF(i));
    }
    var trackData := data[offset..offset + trackSize];
    r := ParseStandardTrack(trackData, i, sides);
  }

  /** One Standard block: signature test, unformatted heuristic, 6-byte
      descriptors, then the sector data from offset 0x100. */
  method ParseStandardTrack(block: seq<byte>, position: nat, sides: nat) returns (r: Result<LogicalTrack, ParseError>)
    requires |block| >= 0x100 && sides >= 1
    ensures r == StdTrack(block, position, sides, SignatureValid(DecodeTrackHeader(block).signature))
  {
    var header := DecodeTrackHeader(block[..TrackHeaderSize]);
    assert header == DecodeTrackHeader(block);
    var sigValid := header.signature[..12] == TrackInfoTag;
    if !sigValid {
      var isUnformatted := IsUnformatted(block);
      if isUnformatted {
        return Success(LogicalTrack(UnformattedHeader(position, sides), []));
      }
    }
    var count := header.sectorCount;
    if count > 64 {
      return Failure(InvalidSectorCount(position, count));
    }
    if count == 0 {
      return Success(LogicalTrack(header, []));
    }
    var infos := ReadStdDescriptors(block, count);
    if infos.None? {
      return Failure(SectorInfoReadFailed);
    }
    if header.sectorSize > 7 {
      return Failure(InvalidSectorSize(position, header.sectorSize));
    }
    var secLen := 128 * Pow2(header.sectorSize);
    if header.sectorSize == 6 {
      secLen := 0x1800;
    }
    if |block| - 0x100 < secLen {
      StdDescriptorAt(block, count, 0);
      return Failure(SectorDataShort(header.trackNum, infos.value[0].r));
    }
    var sectors := ReadStdPayloads(block, infos.value, secLen);
    return Success(LogicalTrack(header, sectors));
  }

  /** The unformatted-track scan: stop at the first byte that differs from
      the first, looking at no more than 100 bytes. */
  method IsUnformatted(block: seq<byte>) returns (b: bool)
    requires |block| > 0
    ensures b == LooksUnformatted(block)
  {
    var firstByte := block[0];
    var j := 1;
    while j < |block| && j < 100
      invariant 1 <= j <= 100
      invariant forall m :: 1 <= m < j && m < |block| ==> block[m] == firstByte
    {
      if block[j] != firstByte {
        return false;
      }
      j := j + 1;
    }
    return true;
  }

  /** The 6-byte descriptor reads: a bytes.Reader read fails only once the
      reader stands at the end of the block; a short read is zero-filled. */
  method ReadStdDescriptors(block: seq<byte>, count: nat) returns (r: Option<seq<SectorInfo>>)
    requires count >= 1
    ensures 0x18 + 6 * (count - 1) >= |block| ==> r.None?
    ensures 0x18 + 6 * (count - 1) < |block| ==> r == Some(StdDescriptors(block, count))
  {
    var pos: nat := Min(0x18, |block|);
    var infos: seq<SectorInfo> := [];
    var s: nat := 0;
    while s < count
      invariant s <= count
      invariant pos == Min(0x18 + 6 * s, |block|)
      invariant s > 0 ==> 0x18 + 6 * (s - 1) < |block|
      invariant infos == StdDescriptors(block, s)
    {
      if pos >= |block| {
        return None;
      }
      var b := ReaderRead(block, pos, 6);
      StdDescriptorReadStep(block, s, pos);
      infos := infos + [SectorInfo(b[0], b[1], b[2], b[3], b[4], b[5], 0)];
      pos := pos + Min(6, |block| - pos);
      s := s + 1;
    }
    return Some(infos);
  }

  /** One 6-byte read of ReadStdDescriptors yields descriptor s and moves
      the reader to where descriptor s + 1 starts. */
  lemma StdDescriptorReadStep(block: seq<byte>, s: nat, pos: nat)
    requires pos == Min(0x18 + 6 * s, |block|)
    ensures var b := ReaderRead(block, pos, 6);
            |b| == 6 && StdDescriptor(block, s) == SectorInfo(b[0], b[1], b[2], b[3], b[4], b[5], 0)
    ensures pos + Min(6, |block| - pos) == Min(0x18 + 6 * (s + 1), |block|)
  {
    ReaderReadIsPadded(block, 0x18 + 6 * s, 6);
  }

  /** The sector data reads over a reader on block[0x100..]. */
  method ReadStdPayloads(block: seq<byte>, infos: seq<SectorInfo>, secLen: nat) returns (r: seq<LogicalSector>)
    requires |block| >= 0x100
    ensures r == StdSectors(block, infos, secLen, |infos|)
  {
    var pos: nat := 0x100;
    var sectors: seq<LogicalSector> := [];
    var k: nat := 0;
    while k < |infos|
      invariant k <= |infos|
      invariant pos == Min(0x100 + k * secLen, |block|)
      invariant sectors == StdSectors(block, infos, secLen, k)
    {
      MulSucc(k, secLen);
      var secData := ReaderRead(block, pos, secLen);
      ReaderReadIsPadded(block, 0x100 + k * secLen, secLen);
      sectors := sectors + [LogicalSector(infos[k], secData)];
      pos := pos + Min(secLen, |block| - pos);
      k := k + 1;
    }
    return sectors;
  }

  /** GetTrack: the first track whose header names this cylinder and head. */
  method GetTrack(d: DSK, cylinder: int, head: int) returns (r: Option<nat>)
    ensures r.Some? ==> r.value < |d.tracks|
                        && d.tracks[r.value].header.trackNum == cylinder
                        && d.tracks[r.value].header.sideNum == head
    ensures r.Some? ==> forall j :: 0 <= j < r.value ==>
                          !(d.tracks[j].header.trackNum == cylinder && d.tracks[j].header.sideNum == head)
    ensures r.None? <==> forall j :: 0 <= j < |d.tracks| ==>
                          !(d.tracks[j].header.trackNum == cylinder && d.tracks[j].header.sideNum == head)
  {
    var i := 0;
    while i < |d.tracks|
      invariant 0 <= i <= |d.tracks|
      invariant forall j :: 0 <= j < i ==>
                  !(d.tracks[j].header.trackNum == cylinder && d.tracks[j].header.sideNum == head)
    {
      if d.tracks[i].header.trackNum == cylinder && d.tracks[i].header.sideNum == head {
        return Some(i);
      }
      i := i + 1;
    }
    return None;
  }

  // ===================== Properties of the layouts =====================

  /** A successful Extended walk emits one track per nonzero table entry
      and never reads past entry 203. */
  lemma {:induction false} ExtTracksCount(data: seq<byte>, table: SizeTable, n: nat, ts: seq<LogicalTrack>)
    requires ExtTracksUpTo(data, table, n) == Success(ts)
    ensures n <= TrackSizeTableLen
    ensures |ts| == NonZeroCount(table[..n])
  {
    if n > 0 {
      var prev := ExtTracksUpTo(data, table, n - 1);
      assert prev.Success?;
      ExtTracksCount(data, table, n - 1, prev.value);
      NonZeroCountPrefixStep(table, n - 1);
    }
  }

  /** After a successful Extended walk the file holds every block the
      table lists, each at its BlockOffset. */
  lemma {:induction false} ExtBlocksInFile(data: seq<byte>, table: SizeTable, n: nat, i: nat)
    requires ExtTracksUpTo(data, table, n).Success?
    requires i < n && table[i] != 0
    ensures BlockOffset(table, i) + 0x100 * (table[i] as nat) == BlockOffset(table, i + 1) <= |data|
  {
    assert ExtTracksUpTo(data, table, n - 1).Success?;
    if i < n - 1 {
      ExtBlocksInFile(data, table, n - 1, i);
    } else {
      SumPrefixStep(table, i);
      assert ExtAt(data, table, i).Success?;
    }
  }

  /** The track of a nonzero position i is the one read from its block at
      BlockOffset(table, i), and it sits after one track per earlier
      nonzero entry. */
  lemma {:induction false} ExtTrackAtPosition(data: seq<byte>, table: SizeTable, n: nat, ts: seq<LogicalTrack>, i: nat)
    requires ExtTracksUpTo(data, table, n) == Success(ts)
    requires i < n && table[i] != 0
    ensures NonZeroCount(table[..i]) < |ts|
    ensures ExtAt(data, table, i) == Success(Some(ts[NonZeroCount(table[..i])]))
  {
    var prev := ExtTracksUpTo(data, table, n - 1);
    assert prev.Success?;
    ExtTracksCount(data, table, n - 1, prev.value);
    if i < n - 1 {
      ExtTrackAtPosition(data, table, n - 1, prev.value, i);
    } else {
      assert ExtAt(data, table, i).Success?;
    }
  }

  /** A parsed Extended block keeps its header and its descriptors as read,
      and each payload has its computed length. */
  lemma ExtTrackContents(block: seq<byte>, position: nat, t: LogicalTrack, j: nat)
    requires |block| >= TrackHeaderSize
    requires ExtTrack(block, position) == Success(t)
    requires j < DecodeTrackHeader(block).sectorCount
    ensures t.header == DecodeTrackHeader(block)
    ensures |t.sectors| == t.header.sectorCount
    ensures t.sectors[j].info == DecodeSectorInfo(block[0x18 + 8 * j..])
    ensures |t.sectors[j].data| == ExtSectorLength(t.sectors[j].info)
    ensures t.sectors[j].info.dataLength != 0 ==> |t.sectors[j].data| == t.sectors[j].info.dataLength
  {
    var infos := ExtDescriptors(block, t.header.sectorCount);
    ExtDescriptorAt(block, t.header.sectorCount, j);
    ExtSectorAt(block, infos, |infos|, j);
  }

  /** A successful Standard walk emits exactly one track per position. */
  lemma {:induction false} StdTracksCount(data: seq<byte>, sides: nat, size: nat, n: nat, ts: seq<LogicalTrack>)
    requires sides >= 1 && size >= 0x100
    requires StdTracksUpTo(data, sides, size, n) == Success(ts)
    ensures |ts| == n
  {
    if n > 0 {
      var prev := StdTracksLast(data, sides, size, n, ts);
      StdTracksCount(data, sides, size, n - 1, prev);
    }
  }

  /** Track i of a successful Standard walk is the one read from block i at
      0x100 + i·size. */
  lemma {:induction false} StdTrackAtPosition(data: seq<byte>, sides: nat, size: nat, n: nat, ts: seq<LogicalTrack>, i: nat)
    requires sides >= 1 && size >= 0x100
    requires StdTracksUpTo(data, sides, size, n) == Success(ts)
    requires i < n
    ensures i < |ts| && StdTrackAt(data, sides, size, i) == Success(ts[i])
  {
    var prev := StdTracksLast(data, sides, size, n, ts);
    StdTracksCount(data, sides, size, n - 1, prev);
    var last := StdTrackAt(data, sides, size, n - 1);
    ElementOfAppend(prev, last.value, i);
    if i < n - 1 {
      StdTrackAtPosition(data, sides, size, n - 1, prev, i);
    }
  }

  lemma ElementOfAppend(prev: seq<LogicalTrack>, x: LogicalTrack, i: nat)
    requires i <= |prev|
    ensures i < |prev| ==> (prev + [x])[i] == prev[i]
    ensures i == |prev| ==> (prev + [x])[i] == x
  {
  }

  /** A successful walk of n positions is the walk of the first n - 1 and
      the track of the last. */
  lemma StdTracksLast(data: seq<byte>, sides: nat, size: nat, n: nat, ts: seq<LogicalTrack>)
    returns (prev: seq<LogicalTrack>)
    requires sides >= 1 && size >= 0x100 && n > 0
    requires StdTracksUpTo(data, sides, size, n) == Success(ts)
    ensures StdTracksUpTo(data, sides, size, n - 1) == Success(prev) && StdTrackAt(data, sides, size, n - 1).Success?
    ensures ts == prev + [StdTrackAt(data, sides, size, n - 1).value]
  {
    prev := StdTracksUpTo(data, sides, size, n - 1).value;
  }

  /** What a successful Standard parse guarantees about the image. */
  lemma ParseStandardShape(data: seq<byte>, v: Variants.Variant, d: DSK)
    requires ParseStandardSpec(data, v) == Success(d)
    ensures d.format == FormatStandard && d.header == DecodeDiskHeader(data)
    ensures 1 <= d.header.tracks <= 85 && 1 <= d.header.sides <= 2
    ensures d.standardTrackSize >= 0x100 && d.standardTrackSize == StandardSizeField(data, v)
    ensures |data| >= 0x100 + TotalBlocks(d.header) * d.standardTrackSize
    ensures |d.tracks| == TotalBlocks(d.header)
  {
    var h := DecodeDiskHeader(data);
    var size := StandardSizeField(data, v);
    assert |data| >= HeaderSize;
    assert 1 <= h.tracks <= 85 && 1 <= h.sides <= 2 && size >= 0x100;
    var n: nat := TotalBlocks(h);
    assert |data| >= 0x100 + n * size;
    var ts := StdTracksUpTo(data, h.sides, size, n);
    assert ts.Success? && d == DSK(FormatStandard, h, ts.value, size);
    StdTracksCount(data, h.sides, size, n, ts.value);
  }

  /** A parsed Standard track with sectors: every sector has the track's
      fixed payload length and no data length of its own. */
  lemma StdTrackContents(block: seq<byte>, position: nat, sides: nat, sigValid: bool, t: LogicalTrack, j: nat)
    requires |block| >= 0x100 && sides >= 1
    requires StdTrack(block, position, sides, sigValid) == Success(t)
    requires j < |t.sectors|
    ensures t.header == DecodeTrackHeader(block)
    ensures |t.sectors| == t.header.sectorCount <= 64 && t.header.sectorSize <= 7
    ensures t.sectors[j].info == StdDescriptor(block, j) && t.sectors[j].info.dataLength == 0
    ensures |t.sectors[j].data| == StdSectorLength(t.header.sectorSize)
    ensures 0x100 + StdSectorLength(t.header.sectorSize) <= |block|
  {
    var h := DecodeTrackHeader(block);
    StdDescriptorAt(block, h.sectorCount, j);
    if h.sectorSize <= 7 {
      StdSectorAt(block, StdDescriptors(block, h.sectorCount), StdSectorLength(h.sectorSize), h.sectorCount, j);
    }
  }

  /** An erased Standard block, every byte the same, parses to an empty
      track that records only its position. */
  lemma ErasedStdTrack(size: nat, b: byte, position: nat, sides: nat)
    requires size >= 0x100 && sides >= 1
    ensures var block := Fill(size, b);
            StdTrack(block, position, sides, SignatureValid(DecodeTrackHeader(block).signature))
            == Success(LogicalTrack(UnformattedHeader(position, sides), []))
  {
    var block := Fill(size, b);
    var sig := DecodeTrackHeader(block).signature;
    assert sig[0] == b && sig[1] == b;
    assert TrackInfoTag[0] != TrackInfoTag[1];
  }

  /** Finding (parser.go:211-212): the 13-against-12-byte comparison never
      accepts a signature, not even the exact tag with its NUL. */
  lemma SignatureAsWrittenNeverValid(sig: Bytes13)
    ensures !SignatureValidAsWritten(sig)
    ensures SignatureValid(TrackInfoTag + [0]) && !SignatureValidAsWritten(TrackInfoTag + [0])
  {
  }

  /** ...but the outcome of the Standard parse is the same under either
      test: a block that starts with the tag is never uniform, so the
      mistake only prints a spurious warning. */
  lemma SignatureBugOnlyWarns(block: seq<byte>, position: nat, sides: nat)
    requires |block| >= 0x100 && sides >= 1
    ensures var sig := DecodeTrackHeader(block).signature;
            StdTrack(block, position, sides, SignatureValidAsWritten(sig))
            == StdTrack(block, position, sides, SignatureValid(sig))
  {
    var sig := DecodeTrackHeader(block).signature;
    if SignatureValid(sig) {
      assert block[0] == sig[0] == TrackInfoTag[0];
      assert block[1] == sig[1] == TrackInfoTag[1];
      assert !LooksUnformatted(block);
    }
  }

  /** The signature a Standard image opens with. */
  const StandardSignature: seq<byte> := Ascii("MV - CPCEMU Disk-File\r\nDisk-Info\r\n")

  /** Finding (parser.go:164): on every image with the usual signature the
      size read at decimal offset 32 is the "\r\n" that ends it, 0x0A0D,
      whatever the header's size field at 0x32 says. */
  lemma TrackSizeAsWrittenReadsSignature(data: seq<byte>)
    requires |data| >= HeaderSize && data[..34] == StandardSignature
    ensures StandardTrackSizeAsWritten(data) == 0x0A0D
    ensures StandardTrackSize(data) == LE16(data[0x32], data[0x33])
  {
    assert data[32] == data[..34][32] == StandardSignature[32];
    assert data[33] == data[..34][33] == StandardSignature[33];
  }

  /** What the Standard parse does with the track size `size`: a success
      reads blocks of that size, and a file too short for them fails. */
  predicate StridesBy(data: seq<byte>, v: Variants.Variant, size: nat)
    requires |data| >= HeaderSize
  {
    var r := ParseStandardSpec(data, v);
    var h := DecodeDiskHeader(data);
    (r.Success? ==> r.value.standardTrackSize == size
                    && size >= 0x100 && 1 <= r.value.header.sides
                    && r.value.tracks == StdTracksUpTo(data, r.value.header.sides, size, TotalBlocks(r.value.header)).value)
    && (1 <= h.tracks <= 85 && 1 <= h.sides <= 2 && 0x100 <= size
        && |data| < 0x100 + TotalBlocks(h) * size ==>
        r == Failure(FileTooSmall(|data|, 0x100 + TotalBlocks(h) * size)))
  }

  /** The Standard parse strides by the size field it reads. */
  lemma StandardParseStride(data: seq<byte>, v: Variants.Variant)
    requires |data| >= HeaderSize
    ensures StridesBy(data, v, StandardSizeField(data, v))
  {
  }

  /** Finding (parser.go:164), its consequence: the parse as written walks
      a usual Standard image in blocks of 0x0A0D bytes, so it wants a file
      of 256 + tracks x sides x 0x0A0D bytes whatever the header says. */
  lemma StandardAsWrittenStride(data: seq<byte>)
    requires |data| >= HeaderSize && data[..34] == StandardSignature
    ensures StridesBy(data, Variants.AsWritten, 0x0A0D)
  {
    TrackSizeAsWrittenReadsSignature(data);
    StandardParseStride(data, Variants.AsWritten);
  }
}
