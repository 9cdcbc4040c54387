/** The on-disk structures of the two CPC disk-image variants: the 256-byte
    disk header, the 24-byte track header, the 8-byte sector descriptor, and
    the parsed image built from them. */
module DskTypes {
  import opened Bytes
  import opened Wrappers

  const HeaderSize: nat := 0x100
  /** Entries of the track-size table: at most this many track positions. */
  const TrackSizeTableLen: nat := 204

  // Disk header field offsets and widths.
  const SignatureOffset: nat := 0x00
  const SignatureLen: nat := 34
  const CreatorOffset: nat := 0x22
  const CreatorLen: nat := 14
  const TracksOffset: nat := 0x30
  const SidesOffset: nat := 0x31
  const PaddingOffset: nat := 0x32
  const TableOffset: nat := 0x34

  // Track header field offsets and widths.
  const TrackHeaderSize: nat := 0x18
  const TrackSignatureLen: nat := 13
  const TrackNumOffset: nat := 0x10
  const SideNumOffset: nat := 0x11
  const SectorSizeOffset: nat := 0x14
  const SectorCountOffset: nat := 0x15
  const Gap3Offset: nat := 0x16
  const FillerOffset: nat := 0x17

  const SectorInfoSize: nat := 8

  type Bytes2 = s: seq<byte> | |s| == 2 witness [0, 0]
  type Bytes3 = s: seq<byte> | |s| == 3 witness [0, 0, 0]
  type Bytes13 = s: seq<byte> | |s| == 13 witness Zeros(13)
  type Bytes14 = s: seq<byte> | |s| == 14 witness Zeros(14)
  type Bytes34 = s: seq<byte> | |s| == 34 witness Zeros(34)
  type SizeTable = s: seq<byte> | |s| == 204 witness Zeros(204)

  /** The 256-byte file header. */
  datatype DiskHeader = DiskHeader(
    signature: Bytes34,
    creator: Bytes14,
    tracks: byte,
    sides: byte,
    padding: Bytes2,
    trackSizeTable: SizeTable)

  /** The 24-byte header at the start of every track block. */
  datatype TrackHeader = TrackHeader(
    signature: Bytes13,
    unused: Bytes3,
    trackNum: byte,
    sideNum: byte,
    unused2: Bytes2,
    sectorSize: byte,
    sectorCount: byte,
    gap3Length: byte,
    fillerByte: byte)

  /** A sector descriptor: C, H, R, N, the two FDC status registers and the
      explicit data length. */
  datatype SectorInfo = SectorInfo(
    c: byte,
    h: byte,
    r: byte,
    n: byte,
    fdcStatus1: byte,
    fdcStatus2: byte,
    dataLength: uint16)

  datatype LogicalSector = LogicalSector(info: SectorInfo, data: seq<byte>)

  datatype LogicalTrack = LogicalTrack(header: TrackHeader, sectors: seq<LogicalSector>)

  datatype DSKFormat = FormatExtended | FormatStandard

  /** The parsed image. `standardTrackSize` is only set by the Standard
      variant; the Extended parser leaves it 0. */
  datatype DSK = DSK(
    format: DSKFormat,
    header: DiskHeader,
    tracks: seq<LogicalTrack>,
    standardTrackSize: uint16)

  /** The integer value of the format tag (Go's iota). */
  function FormatCode(f: DSKFormat): (c: nat)
    ensures c < 2
    ensures FormatFromCode(c) == Some(f)
  {
    match f
    case FormatExtended => 0
    case FormatStandard => 1
  }

  function FormatFromCode(c: nat): (r: Option<DSKFormat>)
    ensures r.Some? <==> c < 2
  {
    if c == 0 then Some(FormatExtended) else if c == 1 then Some(FormatStandard) else None
  }

  /** The number of track positions of an image, totalBlocks in the source:
      tracks x sides. */
  function TotalBlocks(h: DiskHeader): nat
  {
    h.tracks * h.sides
  }

  const EmptyTrackHeader := TrackHeader(Zeros(13), [0, 0, 0], 0, 0, [0, 0], 0, 0, 0, 0)

  // ----- Serialisation: the byte layouts encoding/binary gives these structs -----
  // The disk header's padding field stands for Go's blank `_ [2]byte`, which
  // binary.Read skips and binary.Write fills with zeros: the decoder keeps the
  // two bytes so that the size word at 0x32 stays visible, and the packer sets
  // them to zero before encoding.

  function EncodeDiskHeader(h: DiskHeader): (r: seq<byte>)
    ensures |r| == HeaderSize
    ensures r[SignatureOffset..CreatorOffset] == h.signature
    ensures r[CreatorOffset..TracksOffset] == h.creator
    ensures r[TracksOffset] == h.tracks && r[SidesOffset] == h.sides
    ensures r[PaddingOffset..TableOffset] == h.padding
    ensures r[TableOffset..] == h.trackSizeTable
  {
    h.signature + h.creator + [h.tracks, h.sides] + h.padding + h.trackSizeTable
  }

  function DecodeDiskHeader(s: seq<byte>): DiskHeader
    requires |s| >= HeaderSize
  {
    DiskHeader(s[..CreatorOffset], s[CreatorOffset..TracksOffset], s[TracksOffset], s[SidesOffset],
               s[PaddingOffset..TableOffset], s[TableOffset..HeaderSize])
  }

  lemma DiskHeaderRoundTrip(h: DiskHeader)
    ensures DecodeDiskHeader(EncodeDiskHeader(h)) == h
  {
  }

  lemma DiskHeaderBytesRoundTrip(s: seq<byte>)
    requires |s| >= HeaderSize
    ensures EncodeDiskHeader(DecodeDiskHeader(s)) == s[..HeaderSize]
  {
  }

  function EncodeTrackHeader(h: TrackHeader): (r: seq<byte>)
    ensures |r| == TrackHeaderSize
    ensures r[..TrackSignatureLen] == h.signature
    ensures r[TrackSignatureLen..TrackNumOffset] == h.unused
    ensures r[TrackNumOffset] == h.trackNum && r[SideNumOffset] == h.sideNum
    ensures r[0x12..SectorSizeOffset] == h.unused2
    ensures r[SectorSizeOffset] == h.sectorSize && r[SectorCountOffset] == h.sectorCount
    ensures r[Gap3Offset] == h.gap3Length && r[FillerOffset] == h.fillerByte
  {
    h.signature + h.unused + [h.trackNum, h.sideNum] + h.unused2
      + [h.sectorSize, h.sectorCount, h.gap3Length, h.fillerByte]
  }

  function DecodeTrackHeader(s: seq<byte>): TrackHeader
    requires |s| >= TrackHeaderSize
  {
    TrackHeader(s[..TrackSignatureLen], s[TrackSignatureLen..TrackNumOffset], s[TrackNumOffset],
                s[SideNumOffset], s[0x12..SectorSizeOffset], s[SectorSizeOffset],
                s[SectorCountOffset], s[Gap3Offset], s[FillerOffset])
  }

  lemma TrackHeaderRoundTrip(h: TrackHeader)
    ensures DecodeTrackHeader(EncodeTrackHeader(h)) == h
  {
  }

  lemma TrackHeaderBytesRoundTrip(s: seq<byte>)
    requires |s| >= TrackHeaderSize
    ensures EncodeTrackHeader(DecodeTrackHeader(s)) == s[..TrackHeaderSize]
  {
  }

  function EncodeSectorInfo(i: SectorInfo): (r: seq<byte>)
    ensures |r| == SectorInfoSize
    ensures r[..6] == [i.c, i.h, i.r, i.n, i.fdcStatus1, i.fdcStatus2]
    ensures LE16(r[6], r[7]) == i.dataLength
  {
    [i.c, i.h, i.r, i.n, i.fdcStatus1, i.fdcStatus2] + EncodeLE16(i.dataLength)
  }

  function DecodeSectorInfo(s: seq<byte>): SectorInfo
    requires |s| >= SectorInfoSize
  {
    SectorInfo(s[0], s[1], s[2], s[3], s[4], s[5], LE16(s[6], s[7]))
  }

  lemma SectorInfoRoundTrip(i: SectorInfo)
    ensures DecodeSectorInfo(EncodeSectorInfo(i)) == i
  {
  }

  lemma SectorInfoBytesRoundTrip(s: seq<byte>)
    requires |s| >= SectorInfoSize
    ensures EncodeSectorInfo(DecodeSectorInfo(s)) == s[..SectorInfoSize]
  {
    LE16Inverse(s[6], s[7]);
  }
}
