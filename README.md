# magneato core in Dafny

magneato converts Amstrad CPC floppy-disk images (the Standard "MV - CPC"
DSK layout and the Extended "EXTENDED CPC DSK" layout) into a directory
tree and back. This project models its core:

- the on-disk records: the 256-byte disk header, the 24-byte track header
  and the 8-byte sector descriptor, as byte layouts with encoders and
  decoders;
- the parser, which classifies an image by its signature and walks the
  track blocks of either layout into logical tracks and sectors;
- the `asciihex` payload codec: literal printable bytes, hex pairs, `XX*N`
  run tokens and a per-payload toggle character;
- the payload-format registry (`binary`, `hex`, `quoted`, `asciihex`) and
  the format detection, which needs exactly one `sector-R.<ext>` file;
- `Unpack`: `disk-image.meta`, one directory per track position holding
  `track.meta`, and `sector-R.meta` plus a payload file per sector;
- `Pack`: an Extended image rebuilt from such a tree;
- the argument parser of the `unpack` command.

Imperative Go code is modelled by methods with loops, each proved equal to
a specification function (`ParseDSK` and `ParseSpec`, `Unpack` and
`UnpackSpec`, `Pack` and `PackSpec`, `EncodeASCIIHex` and `Encode`, and so
on). The properties are stated as lemmas about those functions. The file
system is an in-memory `Tree`: root files plus one level of directories.
The order `os.ReadDir` lists a directory in is a parameter (`listing`).

Two things come in as parameters with stated properties, the same way:

- JSON: `encoding/json`'s marshalling is a pair of functions
  (`JsonCodec`). Lemmas that relate packing to unpacking assume
  `JsonRoundTrips`, which says a written record reads back as itself.
- The `hex` and `quoted` codecs are the `encoding/hex` and
  `mime/quotedprintable` functions they wrap (`LibraryCodecs`). Lemmas
  about hex assume `HexRoundTrips`: the decoder inverts the encoder.
  Lemmas about quoted assume `QuotedRoundTrips`. It says the reader inverts
  the writer in binary mode on every payload, and in text mode only on
  payloads with no LF or CR byte. Text mode writes a lone LF, a lone CR
  and a CR LF all as CRLF.

Where the code has a defect, a `Variant` parameter (`AsWritten` or
`Corrected`, module `Variants`) selects the code as it stands or the
repaired version. It is taken by the Standard parse (where the track size
is read), by the asciihex encoder (the toggle choice and the run before a
hex byte) and by the unpacker (how `track.meta` writes the unused bytes,
and whether the quoted writer is in text or binary mode).
The lemmas that relate unpacking to packing are stated for either variant
where the code as written keeps them, and otherwise for the corrected one
(see Findings).

## Model

| member | source | states |
|---|---|---|
| DskTypes.EncodeDiskHeader | src/types.go:13-28 | the disk header is 256 bytes: 34-byte signature at 0, 14-byte creator at 0x22, tracks at 0x30, sides at 0x31, two padding bytes at 0x32 and the 204-entry size table from 0x34 |
| DskTypes.DiskHeaderRoundTrip | src/types.go:13-28 | decoding an encoded disk header gives the header back |
| DskTypes.DiskHeaderBytesRoundTrip | src/types.go:13-28 | re-encoding a decoded header gives back the first 256 bytes it was read from; the model's header keeps the two padding bytes that Go's blank field skips |
| DskTypes.EncodeTrackHeader | src/types.go:41-62 | the track header is 24 bytes: 13-byte signature, 3 unused, track, side, 2 unused, sector size code, sector count, gap3, filler, in that order |
| DskTypes.TrackHeaderRoundTrip | src/types.go:41-62 | decoding an encoded track header gives it back |
| DskTypes.TrackHeaderBytesRoundTrip | src/types.go:41-62 | re-encoding a decoded track header gives back its 24 bytes |
| DskTypes.EncodeSectorInfo | src/types.go:30-39 | a descriptor is 8 bytes: C, H, R, N, ST1, ST2, then the data length little-endian |
| DskTypes.SectorInfoRoundTrip | src/types.go:30-39 | decoding an encoded descriptor gives it back |
| DskTypes.SectorInfoBytesRoundTrip | src/types.go:30-39 | re-encoding a decoded descriptor gives back its 8 bytes |
| DskTypes.FormatCode | src/types.go:76-84 | Extended is 0 and Standard 1, and the code names its format again |
| DskTypes.FormatFromCode | src/types.go:76-84 | exactly the codes 0 and 1 name a format |
| Parser.DetectFormat | src/parser.go:31-50 | an image under 256 bytes is refused; otherwise prefix "EXTENDED" gives Extended, else prefix "MV - CPC" gives Standard, else the signature error carrying the first 22 bytes, each in both directions |
| Parser.ParseDSK | src/parser.go:18-51 | the parse is the specification's: format detection, then the parser of that layout, the Standard one taking the size field the variant selects |
| Parser.ParseExtendedDSK | src/parser.go:54-147 | the Extended parse equals `ParseExtendedSpec`: the header, then the walk over tracks x sides positions |
| Parser.ReadExtTracks | src/parser.go:76-144 | the position loop, with its moving offset, equals the walk `ExtTracksUpTo` |
| Parser.ReadExtPosition | src/parser.go:78-97 | one position: a zero entry is skipped, a block past the end of the file is an EOF error, otherwise the block is parsed |
| Parser.ParseExtendedTrack | src/parser.go:94-140 | a block's track equals `ExtTrack`: its header, the descriptors and the payloads |
| Parser.ReadExtDescriptors | src/parser.go:113-118 | the descriptor loop fails exactly when the block cannot hold 24 + 8 x count bytes, and otherwise returns the decoded descriptors |
| Parser.ReadExtPayloads | src/parser.go:124-140 | the payload loop fails on a length Go's `make` refuses (negative, or over 2^48 bytes) and otherwise returns one sector per descriptor with its payload |
| Parser.ExtLengthOverflowsExactly | src/parser.go:125-130 | `make` refuses the computed length exactly when the data length is 0 and N is 42 to 56 |
| Parser.ExtReadStep | src/parser.go:124-134 | one step of the block reader: the payload is the next Min(length, rest) bytes zero-padded, and the reader moves by what it read |
| Parser.ExtSectorLength | src/parser.go:125-128 | the payload length is the data length when nonzero, else 128 x 2^N; for N of 57 and above the 64-bit product wraps to 0 |
| Parser.GoSectorLengthWraps | src/parser.go:127 | `128*(1<<N)` is computed in signed 64-bit arithmetic |
| Parser.ExtDescriptorAt | src/parser.go:113-118 | descriptor s is the 8 bytes at 0x18 + 8s of the block |
| Parser.ExtPayload | src/parser.go:130-134 | every payload has exactly its sector's length, zero-padded where the block runs out |
| Parser.ExtSectorAt | src/parser.go:136-139 | sector j pairs descriptor j with payload j |
| Parser.ExtTracksStep | src/parser.go:76-144 | one more position adds nothing for a skipped entry, one track for a block, or stops with the error |
| Parser.ExtFailureSticks | src/parser.go:86-88 | the first error is the result of the whole walk |
| Parser.ExtTracksCount | src/parser.go:76-83 | a successful walk covers at most 204 positions and yields one track per nonzero table entry |
| Parser.ExtBlocksInFile | src/parser.go:86-90 | each nonzero entry consumes exactly entry x 256 bytes, all inside the file |
| Parser.ExtTrackAtPosition | src/parser.go:76-144 | the track of position i is the one after the tracks of the earlier nonzero entries |
| Parser.ExtTrackContents | src/parser.go:106-140 | a parsed Extended track keeps the header verbatim and has sector-count sectors, each with its descriptor and a payload of the computed length |
| Parser.ParseStandardDSK | src/parser.go:150-362 | the Standard parse equals `ParseStandardSpec`, as written reading the size at bytes 32-33 and corrected at 0x32-0x33 |
| Parser.StandardTrackSize | src/parser.go:162-164 | the track size is the little-endian value of the padding bytes at 0x32-0x33 (corrected; see Findings) |
| Parser.TrackSizeAsWrittenReadsSignature | src/parser.go:164 | as written, the size is read from bytes 32-33, which in a Standard image are the signature's CR LF, so it is always 0x0A0D |
| Parser.ParseStandardShape | src/parser.go:166-199 | a successful Standard parse, in either variant, has 1-85 tracks, 1-2 sides, the track size of the selected field and at least 0x100, a file of at least 256 + tracks x sides x size bytes, and exactly tracks x sides tracks |
| Parser.StandardParseStride | src/parser.go:162-199 | the Standard parse reads its blocks at the stride of the size field it selects, and fails with "file too small" when the file cannot hold tracks x sides of them |
| Parser.StandardAsWrittenStride | src/parser.go:164-199 | as written, an image with the usual signature is read in blocks of 0x0A0D bytes and needs 256 + tracks x sides x 0x0A0D bytes |
| Parser.ReadStdTracks | src/parser.go:194-359 | the position loop equals the walk `StdTracksUpTo` |
| Parser.ReadStdPosition | src/parser.go:194-201 | one position: an EOF error when the block passes the end of the file, otherwise the block at 256 + i x size is parsed |
| Parser.ParseStandardTrack | src/parser.go:203-357 | a block's track equals `StdTrack` with the signature check of the corrected parser |
| Parser.IsUnformatted | src/parser.go:216-227 | the block looks unformatted exactly when its first min(100, size) bytes are all equal |
| Parser.UnformattedHeader | src/parser.go:229-238 | an unformatted position gets track i/sides, side i%sides and every other header field zero |
| Parser.ErasedStdTrack | src/parser.go:216-242 | a block filled with one byte value becomes the empty track of its position |
| Parser.StdSectorLength | src/parser.go:308-316 | a Standard sector holds 128 x 2^N bytes, except 0x1800 for N = 6 |
| Parser.StdDescriptor | src/parser.go:278-286 | a Standard descriptor has data length 0 |
| Parser.ReadStdDescriptors | src/parser.go:270-287 | the 6-byte descriptor reads fail exactly when the last one starts at or past the end of the block, and otherwise give the descriptors, zero-filled where the block ends inside one |
| Parser.StdDescriptorReadStep | src/parser.go:273-286 | one 6-byte read gives C, H, R, N, ST1, ST2 of descriptor s and moves the reader to the next |
| Parser.StdDescriptorAt | src/parser.go:270-287 | descriptor s is the one read at 0x18 + 6s |
| Parser.ReadStdPayloads | src/parser.go:330-355 | the payload loop gives each sector the zero-padded secLen bytes read consecutively from 0x100 |
| Parser.StdSectorAt | src/parser.go:330-355 | sector m's payload is the block's bytes from 0x100 + m x secLen |
| Parser.StdTrackContents | src/parser.go:249-357 | a parsed Standard track has at most 64 sectors, a size code of at most 7, 6-byte descriptors and payloads of the Standard length, and a block that holds 0x100 + one sector |
| Parser.StdTracksStep | src/parser.go:194-359 | one more position appends its track |
| Parser.StdFailureSticks | src/parser.go:196-198 | the first error is the result of the whole walk |
| Parser.StdTracksCount | src/parser.go:194-359 | a successful walk has one track per position |
| Parser.StdTrackAtPosition | src/parser.go:194-359 | track i is the parse of block i |
| Parser.SignatureAsWrittenNeverValid | src/parser.go:211-212 | as written, the 13-byte signature is compared with a 12-byte string and never matches, not even "Track-Info\r\n" followed by NUL |
| Parser.SignatureBugOnlyWarns | src/parser.go:211-247 | the never-matching comparison changes no parse result, only the warnings |
| Parser.GetTrack | src/parser.go:364-372 | the first track with that cylinder and head, or none exactly when no track has them |
| AsciiHex.HexDigitChar | src/formatters.go:150 | `%X` writes an uppercase hex digit of the value |
| AsciiHex.HexByte | src/formatters.go:166 | `%02X` writes two hex digits whose value is the byte |
| AsciiHex.HexNatValue | src/formatters.go:150 | the `%X` count reads back as the count |
| AsciiHex.HexNatDigits | src/formatters.go:150 | the `%X` count is all hex digits |
| AsciiHex.HexDigitRunOf | src/formatters.go:207-210 | the count scan stops at the first character that is not a hex digit |
| AsciiHex.RunLength | src/asciihex-format.go:174-183 | countRepeats is 0 for empty input and between 1 and the length otherwise |
| AsciiHex.RunLengthIsMaximalRun | src/asciihex-format.go:174-183 | the count is the length of the maximal prefix equal to the first byte |
| AsciiHex.CountRepeats | src/asciihex-format.go:174-183 | the counting loop returns `RunLength` |
| AsciiHex.ChooseToggle | src/asciihex-format.go:149-172 | the frequency map and the two scans return the toggle the specification chooses |
| AsciiHex.ToggleIsCandidate | src/asciihex-format.go:149-172 | the toggle is a printable byte |
| AsciiHex.ToggleIsFirstUnused | src/asciihex-format.go:151-161 | when some printable byte is absent from the data, the toggle is the smallest absent one |
| AsciiHex.ToggleIsLeastUsed | src/asciihex-format.go:163-171 | when every printable byte occurs, the toggle occurs no more often than any other, and every smaller printable byte occurs more often: ties go to the smallest |
| AsciiHex.MinFrequentFirst | src/asciihex-format.go:163-171 | the least-frequency scan ends on the first candidate of least count below the starting bound, or keeps its start when none is below it |
| AsciiHex.Token | src/formatters.go:143-170 | each encoder step consumes at least one byte |
| AsciiHex.EncodeASCIIHex | src/formatters.go:134-175 | the encoder loop writes `Encode` |
| AsciiHex.EncodeToken | src/formatters.go:144-170 | one pass of the loop writes a run token, a literal or a hex pair, switching mode with the toggle as the specification's step does |
| AsciiHex.EncodeFromStep | src/formatters.go:143-171 | the encoding is the first token followed by the encoding of the rest |
| AsciiHex.EncodePrintable | src/formatters.go:139-174 | every encoded byte is printable, and a non-empty encoding ends with the toggle |
| AsciiHex.PlainTextFrom | src/formatters.go:155-170 | printable non-toggle bytes outside runs are written as themselves in text mode |
| AsciiHex.PlainTextVerbatim | src/asciihex-format.go:43-84 | printable data with no run of four whose toggle is unused encodes as itself followed by the toggle |
| AsciiHex.DecodeASCIIHex | src/formatters.go:177-238 | the decoder loop returns `Decode` |
| AsciiHex.DecodeToken | src/formatters.go:188-234 | one pass of the decoder loop consumes a toggle, a literal, a pair or a run token, or fails as the specification does |
| AsciiHex.ScanHexDigits | src/formatters.go:207-210 | the count scan ends after the run of hex digits |
| AsciiHex.DecodeLast | src/formatters.go:182-183 | the last character is the toggle and the rest is decoded from text mode |
| AsciiHex.DecodeErrors | src/formatters.go:195-216 | in hex mode, a lone last character, a pair that is not two hex digits, and a `*` with no count digits are errors |
| AsciiHex.DecodeToggle | src/formatters.go:189-193 | a toggle flips the mode and produces nothing |
| AsciiHex.DecodeRaw | src/formatters.go:231-234 | a text-mode byte is copied unchanged |
| AsciiHex.DecodeHexPair | src/formatters.go:222-230 | a hex pair not followed by `*` decodes to its byte |
| AsciiHex.DecodeRunToken | src/formatters.go:200-221 | `HH*C` decodes to C copies of HH |
| AsciiHex.TokenRoundTrip | src/formatters.go:143-221 | decoding a token of the corrected encoder gives back the bytes it encoded |
| AsciiHex.RoundTrip | src/formatters.go:134-238 | the corrected codec decodes every encoding of a non-empty payload of at most 2^31 - 1 bytes to the payload |
| AsciiHex.RoundTripAsWritten | src/formatters.go:134-238 | the codec as written round-trips every non-empty payload of at most 2^31 - 1 bytes whose toggle is safe and in which no run token is followed by a hex token |
| AsciiHex.EncodeAgree | src/formatters.go:134-180 | on such payloads the encoder as written gives the corrected encoding |
| AsciiHex.ToggleAgree | src/asciihex-format.go:151-161 | when the toggle chosen as written is neither `*` nor a hex digit, the corrected choice is the same byte |
| AsciiHex.EmptyPayloadDoesNotRoundTrip | src/formatters.go:134-180 | an empty payload encodes to nothing, which decodes to the empty-string error |
| AsciiHex.RunThenHexAsWritten | src/formatters.go:150-152 | as written, [00,00,00,00,01] encodes to " 00*401 ", which decodes to 1025 zero bytes |
| AsciiHex.StarToggleAsWritten | src/asciihex-format.go:151-161 | as written, the toggle can be `*`: the bytes 0x20-0x29, 0x00, 0x41 get toggle `*` and do not decode back |
| Formatters.FormatByName | src/formatters.go:289-318 | the reader and writer lookups accept exactly "binary", "hex", "quoted" and "asciihex" and fail with "unknown format" otherwise |
| Formatters.FormatNameSelects | src/formatters.go:289-318 | every format is selected by its own name |
| Formatters.PayloadRoundTrip | src/formatters.go:23-132 | every writer is undone by the reader of its format, given the promise of the library codec it uses. Binary and hex work in either variant. Quoted works in binary mode on every payload; the text-mode writer as written works only without LF or CR bytes. Asciihex needs a non-empty payload, and for the encoder as written also a safe toggle and no run token before a hex token |
| Formatters.QuotedLineFeedAltered | src/formatters.go:73-104 | as written, a sector holding a lone LF comes back as CR LF; with the writer in binary mode it comes back as it was |
| Formatters.DetectFormatFromFile | src/formatters.go:322-370 | the four existence tests return `DetectFormat` |
| Formatters.PresentInOrder | src/formatters.go:332-359 | the files are tried in the order bin, hex, quoted, asciihex |
| Formatters.DetectFindsSoleFile | src/formatters.go:322-370 | when exactly one payload file exists, detection returns its format and name |
| Formatters.DetectNeedsSoleFile | src/formatters.go:322-370 | detection succeeds only when the file it returns is the only payload file of that sector |
| Formatters.DetectFailsWithoutFile | src/formatters.go:361-363 | with no payload file, detection fails |
| Formatters.DetectFailsWithTwoFiles | src/formatters.go:365-367 | with two payload files, detection fails naming the formats |
| Formatters.SectorFileNamesDistinct | src/formatters.go:323-326 | the four payload names of a sector differ |
| Formatters.SectorNamesDistinct | src/unpack.go:166-182 | a sector's meta name is no payload name, and different sectors get different names |
| Formatters.PayloadNamesDisjoint | src/unpack.go:154-166 | payload files of different formats never share a name, whatever their sectors |
| Json.ToUint8 | src/pack.go:61 | Go's uint8 of an integral float64 keeps values in 0..255 |
| Json.ToUint16 | src/pack.go:319-320 | Go's uint16 of an integral float64 keeps values in 0..65535 |
| Json.Numbers | src/unpack.go:51-56 | a []int is written as an array holding each byte as a number, in order |
| Json.Base64 | src/unpack.go:102-111 | a []uint8 marshals to padded base-64 of length 4 x ceil(n/3) |
| Unpacker.DropLeadingNul | src/unpack.go:40 | the leading NULs and only they are removed from the creator |
| Unpacker.DropTrailingNul | src/unpack.go:40 | the trailing NULs and only they are removed from the creator |
| Unpacker.TrackMap | src/unpack.go:68-74 | every position maps to a track of the image |
| Unpacker.BuildTrackMap | src/unpack.go:69-74 | the map loop returns `TrackIndex` |
| Unpacker.TrackIndexLastWins | src/unpack.go:69-74 | a position is mapped exactly when some track's TrackNum x Sides + SideNum is it, and then to the last such track |
| Unpacker.SideDirNameInjective | src/unpack.go:87-90 | different track and side pairs give different track-XX-side-Y names |
| Unpacker.PlainDirNameInjective | src/unpack.go:87 | different positions give different track-XX names |
| Unpacker.PlainIsNotSideName | src/unpack.go:87-90 | no track-XX name is a track-XX-side-Y name |
| Unpacker.DirNameInjective | src/unpack.go:86-90 | different positions get different directories |
| Unpacker.Unpack | src/unpack.go:20-196 | the unpack loops produce `UnpackSpec` |
| Unpacker.UnpackPosition | src/unpack.go:78-192 | one pass of the position loop equals `PositionStep`: track.meta from the parsed header, or the minimal one when no track sits there, then the sector loop for a formatted track |
| Unpacker.WriteOneSector | src/unpack.go:144-190 | one sector writes its payload file, then its sector-R.meta, as `WriteSector` states |
| Unpacker.WriteTrackSectors | src/unpack.go:143-191 | the sector loop equals `WriteSectors`: the writer is looked up per sector and each sector's two files are written |
| Unpacker.LastWith | src/unpack.go:144-190 | the last sector of a track with a given R, or none |
| Unpacker.SectorWritesKeyed | src/unpack.go:144-190 | files are keyed by R: the last sector with R leaves its meta and payload; without one, those names keep what they held |
| Unpacker.SectorWritesOthers | src/unpack.go:144-190 | the sector loop touches no name other than sector files |
| Unpacker.WriteSectorsFails | src/unpack.go:148-151 | with sectors to write, an unknown format fails with the writer error |
| Unpacker.UnknownFormatFails | src/unpack.go:143-151 | if the first position holds sectors, an unknown format stops the unpack with the writer error |
| Unpacker.InDirNames | src/unpack.go:77-91 | the directories written are exactly those of positions i..total-1 |
| Unpacker.DirNamesCount | src/unpack.go:77-91 | there are tracks x sides of them |
| Unpacker.LaterNamesDiffer | src/unpack.go:77-91 | no later position rewrites an earlier position's directory |
| Unpacker.TotalSides | src/unpack.go:77-81 | with any position at all, sides is nonzero |
| Unpacker.PositionsFrame | src/unpack.go:76-192 | the position loop changes only the directories of its positions |
| Unpacker.PositionsDir | src/unpack.go:76-192 | each position's directory is what its step wrote |
| Unpacker.PositionsSucceed | src/unpack.go:76-192 | steps that never fail make the loop succeed |
| Unpacker.StepSucceeds | src/unpack.go:143-191 | with a known format no position fails |
| Unpacker.UnpackTree | src/unpack.go:34-192 | with a known format the unpack succeeds, writes disk-image.meta, adds exactly the tracks x sides directories and leaves other directories alone |
| Unpacker.UnpackedDir | src/unpack.go:84-191 | the directory of position j holds its track.meta and the files of its sectors |
| RoundTrip.TrackMetaFields | src/unpack.go:107-117 | a formatted position's track.meta holds the header's fields under their names |
| RoundTrip.NumbersReadBack | src/pack.go:229-256 | the packer reads an array of numbers back as the bytes it holds |
| RoundTrip.TrackMetaRoundTrip | src/pack.go:218-268 | with the unused fields written as arrays, the packer rebuilds the track header except its signature, which becomes "Track-Info\r\n" + NUL |
| RoundTrip.TrackMetaAsWritten | src/unpack.go:102-111 | as written, the unused fields are base-64 strings, so the packer rebuilds them as zeros |
| RoundTrip.UnusedBytesLost | src/pack.go:229-256 | a header with nonzero unused bytes does not survive unpack and pack as written |
| RoundTrip.SectorMetaRoundTrip | src/pack.go:306-320 | the packer rebuilds every descriptor from its sector-R.meta |
| RoundTrip.StandardMetaRefused | src/pack.go:70-73 | the metadata of a Standard image has no size table, so Pack refuses it |
| RoundTrip.ExtendedMetaRoundTrip | src/pack.go:36-109 | the metadata of an Extended image rebuilds its header with the Extended signature, the creator without its NUL ends, tracks, sides, zero padding and the table |
| RoundTrip.CreatorRestored | src/pack.go:50-54 | the creator comes back exactly when it does not start with NUL or is all NULs |
| RoundTrip.StandardImageNotRepacked | src/pack.go:70-73 | packing an unpacked Standard image fails before the output file is created |
| RoundTrip.ExtendedImageRepacked | src/pack.go:106-162 | packing an unpacked Extended image writes the rebuilt header with the first tracks x sides table entries, or stops after 52 bytes when there are more than 204 positions |
| RoundTrip.RepackFindsTrackDirs | src/pack.go:174-185 | the packer finds each position in the directory the unpacker wrote for it |
| RoundTrip.UnpackedTrackMeta | src/unpack.go:97-140 | each unpacked directory holds the track.meta of its position |
| RoundTrip.RepackedTrackHeader | src/pack.go:205-271 | in either variant the packer writes the track header of the placed track, with the fixed signature, and pads with its filler byte; after the unpacker as written the unused bytes are zero, after the corrected one they are the original's |
| RoundTrip.TrackMetaReadBack | src/unpack.go:97-140 | the packer reads back from track.meta the header `ReadBackHeader` names for the variant that wrote it |
| RoundTrip.UnpackedSectorFiles | src/unpack.go:144-190 | in a fresh directory, the last sector with R leaves its meta and its payload, which detection then finds as the only payload file |
| RoundTrip.RepackedSector | src/pack.go:286-341 | the packer reads back each sector's descriptor and payload from the files the unpacker of either variant wrote. As written, a quoted payload must have no LF or CR byte and an asciihex payload must be one the codec keeps |
| Packer.SignatureFor | src/pack.go:36-47 | the Standard signature, zero-padded to 34, exactly when format is "standard", otherwise the Extended one |
| Packer.FirstNonNumber | src/pack.go:81-91 | the index reported is that of the first entry that is not a number |
| Packer.TableValues | src/pack.go:76-92 | the table converts exactly when every entry is a number, each cut to a byte; otherwise the error names the first other entry |
| Packer.ConvertTable | src/pack.go:78-92 | the conversion loop returns `TableValues` |
| Packer.HeaderFromFields | src/pack.go:50-109 | the header is rebuilt exactly when creator, tracks, sides and a table of at most 204 numbers are present and well typed, and then holds them cut to size, with zero padding |
| Packer.ReadHeader | src/pack.go:32-109 | the header reading returns `HeaderFrom` |
| Packer.HeaderPrefix | src/pack.go:120-142 | the first 52 bytes written |
| Packer.ArrayBytesAt | src/pack.go:229-238 | byte j of an unused field is array item j cut to a byte, or 0 when missing or not a number |
| Packer.CopyArrayBytes | src/pack.go:229-256 | the copy loop returns `ArrayBytes` |
| Packer.TrackHeaderFrom | src/pack.go:218-268 | every rebuilt track header carries "Track-Info\r\n" + NUL, whatever the metadata says |
| Packer.TrimPrefix | src/pack.go:288 | strings.TrimPrefix removes the prefix exactly when present |
| Packer.TrimSuffix | src/pack.go:288 | strings.TrimSuffix removes the suffix exactly when present |
| Packer.SkipSpace | src/pack.go:290 | the scanner skips the leading white space |
| Packer.DigitRun | src/pack.go:290 | the scanned digits are the maximal decimal prefix |
| Packer.ScanUint8 | src/pack.go:289-292 | `Sscanf("%d")` into a uint8 succeeds exactly when decimal digits follow the white space and their value fits in a byte, and then gives that value; the number ends at the first character that is not a digit `0`-`9` (an `_` included), and the rest is not looked at |
| Packer.ScanUint8Decimal | src/pack.go:290 | the decimal name of a byte, followed by anything that does not start with a digit, scans back as that byte |
| Packer.UnderscoreEndsNumber | src/pack.go:287-292 | `sector-12_.meta` names sector 12 |
| Packer.SectorNumberOfNames | src/pack.go:287-292 | sector-R.meta names sector R; payload files and track.meta name no sector |
| Packer.ReadSectors | src/pack.go:286-343 | the sector loop equals `SectorsFrom`: descriptors in listing order, payloads keyed by R, the first error stopping it |
| Packer.InfoBytes | src/pack.go:351-355 | one 8-byte descriptor per sector |
| Packer.WriteInfos | src/pack.go:351-355 | the descriptor loop returns `InfoBytes` |
| Packer.WriteData | src/pack.go:358-363 | the payload loop returns `DataBytes`: the payloads in descriptor order, looked up by R |
| Packer.TrackBlock | src/pack.go:188-203 | a position contributes nothing exactly when its table entry is 0 |
| Packer.ZeroEntrySkipped | src/pack.go:188-203 | a zero entry adds no bytes, whether or not its directory exists |
| Packer.MissingTrackDirFails | src/pack.go:188-196 | a nonzero entry without either directory fails, naming position, track and side |
| Packer.BlockStartsWithSignature | src/pack.go:218-271 | every track block written starts with the fixed track signature |
| Packer.TrackBlockHeader | src/pack.go:205-271 | a block starts with the header rebuilt from its track.meta and pads with its filler byte |
| Packer.TrackStartOf | src/pack.go:366-370 | a block starts at 256 + 256 x the sum of the earlier entries |
| Packer.Padding | src/pack.go:372-378 | the padding is that many filler bytes |
| Packer.ReadTrackBlock | src/pack.go:165-363 | the per-position reading returns `TrackBlock` |
| Packer.PackTrack | src/pack.go:167-382 | one position of the loop returns `TrackStep` |
| Packer.TrackStepExtends | src/pack.go:167-382 | a position only appends to the output |
| Packer.PadBlock | src/pack.go:365-382 | a block that ends before its start plus its table size gets filler bytes up to exactly that point; a block that reaches it is kept whole |
| Packer.PadTrack | src/pack.go:365-382 | the padding step, which sums the earlier table entries for the start, equals `PadBlock` |
| Packer.TrackStepLength | src/pack.go:365-382 | a block is padded up to its table size and never cut, so it ends at its table end exactly when it fits |
| Packer.TracksExtend | src/pack.go:167-383 | the position loop only appends to the output |
| Packer.TracksLength | src/pack.go:167-383 | blocks of exactly their size give an output of the summed sizes |
| Packer.WriteTracks | src/pack.go:164-383 | the position loop returns `Tracks` |
| Packer.Pack | src/pack.go:18-387 | the pack returns `PackSpec` |
| Packer.OversizedTableStopsEarly | src/pack.go:145-148 | more than 204 positions stop Pack after the first 52 bytes |
| Packer.PackedHeader | src/pack.go:118-162 | the output starts with a 256-byte header: signature, creator, tracks, sides, two zeros, the first tracks x sides table entries, then zeros |
| Packer.PackedLength | src/pack.go:164-383 | when every block fits, the image is 256 + 256 x the sum of the entries long |
| Cli.ParseUnpackArgs | src/main.go:21-53 | the argument loop returns `ParseSpec` |
| Cli.NoArgumentsFail | src/main.go:24-26 | no arguments is the insufficient-arguments error |
| Cli.DefaultFormat | src/main.go:28-46 | without the flag, the filename is args[0], the format "binary", and the output directory the first non-empty later argument |
| Cli.PlainArgs | src/main.go:43-45 | plain arguments only fill an empty output directory |
| Cli.FlagSelectsFormat | src/main.go:34-42 | the flag's value is the format when valid and is never the output directory; an invalid one is an error |
| Cli.RepeatedFlagLastWins | src/main.go:33-42 | with the flag given twice, the second value is the format when valid and an error otherwise; the first value is never the output directory |
| Cli.TrailingFlagFails | src/main.go:35-37 | the flag as the last argument is the missing-value error |
| Cli.ParseFromFormat | src/main.go:38-41 | a parse that succeeds has a format among binary, hex and quoted |
| Cli.ParsedArgs | src/main.go:28-52 | a successful parse has the filename args[0] and an accepted format |
| Cli.AsciiHexRejected | src/main.go:38-41 | "asciihex" is refused as a format value |

## Left out

- File and directory I/O is not modelled: open, read, create, write,
  MkdirAll, Stat and ReadDir, and their errors. The tree is a value and
  the output file a byte sequence. Errors of the output file are not
  modelled, beyond where Pack stops writing.
- Path handling with filepath Base, Ext and Join is not modelled: output
  naming and the root directory of Unpack.
- os.ReadDir's order is a parameter (`listing`), not the sorted order.
- Subdirectories inside a track directory are not modelled, and the
  `IsNotExist` test is read as "a file or a directory of that name exists".
- The hex and quoted-printable codecs are not modelled; their promises
  are stated as `HexRoundTrips`, `QuotedRoundTrips` and, for the one
  text-mode case the Findings use, `QuotedTextLineBreaks`.
- Real JSON is not modelled. `encoding/json` is a parameter, a number is an
  integer, and a string is its bytes. A fractional number and invalid
  UTF-8 in the creator are not modelled.
- Go's error texts are modelled as error constructors, except for the
  writer error of Unpack.
- The type-switch cases for `uint8` and `int` (src/pack.go:85-88) and for
  `[]float64` and `[]uint8` (src/pack.go:93-101) are not modelled, because `json.Unmarshal` into
  `interface{}` never produces them.
- Console output (DumpInfo, the warnings, the usage text, main's dispatch)
  is not modelled.
- The unused Specification types of src/types.go:86-150 are not modelled.
- The root-level dsk.go, edsk.go, parser.go, main.go, types.go and info.go are not
  part of this model, because they are older drafts that do not form one program with src/.
- src/asciihex-format.go repeats the codec of src/formatters.go line for line;
  the one AsciiHex module models both, and rows cite whichever file states
  the property more directly.
- Go panics become explicit errors:
  - an Extended position past the 204-entry table;
  - an Extended sector whose data length is 0 and whose N makes
    `128*(1<<N)` negative (N = 56) or longer than the 2^48 bytes `make`
    accepts on a 64-bit Linux target (N = 42 to 55).
- A payload length `make` accepts but the machine cannot hold ends the Go
  program with an out-of-memory error; the model reads it like any other.
- The cases in src/main_test.go pass "unpack" as args[0]. `main` passes
  `os.Args[2:]`, which starts with the filename, and the model follows the code.
- The `sides == 0` case of the directory naming is not reachable: with no
  sides there are no positions.

## Findings

| source | as written | input that shows it | evidently intended | confidence | as-written member | corrected member |
|---|---|---|---|---|---|---|
| src/parser.go:164 | the Standard track size is read from `data[32:34]`, which is inside the 34-byte signature | any Standard image with the usual signature "MV - CPCEMU Disk-File\r\nDisk-Info\r\n", whose bytes 32-33 are CR LF: the size is 0x0A0D whatever the header holds at 0x32 | the padding field at 0x32-0x33, which the comment beside it names | not executed | Parser.StandardAsWrittenStride | Parser.StandardTrackSize |
| src/parser.go:211-212 | the 13-byte signature is compared with the 12-byte "Track-Info\r\n" by `bytes.Equal`, which is never true | a block whose signature is "Track-Info\r\n" + NUL | a match on the 12 characters (with the NUL after them allowed) | not executed | Parser.SignatureAsWrittenNeverValid | Parser.SignatureBugOnlyWarns |
| src/formatters.go:150-152 | a run token `HH*N` followed by hex-mode output runs into it, because the decoder reads every hex digit after `*` as count | [00,00,00,00,01] encodes to " 00*401 ", which decodes to 1025 zero bytes | decode(encode(x)) == x | not executed | AsciiHex.RunThenHexAsWritten | AsciiHex.RoundTrip |
| src/asciihex-format.go:151-161 | the toggle may be `*` or a hex digit, which the decoder then confuses with a token | the bytes 0x20-0x29, 0x00, 0x41: the toggle is `*` and the decoding differs | a toggle that is never `*` or a hex digit | not executed | AsciiHex.StarToggleAsWritten | AsciiHex.RoundTrip |
| src/formatters.go:91 | the quoted-printable writer is created with `Binary` left false, so it writes a lone LF, a lone CR and a CR LF all as CRLF, which the reader gives back as CR LF | a sector holding the single byte 0x0A: after unpack and pack with `--data-format quoted` it is 0x0D 0x0A | every sector comes back byte for byte, which the writer gives with `Binary` set | not executed | Formatters.QuotedLineFeedAltered | Formatters.PayloadRoundTrip |
| src/unpack.go:102-111 | `unused` and `unused2` are `[]uint8`, which `encoding/json` writes as base-64 strings, while src/pack.go:229-256 reads them only as arrays | a track header with unused bytes 1,2,3 and 4,5: after unpack and pack they are zero | the unused bytes survive the round trip, as the table does at src/unpack.go:51-56 | not executed | RoundTrip.TrackMetaAsWritten | RoundTrip.TrackMetaRoundTrip |
