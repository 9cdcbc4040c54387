/** The sector payload formats: the closed registry of format names, the
    reader and writer each name selects, and the rule that a sector's
    payload is the one file among sector-R.bin, .hex, .quoted and
    .asciihex that exists. */
module Formatters {
  import opened Bytes
  import opened Wrappers
  import AsciiHex
  import Variants

  datatype PayloadFormat = Binary | Hex | Quoted | AsciiHexText

  /** The name a format is selected by. */
  function FormatName(f: PayloadFormat): string
  {
    match f
    case Binary => "binary"
    case Hex => "hex"
    case Quoted => "quoted"
    case AsciiHexText => "asciihex"
  }

  /** The extension of a payload file in that format. */
  function Extension(f: PayloadFormat): string
  {
    match f
    case Binary => "bin"
    case Hex => "hex"
    case Quoted => "quoted"
    case AsciiHexText => "asciihex"
  }

  /** GetFormatReader and GetFormatWriter: both switch on the same four
      names and fail on any other. */
  function FormatByName(name: string): (r: Result<PayloadFormat, string>)
    ensures r.Success? <==> name == "binary" || name == "hex" || name == "quoted" || name == "asciihex"
    ensures r.Success? ==> FormatName(r.value) == name
    ensures r.Failure? ==> r.error == "unknown format: " + name
  {
    if name == "binary" then Success(Binary)
    else if name == "hex" then Success(Hex)
    else if name == "quoted" then Success(Quoted)
    else if name == "asciihex" then Success(AsciiHexText)
    else Failure("unknown format: " + name)
  }

  lemma FormatNameSelects(f: PayloadFormat)
    ensures FormatByName(FormatName(f)) == Success(f)
  {
  }

  /** The library codecs behind the "hex" format (encoding/hex) and the
      "quoted" format (mime/quotedprintable); they are not part of this
      model and come in as parameters. A decoder answers None on malformed
      input. `quotedEncode` is the writer NewWriter gives, in text mode;
      `quotedEncodeBinary` is the same writer with its Binary flag set. */
  datatype LibraryCodecs = LibraryCodecs(
    hexEncode: seq<byte> -> seq<byte>,
    hexDecode: seq<byte> -> Option<seq<byte>>,
    quotedEncode: seq<byte> -> seq<byte>,
    quotedEncodeBinary: seq<byte> -> seq<byte>,
    quotedDecode: seq<byte> -> Option<seq<byte>>)

  /** What encoding/hex promises: DecodeString inverts EncodeToString. */
  ghost predicate HexRoundTrips(lib: LibraryCodecs)
  {
    forall d :: lib.hexDecode(lib.hexEncode(d)) == Some(d)
  }

  /** A payload with neither a line feed nor a carriage return. */
  predicate NoLineBreak(data: seq<byte>)
  {
    forall k :: 0 <= k < |data| ==> data[k] != 0x0A && data[k] != 0x0D
  }

  /** What mime/quotedprintable promises: the reader inverts the writer in
      binary mode on every payload, and in text mode only on payloads with
      no line break, since text mode writes every line break as CRLF. */
  ghost predicate QuotedRoundTrips(lib: LibraryCodecs)
  {
    (forall d :: lib.quotedDecode(lib.quotedEncodeBinary(d)) == Some(d))
    && (forall d :: NoLineBreak(d) ==> lib.quotedDecode(lib.quotedEncode(d)) == Some(d))
  }

  /** The text-mode line-break rule on a lone LF: the writer gives it the
      same CRLF as the pair CR LF, and the reader gives that back as CR LF. */
  ghost predicate QuotedTextLineBreaks(lib: LibraryCodecs)
  {
    lib.quotedEncode([0x0A]) == lib.quotedEncode([0x0D, 0x0A])
    && lib.quotedDecode(lib.quotedEncode([0x0D, 0x0A])) == Some([0x0D, 0x0A])
  }

  /** The file contents each writer produces for a payload. */
  function WritePayload(f: PayloadFormat, lib: LibraryCodecs, v: Variants.Variant, data: seq<byte>): seq<byte>
  {
    match f
    case Binary => data
    case Hex => lib.hexEncode(data)
    case Quoted => if v == Variants.AsWritten then lib.quotedEncode(data) else lib.quotedEncodeBinary(data)
    case AsciiHexText => AsciiHex.Encode(data, v)
  }

  /** The payload each reader recovers from a file's contents. */
  function ReadPayload(f: PayloadFormat, lib: LibraryCodecs, file: seq<byte>): Result<seq<byte>, string>
  {
    match f
    case Binary => Success(file)
    case Hex =>
      (match lib.hexDecode(file)
       case Some(d) => Success(d)
       case None => Failure("failed to decode hex data"))
    case Quoted =>
      (match lib.quotedDecode(file)
       case Some(d) => Success(d)
       case None => Failure("failed to decode quoted-printable data"))
    case AsciiHexText =>
      (match AsciiHex.Decode(file)
       case Success(d) => Success(d)
       case Failure(_) => Failure("failed to decode asciihex data"))
  }

  /** Every writer is undone by the reader of the same name, given the
      library codec's promise. The binary and hex writers do not depend on
      the variant. The quoted writer as written keeps only payloads with no
      line break. The asciihex codec needs a non-empty payload whose run
      counts fit, and, as written, one on which neither of its defects
      shows. */
  lemma PayloadRoundTrip(f: PayloadFormat, lib: LibraryCodecs, v: Variants.Variant, data: seq<byte>)
    requires f == Hex ==> HexRoundTrips(lib)
    requires f == Quoted ==> QuotedRoundTrips(lib) && (v == Variants.AsWritten ==> NoLineBreak(data))
    requires f == AsciiHexText ==>
      0 < |data| <= AsciiHex.MaxCount && (v == Variants.AsWritten ==> AsciiHex.AsWrittenSafe(data))
    ensures ReadPayload(f, lib, WritePayload(f, lib, v, data)) == Success(data)
  {
    if f == AsciiHexText {
      if v == Variants.AsWritten {
        AsciiHex.RoundTripAsWritten(data);
      } else {
        AsciiHex.RoundTrip(data);
      }
    }
  }

  /** Finding (formatters.go:91): the quoted writer is left in text
      mode, so a sector holding a lone LF comes back as CR LF; in binary
      mode it comes back as it was. */
  lemma QuotedLineFeedAltered(lib: LibraryCodecs)
    requires QuotedTextLineBreaks(lib) && QuotedRoundTrips(lib)
    ensures ReadPayload(Quoted, lib, WritePayload(Quoted, lib, Variants.AsWritten, [0x0A])) == Success([0x0D, 0x0A])
    ensures ReadPayload(Quoted, lib, WritePayload(Quoted, lib, Variants.Corrected, [0x0A])) == Success([0x0A])
  {
  }

  /** The name of sector R's payload file in a format: sector-%d.<ext>. */
  function SectorFileName(r: byte, f: PayloadFormat): string
  {
    "sector-" + Decimal(r) + "." + Extension(f)
  }

  /** The name of sector R's metadata file: sector-%d.meta. */
  function SectorMetaName(r: byte): string
  {
    "sector-" + Decimal(r) + ".meta"
  }

  datatype DetectError =
    | NoSectorFile(sector: byte)
    | SeveralSectorFiles(sector: byte, formats: seq<string>)

  /** The formats, in the order DetectFormatFromFile tries them. */
  const DetectOrder: seq<PayloadFormat> := [Binary, Hex, Quoted, AsciiHexText]

  /** The formats among fs whose payload file for sector r exists. */
  function Present(fs: seq<PayloadFormat>, existing: set<string>, r: byte): (p: seq<PayloadFormat>)
    ensures |p| <= |fs|
  {
    if fs == [] then []
    else (if SectorFileName(r, fs[0]) in existing then [fs[0]] else []) + Present(fs[1..], existing, r)
  }

  function Names(fs: seq<PayloadFormat>): (r: seq<string>)
    ensures |r| == |fs|
  {
    if fs == [] then [] else Names(fs[..|fs| - 1]) + [FormatName(fs[|fs| - 1])]
  }

  /** DetectFormatFromFile: the format and file name when exactly one of
      the four payload files exists; otherwise an error. */
  function DetectFormat(existing: set<string>, r: byte): Result<(PayloadFormat, string), DetectError>
  {
    var p := Present(DetectOrder, existing, r);
    if |p| == 0 then Failure(NoSectorFile(r))
    else if |p| > 1 then Failure(SeveralSectorFiles(r, Names(p)))
    else Success((p[0], SectorFileName(r, p[0])))
  }

  /** DetectFormatFromFile as written: four existence tests in order, each
      recording its format and the first one also the path. */
  method DetectFormatFromFile(existing: set<string>, r: byte) returns (res: Result<(PayloadFormat, string), DetectError>)
    ensures res == DetectFormat(existing, r)
  {
    var existingFiles: seq<string> := [];
    var found: seq<PayloadFormat> := [];
    var sectorDataPath := "";
    var dataFormat := Binary;
    existingFiles, found, sectorDataPath, dataFormat := Probe(existing, r, Binary, existingFiles, found, sectorDataPath, dataFormat);
    existingFiles, found, sectorDataPath, dataFormat := Probe(existing, r, Hex, existingFiles, found, sectorDataPath, dataFormat);
    existingFiles, found, sectorDataPath, dataFormat := Probe(existing, r, Quoted, existingFiles, found, sectorDataPath, dataFormat);
    existingFiles, found, sectorDataPath, dataFormat := Probe(existing, r, AsciiHexText, existingFiles, found, sectorDataPath, dataFormat);
    assert found == Present(DetectOrder, existing, r) by {
      PresentInOrder(existing, r);
    }
    if |existingFiles| == 0 {
      return Failure(NoSectorFile(r));
    }
    if |existingFiles| > 1 {
      return Failure(SeveralSectorFiles(r, existingFiles));
    }
    return Success((dataFormat, sectorDataPath));
  }

  /** What the tests so far have recorded: the names of the formats found,
      and the format and path of the first of them. */
  predicate Recorded(existingFiles: seq<string>, found: seq<PayloadFormat>, path: string, format: PayloadFormat, r: byte)
  {
    (path == "") == (found == [])
    && (found != [] ==> format == found[0] && path == SectorFileName(r, found[0]))
    && existingFiles == Names(found)
  }

  /** One existence test of DetectFormatFromFile. */
  method Probe(existing: set<string>, r: byte, f: PayloadFormat, existingFiles: seq<string>, found: seq<PayloadFormat>,
               path: string, format: PayloadFormat)
    returns (existingFiles': seq<string>, found': seq<PayloadFormat>, path': string, format': PayloadFormat)
    requires Recorded(existingFiles, found, path, format, r)
    ensures Recorded(existingFiles', found', path', format', r)
    ensures found' == found + (if SectorFileName(r, f) in existing then [f] else [])
  {
    existingFiles', found', path', format' := existingFiles, found, path, format;
    if SectorFileName(r, f) in existing {
      assert (found + [f])[..|found|] == found;
      existingFiles', found' := existingFiles + [FormatName(f)], found + [f];
      if path == "" {
        path', format' := SectorFileName(r, f), f;
      }
    }
  }

  lemma PresentInOrder(existing: set<string>, r: byte)
    ensures Present(DetectOrder, existing, r)
      == (if SectorFileName(r, Binary) in existing then [Binary] else [])
       + (if SectorFileName(r, Hex) in existing then [Hex] else [])
       + (if SectorFileName(r, Quoted) in existing then [Quoted] else [])
       + (if SectorFileName(r, AsciiHexText) in existing then [AsciiHexText] else [])
  {
    var s3 := [AsciiHexText];
    var s2 := [Quoted] + s3;
    var s1 := [Hex] + s2;
    assert DetectOrder == [Binary] + s1;
    PresentCons(AsciiHexText, [], existing, r);
    PresentCons(Quoted, s3, existing, r);
    PresentCons(Hex, s2, existing, r);
    PresentCons(Binary, s1, existing, r);
    Regroup(if SectorFileName(r, Binary) in existing then [Binary] else [],
            if SectorFileName(r, Hex) in existing then [Hex] else [],
            if SectorFileName(r, Quoted) in existing then [Quoted] else [],
            if SectorFileName(r, AsciiHexText) in existing then [AsciiHexText] else []);
  }

  lemma Regroup(a: seq<PayloadFormat>, b: seq<PayloadFormat>, c: seq<PayloadFormat>, d: seq<PayloadFormat>)
    ensures a + (b + (c + (d + []))) == a + b + c + d
  {
    assert d + [] == d;
  }

  lemma PresentCons(f: PayloadFormat, rest: seq<PayloadFormat>, existing: set<string>, r: byte)
    ensures Present([f] + rest, existing, r)
      == (if SectorFileName(r, f) in existing then [f] else []) + Present(rest, existing, r)
  {
    assert ([f] + rest)[1..] == rest;
  }

  /** The four payload names of a sector are distinct. */
  lemma SectorFileNamesDistinct(r: byte, f: PayloadFormat, g: PayloadFormat)
    requires f != g
    ensures SectorFileName(r, f) != SectorFileName(r, g)
  {
    var p := "sector-" + Decimal(r) + ".";
    assert SectorFileName(r, f) == p + Extension(f);
    assert SectorFileName(r, g) == p + Extension(g);
    assert SectorFileName(r, f)[|p|..] == Extension(f);
    assert SectorFileName(r, g)[|p|..] == Extension(g);
  }

  /** Detection succeeds exactly when one payload file exists, and then
      names that file and its format. */
  lemma DetectFindsSoleFile(existing: set<string>, r: byte, f: PayloadFormat)
    requires SectorFileName(r, f) in existing
    requires forall g: PayloadFormat :: g != f ==> SectorFileName(r, g) !in existing
    ensures DetectFormat(existing, r) == Success((f, SectorFileName(r, f)))
  {
    PresentInOrder(existing, r);
  }

  lemma DetectNeedsSoleFile(existing: set<string>, r: byte)
    requires DetectFormat(existing, r).Success?
    ensures var (f, name) := DetectFormat(existing, r).value;
      name == SectorFileName(r, f) && name in existing
      && forall g: PayloadFormat :: g != f ==> SectorFileName(r, g) !in existing
  {
    PresentInOrder(existing, r);
  }

  lemma DetectFailsWithoutFile(existing: set<string>, r: byte)
    requires forall g: PayloadFormat :: SectorFileName(r, g) !in existing
    ensures DetectFormat(existing, r) == Failure(NoSectorFile(r))
  {
    PresentInOrder(existing, r);
  }

  lemma DetectFailsWithTwoFiles(existing: set<string>, r: byte, f: PayloadFormat, g: PayloadFormat)
    requires f != g && SectorFileName(r, f) in existing && SectorFileName(r, g) in existing
    ensures DetectFormat(existing, r).Failure? && DetectFormat(existing, r).error.SeveralSectorFiles?
  {
    PresentInOrder(existing, r);
  }

  /** Sector file names are keyed by R: different sectors, or a metadata
      file and a payload file, never share a name. */
  lemma SectorNamesDistinct(r: byte, q: byte, f: PayloadFormat)
    ensures SectorMetaName(r) != SectorFileName(q, f)
    ensures r != q ==> SectorMetaName(r) != SectorMetaName(q)
    ensures r != q ==> SectorFileName(r, f) != SectorFileName(q, f)
  {
    var p := "sector-";
    var ext := "." + Extension(f);
    assert SectorMetaName(r) == p + (Decimal(r) + ".meta");
    assert SectorMetaName(q) == p + (Decimal(q) + ".meta");
    assert SectorFileName(q, f) == p + (Decimal(q) + ext);
    assert SectorFileName(r, f) == p + (Decimal(r) + ext);
    assert SectorMetaName(r)[|p|..] == Decimal(r) + ".meta";
    assert SectorMetaName(q)[|p|..] == Decimal(q) + ".meta";
    assert SectorFileName(q, f)[|p|..] == Decimal(q) + ext;
    assert SectorFileName(r, f)[|p|..] == Decimal(r) + ext;
    if SectorMetaName(r) == SectorFileName(q, f) {
      assert Decimal(r) + ".meta" == Decimal(q) + ext;
      DigitsSplit(Decimal(r), ".meta", Decimal(q), ext);
      assert false;
    }
    if r != q && SectorMetaName(r) == SectorMetaName(q) {
      assert Decimal(r) + ".meta" == Decimal(q) + ".meta";
      DigitsSplit(Decimal(r), ".meta", Decimal(q), ".meta");
      DecimalInjective(r, q);
      assert false;
    }
    if r != q && SectorFileName(r, f) == SectorFileName(q, f) {
      assert Decimal(r) + ext == Decimal(q) + ext;
      DigitsSplit(Decimal(r), ext, Decimal(q), ext);
      DecimalInjective(r, q);
      assert false;
    }
  }

  /** Payload files of different formats never share a name, whatever
      their sector numbers. */
  lemma PayloadNamesDisjoint(r: byte, q: byte, f: PayloadFormat, g: PayloadFormat)
    requires f != g
    ensures SectorFileName(r, f) != SectorFileName(q, g)
  {
    var x := "." + Extension(f);
    var y := "." + Extension(g);
    assert x != y by {
      assert x[1..] == Extension(f) && y[1..] == Extension(g);
    }
    assert SectorFileName(r, f) == "sector-" + (Decimal(r) + x);
    assert SectorFileName(q, g) == "sector-" + (Decimal(q) + y);
    NumberedNamesDiffer("sector-", Decimal(r), x, Decimal(q), y);
  }

  /** Two names made of a prefix, a digit run and a tail that starts with a
      non-digit are equal only when their tails are. */
  lemma NumberedNamesDiffer(p: string, a: string, x: string, b: string, y: string)
    requires forall k :: 0 <= k < |a| ==> IsDigit(a[k])
    requires forall k :: 0 <= k < |b| ==> IsDigit(b[k])
    requires x != [] && !IsDigit(x[0]) && y != [] && !IsDigit(y[0])
    requires x != y
    ensures p + (a + x) != p + (b + y)
  {
    if p + (a + x) == p + (b + y) {
      SameTail(p, a + x, b + y);
      DigitsSplit(a, x, b, y);
      assert false;
    }
  }

  lemma SameTail(p: string, a: string, b: string)
    requires p + a == p + b
    ensures a == b
  {
    assert a == (p + a)[|p|..];
    assert b == (p + b)[|p|..];
  }
}
