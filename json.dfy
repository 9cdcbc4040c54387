/** The metadata files as the program sees them after encoding/json has
    unmarshalled them into a map[string]interface{}: field names mapped to
    JSON values, numbers read back as float64. */
module Json {
  import opened Bytes
  import opened Wrappers

  /** A JSON value. Numbers are integral here; strings are their UTF-8
      bytes. */
  datatype JValue =
    | JNull
    | JBool(b: bool)
    | JNumber(n: int)
    | JString(s: seq<byte>)
    | JArray(items: seq<JValue>)

  /** A metadata object. */
  type Record = map<string, JValue>

  /** A JSON object from its fields in order; a later field of the same
      name replaces an earlier one. */
  function Object(fields: seq<(string, JValue)>): Record
  {
    if fields == [] then map[] else Object(fields[..|fields| - 1])[fields[|fields| - 1].0 := fields[|fields| - 1].1]
  }

  /** The field named k of an object holds the value of the last field of
      that name. */
  lemma {:induction false} ObjectField(fields: seq<(string, JValue)>, j: nat)
    requires j < |fields|
    requires forall i :: j < i < |fields| ==> fields[i].0 != fields[j].0
    ensures fields[j].0 in Object(fields) && Object(fields)[fields[j].0] == fields[j].1
  {
    if j < |fields| - 1 {
      ObjectField(fields[..|fields| - 1], j);
    }
  }

  lemma {:induction false} ObjectLacks(fields: seq<(string, JValue)>, k: string)
    requires forall i :: 0 <= i < |fields| ==> fields[i].0 != k
    ensures k !in Object(fields)
  {
    if fields != [] {
      ObjectLacks(fields[..|fields| - 1], k);
    }
  }

  /** encoding/json's MarshalIndent and Unmarshal, which are not part of
      this model. */
  datatype JsonCodec = JsonCodec(render: Record -> seq<byte>, parse: seq<byte> -> Option<Record>)

  /** What encoding/json promises for the records written here: reading a
      written record gives it back. */
  ghost predicate JsonRoundTrips(json: JsonCodec)
  {
    forall r :: json.parse(json.render(r)) == Some(r)
  }

  /** uint8(f) for an integral float64 f as the gc compiler builds it for
      amd64: the value goes through a signed 32-bit integer and keeps its
      low 8 bits; a value outside int32 gives the integer-indefinite
      0x80000000, whose low bits are 0. The language itself leaves
      out-of-range conversions to the implementation. */
  function ToUint8(x: int): (r: byte)
    ensures 0 <= x < 0x100 ==> r == x
  {
    if -0x8000_0000 <= x < 0x8000_0000 then x % 0x100 else 0
  }

  /** uint16(f), likewise through int32. */
  function ToUint16(x: int): (r: uint16)
    ensures 0 <= x < 0x1_0000 ==> r == x
  {
    if -0x8000_0000 <= x < 0x8000_0000 then x % 0x1_0000 else 0
  }

  /** `v, _ := m[k].(float64)`: the number stored under k, or 0 when the
      field is missing or not a number. */
  function NumberOr0(m: Record, k: string): int
  {
    if k in m && m[k].JNumber? then m[k].n else 0
  }

  /** `v, _ := x.(float64)` on an array element. */
  function ItemOr0(x: JValue): int
  {
    if x.JNumber? then x.n else 0
  }

  /** A []int as JSON: an array of numbers. */
  function Numbers(s: seq<byte>): (r: seq<JValue>)
    ensures |r| == |s| && forall k :: 0 <= k < |s| ==> r[k] == JNumber(s[k])
  {
    seq(|s|, k requires 0 <= k < |s| => JNumber(s[k]))
  }

  /** The standard base-64 alphabet of section 4 of RFC 4648. */
  function Base64Digit(v: nat): byte
    requires v < 64
  {
    if v < 26 then 65 + v
    else if v < 52 then 97 + (v - 26)
    else if v < 62 then 48 + (v - 52)
    else if v == 62 then 43
    else 47
  }

  /** Base-64 with padding (section 4 of RFC 4648): how encoding/json
      writes a []uint8. */
  function Base64(b: seq<byte>): (r: seq<byte>)
    ensures |r| == 4 * ((|b| + 2) / 3)
    decreases |b|
  {
    if |b| == 0 then []
    else if |b| == 1 then
      [Base64Digit(b[0] / 4), Base64Digit((b[0] % 4) * 16), 61, 61]
    else if |b| == 2 then
      [Base64Digit(b[0] / 4), Base64Digit((b[0] % 4) * 16 + b[1] / 16), Base64Digit((b[1] % 16) * 4), 61]
    else
      [Base64Digit(b[0] / 4), Base64Digit((b[0] % 4) * 16 + b[1] / 16),
       Base64Digit((b[1] % 16) * 4 + b[2] / 64), Base64Digit(b[2] % 64)] + Base64(b[3..])
  }

  /** A Go []uint8 as encoding/json writes it: a string, not an array. */
  function ByteSlice(b: seq<byte>): JValue
  {
    JString(Base64(b))
  }
}

/** The part of the file system the two commands see: the files at the root
    of an unpacked image and the files inside each of its directories. */
module Files {
  import opened Bytes

  datatype Tree = Tree(files: map<string, seq<byte>>, dirs: map<string, map<string, seq<byte>>>)

  const EmptyTree := Tree(map[], map[])
}
