/** The "asciihex" payload format: printable bytes stay as they are, other
    bytes become two uppercase hex digits, runs of four or more equal
    bytes become `XX*N` (N in hex), and a toggle character, chosen per
    payload and repeated at the end, switches between the text and the hex
    mode. */
module AsciiHex {
  import opened Bytes
  import opened Wrappers
  import opened Variants

  /** The shortest run the encoder writes as `XX*N`. */
  const MinRLE: nat := 4
  const Star: byte := 42
  const Tilde: byte := 126
  /** The largest count strconv.ParseInt(_, 16, 32) accepts. */
  const MaxCount: nat := 0x7FFF_FFFF

  predicate IsPrintable(b: byte)
  {
    32 <= b <= 126
  }

  predicate IsHexDigit(b: byte)
  {
    (48 <= b <= 57) || (65 <= b <= 70) || (97 <= b <= 102)
  }

  function HexDigitValue(b: byte): (v: nat)
    requires IsHexDigit(b)
    ensures v < 16
  {
    if b <= 57 then b - 48 else if b <= 70 then b - 55 else b - 87
  }

  /** The uppercase digit `%X` writes for v. */
  function HexDigitChar(v: nat): (c: byte)
    requires v < 16
    ensures IsHexDigit(c) && HexDigitValue(c) == v
  {
    if v < 10 then 48 + v else 55 + v
  }

  /** `%02X` of a byte. */
  function HexByte(b: byte): (r: seq<byte>)
    ensures |r| == 2 && IsHexDigit(r[0]) && IsHexDigit(r[1])
    ensures 16 * HexDigitValue(r[0]) + HexDigitValue(r[1]) == b
  {
    [HexDigitChar(b / 16), HexDigitChar(b % 16)]
  }

  /** `%X` of a natural number: uppercase, no leading zeros. */
  function HexNat(n: nat): (r: seq<byte>)
    ensures |r| >= 1
    decreases n
  {
    if n < 16 then [HexDigitChar(n)] else HexNat(n / 16) + [HexDigitChar(n % 16)]
  }

  predicate AllHexDigits(s: seq<byte>)
  {
    forall k :: 0 <= k < |s| ==> IsHexDigit(s[k])
  }

  /** The value of a string of hex digits (a non-digit counts as zero). */
  function HexValue(s: seq<byte>): nat
  {
    if s == [] then 0
    else 16 * HexValue(s[..|s| - 1]) + (if IsHexDigit(s[|s| - 1]) then HexDigitValue(s[|s| - 1]) else 0)
  }

  lemma HexValueSnoc(s: seq<byte>, d: byte)
    requires IsHexDigit(d)
    ensures HexValue(s + [d]) == 16 * HexValue(s) + HexDigitValue(d)
  {
    assert (s + [d])[..|s|] == s;
  }

  lemma {:induction false} HexNatDigits(n: nat)
    ensures AllHexDigits(HexNat(n))
    decreases n
  {
    if n >= 16 {
      HexNatDigits(n / 16);
    }
  }

  /** `%X` and base-16 parsing are inverse. */
  lemma {:induction false} HexNatValue(n: nat)
    ensures HexValue(HexNat(n)) == n
    decreases n
  {
    if n >= 16 {
      var s := HexNat(n);
      assert s[..|s| - 1] == HexNat(n / 16);
      HexNatValue(n / 16);
    }
  }

  /** The number of hex digits at the front of s: how far the decoder's
      count scan runs. */
  function HexDigitRun(s: seq<byte>): (r: nat)
    ensures r <= |s|
  {
    if s == [] || !IsHexDigit(s[0]) then 0 else 1 + HexDigitRun(s[1..])
  }

  lemma {:induction false} HexDigitRunOf(d: seq<byte>, rest: seq<byte>)
    requires AllHexDigits(d)
    requires rest == [] || !IsHexDigit(rest[0])
    ensures HexDigitRun(d + rest) == |d|
    decreases |d|
  {
    if d != [] {
      assert (d + rest)[1..] == d[1..] + rest;
      HexDigitRunOf(d[1..], rest);
    } else {
      assert d + rest == rest;
    }
  }

  // ===================== countRepeats =====================

  /** The end of the run of s[0] that reaches index k. */
  function RunFrom(s: seq<byte>, k: nat): (r: nat)
    requires 1 <= k <= |s|
    ensures k <= r <= |s|
    decreases |s| - k
  {
    if k < |s| && s[k] == s[0] then RunFrom(s, k + 1) else k
  }

  /** countRepeats: the length of the run of equal bytes s starts with. */
  function RunLength(s: seq<byte>): (r: nat)
    ensures s == [] ==> r == 0
    ensures s != [] ==> 1 <= r <= |s|
  {
    if s == [] then 0 else RunFrom(s, 1)
  }

  lemma {:induction false} RunFromIsRun(s: seq<byte>, k: nat)
    requires 1 <= k <= |s|
    requires forall j :: 0 <= j < k ==> s[j] == s[0]
    ensures forall j :: 0 <= j < RunFrom(s, k) ==> s[j] == s[0]
    ensures RunFrom(s, k) == |s| || s[RunFrom(s, k)] != s[0]
    decreases |s| - k
  {
    if k < |s| && s[k] == s[0] {
      RunFromIsRun(s, k + 1);
    }
  }

  /** The run is maximal: all of its bytes equal the first and the byte
      after it (if any) differs. */
  lemma RunLengthIsMaximalRun(s: seq<byte>)
    requires s != []
    ensures forall j :: 0 <= j < RunLength(s) ==> s[j] == s[0]
    ensures RunLength(s) == |s| || s[RunLength(s)] != s[0]
  {
    RunFromIsRun(s, 1);
  }

  /** countRepeats as the loop it is. */
  method CountRepeats(s: seq<byte>) returns (count: nat)
    ensures count == RunLength(s)
  {
    if |s| == 0 {
      return 0;
    }
    count := 1;
    var i := 1;
    while i < |s| && s[i] == s[0]
      invariant 1 <= i <= |s| && count == i
      invariant RunFrom(s, i) == RunFrom(s, 1)
    {
      count := count + 1;
      i := i + 1;
    }
  }

  // ===================== chooseToggle =====================

  /** A toggle the decoder can never mistake for part of a hex token. */
  predicate SafeToggle(b: byte)
  {
    IsPrintable(b) && !IsHexDigit(b) && b != Star
  }

  /** The bytes a variant may pick as toggle. */
  predicate Candidate(b: byte, v: Variant)
  {
    IsPrintable(b) && (v == AsWritten || SafeToggle(b))
  }

  /** How often b occurs in s. */
  function Count(s: seq<byte>, b: byte): nat
  {
    if s == [] then 0 else Count(s[..|s| - 1], b) + (if s[|s| - 1] == b then 1 else 0)
  }

  lemma CountPrefixStep(s: seq<byte>, k: nat, b: byte)
    requires k < |s|
    ensures Count(s[..k + 1], b) == Count(s[..k], b) + (if s[k] == b then 1 else 0)
  {
    assert s[..k + 1][..k] == s[..k];
  }

  /** The first candidate from b on that does not occur in data. */
  function FirstUnused(data: seq<byte>, b: nat, v: Variant): Option<byte>
    decreases 127 - b
  {
    if b > 126 then None
    else if Candidate(b, v) && Count(data, b) == 0 then Some(b)
    else FirstUnused(data, b + 1, v)
  }

  /** The scan for the least frequent candidate from b on, the first one
      winning ties; minFreq and minByte are what the scan holds so far. */
  function MinFrequent(data: seq<byte>, b: nat, minFreq: nat, minByte: byte, v: Variant): byte
    decreases 127 - b
  {
    if b > 126 then minByte
    else if Candidate(b, v) && Count(data, b) < minFreq then MinFrequent(data, b + 1, Count(data, b), b, v)
    else MinFrequent(data, b + 1, minFreq, minByte, v)
  }

  /** chooseToggle: the first printable byte data does not use, otherwise
      the least used one. */
  function Toggle(data: seq<byte>, v: Variant): byte
  {
    match FirstUnused(data, 32, v)
    case Some(b) => b
    case None => MinFrequent(data, 32, |data|, Tilde, v)
  }

  function Freq(freq: map<byte, nat>, b: byte): nat
  {
    if b in freq then freq[b] else 0
  }

  /** chooseToggle as written: a frequency map of the printable bytes, a
      scan for an unused one, then a scan for the least used one. */
  method ChooseToggle(data: seq<byte>) returns (t: byte)
    ensures t == Toggle(data, AsWritten)
  {
    var freq: map<byte, nat> := map[];
    var k := 0;
    while k < |data|
      invariant k <= |data|
      invariant forall b: byte :: IsPrintable(b) ==> Freq(freq, b) == Count(data[..k], b)
    {
      var x := data[k];
      forall b: byte
        ensures Count(data[..k + 1], b) == Count(data[..k], b) + (if x == b then 1 else 0)
      {
        CountPrefixStep(data, k, b);
      }
      if 32 <= x <= 126 {
        freq := freq[x := Freq(freq, x) + 1];
      }
      k := k + 1;
    }
    assert data[..|data|] == data;
    var b: nat := 32;
    while b <= 126
      invariant 32 <= b <= 127
      invariant FirstUnused(data, b, AsWritten) == FirstUnused(data, 32, AsWritten)
    {
      if Freq(freq, b) == 0 {
        return b;
      }
      b := b + 1;
    }
    var minFreq: nat := |data|;
    var minByte: byte := Tilde;
    b := 32;
    while b <= 126
      invariant 32 <= b <= 127
      invariant MinFrequent(data, b, minFreq, minByte, AsWritten) == MinFrequent(data, 32, |data|, Tilde, AsWritten)
    {
      if Freq(freq, b) < minFreq {
        minFreq := Freq(freq, b);
        minByte := b;
      }
      b := b + 1;
    }
    return minByte;
  }

  // ===================== encodeASCIIHex =====================

  /** A byte the encoder writes as itself: printable and not the toggle. */
  predicate IsAsciiToken(b: byte, t: byte)
  {
    IsPrintable(b) && b != t
  }

  /** Whether what the encoder writes from position j, while in hex mode,
      starts with a hex digit: a run token or a hex pair. */
  predicate StartsHexToken(data: seq<byte>, j: nat, t: byte)
    requires j <= |data|
  {
    j < |data| && (RunLength(data[j..]) >= MinRLE || !IsAsciiToken(data[j], t))
  }

  /** One pass of the encoder's or the decoder's loop: the bytes written,
      the next position and the new mode. */
  datatype Step = Step(out: seq<byte>, next: nat, nextHex: bool)

  /** What the encoder writes for the bytes from position i in mode
      inHex: the text, the position after them and the new mode. The
      corrected variant follows a run token with a toggle pair when a hex
      digit would come next, so that the count cannot run on. */
  function Token(data: seq<byte>, i: nat, inHex: bool, t: byte, v: Variant): (k: Step)
    requires i < |data|
    ensures i < k.next <= |data|
  {
    var run := RunLength(data[i..]);
    if run >= MinRLE then
      Step(RunText(data[i], HexNat(run), if v == Corrected && StartsHexToken(data, i + run, t) then [t, t] else [], inHex, t),
           i + run, true)
    else if IsAsciiToken(data[i], t) then
      Step(CharText(data[i], inHex, t), i + 1, false)
    else
      Step(PairText(data[i], inHex, t), i + 1, true)
  }

  /** A run token `XX*N`, with the count's digits h, entering hex mode
      first and followed by `term`. */
  function RunText(b: byte, h: seq<byte>, term: seq<byte>, inHex: bool, t: byte): seq<byte>
  {
    (if inHex then [] else [t]) + HexByte(b) + [Star] + h + term
  }

  /** A byte written as itself, leaving hex mode first. */
  function CharText(b: byte, inHex: bool, t: byte): seq<byte>
  {
    (if inHex then [t] else []) + [b]
  }

  /** A byte written as two hex digits, entering hex mode first. */
  function PairText(b: byte, inHex: bool, t: byte): seq<byte>
  {
    (if inHex then [] else [t]) + HexByte(b)
  }

  /** The encoder's output for data[i..] in mode inHex, without the final
      toggle. */
  function EncodeFrom(data: seq<byte>, i: nat, inHex: bool, t: byte, v: Variant): seq<byte>
    requires i <= |data|
    decreases |data| - i
  {
    if i == |data| then []
    else
      var k := Token(data, i, inHex, t, v);
      k.out + EncodeFrom(data, k.next, k.nextHex, t, v)
  }

  lemma EncodeFromStep(data: seq<byte>, i: nat, inHex: bool, t: byte, v: Variant)
    requires i < |data|
    ensures EncodeFrom(data, i, inHex, t, v)
      == Token(data, i, inHex, t, v).out + EncodeFrom(data, Token(data, i, inHex, t, v).next, Token(data, i, inHex, t, v).nextHex, t, v)
  {
  }

  /** encodeASCIIHex: empty for empty data, otherwise the tokens and the
      toggle once more at the end. */
  function Encode(data: seq<byte>, v: Variant): seq<byte>
  {
    if data == [] then []
    else EncodeFrom(data, 0, false, Toggle(data, v), v) + [Toggle(data, v)]
  }

  /** encodeASCIIHex as written. */
  method EncodeASCIIHex(data: seq<byte>) returns (r: seq<byte>)
    ensures r == Encode(data, AsWritten)
  {
    if |data| == 0 {
      return [];
    }
    var toggle := ChooseToggle(data);
    var result: seq<byte> := [];
    var inHex := false;
    var i := 0;
    while i < |data|
      invariant i <= |data|
      invariant result + EncodeFrom(data, i, inHex, toggle, AsWritten) == EncodeFrom(data, 0, false, toggle, AsWritten)
      decreases |data| - i
    {
      var token, next, nextHex := EncodeToken(data, i, inHex, toggle);
      EncodeLoopStep(data, i, inHex, toggle, result, token, next, nextHex);
      result, i, inHex := result + token, next, nextHex;
    }
    return result + [toggle];
  }

  /** The text still to come after one more token. */
  lemma EncodeLoopStep(data: seq<byte>, i: nat, inHex: bool, t: byte, result: seq<byte>, token: seq<byte>, next: nat, nextHex: bool)
    requires i < |data|
    requires Step(token, next, nextHex) == Token(data, i, inHex, t, AsWritten)
    ensures (result + token) + EncodeFrom(data, next, nextHex, t, AsWritten)
      == result + EncodeFrom(data, i, inHex, t, AsWritten)
  {
    EncodeFromStep(data, i, inHex, t, AsWritten);
  }

  /** One pass of encodeASCIIHex's loop: the text written for the bytes
      from i, the next position and the new mode. */
  method EncodeToken(data: seq<byte>, i: nat, inHex: bool, toggle: byte) returns (token: seq<byte>, next: nat, nextHex: bool)
    requires i < |data|
    ensures Step(token, next, nextHex) == Token(data, i, inHex, toggle, AsWritten)
  {
    var runLen := CountRepeats(data[i..]);
    token := [];
    nextHex := inHex;
    if runLen >= MinRLE {
      if !nextHex {
        token := token + [toggle];
        nextHex := true;
      }
      token := token + HexByte(data[i]) + [Star] + HexNat(runLen);
      return token, i + runLen, nextHex;
    }
    var isASCII := 32 <= data[i] <= 126 && data[i] != toggle;
    if isASCII && nextHex {
      token := token + [toggle];
      nextHex := false;
    } else if !isASCII && !nextHex {
      token := token + [toggle];
      nextHex := true;
    }
    if nextHex {
      token := token + HexByte(data[i]);
    } else {
      token := token + [data[i]];
    }
    return token, i + 1, nextHex;
  }

  // ===================== decodeASCIIHex =====================

  datatype DecodeError =
    | EmptyString
    | IncompleteHex(pos: nat)
    | InvalidHex(pos: nat)
    | InvalidCount(pos: nat)

  /** The decoded bytes p put in front of a decoding result. */
  function Prepend(p: seq<byte>, r: Result<seq<byte>, DecodeError>): Result<seq<byte>, DecodeError>
  {
    if r.Success? then Success(p + r.value) else r
  }

  function PairValue(a: byte, b: byte): byte
    requires IsHexDigit(a) && IsHexDigit(b)
  {
    16 * HexDigitValue(a) + HexDigitValue(b)
  }

  /** The decoder on e, which starts at position pos of the encoded text
      (the final toggle already removed), in mode inHex. */
  function DecodeFrom(e: seq<byte>, pos: nat, inHex: bool, t: byte): Result<seq<byte>, DecodeError>
    decreases |e|, 2
  {
    if e == [] then Success([])
    else if e[0] == t then DecodeFrom(e[1..], pos + 1, !inHex, t)
    else if !inHex then Prepend([e[0]], DecodeFrom(e[1..], pos + 1, false, t))
    else DecodeHex(e, pos, t)
  }

  /** The decoder in hex mode at a byte that is not the toggle: a pair of
      hex digits, possibly starting a run token. */
  function DecodeHex(e: seq<byte>, pos: nat, t: byte): Result<seq<byte>, DecodeError>
    requires e != []
    decreases |e|, 1
  {
    if |e| < 2 then Failure(IncompleteHex(pos))
    else if !(IsHexDigit(e[0]) && IsHexDigit(e[1])) then Failure(InvalidHex(pos))
    else if |e| > 2 && e[2] == Star then DecodeRun(e, pos, t)
    else Prepend([PairValue(e[0], e[1])], DecodeFrom(e[2..], pos + 2, true, t))
  }

  /** A run token `XX*N`: the count is every hex digit after the '*'. */
  function DecodeRun(e: seq<byte>, pos: nat, t: byte): Result<seq<byte>, DecodeError>
    requires |e| > 2 && IsHexDigit(e[0]) && IsHexDigit(e[1])
    decreases |e|, 0
  {
    var digits := HexDigitRun(e[3..]);
    var count := HexValue(e[3..3 + digits]);
    if digits == 0 || count > MaxCount then Failure(InvalidCount(pos))
    else Prepend(Fill(count, PairValue(e[0], e[1])), DecodeFrom(e[3 + digits..], pos + 3 + digits, true, t))
  }

  /** decodeASCIIHex: the last character is the toggle, the rest is
      decoded starting in text mode. */
  function Decode(encoded: seq<byte>): Result<seq<byte>, DecodeError>
  {
    if encoded == [] then Failure(EmptyString)
    else DecodeFrom(encoded[..|encoded| - 1], 0, false, encoded[|encoded| - 1])
  }

  lemma DecodeLast(body: seq<byte>, t: byte)
    ensures Decode(body + [t]) == DecodeFrom(body, 0, false, t)
  {
    assert (body + [t])[..|body|] == body;
  }

  /** The decoder's errors in hex mode: a lone character at the end, a
      pair that is not two hex digits, and a run marker with no count
      digits after it. */
  lemma DecodeErrors(a: byte, b: byte, r: seq<byte>, pos: nat, t: byte)
    requires a != t
    ensures DecodeFrom([a], pos, true, t) == Failure(IncompleteHex(pos))
    ensures !(IsHexDigit(a) && IsHexDigit(b)) ==> DecodeFrom([a, b] + r, pos, true, t) == Failure(InvalidHex(pos))
    ensures IsHexDigit(a) && IsHexDigit(b) && (r == [] || !IsHexDigit(r[0])) ==>
      DecodeFrom([a, b, Star] + r, pos, true, t) == Failure(InvalidCount(pos))
  {
    if IsHexDigit(a) && IsHexDigit(b) && (r == [] || !IsHexDigit(r[0])) {
      var e := [a, b, Star] + r;
      assert e[3..] == r && HexDigitRun(r) == 0;
      assert DecodeHex(e, pos, t) == DecodeRun(e, pos, t);
    }
  }

  /** decodeASCIIHex as written. */
  method DecodeASCIIHex(encoded: seq<byte>) returns (r: Result<seq<byte>, DecodeError>)
    ensures r == Decode(encoded)
  {
    if |encoded| == 0 {
      return Failure(EmptyString);
    }
    var toggle := encoded[|encoded| - 1];
    var e := encoded[..|encoded| - 1];
    var result: seq<byte> := [];
    var inHex := false;
    var i := 0;
    assert e[0..] == e;
    PrependEmpty(DecodeFrom(e, 0, false, toggle));
    while i < |e|
      invariant i <= |e|
      invariant Decode(encoded) == Prepend(result, DecodeFrom(e[i..], i, inHex, toggle))
      decreases |e| - i
    {
      DecodeFromAt(e, i, inHex, toggle);
      var step := DecodeToken(e, i, inHex, toggle);
      if step.Failure? {
        return Failure(step.error);
      }
      PrependTwice(result, step.value.out, DecodeFrom(e[step.value.next..], step.value.next, step.value.nextHex, toggle));
      result, i, inHex := result + step.value.out, step.value.next, step.value.nextHex;
    }
    assert e[i..] == [];
    assert result + [] == result;
    return Success(result);
  }

  lemma PrependEmpty(r: Result<seq<byte>, DecodeError>)
    ensures Prepend([], r) == r
  {
    if r.Success? {
      assert [] + r.value == r.value;
    }
  }

  lemma PrependTwice(p: seq<byte>, q: seq<byte>, r: Result<seq<byte>, DecodeError>)
    ensures Prepend(p, Prepend(q, r)) == Prepend(p + q, r)
  {
    if r.Success? {
      assert p + (q + r.value) == (p + q) + r.value;
    }
  }

  /** DecodeFrom on the suffix of e from i, one token unfolded and stated
      with indices into e. */
  function DecodeAt(e: seq<byte>, i: nat, inHex: bool, t: byte): Result<seq<byte>, DecodeError>
    requires i < |e|
  {
    if e[i] == t then DecodeFrom(e[i + 1..], i + 1, !inHex, t)
    else if !inHex then Prepend([e[i]], DecodeFrom(e[i + 1..], i + 1, false, t))
    else if i + 1 >= |e| then Failure(IncompleteHex(i))
    else if !(IsHexDigit(e[i]) && IsHexDigit(e[i + 1])) then Failure(InvalidHex(i))
    else if i + 2 < |e| && e[i + 2] == Star then
      var end := i + 3 + HexDigitRun(e[i + 3..]);
      var count := HexValue(e[i + 3..end]);
      if end == i + 3 || count > MaxCount then Failure(InvalidCount(i))
      else Prepend(Fill(count, PairValue(e[i], e[i + 1])), DecodeFrom(e[end..], end, true, t))
    else Prepend([PairValue(e[i], e[i + 1])], DecodeFrom(e[i + 2..], i + 2, true, t))
  }

  lemma DecodeFromAt(e: seq<byte>, i: nat, inHex: bool, t: byte)
    requires i < |e|
    ensures DecodeFrom(e[i..], i, inHex, t) == DecodeAt(e, i, inHex, t)
  {
    var s := e[i..];
    assert s[1..] == e[i + 1..];
    if |s| >= 2 {
      assert s[2..] == e[i + 2..];
    }
    if inHex && s[0] != t && |s| > 2 && IsHexDigit(s[0]) && IsHexDigit(s[1]) && s[2] == Star {
      assert s[3..] == e[i + 3..];
      var d := HexDigitRun(s[3..]);
      assert s[3..3 + d] == e[i + 3..i + 3 + d];
      assert s[3 + d..] == e[i + 3 + d..];
      assert DecodeFrom(s, i, inHex, t) == DecodeRun(s, i, t);
    }
  }

  /** One pass of decodeASCIIHex's loop at position i of e. */
  method DecodeToken(e: seq<byte>, i: nat, inHex: bool, toggle: byte) returns (r: Result<Step, DecodeError>)
    requires i < |e|
    ensures r.Success? ==> i < r.value.next <= |e|
    ensures r.Success? ==>
      DecodeAt(e, i, inHex, toggle) == Prepend(r.value.out, DecodeFrom(e[r.value.next..], r.value.next, r.value.nextHex, toggle))
    ensures r.Failure? ==> DecodeAt(e, i, inHex, toggle) == Failure(r.error)
  {
    if e[i] == toggle {
      PrependEmpty(DecodeFrom(e[i + 1..], i + 1, !inHex, toggle));
      return Success(Step([], i + 1, !inHex));
    }
    if !inHex {
      return Success(Step([e[i]], i + 1, false));
    }
    if i + 1 >= |e| {
      return Failure(IncompleteHex(i));
    }
    if !(IsHexDigit(e[i]) && IsHexDigit(e[i + 1])) {
      return Failure(InvalidHex(i));
    }
    var val := PairValue(e[i], e[i + 1]);
    if i + 2 < |e| && e[i + 2] == Star {
      var rleEnd := ScanHexDigits(e, i + 3);
      var count := HexValue(e[i + 3..rleEnd]);
      if rleEnd == i + 3 || count > MaxCount {
        return Failure(InvalidCount(i));
      }
      var j := 0;
      var run: seq<byte> := [];
      while j < count
        invariant j <= count && run == Fill(j, val)
      {
        run := run + [val];
        j := j + 1;
      }
      return Success(Step(run, rleEnd, true));
    }
    return Success(Step([val], i + 2, true));
  }

  /** The count scan: the first index from `from` on that is not a hex
      digit. */
  method ScanHexDigits(e: seq<byte>, from: nat) returns (end: nat)
    requires from <= |e|
    ensures end == from + HexDigitRun(e[from..])
  {
    end := from;
    while end < |e| && IsHexDigit(e[end])
      invariant from <= end <= |e|
      invariant HexDigitRun(e[from..]) == (end - from) + HexDigitRun(e[end..])
    {
      assert e[end..][1..] == e[end + 1..];
      end := end + 1;
    }
  }

  // ===================== Properties =====================

  lemma {:induction false} CountBound(s: seq<byte>, b: byte)
    ensures Count(s, b) <= |s|
    decreases |s|
  {
    if s != [] {
      CountBound(s[..|s| - 1], b);
    }
  }

  lemma {:induction false} FirstUnusedFinds(data: seq<byte>, b: nat, v: Variant, c: byte)
    requires 32 <= b <= c && Candidate(c, v) && Count(data, c) == 0
    ensures FirstUnused(data, b, v).Some?
    ensures var u := FirstUnused(data, b, v).value;
      b <= u <= c && Candidate(u, v) && Count(data, u) == 0
      && forall x: byte :: b <= x < u && Candidate(x, v) ==> Count(data, x) > 0
    decreases 127 - b
  {
    if !(Candidate(b as byte, v) && Count(data, b as byte) == 0) {
      FirstUnusedFinds(data, b + 1, v, c);
    }
  }

  lemma {:induction false} FirstUnusedNone(data: seq<byte>, b: nat, v: Variant, c: byte)
    requires 32 <= b <= c && Candidate(c, v)
    requires FirstUnused(data, b, v).None?
    ensures Count(data, c) > 0
    decreases 127 - b
  {
    if b < c {
      FirstUnusedNone(data, b + 1, v, c);
    }
  }

  lemma {:induction false} MinFrequentIsLeast(data: seq<byte>, b: nat, minFreq: nat, minByte: byte, v: Variant, c: byte)
    requires 32 <= b && Count(data, minByte) <= minFreq && Candidate(minByte, v)
    requires Candidate(c, v) && b <= c
    ensures Candidate(MinFrequent(data, b, minFreq, minByte, v), v)
    ensures Count(data, MinFrequent(data, b, minFreq, minByte, v)) <= Count(data, c)
    decreases 127 - b
  {
    if b <= 126 {
      if Candidate(b as byte, v) && Count(data, b as byte) < minFreq {
        if b < c {
          MinFrequentIsLeast(data, b + 1, Count(data, b as byte), b as byte, v, c);
        } else {
          MinFrequentIsCandidateAndBelow(data, b + 1, Count(data, b as byte), b as byte, v);
        }
      } else {
        if b < c {
          MinFrequentIsLeast(data, b + 1, minFreq, minByte, v, c);
        } else {
          MinFrequentIsCandidateAndBelow(data, b + 1, minFreq, minByte, v);
        }
      }
    }
  }

  lemma {:induction false} MinFrequentIsCandidateAndBelow(data: seq<byte>, b: nat, minFreq: nat, minByte: byte, v: Variant)
    requires Count(data, minByte) <= minFreq && Candidate(minByte, v)
    ensures Candidate(MinFrequent(data, b, minFreq, minByte, v), v)
    ensures Count(data, MinFrequent(data, b, minFreq, minByte, v)) <= minFreq
    decreases 127 - b
  {
    if b <= 126 {
      if Candidate(b as byte, v) && Count(data, b as byte) < minFreq {
        MinFrequentIsCandidateAndBelow(data, b + 1, Count(data, b as byte), b as byte, v);
      } else {
        MinFrequentIsCandidateAndBelow(data, b + 1, minFreq, minByte, v);
      }
    }
  }

  /** When some candidate byte does not occur in data, the toggle is the
      first such byte. */
  lemma ToggleIsFirstUnused(data: seq<byte>, v: Variant, c: byte)
    requires Candidate(c, v) && Count(data, c) == 0
    ensures Candidate(Toggle(data, v), v) && Count(data, Toggle(data, v)) == 0 && Toggle(data, v) <= c
    ensures forall x: byte :: 32 <= x < Toggle(data, v) && Candidate(x, v) ==> Count(data, x) > 0
  {
    FirstUnusedFinds(data, 32, v, c);
  }

  /** When every candidate occurs, the toggle is a candidate that occurs
      least often, and every smaller candidate occurs more often: ties go
      to the smallest byte. */
  lemma ToggleIsLeastUsed(data: seq<byte>, v: Variant, c: byte)
    requires forall x: byte :: Candidate(x, v) ==> Count(data, x) > 0
    requires Candidate(c, v)
    ensures Candidate(Toggle(data, v), v)
    ensures Count(data, Toggle(data, v)) <= Count(data, c)
    ensures forall x: byte :: 32 <= x < Toggle(data, v) && Candidate(x, v) ==>
      Count(data, x) > Count(data, Toggle(data, v))
  {
    if FirstUnused(data, 32, v).Some? {
      FirstUnusedSome(data, 32, v);
      assert false;
    }
    CountBound(data, Tilde);
    MinFrequentIsLeast(data, 32, |data|, Tilde, v, c);
    MinFrequentFirst(data, 32, |data|, Tilde, v);
    var r := MinFrequent(data, 32, |data|, Tilde, v);
    if !(Count(data, r) < |data| && 32 <= r) {
      assert Candidate('G' as byte, v) && Candidate(Tilde, v);
      CountPair(data, 'G' as byte, Tilde);
      assert false;
    }
  }

  /** Two different bytes together occur at most |s| times. */
  lemma {:induction false} CountPair(s: seq<byte>, a: byte, b: byte)
    requires a != b
    ensures Count(s, a) + Count(s, b) <= |s|
  {
    if s != [] {
      CountPair(s[..|s| - 1], a, b);
    }
  }

  /** The least-frequency scan either keeps what it held, every candidate
      from b on occurring at least minFreq times, or ends on a candidate
      less frequent than minFreq that every candidate between b and it
      exceeds. */
  lemma {:induction false} MinFrequentFirst(data: seq<byte>, b: nat, minFreq: nat, minByte: byte, v: Variant)
    requires 32 <= b
    ensures var r := MinFrequent(data, b, minFreq, minByte, v);
      (r == minByte && forall y: byte :: b <= y <= 126 && Candidate(y, v) ==> Count(data, y) >= minFreq)
      || (Count(data, r) < minFreq && b <= r && Candidate(r, v)
          && forall y: byte :: b <= y < r && Candidate(y, v) ==> Count(data, y) > Count(data, r))
    decreases 127 - b
  {
    if b <= 126 {
      if Candidate(b as byte, v) && Count(data, b as byte) < minFreq {
        MinFrequentFirst(data, b + 1, Count(data, b as byte), b as byte, v);
      } else {
        MinFrequentFirst(data, b + 1, minFreq, minByte, v);
      }
    }
  }

  lemma {:induction false} FirstUnusedSome(data: seq<byte>, b: nat, v: Variant)
    requires FirstUnused(data, b, v).Some?
    ensures Candidate(FirstUnused(data, b, v).value, v)
    ensures Count(data, FirstUnused(data, b, v).value) == 0
    decreases 127 - b
  {
    if !(b <= 126 && Candidate(b as byte, v) && Count(data, b as byte) == 0) {
      FirstUnusedSome(data, b + 1, v);
    }
  }

  /** The toggle is always printable; the corrected variant's toggle is
      never a hex digit or '*'. */
  lemma ToggleIsCandidate(data: seq<byte>, v: Variant)
    ensures Candidate(Toggle(data, v), v)
  {
    if FirstUnused(data, 32, v).Some? {
      FirstUnusedSome(data, 32, v);
    } else {
      CountBound(data, Tilde);
      MinFrequentIsCandidateAndBelow(data, 32, |data|, Tilde, v);
    }
  }

  predicate AllPrintable(s: seq<byte>)
  {
    forall k :: 0 <= k < |s| ==> IsPrintable(s[k])
  }

  lemma {:induction false} EncodeFromPrintable(data: seq<byte>, i: nat, inHex: bool, t: byte, v: Variant)
    requires i <= |data| && IsPrintable(t)
    ensures AllPrintable(EncodeFrom(data, i, inHex, t, v))
    decreases |data| - i
  {
    if i < |data| {
      var k := Token(data, i, inHex, t, v);
      TokenPrintable(data, i, inHex, t, v);
      EncodeFromPrintable(data, k.next, k.nextHex, t, v);
      PrintableJoin(k.out, EncodeFrom(data, k.next, k.nextHex, t, v));
    }
  }

  /** Every token is printable text. */
  lemma TokenPrintable(data: seq<byte>, i: nat, inHex: bool, t: byte, v: Variant)
    requires i < |data| && IsPrintable(t)
    ensures AllPrintable(Token(data, i, inHex, t, v).out)
  {
    HexNatDigits(RunLength(data[i..]));
  }

  lemma PrintableJoin(a: seq<byte>, b: seq<byte>)
    requires AllPrintable(a) && AllPrintable(b)
    ensures AllPrintable(a + b)
  {
    assert forall k :: |a| <= k < |a + b| ==> (a + b)[k] == b[k - |a|];
  }

  /** The encoding is printable text that ends with its toggle. */
  lemma EncodePrintable(data: seq<byte>, v: Variant)
    ensures AllPrintable(Encode(data, v))
    ensures data != [] ==> |Encode(data, v)| >= 2 && Encode(data, v)[|Encode(data, v)| - 1] == Toggle(data, v)
  {
    if data != [] {
      ToggleIsCandidate(data, v);
      EncodeFromPrintable(data, 0, false, Toggle(data, v), v);
    }
  }

  /** Bytes i .. j-1 are literals under toggle t: printable, not the toggle
      and not the start of a run of four. */
  predicate PlainRange(data: seq<byte>, i: nat, j: nat, t: byte)
    requires i <= j <= |data|
  {
    forall k :: i <= k < j ==> IsAsciiToken(data[k], t) && RunLength(data[k..]) < MinRLE
  }

  /** Printable, non-toggle bytes without runs of four, in text mode, are
      written as themselves. */
  lemma {:induction false} PlainTextFrom(data: seq<byte>, i: nat, j: nat, t: byte, v: Variant)
    requires i <= j <= |data| && PlainRange(data, i, j, t)
    ensures EncodeFrom(data, i, false, t, v) == data[i..j] + EncodeFrom(data, j, false, t, v)
    decreases j - i
  {
    if i < j {
      assert IsAsciiToken(data[i], t) && RunLength(data[i..]) < MinRLE;
      assert PlainRange(data, i + 1, j, t);
      PlainTextStep(data, i, t, v);
      PlainTextFrom(data, i + 1, j, t, v);
      var tail := EncodeFrom(data, j, false, t, v);
      calc {
        EncodeFrom(data, i, false, t, v);
        [data[i]] + EncodeFrom(data, i + 1, false, t, v);
        [data[i]] + (data[i + 1..j] + tail);
        { SliceCons(data, i, j, tail); }
        data[i..j] + tail;
      }
    } else {
      assert data[i..j] == [];
    }
  }

  lemma SliceCons(s: seq<byte>, i: nat, j: nat, tail: seq<byte>)
    requires i < j <= |s|
    ensures [s[i]] + (s[i + 1..j] + tail) == s[i..j] + tail
  {
    assert s[i..j] == [s[i]] + s[i + 1..j];
  }

  /** One literal byte in text mode. */
  lemma PlainTextStep(data: seq<byte>, i: nat, t: byte, v: Variant)
    requires i < |data| && IsAsciiToken(data[i], t) && RunLength(data[i..]) < MinRLE
    ensures EncodeFrom(data, i, false, t, v) == [data[i]] + EncodeFrom(data, i + 1, false, t, v)
  {
    assert Token(data, i, false, t, v) == Step([data[i]], i + 1, false);
  }

  lemma PlainTextVerbatim(data: seq<byte>, v: Variant)
    requires data != []
    requires forall k :: 0 <= k < |data| ==> IsPrintable(data[k]) && RunLength(data[k..]) < MinRLE
    requires Count(data, Toggle(data, v)) == 0
    ensures Encode(data, v) == data + [Toggle(data, v)]
  {
    PlainTextUnder(data, Toggle(data, v), v);
  }

  /** The same with any toggle that data does not use. */
  lemma PlainTextUnder(data: seq<byte>, t: byte, v: Variant)
    requires forall k :: 0 <= k < |data| ==> IsPrintable(data[k]) && RunLength(data[k..]) < MinRLE
    requires Count(data, t) == 0
    ensures EncodeFrom(data, 0, false, t, v) == data
  {
    forall k | 0 <= k < |data|
      ensures IsAsciiToken(data[k], t) && RunLength(data[k..]) < MinRLE
    {
      if data[k] == t {
        CountPositive(data, k, t);
      }
    }
    assert PlainRange(data, 0, |data|, t);
    PlainTextFrom(data, 0, |data|, t, v);
    assert data[0..|data|] == data;
    assert EncodeFrom(data, |data|, false, t, v) == [];
  }

  lemma {:induction false} CountPositive(s: seq<byte>, k: nat, b: byte)
    requires k < |s| && s[k] == b
    ensures Count(s, b) > 0
    decreases |s|
  {
    if k < |s| - 1 {
      CountPositive(s[..|s| - 1], k, b);
    }
  }

  // ----- Decoding what the corrected encoder writes -----

  lemma DecodeToggle(r: seq<byte>, pos: nat, inHex: bool, t: byte)
    ensures DecodeFrom([t] + r, pos, inHex, t) == DecodeFrom(r, pos + 1, !inHex, t)
  {
    assert ([t] + r)[1..] == r;
  }

  lemma DecodeRaw(b: byte, r: seq<byte>, pos: nat, t: byte)
    requires b != t
    ensures DecodeFrom([b] + r, pos, false, t) == Prepend([b], DecodeFrom(r, pos + 1, false, t))
  {
    assert ([b] + r)[1..] == r;
  }

  lemma DecodeHexPair(b: byte, r: seq<byte>, pos: nat, t: byte)
    requires SafeToggle(t)
    requires r == [] || r[0] != Star
    ensures DecodeFrom(HexByte(b) + r, pos, true, t) == Prepend([b], DecodeFrom(r, pos + 2, true, t))
  {
    var e := HexByte(b) + r;
    assert e[2..] == r;
  }

  lemma DecodeRunToken(b: byte, h: seq<byte>, r: seq<byte>, pos: nat, t: byte)
    requires !IsHexDigit(t)
    requires |h| >= 1 && AllHexDigits(h) && HexValue(h) <= MaxCount
    requires r == [] || !IsHexDigit(r[0])
    ensures DecodeFrom(HexByte(b) + [Star] + h + r, pos, true, t)
      == Prepend(Fill(HexValue(h), b), DecodeFrom(r, pos + 3 + |h|, true, t))
  {
    var e := HexByte(b) + [Star] + h + r;
    assert DecodeFrom(e, pos, true, t) == DecodeRun(e, pos, t);
    assert e[3..] == h + r;
    HexDigitRunOf(h, r);
    assert e[3..3 + |h|] == h;
    assert e[3 + |h|..] == r;
  }

  /** With a safe toggle the corrected encoder's text, read in hex mode,
      starts with a hex digit exactly when a run or a hex pair comes next,
      and with the toggle otherwise. */
  lemma EncodeFromStart(data: seq<byte>, j: nat, t: byte)
    requires j < |data| && SafeToggle(t)
    ensures var e := EncodeFrom(data, j, true, t, Corrected);
      |e| > 0 && (if StartsHexToken(data, j, t) then IsHexDigit(e[0]) else e[0] == t)
  {
  }

  /** A run token followed by a toggle pair decodes to the run and leaves
      the decoder in hex mode. */
  lemma RunBodyDecodesTerminated(b: byte, h: seq<byte>, rest: seq<byte>, pos: nat, t: byte)
    requires SafeToggle(t)
    requires |h| >= 1 && AllHexDigits(h) && HexValue(h) <= MaxCount
    ensures DecodeFrom(HexByte(b) + [Star] + h + ([t, t] + rest), pos, true, t)
      == Prepend(Fill(HexValue(h), b), DecodeFrom(rest, pos + 5 + |h|, true, t))
  {
    DecodeRunToken(b, h, [t, t] + rest, pos, t);
    assert [t, t] + rest == [t] + ([t] + rest);
    DecodeToggle([t] + rest, pos + 3 + |h|, true, t);
    DecodeToggle(rest, pos + 4 + |h|, false, t);
  }

  /** A run token in hex mode, followed by nothing, the toggle, or a
      toggle pair. */
  lemma RunBodyDecodes(b: byte, h: seq<byte>, term: seq<byte>, rest: seq<byte>, pos: nat, t: byte)
    requires SafeToggle(t)
    requires |h| >= 1 && AllHexDigits(h) && HexValue(h) <= MaxCount
    requires term == [t, t] || (term == [] && (rest == [] || rest[0] == t))
    ensures DecodeFrom(HexByte(b) + [Star] + h + (term + rest), pos, true, t)
      == Prepend(Fill(HexValue(h), b), DecodeFrom(rest, pos + 3 + |h| + |term|, true, t))
  {
    if term == [] {
      assert term + rest == rest;
      DecodeRunToken(b, h, rest, pos, t);
    } else {
      RunBodyDecodesTerminated(b, h, rest, pos, t);
    }
  }

  lemma RunTextDecodes(b: byte, h: seq<byte>, term: seq<byte>, rest: seq<byte>, inHex: bool, pos: nat, t: byte)
    requires SafeToggle(t)
    requires |h| >= 1 && AllHexDigits(h) && HexValue(h) <= MaxCount
    requires term == [t, t] || (term == [] && (rest == [] || rest[0] == t))
    ensures DecodeFrom(RunText(b, h, term, inHex, t) + rest, pos, inHex, t)
      == Prepend(Fill(HexValue(h), b), DecodeFrom(rest, pos + |RunText(b, h, term, inHex, t)|, true, t))
  {
    var body := HexByte(b) + [Star] + h + (term + rest);
    if inHex {
      assert RunText(b, h, term, inHex, t) + rest == body;
      RunBodyDecodes(b, h, term, rest, pos, t);
    } else {
      assert RunText(b, h, term, inHex, t) + rest == [t] + body;
      DecodeToggle(body, pos, false, t);
      RunBodyDecodes(b, h, term, rest, pos + 1, t);
    }
  }

  lemma CharTextDecodes(b: byte, rest: seq<byte>, inHex: bool, pos: nat, t: byte)
    requires b != t
    ensures DecodeFrom(CharText(b, inHex, t) + rest, pos, inHex, t)
      == Prepend([b], DecodeFrom(rest, pos + |CharText(b, inHex, t)|, false, t))
  {
    if inHex {
      assert CharText(b, inHex, t) + rest == [t] + ([b] + rest);
      DecodeToggle([b] + rest, pos, true, t);
      DecodeRaw(b, rest, pos + 1, t);
    } else {
      assert CharText(b, inHex, t) + rest == [b] + rest;
      DecodeRaw(b, rest, pos, t);
    }
  }

  lemma PairTextDecodes(b: byte, rest: seq<byte>, inHex: bool, pos: nat, t: byte)
    requires SafeToggle(t)
    requires rest == [] || rest[0] == t || IsHexDigit(rest[0])
    ensures DecodeFrom(PairText(b, inHex, t) + rest, pos, inHex, t)
      == Prepend([b], DecodeFrom(rest, pos + |PairText(b, inHex, t)|, true, t))
  {
    if inHex {
      assert PairText(b, inHex, t) + rest == HexByte(b) + rest;
      DecodeHexPair(b, rest, pos, t);
    } else {
      assert PairText(b, inHex, t) + rest == [t] + (HexByte(b) + rest);
      DecodeToggle(HexByte(b) + rest, pos, false, t);
      DecodeHexPair(b, rest, pos + 1, t);
    }
  }

  lemma RunTokenRoundTrip(data: seq<byte>, i: nat, inHex: bool, t: byte, pos: nat, rest: seq<byte>)
    requires i < |data| <= MaxCount && SafeToggle(t)
    requires RunLength(data[i..]) >= MinRLE
    requires StartsHexToken(data, i + RunLength(data[i..]), t) || rest == [] || rest[0] == t
    ensures var k := Token(data, i, inHex, t, Corrected);
      DecodeFrom(k.out + rest, pos, inHex, t) == Prepend(data[i..k.next], DecodeFrom(rest, pos + |k.out|, true, t))
  {
    var run := RunLength(data[i..]);
    var term: seq<byte> := if StartsHexToken(data, i + run, t) then [t, t] else [];
    RunCountDecodes(data[i], run, term, rest, inHex, pos, t);
    RunIsFill(data, i);
  }

  /** A run token with the count written in hex decodes to the run. */
  lemma RunCountDecodes(b: byte, run: nat, term: seq<byte>, rest: seq<byte>, inHex: bool, pos: nat, t: byte)
    requires SafeToggle(t) && run <= MaxCount
    requires term == [t, t] || (term == [] && (rest == [] || rest[0] == t))
    ensures DecodeFrom(RunText(b, HexNat(run), term, inHex, t) + rest, pos, inHex, t)
      == Prepend(Fill(run, b), DecodeFrom(rest, pos + |RunText(b, HexNat(run), term, inHex, t)|, true, t))
  {
    HexNatDigits(run);
    HexNatValue(run);
    RunTextDecodes(b, HexNat(run), term, rest, inHex, pos, t);
  }

  /** The bytes of a run are its first byte repeated. */
  lemma RunIsFill(data: seq<byte>, i: nat)
    requires i < |data|
    ensures i + RunLength(data[i..]) <= |data|
    ensures data[i..i + RunLength(data[i..])] == Fill(RunLength(data[i..]), data[i])
  {
    RunLengthIsMaximalRun(data[i..]);
  }

  lemma AsciiTokenRoundTrip(data: seq<byte>, i: nat, inHex: bool, t: byte, pos: nat)
    requires i < |data| && SafeToggle(t)
    requires RunLength(data[i..]) < MinRLE && IsAsciiToken(data[i], t)
    ensures var k := Token(data, i, inHex, t, Corrected);
      var rest := EncodeFrom(data, k.next, k.nextHex, t, Corrected);
      DecodeFrom(k.out + rest, pos, inHex, t) == Prepend(data[i..k.next], DecodeFrom(rest, pos + |k.out|, false, t))
  {
    CharTextDecodes(data[i], EncodeFrom(data, i + 1, false, t, Corrected), inHex, pos, t);
    assert data[i..i + 1] == [data[i]];
  }

  lemma HexTokenRoundTrip(data: seq<byte>, i: nat, inHex: bool, t: byte, pos: nat)
    requires i < |data| && SafeToggle(t)
    requires RunLength(data[i..]) < MinRLE && !IsAsciiToken(data[i], t)
    ensures var k := Token(data, i, inHex, t, Corrected);
      var rest := EncodeFrom(data, k.next, k.nextHex, t, Corrected);
      DecodeFrom(k.out + rest, pos, inHex, t) == Prepend(data[i..k.next], DecodeFrom(rest, pos + |k.out|, true, t))
  {
    if i + 1 < |data| {
      EncodeFromStart(data, i + 1, t);
    }
    PairTextDecodes(data[i], EncodeFrom(data, i + 1, true, t, Corrected), inHex, pos, t);
    assert data[i..i + 1] == [data[i]];
  }

  /** Decoding the corrected encoder's text consumes one token at a time. */
  lemma TokenRoundTrip(data: seq<byte>, i: nat, inHex: bool, t: byte, pos: nat)
    requires i < |data| <= MaxCount && SafeToggle(t)
    ensures var k := Token(data, i, inHex, t, Corrected);
      DecodeFrom(EncodeFrom(data, i, inHex, t, Corrected), pos, inHex, t)
      == Prepend(data[i..k.next], DecodeFrom(EncodeFrom(data, k.next, k.nextHex, t, Corrected), pos + |k.out|, k.nextHex, t))
  {
    var k := Token(data, i, inHex, t, Corrected);
    var rest := EncodeFrom(data, k.next, k.nextHex, t, Corrected);
    assert EncodeFrom(data, i, inHex, t, Corrected) == k.out + rest by {
      EncodeFromStep(data, i, inHex, t, Corrected);
    }
    if RunLength(data[i..]) >= MinRLE {
      var next := i + RunLength(data[i..]);
      assert k.next == next && k.nextHex;
      if next < |data| {
        EncodeFromStart(data, next, t);
      }
      RunTokenRoundTrip(data, i, inHex, t, pos, rest);
    } else if IsAsciiToken(data[i], t) {
      AsciiTokenRoundTrip(data, i, inHex, t, pos);
      assert !k.nextHex;
    } else {
      HexTokenRoundTrip(data, i, inHex, t, pos);
      assert k.nextHex;
    }
  }

  lemma PrependSlices(data: seq<byte>, i: nat, j: nat)
    requires i <= j <= |data|
    ensures Prepend(data[i..j], Success(data[j..])) == Success(data[i..])
  {
    assert data[i..j] + data[j..] == data[i..];
  }

  lemma {:induction false} RoundTripFrom(data: seq<byte>, i: nat, inHex: bool, t: byte, pos: nat)
    requires i <= |data| <= MaxCount && SafeToggle(t)
    ensures DecodeFrom(EncodeFrom(data, i, inHex, t, Corrected), pos, inHex, t) == Success(data[i..])
    decreases |data| - i
  {
    if i < |data| {
      var k := Token(data, i, inHex, t, Corrected);
      TokenRoundTrip(data, i, inHex, t, pos);
      RoundTripFrom(data, k.next, k.nextHex, t, pos + |k.out|);
      PrependSlices(data, i, k.next);
    } else {
      assert data[i..] == [];
    }
  }

  /** The corrected codec round-trips every non-empty payload whose length
      fits the decoder's 32-bit run counts. */
  lemma RoundTrip(data: seq<byte>)
    requires 0 < |data| <= MaxCount
    ensures Decode(Encode(data, Corrected)) == Success(data)
  {
    var t := Toggle(data, Corrected);
    var body := EncodeFrom(data, 0, false, t, Corrected);
    ToggleIsCandidate(data, Corrected);
    assert (body + [t])[..|body|] == body;
    RoundTripFrom(data, 0, false, t, 0);
  }

  // ----- the codec as written -----

  /** No run token is directly followed by hex-mode output under toggle t:
      nothing the decoder could read as more digits of the run's count. */
  predicate NoRunBeforeHex(data: seq<byte>, t: byte)
  {
    forall i :: 0 <= i < |data| && RunLength(data[i..]) >= MinRLE ==>
      !StartsHexToken(data, i + RunLength(data[i..]), t)
  }

  /** The payloads the codec as written is meant to carry: its toggle is
      neither a hex digit nor '*', and no run runs into hex output. */
  predicate AsWrittenSafe(data: seq<byte>)
  {
    SafeToggle(Toggle(data, AsWritten)) && NoRunBeforeHex(data, Toggle(data, AsWritten))
  }

  /** The program's own codec, encodeASCIIHex then decodeASCIIHex,
      round-trips every payload on which neither defect can show. */
  lemma RoundTripAsWritten(data: seq<byte>)
    requires 0 < |data| <= MaxCount && AsWrittenSafe(data)
    ensures Decode(Encode(data, AsWritten)) == Success(data)
  {
    EncodeAgree(data);
    RoundTrip(data);
  }

  /** On such payloads the two encoders write the same text. */
  lemma EncodeAgree(data: seq<byte>)
    requires AsWrittenSafe(data)
    ensures Encode(data, AsWritten) == Encode(data, Corrected)
  {
    if data != [] {
      ToggleAgree(data);
      EncodeFromAgree(data, 0, false, Toggle(data, AsWritten));
    }
  }

  /** A toggle the code as written picks that is safe is also the one the
      corrected choice picks. */
  lemma ToggleAgree(data: seq<byte>)
    requires SafeToggle(Toggle(data, AsWritten))
    ensures Toggle(data, Corrected) == Toggle(data, AsWritten)
  {
    FirstUnusedAgree(data, 32);
    if FirstUnused(data, 32, AsWritten).None? {
      MinFrequentAgree(data, 32, |data|, Tilde, |data|, Tilde);
    }
  }

  lemma {:induction false} FirstUnusedAgree(data: seq<byte>, b: nat)
    requires FirstUnused(data, b, AsWritten).None? || SafeToggle(FirstUnused(data, b, AsWritten).value)
    ensures FirstUnused(data, b, Corrected) == FirstUnused(data, b, AsWritten)
    decreases 127 - b
  {
    if b <= 126 && !(Candidate(b as byte, AsWritten) && Count(data, b as byte) == 0) {
      FirstUnusedAgree(data, b + 1);
    }
  }

  /** The two least-frequency scans side by side: the one as written holds
      (f1, m1), the corrected one (f2, m2). The first is never behind, and
      while it holds a safe byte both hold the same. */
  lemma {:induction false} MinFrequentAgree(data: seq<byte>, b: nat, f1: nat, m1: byte, f2: nat, m2: byte)
    requires f1 <= f2 && (SafeToggle(m1) ==> m1 == m2 && f1 == f2)
    requires SafeToggle(MinFrequent(data, b, f1, m1, AsWritten))
    ensures MinFrequent(data, b, f2, m2, Corrected) == MinFrequent(data, b, f1, m1, AsWritten)
    decreases 127 - b
  {
    if b <= 126 {
      var x := b as byte;
      var c := Count(data, x);
      var take1 := Candidate(x, AsWritten) && c < f1;
      var take2 := Candidate(x, Corrected) && c < f2;
      MinFrequentAgree(data, b + 1, if take1 then c else f1, if take1 then x else m1,
                       if take2 then c else f2, if take2 then x else m2);
    }
  }

  lemma TokenAgree(data: seq<byte>, i: nat, inHex: bool, t: byte)
    requires i < |data| && NoRunBeforeHex(data, t)
    ensures Token(data, i, inHex, t, AsWritten) == Token(data, i, inHex, t, Corrected)
  {
    assert RunLength(data[i..]) >= MinRLE ==> !StartsHexToken(data, i + RunLength(data[i..]), t);
  }

  lemma {:induction false} EncodeFromAgree(data: seq<byte>, i: nat, inHex: bool, t: byte)
    requires i <= |data| && NoRunBeforeHex(data, t)
    ensures EncodeFrom(data, i, inHex, t, AsWritten) == EncodeFrom(data, i, inHex, t, Corrected)
    decreases |data| - i
  {
    if i < |data| {
      TokenAgree(data, i, inHex, t);
      var k := Token(data, i, inHex, t, Corrected);
      EncodeFromAgree(data, k.next, k.nextHex, t);
    }
  }

  /** An empty payload is written as an empty file, which decodes to an
      error. */
  lemma EmptyPayloadDoesNotRoundTrip(v: Variant)
    ensures Decode(Encode([], v)) == Failure(EmptyString)
  {
  }

  // ----- The as-written codec -----

  lemma {:induction false} CountAbsent(s: seq<byte>, b: byte)
    requires forall k :: 0 <= k < |s| ==> s[k] != b
    ensures Count(s, b) == 0
    decreases |s|
  {
    if s != [] {
      CountAbsent(s[..|s| - 1], b);
    }
  }

  /** Bytes other than the toggle, in text mode, decode as themselves. */
  lemma {:induction false} DecodeRawText(p: seq<byte>, r: seq<byte>, pos: nat, t: byte)
    requires forall k :: 0 <= k < |p| ==> p[k] != t
    ensures DecodeFrom(p + r, pos, false, t) == Prepend(p, DecodeFrom(r, pos + |p|, false, t))
    decreases |p|
  {
    if p == [] {
      assert p + r == r;
      PrependEmpty(DecodeFrom(r, pos, false, t));
    } else {
      assert p + r == [p[0]] + (p[1..] + r);
      DecodeRaw(p[0], p[1..] + r, pos, t);
      DecodeRawText(p[1..], r, pos + 1, t);
      PrependTwice([p[0]], p[1..], DecodeFrom(r, pos + |p|, false, t));
      assert [p[0]] + p[1..] == p;
    }
  }

  const RunSample: seq<byte> := [0, 0, 0, 0, 1]
  const RunSampleText: seq<byte> := [32, 48, 48, 42, 52, 48, 49, 32]

  lemma RunSampleEncodes()
    ensures Encode(RunSample, AsWritten) == RunSampleText
  {
    var data := RunSample;
    CountAbsent(data, 32);
    assert Toggle(data, AsWritten) == 32;
    assert RunLength(data[0..]) == 4 by {
      assert data[0..] == data;
    }
    assert Token(data, 0, false, 32, AsWritten) == Step([32, 48, 48, 42, 52], 4, true);
    assert RunLength(data[4..]) == 1 by {
      assert data[4..] == [1];
    }
    assert Token(data, 4, true, 32, AsWritten) == Step([48, 49], 5, true);
    EncodeFromStep(data, 0, false, 32, AsWritten);
    EncodeFromStep(data, 4, true, 32, AsWritten);
  }

  lemma RunSampleDecodes()
    ensures Decode(RunSampleText) == Success(Zeros(1025))
  {
    var h: seq<byte> := [52, 48, 49];
    HexValueSnoc([], 52);
    HexValueSnoc([52], 48);
    HexValueSnoc([52, 48], 49);
    assert [] + [52] == [52] && [52] + [48] == [52, 48] && [52, 48] + [49] == h;
    var body := HexByte(0) + [Star] + h + [];
    DecodeRunToken(0, h, [], 1, 32);
    DecodeToggle(body, 0, false, 32);
    DecodeLast([32] + body, 32);
    assert ([32] + body) + [32] == RunSampleText;
    assert Fill(1025, 0) + [] == Zeros(1025);
  }

  /** As written, a hex byte right after a run token is read as more digits
      of the run's count: four zero bytes and a one decode to 1025 zeros. */
  lemma RunThenHexAsWritten()
    ensures Encode(RunSample, AsWritten) == RunSampleText
    ensures Decode(Encode(RunSample, AsWritten)) == Success(Zeros(1025))
  {
    RunSampleEncodes();
    RunSampleDecodes();
  }

  /** The sample for the toggle defect: the bytes ' ' to ')', a zero and
      an 'A'. */
  const StarSample: seq<byte> := [32, 33, 34, 35, 36, 37, 38, 39, 40, 41, 0, 65]
  const StarSampleText: seq<byte> := [32, 33, 34, 35, 36, 37, 38, 39, 40, 41, 42, 48, 48, 42, 65, 42]

  lemma StarSampleToggle()
    ensures Toggle(StarSample, AsWritten) == Star
  {
    forall x: byte | 32 <= x < 42
      ensures Count(StarSample, x) > 0
    {
      CountPositive(StarSample, x - 32, x);
    }
    CountAbsent(StarSample, Star);
    FirstUnusedFinds(StarSample, 32, AsWritten, Star);
  }

  lemma StarSampleTextPart()
    ensures EncodeFrom(StarSample, 0, false, Star, AsWritten) == StarSample[..10] + EncodeFrom(StarSample, 10, false, Star, AsWritten)
  {
    forall k | 0 <= k < 10
      ensures IsAsciiToken(StarSample[k], Star) && RunLength(StarSample[k..]) < MinRLE
    {
      assert StarSample[k..][1] != StarSample[k..][0];
    }
    PlainTextFrom(StarSample, 0, 10, Star, AsWritten);
  }

  lemma StarSampleHexPart()
    ensures EncodeFrom(StarSample, 10, false, Star, AsWritten) == [42, 48, 48, 42, 65]
  {
    var data := StarSample;
    assert RunLength(data[10..]) == 1 by {
      assert data[10..] == [0, 65];
    }
    assert Token(data, 10, false, Star, AsWritten) == Step([42, 48, 48], 11, true);
    assert RunLength(data[11..]) == 1 by {
      assert data[11..] == [65];
    }
    assert Token(data, 11, true, Star, AsWritten) == Step([42, 65], 12, false);
    EncodeFromStep(data, 10, false, Star, AsWritten);
    EncodeFromStep(data, 11, true, Star, AsWritten);
  }

  lemma StarSampleEncodes()
    ensures Encode(StarSample, AsWritten) == StarSampleText
  {
    StarSampleToggle();
    StarSampleTextPart();
    StarSampleHexPart();
    StarSampleJoin();
  }

  lemma StarSampleJoin()
    ensures StarSample[..10] + [42, 48, 48, 42, 65] + [Star] == StarSampleText
  {
    assert StarSample[..10] == [32, 33, 34, 35, 36, 37, 38, 39, 40, 41];
  }

  lemma StarSampleDecodes()
    ensures Decode(StarSampleText) == Success(StarSample[..10] + Zeros(10))
  {
    var p := StarSample[..10];
    var tail: seq<byte> := [42, 48, 48, 42, 65];
    assert StarSampleText[..15] == p + tail;
    DecodeRawText(p, tail, 0, Star);
    StarSampleTailDecodes();
  }

  /** The hex pair before the last toggle reads as a run of ten zeros. */
  lemma StarSampleTailDecodes()
    ensures DecodeFrom([42, 48, 48, 42, 65], 10, false, Star) == Success(Zeros(10))
  {
    var tail: seq<byte> := [42, 48, 48, 42, 65];
    assert tail == [Star] + tail[1..];
    DecodeToggle(tail[1..], 10, false, Star);
    StarSampleRunDecodes(tail[1..]);
  }

  lemma StarSampleRunDecodes(run: seq<byte>)
    requires run == [48, 48, 42, 65]
    ensures DecodeFrom(run, 11, true, Star) == Success(Zeros(10))
  {
    assert run == HexByte(0) + [Star] + [65] + [] by {
      assert HexByte(0) == [48, 48];
    }
    assert HexValue([65]) == 10 by {
      HexValueSnoc([], 65);
      assert [] + [65] == [65];
    }
    DecodeRunToken(0, [65], [], 11, Star);
    assert Fill(10, 0) + [] == Zeros(10);
  }

  /** As written, the toggle can be '*' (or a hex digit): with every byte
      from ' ' to ')' present it is '*', and the hex pair before the switch
      back to text then reads as a run token. */
  lemma StarToggleAsWritten()
    ensures Toggle(StarSample, AsWritten) == Star
    ensures Encode(StarSample, AsWritten) == StarSampleText
    ensures Decode(Encode(StarSample, AsWritten)) == Success(StarSample[..10] + Zeros(10))
  {
    StarSampleToggle();
    StarSampleEncodes();
    StarSampleDecodes();
  }
}
