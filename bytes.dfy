/** Bytes, little-endian words, decimal and hexadecimal text, and the
    zero-filled reads that the disk-image code is built from. */
module Bytes {

  type byte = x: int | 0 <= x < 0x100
  type uint16 = x: int | 0 <= x < 0x1_0000

  /** The byte values of an ASCII string literal. */
  function Ascii(s: string): (r: seq<byte>)
    ensures |r| == |s|
    ensures forall k :: 0 <= k < |s| ==> r[k] == (s[k] as int) % 0x100
  {
    seq(|s|, k requires 0 <= k < |s| => (s[k] as int) % 0x100)
  }

  function Zeros(n: nat): (r: seq<byte>)
    ensures |r| == n && forall k :: 0 <= k < n ==> r[k] == 0
  {
    seq(n, _ => 0)
  }

  function Fill(n: nat, b: byte): (r: seq<byte>)
    ensures |r| == n && forall k :: 0 <= k < n ==> r[k] == b
  {
    seq(n, _ => b)
  }

  /** The value of two bytes read as a little-endian 16-bit word. */
  function LE16(lo: byte, hi: byte): uint16
  {
    lo + 0x100 * hi
  }

  function EncodeLE16(v: uint16): (r: seq<byte>)
    ensures |r| == 2 && LE16(r[0], r[1]) == v
  {
    [v % 0x100, v / 0x100]
  }

  lemma LE16Inverse(lo: byte, hi: byte)
    ensures EncodeLE16(LE16(lo, hi)) == [lo, hi]
  {
  }

  /** Copying `s` into a zeroed buffer of `n` bytes, as Go's copy into a
      fixed-size array does: longer input is cut, shorter input is padded. */
  function FitTo(s: seq<byte>, n: nat): (r: seq<byte>)
    ensures |r| == n
    ensures forall k :: 0 <= k < n ==> r[k] == (if k < |s| then s[k] else 0)
  {
    if |s| >= n then s[..n] else s + Zeros(n - |s|)
  }

  /** What a read of `len` bytes at offset `off` of `s` leaves in a zeroed
      buffer: the bytes that exist, then zeros where `s` runs out. */
  function ReadPadded(s: seq<byte>, off: nat, len: nat): (r: seq<byte>)
    ensures |r| == len
  {
    if off >= |s| then Zeros(len)
    else if off + len <= |s| then s[off..off + len]
    else s[off..] + Zeros(off + len - |s|)
  }

  function Min(a: int, b: int): int
  {
    if a <= b then a else b
  }

  /** What one bytes.Reader Read leaves in a zeroed buffer of `len` bytes
      when the reader stands at `pos`: the bytes left, up to `len`, then
      the untouched zeros. */
  function ReaderRead(s: seq<byte>, pos: nat, len: nat): seq<byte>
    requires pos <= |s|
  {
    s[pos..pos + Min(len, |s| - pos)] + Zeros(len - Min(len, |s| - pos))
  }

  /** A reader whose position is min(off, |s|) reads what ReadPadded says. */
  lemma ReaderReadIsPadded(s: seq<byte>, off: nat, len: nat)
    ensures ReaderRead(s, Min(off, |s|), len) == ReadPadded(s, off, len)
  {
    var pos := Min(off, |s|);
    var n := Min(len, |s| - pos);
    var r := ReaderRead(s, pos, len);
    forall k | 0 <= k < len
      ensures r[k] == ReadPadded(s, off, len)[k]
    {
      ReadPaddedIndex(s, off, len, k);
      if k < n {
        assert r[k] == s[pos + k];
      } else {
        assert r[k] == 0;
      }
    }
  }

  lemma MulSucc(k: nat, m: nat)
    ensures (k + 1) * m == k * m + m
  {
  }

  /** Go's conversion of an integer into a signed 64-bit int: wrap-around
      modulo 2^64 into [-2^63, 2^63). */
  function ToInt64(x: int): (r: int)
    ensures -0x8000_0000_0000_0000 <= r < 0x8000_0000_0000_0000
    ensures 0 <= x < 0x8000_0000_0000_0000 ==> r == x
  {
    var m := x % 0x1_0000_0000_0000_0000;
    if m >= 0x8000_0000_0000_0000 then m - 0x1_0000_0000_0000_0000 else m
  }

  lemma {:induction false} Pow2Add(a: nat, b: nat)
    ensures Pow2(a + b) == Pow2(a) * Pow2(b)
    decreases b
  {
    if b > 0 {
      Pow2Add(a, b - 1);
      assert Pow2(a + b) == 2 * Pow2(a + b - 1);
    }
  }

  lemma Pow2Of16()
    ensures Pow2(16) == 0x1_0000
  {
    assert Pow2(4) == 16;
    Pow2Add(4, 4);
    Pow2Add(8, 8);
  }

  lemma Pow2Constants()
    ensures Pow2(7) == 128
    ensures Pow2(63) == 0x8000_0000_0000_0000
    ensures Pow2(64) == 0x1_0000_0000_0000_0000
  {
    Pow2Of16();
    Pow2Add(16, 16);
    Pow2Add(32, 32);
    assert Pow2(64) == 2 * Pow2(63);
  }

  lemma {:induction false} Pow2Monotone(a: nat, b: nat)
    requires a <= b
    ensures Pow2(a) <= Pow2(b)
    decreases b
  {
    if a < b {
      Pow2Monotone(a, b - 1);
    }
  }

  lemma ReadPaddedIndex(s: seq<byte>, off: nat, len: nat, k: nat)
    requires k < len
    ensures ReadPadded(s, off, len)[k] == if off + k < |s| then s[off + k] else 0
  {
  }

  lemma ReadPaddedInside(s: seq<byte>, off: nat, len: nat)
    requires off + len <= |s|
    ensures ReadPadded(s, off, len) == s[off..off + len]
  {
  }

  function Pow2(n: nat): (r: nat)
    ensures r >= 1
  {
    if n == 0 then 1 else 2 * Pow2(n - 1)
  }

  /** The sum of a sequence of bytes. */
  function Sum(s: seq<byte>): nat
  {
    if s == [] then 0 else Sum(s[..|s| - 1]) + s[|s| - 1]
  }

  lemma SumPrefixStep(s: seq<byte>, i: nat)
    requires i < |s|
    ensures Sum(s[..i + 1]) == Sum(s[..i]) + s[i]
  {
    assert s[..i + 1][..i] == s[..i];
  }

  /** The number of nonzero entries of a sequence of bytes. */
  function NonZeroCount(s: seq<byte>): nat
  {
    if s == [] then 0 else NonZeroCount(s[..|s| - 1]) + (if s[|s| - 1] != 0 then 1 else 0)
  }

  lemma NonZeroCountPrefixStep(s: seq<byte>, i: nat)
    requires i < |s|
    ensures NonZeroCount(s[..i + 1]) == NonZeroCount(s[..i]) + (if s[i] != 0 then 1 else 0)
  {
    assert s[..i + 1][..i] == s[..i];
  }

  predicate IsDigit(c: char)
  {
    '0' <= c <= '9'
  }

  function DigitChar(d: nat): (c: char)
    requires d < 10
    ensures IsDigit(c) && (c as int) - ('0' as int) == d
  {
    (('0' as int) + d) as char
  }

  /** Go's `%d` of a non-negative integer: decimal, no leading zeros. */
  function Decimal(n: nat): (r: string)
    ensures |r| >= 1 && forall k :: 0 <= k < |r| ==> IsDigit(r[k])
    decreases n
  {
    if n < 10 then [DigitChar(n)] else Decimal(n / 10) + [DigitChar(n % 10)]
  }

  /** Go's `%02d`: decimal, left-padded with zeros to two digits. */
  function Decimal2(n: nat): (r: string)
    ensures |r| >= 2 && forall k :: 0 <= k < |r| ==> IsDigit(r[k])
  {
    if n < 10 then "0" + Decimal(n) else Decimal(n)
  }

  /** The value of a string of decimal digits. */
  function DecimalValue(s: string): nat
    requires forall k :: 0 <= k < |s| ==> IsDigit(s[k])
  {
    if s == [] then 0
    else 10 * DecimalValue(s[..|s| - 1]) + DigitValue(s[|s| - 1])
  }

  function DigitValue(c: char): (d: nat)
    requires IsDigit(c)
    ensures d < 10
  {
    (c as int) - ('0' as int)
  }

  lemma {:induction false} DecimalValueOf(n: nat)
    ensures DecimalValue(Decimal(n)) == n
    decreases n
  {
    if n >= 10 {
      var s := Decimal(n);
      assert s[..|s| - 1] == Decimal(n / 10);
      DecimalValueOf(n / 10);
    }
  }

  lemma DecimalInjective(m: nat, n: nat)
    requires Decimal(m) == Decimal(n)
    ensures m == n
  {
    DecimalValueOf(m);
    DecimalValueOf(n);
  }

  predicate HasPrefix<T(==)>(s: seq<T>, p: seq<T>)
  {
    |p| <= |s| && s[..|p|] == p
  }

  predicate HasSuffix<T(==)>(s: seq<T>, p: seq<T>)
  {
    |p| <= |s| && s[|s| - |p|..] == p
  }

  lemma {:induction false} DecimalValueLeadingZero(s: string)
    requires forall k :: 0 <= k < |s| ==> IsDigit(s[k])
    ensures DecimalValue("0" + s) == DecimalValue(s)
    decreases |s|
  {
    if s != [] {
      var t := "0" + s;
      assert t[..|t| - 1] == "0" + s[..|s| - 1];
      DecimalValueLeadingZero(s[..|s| - 1]);
    }
  }

  lemma Decimal2Injective(m: nat, n: nat)
    requires Decimal2(m) == Decimal2(n)
    ensures m == n
  {
    DecimalValueOf(m);
    DecimalValueOf(n);
    if m < 10 {
      DecimalValueLeadingZero(Decimal(m));
    }
    if n < 10 {
      DecimalValueLeadingZero(Decimal(n));
    }
  }

  lemma ConcatAt<T>(a: seq<T>, b: seq<T>, k: nat)
    requires k < |a| + |b|
    ensures (a + b)[k] == if k < |a| then a[k] else b[k - |a|]
  {
  }

  /** Two strings that each start with a run of digits ended by a non-digit
      split at the same place. */
  lemma DigitsSplit(a: string, x: string, b: string, y: string)
    requires forall k :: 0 <= k < |a| ==> IsDigit(a[k])
    requires forall k :: 0 <= k < |b| ==> IsDigit(b[k])
    requires x != [] && !IsDigit(x[0]) && y != [] && !IsDigit(y[0])
    requires a + x == b + y
    ensures a == b && x == y
  {
    if |a| < |b| {
      ConcatAt(a, x, |a|);
      assert false;
    } else if |b| < |a| {
      ConcatAt(b, y, |b|);
      assert false;
    } else {
      assert a == (a + x)[..|a|];
      assert b == (b + y)[..|b|];
      assert x == (a + x)[|a|..];
      assert y == (b + y)[|b|..];
    }
  }
}
