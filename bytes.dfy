/** Byte-level primitives shared by the wire codec, the sender and the receiver:
    Go's fixed-width integers (with their wrap-around made explicit), Go's
    truncating division, big-endian encoding and lowercase hex digests. */
module Bytes {

  type byte = b: int | 0 <= b < 256
  type Bytes = seq<byte>

  datatype Option<T> = None | Some(value: T)

  /** Concatenation regrouped. */
  lemma Regroup<T>(a: seq<T>, b: seq<T>, c: seq<T>)
    ensures a + (b + c) == a + b + c
  {
  }

  const TwoTo16: int := 0x1_0000
  const TwoTo31: int := 0x8000_0000
  const TwoTo32: int := 0x1_0000_0000
  const TwoTo63: int := 0x8000_0000_0000_0000
  const TwoTo64: int := 0x1_0000_0000_0000_0000

  type uint16 = x: int | 0 <= x < 0x1_0000
  type int32 = x: int | -0x8000_0000 <= x < 0x8000_0000
  type int64 = x: int | -0x8000_0000_0000_0000 <= x < 0x8000_0000_0000_0000

  /** Go's conversion of an integer to int64: keep the low 64 bits and read
      them in two's complement. */
  function ToInt64(x: int): (r: int64)
    ensures -TwoTo63 <= x < TwoTo63 ==> r == x
  {
    var low := x % TwoTo64;
    if low < TwoTo63 then low else low - TwoTo64
  }

  /** Go's conversion of an integer to int32. */
  function ToInt32(x: int): (r: int32)
    ensures -TwoTo31 <= x < TwoTo31 ==> r == x
  {
    var low := x % TwoTo32;
    if low < TwoTo31 then low else low - TwoTo32
  }

  function Abs(x: int): nat { if x < 0 then -x else x }

  /** Go's integer division, which truncates toward zero (Dafny's `/` is
      Euclidean). Go panics on a zero divisor, hence the precondition. */
  function Quot(a: int, b: int): (q: int)
    requires b != 0
    ensures 0 <= a && 0 < b ==> q == a / b
    ensures a < 0 && 0 < b ==> q == -((-a) / b)
  {
    var q0 := Abs(a) / Abs(b);
    if (a < 0) == (b < 0) then q0 else -q0
  }

  function Pow256(n: nat): (p: nat)
    ensures p >= 1
  {
    if n == 0 then 1 else 256 * Pow256(n - 1)
  }

  /** The widths the protocol uses. */
  lemma Pow256Two()
    ensures Pow256(2) == TwoTo16
  {
    assert Pow256(1) == 256;
  }

  lemma Pow256Four()
    ensures Pow256(4) == TwoTo32
  {
    Pow256Two();
    assert Pow256(3) == 0x100_0000;
  }

  lemma Pow256Eight()
    ensures Pow256(8) == TwoTo64
  {
    Pow256Four();
    assert Pow256(5) == 0x100_0000_0000;
    assert Pow256(6) == 0x1_0000_0000_0000;
    assert Pow256(7) == 0x100_0000_0000_0000;
  }

  /** The n-byte big-endian representation of x. */
  function ToBigEndian(x: nat, n: nat): (r: Bytes)
    requires x < Pow256(n)
    ensures |r| == n
    decreases n
  {
    if n == 0 then [] else ToBigEndian(x / 256, n - 1) + [x % 256]
  }

  /** The unsigned value of a big-endian byte string. */
  function FromBigEndian(bs: Bytes): (v: nat)
    ensures v < Pow256(|bs|)
  {
    if bs == [] then 0 else FromBigEndian(bs[..|bs| - 1]) * 256 + bs[|bs| - 1]
  }

  lemma {:induction false} BigEndianRoundTrip(x: nat, n: nat)
    requires x < Pow256(n)
    ensures FromBigEndian(ToBigEndian(x, n)) == x
    decreases n
  {
    if n > 0 {
      var r := ToBigEndian(x, n);
      assert r[..n - 1] == ToBigEndian(x / 256, n - 1);
      BigEndianRoundTrip(x / 256, n - 1);
    }
  }

  /** encoding/binary's big-endian uint16; Go's `uint16(...)` conversion keeps
      the low 16 bits of whatever length it is given. */
  function EncodeU16(x: int): (r: Bytes)
    ensures |r| == 2
  {
    Pow256Two();
    ToBigEndian(x % TwoTo16, 2)
  }

  function DecodeU16(bs: Bytes): (x: uint16)
    requires |bs| == 2
  {
    Pow256Two();
    FromBigEndian(bs)
  }

  /** encoding/binary's big-endian int64 (two's complement). */
  function EncodeI64(x: int64): (r: Bytes)
    ensures |r| == 8
  {
    Pow256Eight();
    ToBigEndian(if x < 0 then x + TwoTo64 else x, 8)
  }

  function DecodeI64(bs: Bytes): (x: int64)
    requires |bs| == 8
  {
    Pow256Eight();
    var v := FromBigEndian(bs);
    if v < TwoTo63 then v else v - TwoTo64
  }

  /** encoding/binary's big-endian int32 (two's complement). */
  function EncodeI32(x: int32): (r: Bytes)
    ensures |r| == 4
  {
    Pow256Four();
    ToBigEndian(if x < 0 then x + TwoTo32 else x, 4)
  }

  function DecodeI32(bs: Bytes): (x: int32)
    requires |bs| == 4
  {
    Pow256Four();
    var v := FromBigEndian(bs);
    if v < TwoTo31 then v else v - TwoTo32
  }

  lemma SmallMod(x: int, m: int)
    requires 0 <= x < m
    ensures x % m == x
  {
  }

  lemma U16RoundTrip(x: uint16)
    ensures DecodeU16(EncodeU16(x)) == x
  {
    Pow256Two();
    SmallMod(x, TwoTo16);
    BigEndianRoundTrip(x, 2);
  }

  lemma I64RoundTrip(x: int64)
    ensures DecodeI64(EncodeI64(x)) == x
  {
    Pow256Eight();
    var v := if x < 0 then x + TwoTo64 else x;
    BigEndianRoundTrip(v, 8);
  }

  lemma I32RoundTrip(x: int32)
    ensures DecodeI32(EncodeI32(x)) == x
  {
    Pow256Four();
    var v := if x < 0 then x + TwoTo32 else x;
    BigEndianRoundTrip(v, 4);
  }

  /** n zero bytes: the contents of a fresh Go `make([]byte, n)`. */
  function Zeros(n: nat): (r: Bytes)
    ensures |r| == n && forall i | 0 <= i < n :: r[i] == 0
  {
    seq(n, _ => 0)
  }

  const HexDigits: string := "0123456789abcdef"

  /** encoding/hex's EncodeToString: two lowercase digits per byte. */
  function HexEncode(bs: Bytes): (s: string)
    ensures |s| == 2 * |bs|
  {
    if bs == [] then "" else [HexDigits[bs[0] / 16], HexDigits[bs[0] % 16]] + HexEncode(bs[1..])
  }

  /** The value of a lowercase hex digit. */
  function HexValue(c: char): int
  {
    if '0' <= c <= '9' then c as int - '0' as int else c as int - 'a' as int + 10
  }

  lemma HexValueOfDigit(d: int)
    requires 0 <= d < 16
    ensures HexValue(HexDigits[d]) == d
  {
  }

  /** A byte is determined by its two hex digits. */
  lemma HexByteInjective(x: byte, y: byte)
    requires HexDigits[x / 16] == HexDigits[y / 16] && HexDigits[x % 16] == HexDigits[y % 16]
    ensures x == y
  {
    HexValueOfDigit(x / 16);
    HexValueOfDigit(y / 16);
    HexValueOfDigit(x % 16);
    HexValueOfDigit(y % 16);
  }

  /** Two digests have the same hex form only if they are the same digest, so
      comparing hex strings is comparing digests. */
  lemma {:induction false} HexInjective(a: Bytes, b: Bytes)
    requires HexEncode(a) == HexEncode(b)
    ensures a == b
  {
    if a != [] {
      var ha, hb := HexEncode(a), HexEncode(b);
      assert ha[0] == hb[0] && ha[1] == hb[1];
      HexByteInjective(a[0], b[0]);
      assert ha[2..] == hb[2..];
      HexInjective(a[1..], b[1..]);
    }
  }
}
