/** Byte-level arithmetic of the drivers: C# narrowing casts, `BitConverter`
  * byte order and the LINQ `Skip`/`Take`/`Reverse` operators on byte arrays. */
module Bytes {
  type byte = x: int | 0 <= x < 256

  /** The unchecked C# cast `(byte)n`: the low eight bits. */
  function ToByte(n: int): byte {
    n % 256
  }

  /** The unchecked C# cast `(ushort)n`. */
  function ToUShort(n: int): (r: int)
    ensures 0 <= r < 0x1_0000 && (n - r) % 0x1_0000 == 0
    ensures 0 <= n < 0x1_0000 ==> r == n
  {
    n % 0x1_0000
  }

  /** The unchecked C# cast `(short)n`: two's complement wrap to 16 bits. */
  function ToShort(n: int): (r: int)
    ensures -0x8000 <= r < 0x8000 && (n - r) % 0x1_0000 == 0
    ensures -0x8000 <= n < 0x8000 ==> r == n
  {
    var u := n % 0x1_0000;
    if u >= 0x8000 then u - 0x1_0000 else u
  }

  /** `BitConverter.GetBytes(v)[1]` and `[0]`: the second and the first byte of
    * the little-endian encoding. */
  function HighByte(v: int): byte {
    (v / 256) % 256
  }

  function LowByte(v: int): byte {
    v % 256
  }

  lemma HighLowBytes(v: int)
    requires 0 <= v < 0x1_0000
    ensures HighByte(v) * 256 + LowByte(v) == v
  {
  }

  /** LINQ `Skip(n)`: a negative count skips nothing, a count past the end
    * leaves nothing. */
  function Skip<T>(s: seq<T>, n: int): (r: seq<T>)
    ensures n <= 0 ==> r == s
    ensures 0 <= n <= |s| ==> r == s[n..]
    ensures n >= |s| ==> r == []
  {
    if n <= 0 then s else if n >= |s| then [] else s[n..]
  }

  /** LINQ `Take(n)`: a negative count takes nothing, a count past the end
    * takes everything. */
  function Take<T>(s: seq<T>, n: int): (r: seq<T>)
    ensures n <= 0 ==> r == []
    ensures 0 <= n <= |s| ==> r == s[..n]
    ensures n >= |s| ==> r == s
  {
    if n <= 0 then [] else if n >= |s| then s else s[..n]
  }

  /** LINQ `Reverse()`. */
  function Reverse<T>(s: seq<T>): (r: seq<T>)
    ensures |r| == |s| && forall i :: 0 <= i < |s| ==> r[i] == s[|s| - 1 - i]
  {
    if |s| == 0 then [] else Reverse(s[1..]) + [s[0]]
  }

  lemma ReverseReverse<T>(s: seq<T>)
    ensures Reverse(Reverse(s)) == s
  {
    assert forall i :: 0 <= i < |s| ==> Reverse(Reverse(s))[i] == s[i];
  }

  /** The number a byte sequence encodes, most significant byte first. */
  function BigEndian(bs: seq<byte>): nat {
    if |bs| == 0 then 0 else BigEndian(bs[..|bs| - 1]) * 256 + bs[|bs| - 1]
  }

  /** The number a byte sequence encodes, least significant byte first, as
    * `BitConverter.ToUInt16/32/64` reads it. */
  function LittleEndian(bs: seq<byte>): nat {
    if |bs| == 0 then 0 else bs[0] + 256 * LittleEndian(bs[1..])
  }

  function Pow256(n: nat): (r: nat)
    ensures r >= 1
  {
    if n == 0 then 1 else 256 * Pow256(n - 1)
  }

  lemma {:induction false} BigEndianBound(bs: seq<byte>)
    ensures BigEndian(bs) < Pow256(|bs|)
  {
    if |bs| > 0 {
      BigEndianBound(bs[..|bs| - 1]);
    }
  }

  lemma {:induction false} LittleEndianBound(bs: seq<byte>)
    ensures LittleEndian(bs) < Pow256(|bs|)
  {
    if |bs| > 0 {
      LittleEndianBound(bs[1..]);
    }
  }

  /** Reading the reversed bytes little-endian is reading them big-endian: the
    * `Reverse()` before every `BitConverter` call turns wire order into host
    * order. */
  lemma {:induction false} LittleEndianOfReverse(bs: seq<byte>)
    ensures LittleEndian(Reverse(bs)) == BigEndian(bs)
  {
    if |bs| > 0 {
      var r := Reverse(bs);
      assert r[1..] == Reverse(bs[..|bs| - 1]);
      LittleEndianOfReverse(bs[..|bs| - 1]);
    }
  }

  /** Two's complement reading of an unsigned value of `bits` bits. */
  function Signed(v: nat, bits: nat): int
    requires bits > 0
  {
    if v >= Pow2(bits - 1) then v - Pow2(bits) else v
  }

  function Pow2(n: nat): (r: nat)
    ensures r >= 1
  {
    if n == 0 then 1 else 2 * Pow2(n - 1)
  }
}
