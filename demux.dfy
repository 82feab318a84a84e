/** Extraction of one point from the payload of a batch read:
  * `ReadInt16(beginAddress, address, values)` and its siblings in
  * `ModbusSerialBase` (the copies in `ModbusTcpClient` and
  * `ModbusRtuOverTcpClient` are the same code). The payload is in wire order:
  * register `beginAddress` occupies bytes 0 and 1. */
module ModbusDemux {
  import opened Wrappers
  import opened Bytes
  import opened Text

  /** C# `/` on `int`: the quotient truncated toward zero. */
  function Quot(a: int, b: int): int
    requires b > 0
  {
    if a >= 0 then a / b else -((-a) / b)
  }

  /** C# `%` on `int`: the remainder takes the sign of the dividend. */
  function Rem(a: int, b: int): (r: int)
    requires b > 0
    ensures b * Quot(a, b) + r == a
    ensures a >= 0 ==> 0 <= r < b
    ensures a < 0 ==> -b < r <= 0
  {
    if a >= 0 then a % b else -((-a) % b)
  }

  /** What one extraction does: a non-numeric address throws out of the call;
    * anything thrown inside its `try` is caught and leaves `IsSucceed` false
    * with the type's default value. */
  datatype Extracted<T> = Threw | Got(ok: bool, value: T)

  /** The bytes `BitConverter` reads for a point of `words` registers:
    * `Skip(2d).Take(2 * words).Reverse()` of the payload, `d` the distance
    * from the first register, passed through `ByteFormatting` for 32- and
    * 64-bit points. Fewer bytes than the converter needs make it throw. */
  function HostBytes(beginAddress: string, address: string, values: seq<byte>, words: nat,
                     fmt: seq<byte> -> seq<byte>): (r: Extracted<seq<byte>>)
    requires words == 1 || words == 2 || words == 4
    ensures r.Got? <==> ParseInt(Trim(address)).Some? && ParseInt(Trim(beginAddress)).Some?
    ensures r.Got? && r.ok ==> |r.value| == 2 * words
    ensures r.Got? && !r.ok ==> r.value == []
  {
    match Distance(beginAddress, address)
    case Some(d) => BytesAt(values, d, words, fmt)
    case None => Threw
  }

  /** `int.Parse(address) - int.Parse(beginAddress)`, or nothing when either
    * does not parse (the call throws). */
  function Distance(beginAddress: string, address: string): (r: Option<int>)
    ensures r.Some? <==> ParseInt(Trim(address)).Some? && ParseInt(Trim(beginAddress)).Some?
  {
    match (ParseInt(Trim(address)), ParseInt(Trim(beginAddress)))
    case (Some(a), Some(b)) => Some(a - b)
    case _ => None
  }

  lemma DistanceOf(beginAddress: string, address: string, a: int, b: int)
    requires ParseInt(Trim(address)) == Some(a) && ParseInt(Trim(beginAddress)) == Some(b)
    ensures Distance(beginAddress, address) == Some(a - b)
  {
  }

  /** The `try` block of `HostBytes` for the point `distance` registers
    * after the first one. */
  function BytesAt(values: seq<byte>, distance: int, words: nat, fmt: seq<byte> -> seq<byte>): (r: Extracted<seq<byte>>)
    requires words == 1 || words == 2 || words == 4
    ensures r.Got? && (r.ok ==> |r.value| == 2 * words) && (!r.ok ==> r.value == [])
  {
    var raw: seq<byte> := Reverse<byte>(Take<byte>(Skip<byte>(values, ByteOffset(distance, words)), 2 * words));
    var bs := if words == 1 then raw else fmt(raw);
    if |bs| < 2 * words then Got(false, []) else Got(true, bs[..2 * words])
  }

  /** `ReadInt16`, `ReadUInt16`, `ReadInt32`, `ReadUInt32`, `ReadInt64` and
    * `ReadUInt64`: the bytes read little-endian, as two's complement when
    * `signed`. */
  function ReadWords(beginAddress: string, address: string, values: seq<byte>, words: nat,
                     signed: bool, fmt: seq<byte> -> seq<byte>): (r: Extracted<int>)
    requires words == 1 || words == 2 || words == 4
    ensures r.Got? <==> HostBytes(beginAddress, address, values, words, fmt).Got?
    ensures r.Got? && !r.ok ==> r.value == 0
    ensures r.Got? && words == 1 && signed ==> -0x8000 <= r.value < 0x8000
  {
    match HostBytes(beginAddress, address, values, words, fmt)
    case Threw => Threw
    case Got(ok, bs) =>
      if !ok then Got(false, 0)
      else
        LittleEndianBound(bs);
        Pow2Sixteen();
        Got(true, if signed then Signed(LittleEndian(bs), 16 * words) else LittleEndian(bs))
  }

  /** The number of payload bytes skipped: `d * 2` for 16-bit points, and
    * `(d / w) * 2w + (d % w) * 2` with C# division for 32- and 64-bit ones,
    * which is `2d` for every distance, negative ones included. */
  function ByteOffset(distance: int, words: nat): (r: int)
    requires words == 1 || words == 2 || words == 4
    ensures r == 2 * distance
  {
    if words == 1 then distance * 2
    else
      var q, rem := Quot(distance, words), Rem(distance, words);
      assert q * 2 * words == 2 * (words * q);
      q * 2 * words + rem * 2
  }

  /** A 16-bit point inside the payload is the big-endian register at
    * offset `2d`. */
  lemma RegisterInPayload(beginAddress: string, address: string, values: seq<byte>,
                          fmt: seq<byte> -> seq<byte>, a: int, b: int)
    requires ParseInt(Trim(address)) == Some(a) && ParseInt(Trim(beginAddress)) == Some(b)
    requires 0 <= a - b && 2 * (a - b) + 2 <= |values|
    ensures ReadWords(beginAddress, address, values, 1, false, fmt)
            == Got(true, BigEndian(values[2 * (a - b)..2 * (a - b) + 2]))
  {
    DistanceOf(beginAddress, address, a, b);
    RegisterAt(values, a - b, fmt);
    LittleEndianOfReverse(values[2 * (a - b)..2 * (a - b) + 2]);
  }

  /** A one-register payload read at its own address is the register, high
    * byte first. */
  lemma OnlyRegister(key: string, m: int, hi: byte, lo: byte, fmt: seq<byte> -> seq<byte>)
    requires ParseInt(Trim(key)) == Some(m)
    ensures ReadWords(key, key, [hi, lo], 1, false, fmt) == Got(true, hi as int * 256 + lo as int)
  {
    RegisterInPayload(key, key, [hi, lo], fmt, m, m);
    assert [hi, lo][2 * (m - m)..2 * (m - m) + 2] == [hi, lo];
    assert [hi, lo][..1] == [hi];
    assert [hi][..0] == [];
    assert BigEndian([hi]) == hi as int;
  }

  /** The key of a register point written in decimal is its own head and
    * parses back to the register. */
  lemma DecimalKey(min: int)
    requires 0 <= min <= IntMax
    ensures Split(DecimalString(min), {':'})[0] == DecimalString(min)
    ensures ParseInt(Trim(DecimalString(min))) == Some(min)
  {
    DecimalStringChars(min, ':');
    SplitNoSeparator(DecimalString(min), {':'});
    DecimalStringEnds(min);
    TrimPlain(DecimalString(min));
    ParseDecimalString(min, IntMin, IntMax);
  }

  lemma RegisterAt(values: seq<byte>, d: int, fmt: seq<byte> -> seq<byte>)
    requires 0 <= d && 2 * d + 2 <= |values|
    ensures BytesAt(values, d, 1, fmt) == Got(true, Reverse(values[2 * d..2 * d + 2]))
  {
    var field := values[2 * d..2 * d + 2];
    assert Take(Skip(values, 2 * d), 2) == field;
    assert Reverse(field)[..2] == Reverse(field);
  }

  /** A 32- or 64-bit point inside the payload reads the `2 * words` bytes at
    * offset `2d`, reversed and passed through `ByteFormatting`. */
  lemma WideInPayload(beginAddress: string, address: string, values: seq<byte>, words: nat,
                      fmt: seq<byte> -> seq<byte>, a: int, b: int)
    requires words == 2 || words == 4
    requires ParseInt(Trim(address)) == Some(a) && ParseInt(Trim(beginAddress)) == Some(b)
    requires 0 <= a - b && 2 * (a - b) + 2 * words <= |values|
    requires |fmt(Reverse<byte>(values[2 * (a - b)..2 * (a - b) + 2 * words]))| >= 2 * words
    ensures HostBytes(beginAddress, address, values, words, fmt)
            == Got(true, fmt(Reverse<byte>(values[2 * (a - b)..2 * (a - b) + 2 * words]))[..2 * words])
  {
    DistanceOf(beginAddress, address, a, b);
    HostBytesOf(beginAddress, address, values, words, fmt, a - b);
    WideAt(values, a - b, words, fmt);
  }

  lemma HostBytesOf(beginAddress: string, address: string, values: seq<byte>, words: nat,
                    fmt: seq<byte> -> seq<byte>, d: int)
    requires words == 1 || words == 2 || words == 4
    requires Distance(beginAddress, address) == Some(d)
    ensures HostBytes(beginAddress, address, values, words, fmt) == BytesAt(values, d, words, fmt)
  {
  }

  lemma WideAt(values: seq<byte>, d: int, words: nat, fmt: seq<byte> -> seq<byte>)
    requires words == 2 || words == 4
    requires 0 <= d && 2 * d + 2 * words <= |values|
    requires |fmt(Reverse<byte>(values[2 * d..2 * d + 2 * words]))| >= 2 * words
    ensures BytesAt(values, d, words, fmt) == Got(true, fmt(Reverse<byte>(values[2 * d..2 * d + 2 * words]))[..2 * words])
  {
    assert Take<byte>(Skip<byte>(values, 2 * d), 2 * words) == values[2 * d..2 * d + 2 * words];
  }

  /** A point whose registers lie past the end of the payload fails inside
    * the `try`: `IsSucceed` false and the default value. */
  lemma PointPastPayload(beginAddress: string, address: string, values: seq<byte>, a: int, b: int,
                         signed: bool, fmt: seq<byte> -> seq<byte>)
    requires ParseInt(Trim(address)) == Some(a) && ParseInt(Trim(beginAddress)) == Some(b)
    requires 0 <= a - b && 2 * (a - b) + 2 > |values|
    ensures ReadWords(beginAddress, address, values, 1, signed, fmt) == Got(false, 0)
  {
    DistanceOf(beginAddress, address, a, b);
    assert |Take(Skip(values, 2 * (a - b)), 2)| < 2;
  }

  // ---- Bits

  /** The binary digits of `v`, least significant first, padded with zeros to
    * at least `width` digits. `IntToBinaryArray` is taken to return these
    * digits most significant first. */
  function LsbDigits(v: nat, width: nat): (r: seq<int>)
    ensures |r| >= width
    decreases v + width
  {
    if v == 0 && width == 0 then []
    else [v % 2] + LsbDigits(v / 2, if width > 0 then width - 1 else 0)
  }

  /** `IntToBinaryArray(v, width)` as a digit sequence, most significant first. */
  function BinaryDigits(v: nat, width: nat): seq<int> {
    Reverse(LsbDigits(v, width))
  }

  /** Bit `k` of `v`. */
  function Bit(v: nat, k: nat): int {
    (v / Pow2(k)) % 2
  }

  /** Digit `k` of the padded binary form is bit `k`. */
  lemma {:induction false} LsbBit(v: nat, width: nat, k: nat)
    requires k < |LsbDigits(v, width)|
    ensures LsbDigits(v, width)[k] == Bit(v, k)
    decreases v + width
  {
    if k > 0 {
      var w' := if width > 0 then width - 1 else 0;
      LsbBit(v / 2, w', k - 1);
      DivDiv(v, 2, Pow2(k - 1));
    }
  }

  /** The digits hold all of `v`: it is below two to their number. */
  lemma {:induction false} LsbBound(v: nat, width: nat)
    ensures v < Pow2(|LsbDigits(v, width)|)
    decreases v + width
  {
    if !(v == 0 && width == 0) {
      var w' := if width > 0 then width - 1 else 0;
      LsbBound(v / 2, w');
    }
  }

  /** A number below `2^n` has `n` digits when padded to `n`. */
  lemma {:induction false} LsbDigitsLength(v: nat, n: nat)
    requires v < Pow2(n)
    ensures |LsbDigits(v, n)| == n
  {
    if n > 0 {
      LsbDigitsLength(v / 2, n - 1);
    }
  }

  lemma MulBound(d: int, x: int)
    requires d > 0
    ensures x >= 1 ==> d * x >= d
    ensures x <= -1 ==> d * x <= -d
  {
  }

  lemma DivUnique(a: int, d: int, q: int, r: int)
    requires d > 0 && 0 <= r < d && a == d * q + r
    ensures a / d == q && a % d == r
  {
    var q0, r0 := a / d, a % d;
    MulBound(d, q - q0);
    assert d * (q - q0) == r0 - r;
  }

  lemma DivDiv(a: nat, b: nat, c: nat)
    requires b > 0 && c > 0
    ensures a / b / c == a / (b * c)
  {
    var q, r := a / b, a % b;
    var q2, r2 := q / c, q % c;
    MulBound(b, c - r2);
    assert a == (b * c) * q2 + (b * r2 + r);
    DivUnique(a, b * c, q2, b * r2 + r);
  }

  lemma ModSplit(x: nat, n: nat)
    requires n >= 1
    ensures x % Pow2(n) == x % 2 + 2 * ((x / 2) % Pow2(n - 1))
  {
    var p := Pow2(n - 1);
    var q, r := (x / 2) / p, (x / 2) % p;
    assert x == Pow2(n) * q + (2 * r + x % 2);
    DivUnique(x, Pow2(n), q, 2 * r + x % 2);
  }

  // ---- Coils and discrete inputs

  /** `ReadCoil(beginAddress, address, values)` (and `ReadDiscrete`, the same
    * code): the byte `index - 1` with `index = ceil((d + 1) / 8)` in C#
    * integer arithmetic, its binary digits reversed, and the digit
    * `d - 8 (index - 1)` compared with 1; a digit beyond the written ones is
    * 0. `pad` is the width `IntToBinaryArray` pads to. */
  function ReadCoil(beginAddress: string, address: string, values: seq<byte>, pad: nat): (r: Extracted<bool>)
    ensures r.Got? <==> ParseInt(Trim(address)).Some? && ParseInt(Trim(beginAddress)).Some?
    ensures r.Got? && !r.ok ==> !r.value
  {
    match Distance(beginAddress, address)
    case Some(d) => CoilAt(d, values, pad)
    case None => Threw
  }

  /** The `try` block of `ReadCoil` for the coil `interval` places after the
    * first one. */
  function CoilAt(interval: int, values: seq<byte>, pad: nat): (r: Extracted<bool>)
    ensures r.Got? && (!r.ok ==> !r.value)
  {
    var index := CoilIndex(interval);
    if !(0 <= index - 1 < |values|) then Got(false, false)
    else
      var binary := Reverse(BinaryDigits(values[index - 1], pad));
      if (index - 1) * 8 + |binary| > interval then
        var k := interval - (index - 1) * 8;
        if 0 <= k < |binary| then Got(true, binary[k] == 1) else Got(false, false)
      else Got(true, false)
  }

  /** `index` of `ReadCoil`: `(d + 1) / 8`, plus one unless `(d + 1) % 8` is
    * zero, in C# arithmetic; for a coil at or after the first one, the byte
    * holding it counted from one. */
  function CoilIndex(interval: int): (index: int)
    ensures interval >= 0 ==> index == interval / 8 + 1
  {
    var q, r := Quot(interval + 1, 8), Rem(interval + 1, 8);
    CeilingSteps(interval, q, r);
    if r == 0 then q else q + 1
  }

  lemma CeilingSteps(interval: int, q: int, r: int)
    requires q == Quot(interval + 1, 8) && r == Rem(interval + 1, 8)
    ensures interval >= 0 && r == 0 ==> q == interval / 8 + 1
    ensures interval >= 0 && r != 0 ==> q == interval / 8
  {
    if interval >= 0 {
      DivUnique(interval + 1, 8, q, r);
      if r == 0 {
        DivUnique(interval, 8, q - 1, 7);
      } else {
        DivUnique(interval, 8, q, r - 1);
      }
    }
  }

  /** A coil inside the payload is bit `d mod 8` of byte `d div 8`, whatever
    * the padding of the binary form. */
  lemma CoilIsBit(beginAddress: string, address: string, values: seq<byte>, pad: nat, a: int, b: int)
    requires ParseInt(Trim(address)) == Some(a) && ParseInt(Trim(beginAddress)) == Some(b)
    requires 0 <= a - b && (a - b) / 8 < |values|
    ensures ReadCoil(beginAddress, address, values, pad) == Got(true, Bit(values[(a - b) / 8], (a - b) % 8) == 1)
  {
    DistanceOf(beginAddress, address, a, b);
    CoilAtIsBit(a - b, values, pad);
  }

  /** A coil past the payload fails inside the `try`. */
  lemma CoilPastPayload(beginAddress: string, address: string, values: seq<byte>, pad: nat, a: int, b: int)
    requires ParseInt(Trim(address)) == Some(a) && ParseInt(Trim(beginAddress)) == Some(b)
    requires 0 <= a - b && (a - b) / 8 >= |values|
    ensures ReadCoil(beginAddress, address, values, pad) == Got(false, false)
  {
    DistanceOf(beginAddress, address, a, b);
  }

  lemma CoilAtIsBit(d: int, values: seq<byte>, pad: nat)
    requires 0 <= d && d / 8 < |values|
    ensures CoilAt(d, values, pad) == Got(true, Bit(values[d / 8], d % 8) == 1)
  {
    CoilAtDigit(d, values, pad);
    ReversedDigit(values[d / 8], pad, d % 8);
  }

  /** The coil `d` places after the first is digit `d mod 8` of the reversed
    * binary form of byte `d div 8`, or 0 past its digits. */
  lemma CoilAtDigit(d: int, values: seq<byte>, pad: nat)
    requires 0 <= d && d / 8 < |values|
    ensures var binary := Reverse(BinaryDigits(values[d / 8], pad));
            CoilAt(d, values, pad) == if d % 8 < |binary| then Got(true, binary[d % 8] == 1) else Got(true, false)
  {
    assert CoilIndex(d) - 1 == d / 8;
    assert d - (d / 8) * 8 == d % 8;
  }

  /** Digit `k` of the reversed binary form is bit `k`, and a bit beyond the
    * digits is zero. */
  lemma ReversedDigit(v: nat, pad: nat, k: nat)
    ensures var binary := Reverse(BinaryDigits(v, pad));
            (k < |binary| ==> binary[k] == Bit(v, k)) && (k >= |binary| ==> Bit(v, k) == 0)
  {
    var lsb := LsbDigits(v, pad);
    ReverseReverse(lsb);
    if k < |lsb| {
      LsbBit(v, pad, k);
    } else {
      LsbBound(v, pad);
      Pow2Monotone(|lsb|, k);
      DivUnique(v, Pow2(k), 0, v);
    }
  }


  lemma {:induction false} Pow2Monotone(m: nat, n: nat)
    requires m <= n
    ensures Pow2(m) <= Pow2(n)
  {
    if m < n {
      Pow2Monotone(m, n - 1);
    }
  }

  // ---- Bit slices of a register

  /** `Select((bit, index) => bit << index).Sum()`: the digits as a number,
    * the first one least significant. */
  function Weighted(bits: seq<int>): int {
    if |bits| == 0 then 0 else bits[0] + 2 * Weighted(bits[1..])
  }

  /** The bit field of `ReadInt16Bit`: the 16 digits of the register, most
    * significant first; `left` takes digits `start..end` counted from the
    * most significant one and reverses them, otherwise the digits from
    * position `15 - end` are taken as they stand. */
  function SliceBits(word: nat, start: int, end: int, left: bool): int
    requires word < 0x1_0000
  {
    var digits := BinaryDigits(word, 16);
    if left then Weighted(Reverse(Take(Skip(digits, |digits| - 16 + start), end - start + 1)))
    else Weighted(Take(Skip(digits, |digits| - 1 - end), end - start + 1))
  }

  /** Bits `end` down to `start` of `word`, the highest of them moved to the
    * lowest place: the field read back to front. */
  function MirroredField(word: nat, start: int, end: int): int
    decreases end - start
  {
    if end < start || end < 0 then 0 else Bit(word, end) + 2 * MirroredField(word, start, end - 1)
  }

  /** `Weighted` of consecutive bits is the field they form. */
  lemma {:induction false} WeightedOfBits(t: seq<int>, word: nat, k: nat)
    requires forall i :: 0 <= i < |t| ==> t[i] == Bit(word, k + i)
    ensures Weighted(t) == (word / Pow2(k)) % Pow2(|t|)
  {
    if |t| > 0 {
      WeightedOfBits(t[1..], word, k + 1);
      DivDiv(word, Pow2(k), 2);
      ModSplit(word / Pow2(k), |t|);
    }
  }

  /** `Weighted` of bits taken downward is the mirrored field. */
  lemma {:induction false} WeightedOfMirroredBits(t: seq<int>, word: nat, start: int, end: int)
    requires 0 <= start && |t| == end - start + 1
    requires forall i :: 0 <= i < |t| ==> t[i] == Bit(word, end - i)
    ensures Weighted(t) == MirroredField(word, start, end)
    decreases |t|
  {
    if |t| > 0 {
      WeightedOfMirroredBits(t[1..], word, start, end - 1);
    }
  }

  lemma {:induction false} Pow2Add(a: nat, b: nat)
    ensures Pow2(a + b) == Pow2(a) * Pow2(b)
  {
    if b > 0 {
      Pow2Add(a, b - 1);
    }
  }

  lemma Pow2Sixteen()
    ensures Pow2(15) == 0x8000 && Pow2(16) == 0x1_0000
  {
    assert Pow2(4) == 16;
    Pow2Add(4, 4);
    Pow2Add(8, 4);
    Pow2Add(12, 3);
    Pow2Add(15, 1);
  }

  lemma SixteenLong(word: nat)
    requires word < 0x1_0000
    ensures |BinaryDigits(word, 16)| == 16
  {
    Pow2Sixteen();
    LsbDigitsLength(word, 16);
  }

  /** Digit `i` of the sixteen, counted from the most significant, is bit
    * `15 - i`. */
  lemma DigitIsBit(word: nat, i: int)
    requires word < 0x1_0000 && 0 <= i < 16
    ensures |BinaryDigits(word, 16)| == 16 && BinaryDigits(word, 16)[i] == Bit(word, 15 - i)
  {
    SixteenLong(word);
    LsbBit(word, 16, 15 - i);
  }

  /** With `left`, a slice `start..end` inside the register is
    * `(word >> (15 - end)) & (2^(end - start + 1) - 1)`. */
  lemma SliceLeft(word: nat, start: int, end: int)
    requires word < 0x1_0000 && 0 <= start <= end <= 15
    ensures SliceBits(word, start, end, true) == (word / Pow2(15 - end)) % Pow2(end - start + 1)
  {
    LeftField(word, start, end);
    LeftFieldValue(word, start, end);
  }

  /** With `left`, the digits taken are `start..end` of the sixteen,
    * reversed. */
  lemma LeftField(word: nat, start: int, end: int)
    requires word < 0x1_0000 && 0 <= start <= end <= 15
    ensures |BinaryDigits(word, 16)| == 16
    ensures SliceBits(word, start, end, true) == Weighted(Reverse(BinaryDigits(word, 16)[start..end + 1]))
  {
    SixteenLong(word);
    var digits := BinaryDigits(word, 16);
    assert Take(Skip(digits, start), end - start + 1) == digits[start..end + 1];
  }

  /** Digits `start..end` of the sixteen, reversed, weigh the bits from
    * `15 - end` up. */
  lemma LeftFieldValue(word: nat, start: int, end: int)
    requires word < 0x1_0000 && 0 <= start <= end <= 15
    ensures |BinaryDigits(word, 16)| == 16
    ensures Weighted(Reverse(BinaryDigits(word, 16)[start..end + 1])) == (word / Pow2(15 - end)) % Pow2(end - start + 1)
  {
    SixteenLong(word);
    var t := Reverse(BinaryDigits(word, 16)[start..end + 1]);
    ReversedFieldBits(word, start, end, t, 15 - end);
    WeightedOfBits(t, word, 15 - end);
  }

  lemma ReversedFieldBits(word: nat, start: int, end: int, t: seq<int>, k: nat)
    requires word < 0x1_0000 && 0 <= start <= end <= 15 && k == 15 - end
    requires |BinaryDigits(word, 16)| == 16 && t == Reverse(BinaryDigits(word, 16)[start..end + 1])
    ensures forall i :: 0 <= i < |t| ==> t[i] == Bit(word, k + i)
  {
    forall i | 0 <= i < |t|
      ensures t[i] == Bit(word, k + i)
    {
      ReversedSliceAt(BinaryDigits(word, 16), start, end, i);
      DigitIsBit(word, end - i);
    }
  }

  lemma ReversedSliceAt(s: seq<int>, start: int, end: int, i: int)
    requires 0 <= start <= end < |s| && 0 <= i <= end - start
    ensures Reverse(s[start..end + 1])[i] == s[end - i]
  {
  }

  /** Without `left`, the slice is bits `end` down to `start`, mirrored. */
  lemma SliceRight(word: nat, start: int, end: int)
    requires word < 0x1_0000 && 0 <= start <= end <= 15
    ensures SliceBits(word, start, end, false) == MirroredField(word, start, end)
  {
    RightField(word, start, end);
    RightFieldBits(word, start, end);
    WeightedOfMirroredBits(BinaryDigits(word, 16)[15 - end..16 - start], word, start, end);
  }

  /** Without `left`, the digits taken are `15 - end..15 - start` of the
    * sixteen, in order. */
  lemma RightField(word: nat, start: int, end: int)
    requires word < 0x1_0000 && 0 <= start <= end <= 15
    ensures |BinaryDigits(word, 16)| == 16
    ensures SliceBits(word, start, end, false) == Weighted(BinaryDigits(word, 16)[15 - end..16 - start])
  {
    SixteenLong(word);
    var digits := BinaryDigits(word, 16);
    assert Take(Skip(digits, 15 - end), end - start + 1) == digits[15 - end..16 - start];
  }

  /** Those digits are bits `end` down to `start`. */
  lemma RightFieldBits(word: nat, start: int, end: int)
    requires word < 0x1_0000 && 0 <= start <= end <= 15
    ensures |BinaryDigits(word, 16)| == 16
    ensures var t := BinaryDigits(word, 16)[15 - end..16 - start];
            forall i :: 0 <= i < |t| ==> t[i] == Bit(word, end - i)
  {
    SixteenLong(word);
    var t := BinaryDigits(word, 16)[15 - end..16 - start];
    forall i | 0 <= i < |t|
      ensures t[i] == Bit(word, end - i)
    {
      DigitIsBit(word, 15 - end + i);
    }
  }

  /** A single-bit slice `r:s` reads bit `15 - s` with `left` and bit `s`
    * otherwise. */
  lemma SliceSingleBit(word: nat, s: int)
    requires word < 0x1_0000 && 0 <= s <= 15
    ensures SliceBits(word, s, s, true) == Bit(word, 15 - s)
    ensures SliceBits(word, s, s, false) == Bit(word, s)
  {
    SliceLeft(word, s, s);
    SliceRight(word, s, s);
    assert MirroredField(word, s, s - 1) == 0;
  }

  /** `ReadInt16Bit(beginAddress, address, values, left)`: the register of
    * the part before ':', then, when the address splits on ':' and '-' into
    * two or more parts, the bit slice from part 1 to part 3 (part 1 alone
    * unless there are exactly four parts), cast to `short`. The bit numbers
    * go through `int.Parse`, whose exception is not caught; the slice is
    * taken even from the default value of a failed register read. */
  function ReadInt16Bit(beginAddress: int, address: string, values: seq<byte>, left: bool): (r: Extracted<int>)
    ensures r.Got? ==> -0x8000 <= r.value < 0x8000
  {
    var word := ReadWords(DecimalString(beginAddress), Split(address, {':'})[0], values, 1, true, x => x);
    match word
    case Threw => Threw
    case Got(ok, w) =>
      var parts := Split(address, {':', '-'});
      if |parts| < 2 then word
      else
        match ParseInt(Trim(parts[1]))
        case None => Threw
        case Some(s) =>
          var e := if |parts| == 4 then ParseInt(Trim(parts[3])) else Some(s);
          if e.None? then Threw
          else Got(ok, ToShort(SliceBits(ToUShort(w), s, e.value, left)))
  }

  /** A bit-field address whose bit numbers parse, `start <= end` within
    * the sixteen bits: the value is the `short` of the field of the register
    * read. With `left` that is bits `15 - end..15 - start` in place (bit
    * `15 - s` for a single bit `s`); without it, bits `end` down to `start`
    * read back to front (bit `s` for a single bit). */
  lemma {:induction false} BitFieldValue(beginAddress: int, address: string, values: seq<byte>, left: bool,
                                         ok: bool, w: int, start: int, end: int)
    requires ReadWords(DecimalString(beginAddress), Split(address, {':'})[0], values, 1, true, x => x) == Got(ok, w)
    requires |Split(address, {':', '-'})| >= 2
    requires ParseInt(Trim(Split(address, {':', '-'})[1])) == Some(start)
    requires |Split(address, {':', '-'})| == 4 ==> ParseInt(Trim(Split(address, {':', '-'})[3])) == Some(end)
    requires |Split(address, {':', '-'})| != 4 ==> end == start
    requires 0 <= start <= end <= 15
    ensures left ==> ReadInt16Bit(beginAddress, address, values, left)
                     == Got(ok, ToShort((ToUShort(w) / Pow2(15 - end)) % Pow2(end - start + 1)))
    ensures !left ==> ReadInt16Bit(beginAddress, address, values, left)
                      == Got(ok, ToShort(MirroredField(ToUShort(w), start, end)))
    ensures start == end ==> ReadInt16Bit(beginAddress, address, values, left)
                             == Got(ok, ToShort(Bit(ToUShort(w), if left then 15 - start else start)))
  {
    BitFieldSlice(beginAddress, address, values, left, ok, w, start, end);
    var u := ToUShort(w);
    if left {
      SliceLeft(u, start, end);
    } else {
      SliceRight(u, start, end);
    }
    if start == end {
      SliceSingleBit(u, start);
    }
  }

  lemma BitFieldSlice(beginAddress: int, address: string, values: seq<byte>, left: bool,
                      ok: bool, w: int, start: int, end: int)
    requires ReadWords(DecimalString(beginAddress), Split(address, {':'})[0], values, 1, true, x => x) == Got(ok, w)
    requires |Split(address, {':', '-'})| >= 2
    requires ParseInt(Trim(Split(address, {':', '-'})[1])) == Some(start)
    requires |Split(address, {':', '-'})| == 4 ==> ParseInt(Trim(Split(address, {':', '-'})[3])) == Some(end)
    requires |Split(address, {':', '-'})| != 4 ==> end == start
    ensures ReadInt16Bit(beginAddress, address, values, left) == Got(ok, ToShort(SliceBits(ToUShort(w), start, end, left)))
  {
  }

  /** An address with neither ':' nor '-' reads the plain register. */
  lemma PlainRegister(beginAddress: int, address: string, values: seq<byte>, left: bool)
    requires ':' !in address && '-' !in address
    ensures ReadInt16Bit(beginAddress, address, values, left)
      == ReadWords(DecimalString(beginAddress), address, values, 1, true, x => x)
  {
    SplitNoSeparator(address, {':'});
    SplitNoSeparator(address, {':', '-'});
  }
}
