/** The request layout the Modbus Application Protocol (V1.1b3, sections
  * 6.1-6.6 and 6.12) gives a unit identifier followed by a PDU, as a decoder.
  * The frame builders of both transports are proved against it. */
module ModbusPdu {
  import opened Wrappers
  import opened Bytes
  import opened Text

  /** What a request asks of the device. */
  datatype Request =
    | ReadItems(unit: byte, code: byte, start: int, quantity: int)
    | WriteSingle(unit: byte, code: byte, address: int, value: int)
    | WriteMultiple(unit: byte, code: byte, start: int, quantity: int, payload: seq<byte>)

  function Word(hi: byte, lo: byte): int {
    hi * 256 + lo
  }

  /** Decodes `unit, function, ...`: function codes 1-4 are reads of six bytes,
    * 5 and 6 single writes of six bytes, 16 a register block write whose byte
    * count is twice its register count. */
  function DecodeRequest(f: seq<byte>): (r: Option<Request>)
    ensures r.Some? ==> |f| >= 6 && r.value.unit == f[0] && r.value.code == f[1]
  {
    if |f| < 6 then None
    else
      var unit: byte, fc: byte := f[0], f[1];
      var a: int, q: int := Word(f[2], f[3]), Word(f[4], f[5]);
      if 1 <= fc <= 4 then
        if |f| == 6 then Some(ReadItems(unit, fc, a, q)) else None
      else if fc == 5 || fc == 6 then
        if |f| == 6 then Some(WriteSingle(unit, fc, a, q)) else None
      else if fc == 16 then
        if |f| >= 7 && |f| == 7 + f[6] as int && f[6] as int == 2 * q then Some(WriteMultiple(unit, fc, a, q, f[7..]))
        else None
      else None
  }

  /** A six-byte PDU with a read function code decodes to its fields. */
  lemma DecodeRead(f: seq<byte>)
    requires |f| == 6 && 1 <= f[1] <= 4
    ensures DecodeRequest(f) == Some(ReadItems(f[0], f[1], Word(f[2], f[3]), Word(f[4], f[5])))
  {
  }

  /** A six-byte PDU with function code 5 or 6 decodes to a single write. */
  lemma DecodeSingleWrite(f: seq<byte>)
    requires |f| == 6 && (f[1] == 5 || f[1] == 6)
    ensures DecodeRequest(f) == Some(WriteSingle(f[0], f[1], Word(f[2], f[3]), Word(f[4], f[5])))
  {
  }

  /** A block write decodes when its byte count is the payload length and
    * twice its register count. */
  lemma DecodeMultipleWrite(f: seq<byte>)
    requires |f| >= 7 && f[1] == 16 && f[6] as int == |f| - 7 && f[6] as int == 2 * Word(f[4], f[5])
    ensures DecodeRequest(f) == Some(WriteMultiple(f[0], 16, Word(f[2], f[3]), Word(f[4], f[5]), f[7..]))
  {
  }

  /** A read PDU: station, function code, start address and quantity as
    * big-endian words; with a read function code it decodes to the read. */
  predicate ReadPdu(p: seq<byte>, station: byte, code: byte, a: int, length: int) {
    |p| == 6 && p[0] == station && p[1] == code && Word(p[2], p[3]) == a && Word(p[4], p[5]) == length
    && (1 <= code <= 4 ==> DecodeRequest(p) == Some(ReadItems(station, code, a, length)))
  }

  lemma ReadPduLayout(station: byte, code: byte, a: int, length: int)
    requires 0 <= a < 0x1_0000 && 0 <= length < 0x1_0000
    ensures ReadPdu([station, code, HighByte(a), LowByte(a), HighByte(length), LowByte(length)], station, code, a, length)
  {
    HighLowBytes(a);
    HighLowBytes(length);
    if 1 <= code <= 4 {
      DecodeRead([station, code, HighByte(a), LowByte(a), HighByte(length), LowByte(length)]);
    }
  }

  /** A single-register write PDU (function code 6) of `value` at `a`. */
  predicate WriteRegisterPdu(p: seq<byte>, station: byte, a: int, value: int) {
    |p| == 6 && DecodeRequest(p) == Some(WriteSingle(station, 6, a, value))
  }

  lemma WriteRegisterPduLayout(station: byte, a: int, hi: byte, lo: byte)
    requires 0 <= a < 0x1_0000
    ensures WriteRegisterPdu([station, 6, HighByte(a), LowByte(a), hi, lo], station, a, Word(hi, lo))
  {
    HighLowBytes(a);
    DecodeSingleWrite([station, 6, HighByte(a), LowByte(a), hi, lo]);
  }

  /** A block-write PDU of `values`: the quantity is `|values| / 2`, the byte
    * count `|values|` cut to eight bits, the payload follows unchanged; for
    * function code 16 and an even payload of at most 254 bytes it decodes to
    * the block write. */
  predicate BlockWritePdu(p: seq<byte>, station: byte, code: byte, a: int, values: seq<byte>) {
    var n := |values|;
    |p| == 7 + n && p[7..] == values
    && p[0] == station && p[1] == code && Word(p[2], p[3]) == a && p[6] == n % 256
    && (n < 0x2_0000 ==> Word(p[4], p[5]) == n / 2)
    && (code == 16 && n % 2 == 0 && n < 256 ==> DecodeRequest(p) == Some(WriteMultiple(station, 16, a, n / 2, values)))
  }

  /** The seven bytes in front of a block write's payload. */
  function BlockWriteHead(station: byte, code: byte, a: int, n: int): (h: seq<byte>)
    ensures |h| == 7
  {
    [station, code, HighByte(a), LowByte(a), ToByte(n / 2 / 256), ToByte(n / 2 % 256), ToByte(n)]
  }

  lemma BlockWritePduLayout(station: byte, code: byte, a: int, values: seq<byte>)
    requires 0 <= a < 0x1_0000
    ensures BlockWritePdu(BlockWriteHead(station, code, a, |values|) + values, station, code, a, values)
  {
    var n := |values|;
    var p := BlockWriteHead(station, code, a, n) + values;
    assert p[7..] == values;
    HighLowBytes(a);
    if n < 0x2_0000 {
      HighLowBytes(n / 2);
      assert ToByte(n / 2 / 256) == HighByte(n / 2) && ToByte(n / 2 % 256) == LowByte(n / 2);
    }
    if code == 16 && n % 2 == 0 && n < 256 {
      DecodeMultipleWrite(p);
    }
  }

  /** A coil-write PDU: 0xFF 0x00 switches on, 0x00 0x00 off; with function
    * code 5 or 6 it decodes to the single write of 0xFF00 or 0. */
  predicate CoilWritePdu(p: seq<byte>, station: byte, code: byte, a: int, value: bool) {
    |p| == 6 && p[0] == station && p[1] == code && Word(p[2], p[3]) == a
    && p[4] == (if value then 0xFF else 0) && p[5] == 0
    && (code == 5 || code == 6 ==> DecodeRequest(p) == Some(WriteSingle(station, code, a, if value then 0xFF00 else 0)))
  }

  lemma CoilWritePduLayout(station: byte, code: byte, a: int, value: bool)
    requires 0 <= a < 0x1_0000
    ensures CoilWritePdu([station, code, HighByte(a), LowByte(a), if value then 0xFF else 0, 0], station, code, a, value)
  {
    HighLowBytes(a);
    if code == 5 || code == 6 {
      DecodeSingleWrite([station, code, HighByte(a), LowByte(a), if value then 0xFF else 0, 0]);
    }
  }

  /** The register address of a point: the trimmed text as a `ushort`; with
    * PLC-style addressing the text after its first character, minus one,
    * wrapped to 16 bits. Both parses must succeed. `None` is the exception
    * `ushort.Parse` throws. */
  function ResolveAddress(address: string, plcAddresses: bool): (r: Option<int>)
    ensures r.Some? ==> 0 <= r.value < 0x1_0000
    ensures !plcAddresses ==> r == ParseUShort(Trim(address))
    ensures r.Some? ==> ParseUShort(Trim(address)).Some?
  {
    var t := Trim(address);
    match ParseUShort(t)
    case None => None
    case Some(a) =>
      if !plcAddresses then Some(a)
      else if |t| == 0 then None
      else
        match ParseUShort(t[1..])
        case None => None
        case Some(b) => Some(ToUShort(b - 1))
  }

  /** With PLC-style addressing the register is one below the number after
    * the leading digit, wrapped to 16 bits. */
  lemma PlcAddress(t: string)
    requires |t| >= 2 && IsDigits(t)
    requires ParseUShort(t).Some? && ParseUShort(t[1..]).Some?
    ensures ResolveAddress(t, true) == Some(ToUShort(ParseUShort(t[1..]).value - 1))
  {
    TrimPlain(t);
  }

  /** The register text "40000" resolves to the last register, 65535. */
  lemma PlcAddressWraps()
    ensures ResolveAddress("40000", true) == Some(65535)
  {
    assert DigitsValue("0000") == 0 by {
      assert "0000"[..3] == "000";
      assert "000"[..2] == "00";
      assert "00"[..1] == "0";
    }
    assert DigitsValue("40000") == 40000 by {
      assert "40000"[..4] == "4000";
      assert "4000"[..3] == "400";
      assert "400"[..2] == "40";
      assert "40"[..1] == "4";
    }
    var t := "40000";
    assert t[1..] == "0000";
    TrimPlain(t);
    TrimPlain(t[1..]);
    assert SignedValue(t) == Some(40000);
    assert SignedValue(t[1..]) == Some(0);
    assert ParseUShort(t) == Some(40000);
    assert ParseUShort(t[1..]) == Some(0);
    PlcAddress(t);
  }
}
