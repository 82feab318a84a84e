/** Modbus/TCP framing of `ModbusTcpClient`: the MBAP header (Modbus Messaging
  * on TCP/IP Implementation Guide V1.0b, section 3.1.3) in front of the PDU,
  * the receive loop that trusts the header's length field, and the checks
  * `Read` and `Write` make on the reply. */
module ModbusTcp {
  import opened Wrappers
  import opened Bytes
  import opened Text
  import opened ModbusPdu
  import opened ModbusResult
  import ModbusPlanner
  import ModbusPlannerFacts

  /** The two transaction-identifier bytes the client stamps on a request. */
  datatype Tag = Tag(b0: byte, b1: byte)

  /** `check?[0] ?? 0x19`, `check?[1] ?? 0xB2`. */
  function TagOrDefault(check: Option<Tag>): (t: Tag)
    ensures check.Some? ==> t == check.value
    ensures check.None? ==> t == Tag(0x19, 0xB2)
  {
    match check
    case Some(t) => t
    case None => Tag(0x19, 0xB2)
  }

  /** The MBAP length field: how many bytes follow it. */
  function MbapLength(f: seq<byte>): int
    requires |f| >= 6
  {
    Word(f[4], f[5])
  }

  /** Bytes 0-3 of a request: the tag, then protocol identifier 0. */
  predicate TaggedTcp(f: seq<byte>, t: Tag) {
    |f| >= 6 && f[0] == t.b0 && f[1] == t.b1 && f[2] == 0 && f[3] == 0
  }

  /** A read request: twelve bytes, the header counting the six that
    * follow, then the read PDU. */
  predicate ReadFrame(f: seq<byte>, t: Tag, station: byte, code: byte, a: int, length: int) {
    |f| == 12 && TaggedTcp(f, t) && MbapLength(f) == |f| - 6 && ReadPdu(f[6..], station, code, a, length)
  }

  lemma ReadFrameLayout(t: Tag, station: byte, code: byte, a: int, length: int)
    requires 0 <= a < 0x1_0000 && 0 <= length < 0x1_0000
    ensures ReadFrame([t.b0, t.b1, 0, 0, 0, 6, station, code, HighByte(a), LowByte(a), HighByte(length), LowByte(length)],
                      t, station, code, a, length)
  {
    var f := [t.b0, t.b1, 0, 0, 0, 6, station, code, HighByte(a), LowByte(a), HighByte(length), LowByte(length)];
    assert f[6..] == [station, code, HighByte(a), LowByte(a), HighByte(length), LowByte(length)];
    ReadPduLayout(station, code, a, length);
  }

  /** The slot-by-slot fill of `GetReadCommand` once the address is known. */
  method ReadCommandAt(t: Tag, station: byte, code: byte, a: int, length: int) returns (f: seq<byte>)
    requires 0 <= a < 0x1_0000 && 0 <= length < 0x1_0000
    ensures ReadFrame(f, t, station, code, a, length)
  {
    var buffer := new byte[12](_ => 0);
    buffer[0] := t.b0;
    buffer[1] := t.b1;
    buffer[2] := 0;
    buffer[3] := 0;
    buffer[4] := 0;
    buffer[5] := 6;
    buffer[6] := station;
    buffer[7] := code;
    buffer[8] := HighByte(a);
    buffer[9] := LowByte(a);
    buffer[10] := HighByte(length);
    buffer[11] := LowByte(length);
    f := buffer[..];
    assert f == [t.b0, t.b1, 0, 0, 0, 6, station, code, HighByte(a), LowByte(a), HighByte(length), LowByte(length)];
    ReadFrameLayout(t, station, code, a, length);
  }

  /** `GetReadCommand`; `None` is the exception the address parse throws. */
  method GetReadCommand(address: string, plcAddresses: bool, station: byte, code: byte,
                        length: int, check: Option<Tag>) returns (r: Option<seq<byte>>)
    requires 0 <= length < 0x1_0000
    ensures r.None? <==> ResolveAddress(address, plcAddresses).None?
    ensures r.Some? ==>
      ReadFrame(r.value, TagOrDefault(check), station, code, ResolveAddress(address, plcAddresses).value, length)
  {
    var resolved := ResolveAddress(address, plcAddresses);
    if resolved.None? {
      return None;
    }
    var f := ReadCommandAt(TagOrDefault(check), station, code, resolved.value, length);
    return Some(f);
  }

  /** A single-register write: twelve bytes, the register-write PDU, and
    * the header's length field holding `mbap`. */
  predicate WriteRegisterFrame(f: seq<byte>, t: Tag, station: byte, a: int, value: int, mbap: int) {
    |f| == 12 && TaggedTcp(f, t) && MbapLength(f) == mbap && WriteRegisterPdu(f[6..], station, a, value)
  }

  lemma WriteRegisterFrameLayout(t: Tag, station: byte, a: int, hi: byte, lo: byte, mbapHi: byte, mbapLo: byte)
    requires 0 <= a < 0x1_0000
    ensures WriteRegisterFrame([t.b0, t.b1, 0, 0, mbapHi, mbapLo, station, 6, HighByte(a), LowByte(a), hi, lo],
                               t, station, a, Word(hi, lo), Word(mbapHi, mbapLo))
  {
    var f := [t.b0, t.b1, 0, 0, mbapHi, mbapLo, station, 6, HighByte(a), LowByte(a), hi, lo];
    assert f[6..] == [station, 6, HighByte(a), LowByte(a), hi, lo];
    WriteRegisterPduLayout(station, a, hi, lo);
  }

  /** A block write: the header's length field counts what follows while
    * that fits 16 bits, then the block-write PDU. */
  predicate BlockWriteFrame(f: seq<byte>, t: Tag, station: byte, code: byte, a: int, values: seq<byte>) {
    |f| == 13 + |values| && TaggedTcp(f, t)
    && (|values| < 0x1_0000 - 7 ==> MbapLength(f) == |f| - 6)
    && BlockWritePdu(f[6..], station, code, a, values)
  }

  lemma BlockWriteFrameLayout(t: Tag, station: byte, code: byte, a: int, values: seq<byte>)
    requires 0 <= a < 0x1_0000
    ensures var n := |values|;
      BlockWriteFrame([t.b0, t.b1, 0, 0, HighByte(7 + n), LowByte(7 + n)] + BlockWriteHead(station, code, a, n) + values,
                      t, station, code, a, values)
  {
    var n := |values|;
    var f := [t.b0, t.b1, 0, 0, HighByte(7 + n), LowByte(7 + n)] + BlockWriteHead(station, code, a, n) + values;
    assert f[6..] == BlockWriteHead(station, code, a, n) + values;
    if n < 0x1_0000 - 7 {
      HighLowBytes(7 + n);
    }
    BlockWritePduLayout(station, code, a, values);
  }

  /** The function-code-6 branch of `GetWriteCommand`: eleven bytes, the
    * last value byte appended; the header's length bytes are 7, 0, that is
    * 0x0700. */
  method WriteRegisterCommandAt(t: Tag, station: byte, a: int, hi: byte, lo: byte) returns (f: seq<byte>)
    requires 0 <= a < 0x1_0000
    ensures WriteRegisterFrame(f, t, station, a, Word(hi, lo), 0x0700)
  {
    var buffer := new byte[11](_ => 0);
    buffer[0] := t.b0;
    buffer[1] := t.b1;
    buffer[4] := 7;
    buffer[5] := 0;
    buffer[6] := station;
    buffer[7] := 6;
    buffer[8] := HighByte(a);
    buffer[9] := LowByte(a);
    buffer[10] := hi;
    f := buffer[..] + [lo];
    assert f == [t.b0, t.b1, 0, 0, 7, 0, station, 6, HighByte(a), LowByte(a), hi, lo];
    WriteRegisterFrameLayout(t, station, a, hi, lo, 7, 0);
  }

  /** The other branch of `GetWriteCommand`: thirteen header bytes, then
    * `values.CopyTo(buffer, 13)`. */
  method BlockWriteCommandAt(t: Tag, station: byte, code: byte, a: int, values: seq<byte>) returns (f: seq<byte>)
    requires 0 <= a < 0x1_0000
    ensures BlockWriteFrame(f, t, station, code, a, values)
  {
    var n := |values|;
    var head := BlockWriteHeader(t, station, code, a, n);
    f := head + values;
    BlockWriteFrameLayout(t, station, code, a, values);
  }

  /** The thirteen bytes `GetWriteCommand` writes before the values. */
  method BlockWriteHeader(t: Tag, station: byte, code: byte, a: int, n: int) returns (head: seq<byte>)
    ensures head == [t.b0, t.b1, 0, 0, HighByte(7 + n), LowByte(7 + n)] + BlockWriteHead(station, code, a, n)
  {
    var buffer := new byte[13](_ => 0);
    buffer[0] := t.b0;
    buffer[1] := t.b1;
    buffer[4] := HighByte(7 + n);
    buffer[5] := LowByte(7 + n);
    ghost var mbap := buffer[..6];
    assert mbap == [t.b0, t.b1, 0, 0, HighByte(7 + n), LowByte(7 + n)];
    buffer[6] := station;
    buffer[7] := code;
    buffer[8] := HighByte(a);
    buffer[9] := LowByte(a);
    buffer[10] := ToByte(n / 2 / 256);
    buffer[11] := ToByte(n / 2 % 256);
    buffer[12] := ToByte(n);
    head := buffer[..];
    assert head[..6] == mbap;
    assert head[6..] == BlockWriteHead(station, code, a, n);
    assert head == head[..6] + head[6..];
  }

  /** `GetWriteCommand` once the address is known: function code 6 needs
    * exactly two value bytes (the `ArgumentException` is `None`). */
  method WriteCommandAt(t: Tag, station: byte, code: byte, a: int, values: seq<byte>) returns (r: Option<seq<byte>>)
    requires 0 <= a < 0x1_0000
    ensures r.None? <==> code == 6 && |values| != 2
    ensures r.Some? && code == 6 ==> WriteRegisterFrame(r.value, t, station, a, Word(values[0], values[1]), 0x0700)
    ensures r.Some? && code != 6 ==> BlockWriteFrame(r.value, t, station, code, a, values)
  {
    if code == 6 {
      if |values| != 2 {
        return None;
      }
      var f := WriteRegisterCommandAt(t, station, a, values[0], values[1]);
      return Some(f);
    } else {
      var f := BlockWriteCommandAt(t, station, code, a, values);
      return Some(f);
    }
  }

  /** `GetWriteCommand`; `None` is an exception from the address parse or
    * from the length check. */
  method GetWriteCommand(address: string, plcAddresses: bool, values: seq<byte>, station: byte,
                         code: byte, check: Option<Tag>) returns (r: Option<seq<byte>>)
    ensures r.None? <==> ResolveAddress(address, plcAddresses).None? || (code == 6 && |values| != 2)
    ensures r.Some? && code == 6 ==>
      WriteRegisterFrame(r.value, TagOrDefault(check), station, ResolveAddress(address, plcAddresses).value,
                         Word(values[0], values[1]), 0x0700)
    ensures r.Some? && code != 6 ==>
      BlockWriteFrame(r.value, TagOrDefault(check), station, code, ResolveAddress(address, plcAddresses).value, values)
  {
    var resolved := ResolveAddress(address, plcAddresses);
    if resolved.None? {
      return None;
    }
    r := WriteCommandAt(TagOrDefault(check), station, code, resolved.value, values);
  }

  /** A coil write: twelve bytes, the header counting the six that follow,
    * then the coil-write PDU. */
  predicate CoilWriteFrame(f: seq<byte>, t: Tag, station: byte, code: byte, a: int, value: bool) {
    |f| == 12 && TaggedTcp(f, t) && MbapLength(f) == |f| - 6 && CoilWritePdu(f[6..], station, code, a, value)
  }

  lemma CoilWriteFrameLayout(t: Tag, station: byte, code: byte, a: int, value: bool)
    requires 0 <= a < 0x1_0000
    ensures CoilWriteFrame([t.b0, t.b1, 0, 0, 0, 6, station, code, HighByte(a), LowByte(a), if value then 0xFF else 0, 0],
                           t, station, code, a, value)
  {
    var f := [t.b0, t.b1, 0, 0, 0, 6, station, code, HighByte(a), LowByte(a), if value then 0xFF else 0, 0];
    assert f[6..] == [station, code, HighByte(a), LowByte(a), if value then 0xFF else 0, 0];
    CoilWritePduLayout(station, code, a, value);
  }

  /** The fill of `GetWriteCoilCommand` once the address is known. */
  method WriteCoilCommandAt(t: Tag, station: byte, code: byte, a: int, value: bool) returns (f: seq<byte>)
    requires 0 <= a < 0x1_0000
    ensures CoilWriteFrame(f, t, station, code, a, value)
  {
    var buffer := new byte[12](_ => 0);
    buffer[0] := t.b0;
    buffer[1] := t.b1;
    buffer[4] := 0;
    buffer[5] := 6;
    buffer[6] := station;
    buffer[7] := code;
    buffer[8] := HighByte(a);
    buffer[9] := LowByte(a);
    buffer[10] := if value then 0xFF else 0;
    buffer[11] := 0;
    f := buffer[..];
    assert f == [t.b0, t.b1, 0, 0, 0, 6, station, code, HighByte(a), LowByte(a), if value then 0xFF else 0, 0];
    CoilWriteFrameLayout(t, station, code, a, value);
  }

  /** `GetWriteCoilCommand`; `None` is the exception the address parse throws. */
  method GetWriteCoilCommand(address: string, plcAddresses: bool, value: bool, station: byte,
                             code: byte, check: Option<Tag>) returns (r: Option<seq<byte>>)
    ensures r.None? <==> ResolveAddress(address, plcAddresses).None?
    ensures r.Some? ==>
      CoilWriteFrame(r.value, TagOrDefault(check), station, code, ResolveAddress(address, plcAddresses).value, value)
  {
    var resolved := ResolveAddress(address, plcAddresses);
    if resolved.None? {
      return None;
    }
    var f := WriteCoilCommandAt(TagOrDefault(check), station, code, resolved.value, value);
    return Some(f);
  }

  /** The function-code-6 request with a header that counts the six bytes
    * that follow it, as section 3.1.3 of the TCP implementation guide asks. */
  method WriteRegisterCommandFixed(t: Tag, station: byte, a: int, hi: byte, lo: byte) returns (f: seq<byte>)
    requires 0 <= a < 0x1_0000
    ensures WriteRegisterFrame(f, t, station, a, Word(hi, lo), |f| - 6)
  {
    var buffer := new byte[12](_ => 0);
    buffer[0] := t.b0;
    buffer[1] := t.b1;
    buffer[4] := 0;
    buffer[5] := 6;
    buffer[6] := station;
    buffer[7] := 6;
    buffer[8] := HighByte(a);
    buffer[9] := LowByte(a);
    buffer[10] := hi;
    buffer[11] := lo;
    f := buffer[..];
    assert f == [t.b0, t.b1, 0, 0, 0, 6, station, 6, HighByte(a), LowByte(a), hi, lo];
    WriteRegisterFrameLayout(t, station, a, hi, lo, 0, 6);
  }

  /** `SocketRead(n)` on what the peer has sent: exactly `n` bytes, or a
    * failure when the stream ends first or `n` is negative. */
  function SocketRead(stream: seq<byte>, n: int): (r: Option<seq<byte>>)
    ensures r.Some? <==> 0 <= n <= |stream|
    ensures r.Some? ==> r.value == stream[..n]
  {
    if 0 <= n <= |stream| then Some(stream[..n]) else None
  }

  /** `SendPackageSingle` after the send: an eight-byte head, then as many
    * bytes as the head's length field says still follow. */
  function SendPackageSingle(stream: seq<byte>): (r: Option<seq<byte>>)
    ensures r.Some? ==> 8 <= |r.value| <= |stream| && |r.value| == 6 + MbapLength(r.value) && r.value == stream[..|r.value|]
    ensures r.None? <==> |stream| < 8 || MbapLength(stream) < 2 || |stream| < 6 + MbapLength(stream)
  {
    match SocketRead(stream, 8)
    case None => None
    case Some(head) =>
      var length: int := head[4] as int * 256 + head[5] as int - 2;
      match SocketRead(stream[8..], length)
      case None => None
      case Some(data) =>
        assert head + data == stream[..8 + length];
        Some(head + data)
  }

  /** The reply a device sends to a read: the echoed tag, a header counting
    * the unit, function, byte count and data bytes, then the data. */
  function ReadResponse(t: Tag, unit: byte, code: byte, data: seq<byte>): (f: seq<byte>)
    requires |data| < 256
  {
    [t.b0, t.b1, 0, 0, HighByte(3 + |data|), LowByte(3 + |data|), unit, code, |data|] + data
  }

  /** The receive loop stops exactly at the end of a well-formed reply,
    * whatever follows it on the stream. */
  lemma ReceiveReadResponse(t: Tag, unit: byte, code: byte, data: seq<byte>, rest: seq<byte>)
    requires |data| < 256
    ensures SendPackageSingle(ReadResponse(t, unit, code, data) + rest) == Some(ReadResponse(t, unit, code, data))
  {
    var f := ReadResponse(t, unit, code, data);
    HighLowBytes(3 + |data|);
    assert (f + rest)[..|f|] == f;
  }

  /** `Read` once the request is sent: the payload is everything from byte 9,
    * reversed and optionally passed through `ByteFormatting` (`fmt`). A reply
    * shorter than nine bytes makes `new byte[len - 9]` throw an exception the
    * method does not catch. A foreign tag fails the call but keeps the value. */
  function TcpReadReply(t: Tag, sent: Option<seq<byte>>, formatting: bool,
                        fmt: seq<byte> -> seq<byte>): (r: Outcome)
    ensures sent.None? ==> r == Returned(false, None, SendFailed)
    ensures sent.Some? ==> (r.Escaped? <==> |sent.value| < 9)
    ensures r.Returned? && r.isSucceed <==>
      sent.Some? && |sent.value| >= 9 && sent.value[0] == t.b0 && sent.value[1] == t.b1
    ensures r.Returned? && sent.Some? ==>
      r.value.Some? && !formatting ==> Reverse(r.value.value) == sent.value[9..]
    ensures r.Returned? && sent.Some? ==>
      r.value.Some? && (formatting ==> r.value.value == fmt(Reverse(sent.value[9..])))
  {
    match sent
    case None => Returned(false, None, SendFailed)
    case Some(reply) =>
      if |reply| < 9 then Escaped
      else
        ReverseReverse(reply[9..]);
        var payload := Reverse(reply[9..]);
        var value := if formatting then fmt(payload) else payload;
        if t.b0 != reply[0] || t.b1 != reply[1] then Returned(false, Some(value), TagMismatch)
        else Returned(true, Some(value), NoError)
  }

  /** A device's well-formed reply to a tagged read is accepted, and its data
    * comes back reversed. */
  lemma ReadOfResponse(t: Tag, unit: byte, code: byte, data: seq<byte>, fmt: seq<byte> -> seq<byte>)
    requires |data| < 256
    ensures TcpReadReply(t, SendPackageSingle(ReadResponse(t, unit, code, data)), false, fmt)
      == Returned(true, Some(Reverse(data)), NoError)
  {
    var f := ReadResponse(t, unit, code, data);
    ReceiveReadResponse(t, unit, code, data, []);
    assert f + [] == f;
    assert f[9..] == data;
    TaggedReply(t, f, fmt);
  }

  /** A reply of nine bytes or more that echoes the tag is accepted with its
    * bytes from 9 on, reversed. */
  lemma TaggedReply(t: Tag, reply: seq<byte>, fmt: seq<byte> -> seq<byte>)
    requires |reply| >= 9 && reply[0] == t.b0 && reply[1] == t.b1
    ensures TcpReadReply(t, Some(reply), false, fmt) == Returned(true, Some(Reverse(reply[9..])), NoError)
  {
  }

  /** The window read of `BatchRead` through the TCP client (`Read` with
    * `byteFormatting` false): a reply shorter than nine bytes reaches the
    * planner as an exception, a foreign tag as a failure, and a tagged reply
    * as its bytes from 9 on, reversed, as `Read` returns them. */
  lemma TcpReplyToPlanner(t: Tag, reply: seq<byte>, fmt: seq<byte> -> seq<byte>)
    ensures |reply| < 9 ==> ModbusPlanner.ReplyOf(TcpReadReply(t, Some(reply), false, fmt)) == ModbusPlanner.ReadThrew
    ensures |reply| >= 9 && (reply[0] != t.b0 || reply[1] != t.b1) ==>
              ModbusPlanner.ReplyOf(TcpReadReply(t, Some(reply), false, fmt)) == ModbusPlanner.ReadFailed
    ensures |reply| >= 9 && reply[0] == t.b0 && reply[1] == t.b1 ==>
              ModbusPlanner.ReplyOf(TcpReadReply(t, Some(reply), false, fmt)) == ModbusPlanner.ReadValue(Reverse(reply[9..]))
  {
    if |reply| >= 9 && reply[0] == t.b0 && reply[1] == t.b1 {
      TaggedReply(t, reply, fmt);
    }
  }

  /** End to end: a tagged reply whose data is one register, high byte
    * first, gives that register's value for a `UInt16` point at the window
    * start, through `ReplyOf` and the planner's `Extract`. */
  lemma TcpRegisterDecodes(t: Tag, header: seq<byte>, hi: byte, lo: byte, min: int,
                           fmt: seq<byte> -> seq<byte>, pad: nat)
    requires |header| == 7 && 0 <= min <= IntMax
    ensures var r := ModbusPlanner.ReplyOf(TcpReadReply(t, Some([t.b0, t.b1] + header + [hi, lo]), false, fmt));
            r.ReadValue? &&
            ModbusPlanner.Extract(fmt, pad)(ModbusPlanner.Slot(DecimalString(min), min, ModbusPlanner.UInt16), min, r.value)
              == Some(ModbusPlanner.Number(hi * 256 + lo))
  {
    var reply := [t.b0, t.b1] + header + [hi, lo];
    assert reply[9..] == [hi, lo];
    TcpReplyToPlanner(t, reply, fmt);
    assert Reverse(reply[9..]) == [lo, hi];
    ModbusPlannerFacts.ExtractRegister(min, hi, lo, fmt, pad);
  }

  /** `Write` once the request is sent: the tag must match, then
    * `ModbusHelper.VerifyFunctionCode(code, reply[7])` (`isException`) flags a
    * device exception whose code is byte 8. Indexing a reply too short for
    * the check it reaches throws an exception the method does not catch. */
  function TcpWriteReply(t: Tag, code: byte, sent: Option<seq<byte>>,
                         isException: (byte, byte) -> bool): (r: Outcome)
    ensures r.Returned? ==> r.value.None?
    ensures r.Returned? && r.isSucceed <==>
      sent.Some? && |sent.value| >= 8 && sent.value[0] == t.b0 && sent.value[1] == t.b1
      && !isException(code, sent.value[7])
    ensures sent.Some? && |sent.value| >= 2 && (sent.value[0] != t.b0 || sent.value[1] != t.b1) ==>
      r == Returned(false, None, TagMismatch)
  {
    match sent
    case None => Returned(false, None, SendFailed)
    case Some(reply) =>
      if |reply| < 2 then Escaped
      else if t.b0 != reply[0] || t.b1 != reply[1] then Returned(false, None, TagMismatch)
      else if |reply| < 8 then Escaped
      else if isException(code, reply[7]) then
        if |reply| < 9 then Escaped else Returned(false, None, DeviceError(reply[8]))
      else Returned(true, None, NoError)
  }

  /** An exception response (function code with its high bit set, then the
    * exception code) that the helper recognises is reported with its code. */
  lemma WriteOfExceptionResponse(t: Tag, unit: byte, code: byte, exceptionCode: byte,
                                 isException: (byte, byte) -> bool)
    requires code < 0x80 && isException(code, code + 0x80)
    ensures TcpWriteReply(t, code, Some([t.b0, t.b1, 0, 0, 0, 3, unit, code + 0x80, exceptionCode]), isException)
      == Returned(false, None, DeviceError(exceptionCode))
  {
  }
}
