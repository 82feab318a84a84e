/** RTU framing shared by `ModbusRtuOverTcpClient` and `ModbusSerialBase`: the
  * bare PDU with a CRC appended (Modbus over Serial Line V1.02, sections
  * 2.5.1 and 6.2.2), the reply length computed from the request, and the
  * checks `Read` and `Write` make on the reply. `CRC16.GetCRC16` is the
  * parameter `crc`, `CRC16.CheckCRC16` the parameter `checkCrc`, and
  * `ByteFormatting` the parameter `fmt`. */
module ModbusRtu {
  import opened Wrappers
  import opened Bytes
  import opened Text
  import opened ModbusPdu
  import opened ModbusResult

  /** `CRC16.GetCRC16` returns the frame with two check bytes appended. */
  ghost predicate AppendsTwo(crc: seq<byte> -> seq<byte>) {
    forall x :: |crc(x)| == |x| + 2 && crc(x)[..|x|] == x
  }

  /** The fill of `GetReadCommand` once the address is known. */
  method ReadCommandAt(station: byte, code: byte, a: int, length: int) returns (f: seq<byte>)
    requires 0 <= a < 0x1_0000 && 0 <= length < 0x1_0000
    ensures ReadPdu(f, station, code, a, length)
  {
    var buffer := new byte[6](_ => 0);
    buffer[0] := station;
    buffer[1] := code;
    buffer[2] := HighByte(a);
    buffer[3] := LowByte(a);
    buffer[4] := HighByte(length);
    buffer[5] := LowByte(length);
    f := buffer[..];
    assert f == [station, code, HighByte(a), LowByte(a), HighByte(length), LowByte(length)];
    ReadPduLayout(station, code, a, length);
  }

  /** `GetReadCommand`; `None` is the exception the address parse throws. */
  method GetReadCommand(address: string, plcAddresses: bool, station: byte, code: byte,
                        length: int) returns (r: Option<seq<byte>>)
    requires 0 <= length < 0x1_0000
    ensures r.None? <==> ResolveAddress(address, plcAddresses).None?
    ensures r.Some? ==> ReadPdu(r.value, station, code, ResolveAddress(address, plcAddresses).value, length)
  {
    var resolved := ResolveAddress(address, plcAddresses);
    if resolved.None? {
      return None;
    }
    var f := ReadCommandAt(station, code, resolved.value, length);
    return Some(f);
  }

  /** `GetWriteCommand` once the address is known: function code 6 takes
    * exactly two value bytes (the `ArgumentException` is `None`), any other
    * code the block-write layout. */
  method WriteCommandAt(station: byte, code: byte, a: int, values: seq<byte>) returns (r: Option<seq<byte>>)
    requires 0 <= a < 0x1_0000
    ensures r.None? <==> code == 6 && |values| != 2
    ensures r.Some? && code == 6 ==> WriteRegisterPdu(r.value, station, a, Word(values[0], values[1]))
    ensures r.Some? && code != 6 ==> BlockWritePdu(r.value, station, code, a, values)
  {
    if code == 6 {
      if |values| != 2 {
        return None;
      }
      var buffer := new byte[6](_ => 0);
      buffer[0] := station;
      buffer[1] := code;
      buffer[2] := HighByte(a);
      buffer[3] := LowByte(a);
      buffer[4] := values[0];
      buffer[5] := values[1];
      var f := buffer[..];
      assert f == [station, 6, HighByte(a), LowByte(a), values[0], values[1]];
      WriteRegisterPduLayout(station, a, values[0], values[1]);
      return Some(f);
    } else {
      var n := |values|;
      var buffer := new byte[7 + n](_ => 0);
      buffer[0] := station;
      buffer[1] := code;
      buffer[2] := HighByte(a);
      buffer[3] := LowByte(a);
      buffer[4] := ToByte(n / 2 / 256);
      buffer[5] := ToByte(n / 2 % 256);
      buffer[6] := ToByte(n);
      // `values.CopyTo(buffer, 7)`
      var f := buffer[..7] + values;
      assert buffer[..7] == BlockWriteHead(station, code, a, n);
      BlockWritePduLayout(station, code, a, values);
      return Some(f);
    }
  }

  /** `GetWriteCommand`; `None` is an exception from the address parse or
    * from the length check. */
  method GetWriteCommand(address: string, plcAddresses: bool, values: seq<byte>, station: byte,
                         code: byte) returns (r: Option<seq<byte>>)
    ensures r.None? <==> ResolveAddress(address, plcAddresses).None? || (code == 6 && |values| != 2)
    ensures r.Some? && code == 6 ==>
      WriteRegisterPdu(r.value, station, ResolveAddress(address, plcAddresses).value, Word(values[0], values[1]))
    ensures r.Some? && code != 6 ==>
      BlockWritePdu(r.value, station, code, ResolveAddress(address, plcAddresses).value, values)
  {
    var resolved := ResolveAddress(address, plcAddresses);
    if resolved.None? {
      return None;
    }
    r := WriteCommandAt(station, code, resolved.value, values);
  }

  /** The fill of `GetWriteCoilCommand` once the address is known. */
  method WriteCoilCommandAt(station: byte, code: byte, a: int, value: bool) returns (f: seq<byte>)
    requires 0 <= a < 0x1_0000
    ensures CoilWritePdu(f, station, code, a, value)
  {
    var buffer := new byte[6](_ => 0);
    buffer[0] := station;
    buffer[1] := code;
    buffer[2] := HighByte(a);
    buffer[3] := LowByte(a);
    buffer[4] := if value then 0xFF else 0;
    buffer[5] := 0;
    f := buffer[..];
    assert f == [station, code, HighByte(a), LowByte(a), if value then 0xFF else 0, 0];
    CoilWritePduLayout(station, code, a, value);
  }

  /** `GetWriteCoilCommand`; `None` is the exception the address parse throws. */
  method GetWriteCoilCommand(address: string, plcAddresses: bool, value: bool, station: byte,
                             code: byte) returns (r: Option<seq<byte>>)
    ensures r.None? <==> ResolveAddress(address, plcAddresses).None?
    ensures r.Some? ==> CoilWritePdu(r.value, station, code, ResolveAddress(address, plcAddresses).value, value)
  {
    var resolved := ResolveAddress(address, plcAddresses);
    if resolved.None? {
      return None;
    }
    var f := WriteCoilCommandAt(station, code, resolved.value, value);
    return Some(f);
  }

  /** The bytes of data a device returns for `quantity` items: one bit per
    * coil or discrete input (function codes 1 and 2), two bytes per register
    * otherwise (sections 6.1-6.4 of the application protocol). */
  predicate CarriesItems(code: byte, quantity: nat, dataBytes: nat) {
    if code == 1 || code == 2 then
      quantity <= 8 * dataBytes && (dataBytes == 0 || 8 * (dataBytes - 1) < quantity)
    else dataBytes == 2 * quantity
  }

  /** The reply length `Read` waits for: `5 + ceil(n / 8)` for bits,
    * `5 + 2n` for registers. The single-precision division in the source is
    * exact for every `ushort` count. */
  function ExpectedReplyLength(code: byte, quantity: nat): (len: nat)
    ensures len >= 5 && CarriesItems(code, quantity, len - 5)
  {
    if code == 1 || code == 2 then 5 + (quantity / 8 + if quantity % 8 == 0 then 0 else 1)
    else 5 + quantity * 2
  }

  /** A device's reply to a read: station, function, byte count, data, CRC. */
  function ReadResponse(unit: byte, code: byte, data: seq<byte>, crc: seq<byte> -> seq<byte>): seq<byte>
    requires |data| < 256
  {
    crc([unit, code, |data|] + data)
  }

  /** The computed length is exactly the length of the device's reply. */
  lemma ExpectedLengthMatchesResponse(unit: byte, code: byte, quantity: nat, data: seq<byte>,
                                      crc: seq<byte> -> seq<byte>)
    requires |data| < 256 && AppendsTwo(crc) && CarriesItems(code, quantity, |data|)
    ensures |ReadResponse(unit, code, data, crc)| == ExpectedReplyLength(code, quantity)
  {
    var e := ExpectedReplyLength(code, quantity);
    var body := [unit, code, |data|] + data;
    assert |crc(body)| == |body| + 2;
    if code == 1 || code == 2 {
      var d := e - 5;
      assert d <= |data|;
      assert |data| <= d;
    }
  }

  /** `Read` once the request is sent. An empty reply fails before slicing; a
    * CRC mismatch fails the call but the payload, bytes 3 to `len - 2`
    * reversed, is still stored; a reply of one to four bytes makes the slice
    * throw, which the method catches. Nothing escapes. */
  function RtuReadReply(sent: Option<seq<byte>>, checkCrc: seq<byte> -> bool, formatting: bool,
                        fmt: seq<byte> -> seq<byte>): (r: Outcome)
    ensures r.Returned?
    ensures r.isSucceed <==> sent.Some? && |sent.value| >= 5 && checkCrc(sent.value)
    ensures sent.Some? && |sent.value| == 0 ==> r == Returned(false, None, EmptyReply)
    ensures r.value.Some? <==> sent.Some? && |sent.value| >= 5
    ensures r.value.Some? && !formatting ==> Reverse(r.value.value) == sent.value[3..|sent.value| - 2]
    ensures r.value.Some? && formatting ==> r.value.value == fmt(Reverse(sent.value[3..|sent.value| - 2]))
  {
    match sent
    case None => Returned(false, None, SendFailed)
    case Some(reply) =>
      if |reply| == 0 then Returned(false, None, EmptyReply)
      else if |reply| < 5 then Returned(false, None, Caught)
      else
        var payload := Reverse(reply[3..|reply| - 2]);
        ReverseReverse(reply[3..|reply| - 2]);
        var value := if formatting then fmt(payload) else payload;
        if !checkCrc(reply) then Returned(false, Some(value), CrcMismatch)
        else Returned(true, Some(value), NoError)
  }

  /** Bytes 3 to `len - 2` of a read reply are its data. */
  lemma ResponsePayload(unit: byte, code: byte, data: seq<byte>, crc: seq<byte> -> seq<byte>)
    requires |data| < 256 && AppendsTwo(crc)
    ensures var f := ReadResponse(unit, code, data, crc); |f| == |data| + 5 && f[3..|f| - 2] == data
  {
    var body: seq<byte> := [unit, code, |data|] + data;
    var f := crc(body);
    assert f[..|body|] == body;
    assert f[3..|body|] == body[3..] == data;
  }

  /** A device's reply that passes the CRC check hands back its data
    * reversed. */
  lemma ReadOfResponse(unit: byte, code: byte, data: seq<byte>, crc: seq<byte> -> seq<byte>,
                       checkCrc: seq<byte> -> bool, fmt: seq<byte> -> seq<byte>)
    requires |data| < 256 && AppendsTwo(crc) && checkCrc(ReadResponse(unit, code, data, crc))
    ensures RtuReadReply(Some(ReadResponse(unit, code, data, crc)), checkCrc, false, fmt)
      == Returned(true, Some(Reverse(data)), NoError)
  {
    ResponsePayload(unit, code, data, crc);
  }

  /** `Write` once the request is sent: an empty reply fails, a CRC mismatch
    * fails, a one-byte reply makes `new byte[len - 2]` throw, which the
    * method catches. Nothing escapes and no value is returned. */
  function RtuWriteReply(sent: Option<seq<byte>>, checkCrc: seq<byte> -> bool): (r: Outcome)
    ensures r.Returned? && r.value.None?
    ensures r.isSucceed <==> sent.Some? && |sent.value| >= 2 && checkCrc(sent.value)
    ensures sent.Some? && |sent.value| >= 2 && !checkCrc(sent.value) ==> r.err == CrcMismatch
  {
    match sent
    case None => Returned(false, None, SendFailed)
    case Some(reply) =>
      if |reply| == 0 then Returned(false, None, EmptyReply)
      else if |reply| < 2 then Returned(false, None, Caught)
      else if !checkCrc(reply) then Returned(false, None, CrcMismatch)
      else Returned(true, None, NoError)
  }

  /** `Read` of `ModbusRtuOverTcpClient`: build the request PDU, append the
    * CRC, wait through `send` (the reliable send) for the reply length
    * computed from the request, then check the reply. The address-parse
    * exception is caught like the others. */
  method Read(address: string, plcAddresses: bool, station: byte, code: byte, length: int,
              formatting: bool, fmt: seq<byte> -> seq<byte>, crc: seq<byte> -> seq<byte>,
              checkCrc: seq<byte> -> bool, send: (seq<byte>, int) -> Option<seq<byte>>)
    returns (pdu: Option<seq<byte>>, r: Outcome)
    requires 0 <= length < 0x1_0000
    ensures pdu.None? <==> ResolveAddress(address, plcAddresses).None?
    ensures pdu.None? ==> r == Returned(false, None, Caught)
    ensures pdu.Some? ==> ReadPdu(pdu.value, station, code, ResolveAddress(address, plcAddresses).value, length)
    ensures pdu.Some? ==>
      r == RtuReadReply(send(crc(pdu.value), ExpectedReplyLength(code, length)), checkCrc, formatting, fmt)
  {
    pdu := GetReadCommand(address, plcAddresses, station, code, length);
    if pdu.None? {
      return pdu, Returned(false, None, Caught);
    }
    var replyLength := ExpectedReplyLength(code, length);
    var sent := send(crc(pdu.value), replyLength);
    r := RtuReadReply(sent, checkCrc, formatting, fmt);
  }

  /** `Write(address, values, ...)`: the values always pass through
    * `ByteFormatting`, whatever `formatting` says, and the reply is expected
    * to be eight bytes long. */
  method WriteValues(address: string, plcAddresses: bool, values: seq<byte>, station: byte, code: byte,
                     formatting: bool, fmt: seq<byte> -> seq<byte>, crc: seq<byte> -> seq<byte>,
                     checkCrc: seq<byte> -> bool, send: (seq<byte>, int) -> Option<seq<byte>>)
    returns (pdu: Option<seq<byte>>, r: Outcome)
    ensures pdu.None? <==> ResolveAddress(address, plcAddresses).None? || (code == 6 && |fmt(values)| != 2)
    ensures pdu.None? ==> r == Returned(false, None, Caught)
    ensures pdu.Some? && code != 6 ==>
      BlockWritePdu(pdu.value, station, code, ResolveAddress(address, plcAddresses).value, fmt(values))
    ensures pdu.Some? && code == 6 ==>
      WriteRegisterPdu(pdu.value, station, ResolveAddress(address, plcAddresses).value, Word(fmt(values)[0], fmt(values)[1]))
    ensures pdu.Some? ==> r == RtuWriteReply(send(crc(pdu.value), 8), checkCrc)
  {
    var formatted := fmt(values);
    pdu := GetWriteCommand(address, plcAddresses, formatted, station, code);
    if pdu.None? {
      return pdu, Returned(false, None, Caught);
    }
    var sent := send(crc(pdu.value), 8);
    r := RtuWriteReply(sent, checkCrc);
  }

  /** `Write(address, bool, ...)`: the coil request, an eight-byte reply. */
  method WriteCoil(address: string, plcAddresses: bool, value: bool, station: byte, code: byte,
                   crc: seq<byte> -> seq<byte>, checkCrc: seq<byte> -> bool,
                   send: (seq<byte>, int) -> Option<seq<byte>>)
    returns (pdu: Option<seq<byte>>, r: Outcome)
    ensures pdu.None? <==> ResolveAddress(address, plcAddresses).None?
    ensures pdu.None? ==> r == Returned(false, None, Caught)
    ensures pdu.Some? ==> CoilWritePdu(pdu.value, station, code, ResolveAddress(address, plcAddresses).value, value)
    ensures pdu.Some? ==> r == RtuWriteReply(send(crc(pdu.value), 8), checkCrc)
  {
    pdu := GetWriteCoilCommand(address, plcAddresses, value, station, code);
    if pdu.None? {
      return pdu, Returned(false, None, Caught);
    }
    var sent := send(crc(pdu.value), 8);
    r := RtuWriteReply(sent, checkCrc);
  }
}
