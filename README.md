# Devices: a verified model of the Modbus master, the OPC UA driver pieces and the data simulator

The `Devices` repository holds the equipment drivers of an IoT platform. Each driver is a `CEquip` that the host calls to `init` an equipment, poll its data (`GetData`, `GetYC`, `GetYX`) and carry out set-point commands (`SetParm`). This project models three of those drivers in Dafny and proves what their code promises.

**The Modbus master (`GWModbusStandard.STD`)**
- **Frame builders.** Modbus/TCP requests are an MBAP header followed by the PDU (`tcp.dfy`). RTU requests are the PDU followed by a CRC (`rtu.dfy`). Every builder is proved against one independent decoder of the request layout in the Modbus Application Protocol (`pdu.dfy`).
- **Reply checks.** Replies are checked for the transaction tag, emptiness, the CRC and the expected length. A reply the code slices without checking makes the call throw, and the model says so.
- **Reliable send.** An attempt is followed, on failure or exception, by a reconnect and one retry (`reliable.dfy`).
- **Batch read.** Points are grouped by function code and station (`batch.dfy`). Each group is read in windows of at most 125 registers by the window planner (`planner.dfy`). The payload of each window is cut into typed values by byte offset, coil bit or bit slice (`demux.dfy`).
- **The rest of the engine:**
  - the node-string parser and its cache (`nodestr.dfy`);
  - the point and result records (`models.dfy`, `outcome.dfy`);
  - the connection parameters (`config.dfy`);
  - the client session with its value and event stores, offline counter and paged poll (`session.dfy`);
  - the connection pool with its 30-second back-off (`manager.dfy`);
  - the equipment's `init` and `SetParm` command construction (`cequip.dfy`).

**The OPC UA driver (`GWOpcUAStandard.STD`)**
- the session liveness timer (`opcua_status.dfy`);
- the connection parameters (`opcua_config.dfy`);
- one session: its monitored node ids, the last value of each node, the quality filter and the subscription bookkeeping (`opcua_session.dfy`);
- the session pool: the hot-reload comparison, the back-off gate, the write result codes, the value lookup and the link-state list (`opcua_manager.dfy`).

**The data simulator (`BCDataSimu.STD`)**
- the communication flag, the sleep time, the default rule for YX values and the set-point commands that set values, add events or take communication down (`simu.dfy`).

**Shared pieces**
- The Ok/Fail command records are in `equipset.dfy`. The OPC UA driver's copy of the response class is the same code.
- The .NET string and number helpers the drivers rely on (`Split`, `Trim`, `PadLeft`, `ToUpper`, integer `ToString` and the `Parse`/`TryParse` family) are written out in `text.dfy`.
- C# narrowing casts and byte order are written out in `bytes.dfy`.

**Modelling conventions**
- Sockets, serial ports, the OPC UA SDK, the station database, the clock and random numbers are not modelled. What they answer is passed in as a parameter: a reply, a `connected` flag, a `read` function, or `now` in milliseconds.
- An exception the source throws is a `None` or `Escaped` result, so callers can see where it goes.
- Objects the source updates in place are classes with `modifies` clauses: sessions, pools, the node-string cache, `ModbusInput` and the equipment.
- Loops are `while`/`for` loops with their invariants.
- The byte arrays the frame builders fill are arrays.

## Model

| member | source | states |
|---|---|---|
| Bytes.ToUShort | src/src/GWModbusStandard.STD/Core/Clients/Modbus/ModbusTcpClient.cs:1620 | the unchecked `(ushort)` cast lands in `[0, 2^16)`, agrees with the value modulo `2^16` and keeps a value already in range |
| Bytes.ToShort | src/src/GWModbusStandard.STD/Core/Clients/Modbus/Base/ModbusSerialBase.cs:721 | the unchecked `(short)` cast lands in `[-2^15, 2^15)`, agrees modulo `2^16` and keeps a value already in range |
| Bytes.HighLowBytes | src/src/GWModbusStandard.STD/Core/Clients/Modbus/ModbusTcpClient.cs:1632-1633 | `GetBytes(v)[1]` and `[0]` of a 16-bit value are its high and low byte: together they rebuild it |
| Bytes.Skip | src/src/GWModbusStandard.STD/Core/Clients/Modbus/Base/ModbusSerialBase.cs:391 | LINQ `Skip(n)`: a negative count skips nothing, a count past the end leaves nothing, otherwise the suffix |
| Bytes.Take | src/src/GWModbusStandard.STD/Core/Clients/Modbus/Base/ModbusSerialBase.cs:391 | LINQ `Take(n)`: a negative count takes nothing, a count past the end takes everything, otherwise the prefix |
| Bytes.Reverse | src/src/GWModbusStandard.STD/Core/Clients/Modbus/Base/ModbusSerialBase.cs:391 | LINQ `Reverse()`: same length, element `i` is element `n-1-i` |
| Bytes.ReverseReverse | src/src/GWModbusStandard.STD/Core/Clients/Modbus/Base/ModbusSerialBase.cs:391 | reversing twice gives the sequence back |
| Bytes.BigEndianBound | src/src/GWModbusStandard.STD/Core/Clients/Modbus/Base/ModbusSerialBase.cs:391-394 | a big-endian reading of `n` bytes is below `256^n` |
| Bytes.LittleEndianBound | src/src/GWModbusStandard.STD/Core/Clients/Modbus/Base/ModbusSerialBase.cs:391-394 | a little-endian reading of `n` bytes is below `256^n` |
| Bytes.LittleEndianOfReverse | src/src/GWModbusStandard.STD/Core/Clients/Modbus/Base/ModbusSerialBase.cs:391-394 | `BitConverter` on the reversed bytes (little-endian) reads the wire bytes big-endian |
| ModbusModels.DisplayKeyInjective | src/src/GWModbusStandard.STD/Core/Clients/Modbus/Models/ModBusInput.cs:33-36 | `DisplayNameKey` tells station, function code and address apart: equal keys mean equal triples |
| ModbusModels.ModbusInput.constructor | src/src/GWModbusStandard.STD/Core/Clients/Modbus/Models/ModBusInput.cs:6-28 | a new input holds the given address, data type, station and function code, with no value and no node string |
| ModbusModels.ModbusInput.SetNodeStr | src/src/GWModbusStandard.STD/Core/Clients/Modbus/Models/ModBusInput.cs:47-50 | sets `NodeStr` and changes no other field |
| ModbusModels.InputsOf | src/src/GWModbusStandard.STD/Core/Clients/Modbus/Models/ModBusInput.cs:6-28 | the snapshot of a list of inputs, element by element |
| ModbusModels.OutputKeyJoinsInput | src/src/GWModbusStandard.STD/Core/Clients/Modbus/Models/ModBusOutput.cs:20-23 | an output's key equals an input's key exactly when they name the same station, function code and address |
| ModbusDemux.Rem | src/src/GWModbusStandard.STD/Core/Clients/Modbus/Base/ModbusSerialBase.cs:466 | C# `%` on `int`: with the truncating quotient it rebuilds the dividend, and the remainder takes the dividend's sign |
| ModbusDemux.HostBytes | src/src/GWModbusStandard.STD/Core/Clients/Modbus/Base/ModbusSerialBase.cs:454-476 | an extraction throws out of the call exactly when an address does not parse as `int`; inside the `try` it yields `2·words` bytes, or none with `IsSucceed` false |
| ModbusDemux.Distance | src/src/GWModbusStandard.STD/Core/Clients/Modbus/Base/ModbusSerialBase.cs:386-390 | the register distance exists exactly when both addresses parse |
| ModbusDemux.DistanceOf | src/src/GWModbusStandard.STD/Core/Clients/Modbus/Base/ModbusSerialBase.cs:386-390 | the distance of two addresses written in decimal is their difference |
| ModbusDemux.BytesAt | src/src/GWModbusStandard.STD/Core/Clients/Modbus/Base/ModbusSerialBase.cs:388-404 | the `try` block never throws out: it succeeds with `2·words` bytes or fails with none |
| ModbusDemux.ReadWords | src/src/GWModbusStandard.STD/Core/Clients/Modbus/Base/ModbusSerialBase.cs:384-589 | `ReadInt16`…`ReadUInt64`: throws exactly when `HostBytes` does; a failed read has value 0; a signed 16-bit value lies in `[-2^15, 2^15)` |
| ModbusDemux.ByteOffset | src/src/GWModbusStandard.STD/Core/Clients/Modbus/Base/ModbusSerialBase.cs:462-464 | the byte offset `(d/2)·4 + (d%2)·2` (C# division) of a 32-bit point, and its 64-bit analogue, is `2d` for every distance, negative ones included, in unbounded integers (see Left out for int32) |
| ModbusDemux.RegisterInPayload | src/src/GWModbusStandard.STD/Core/Clients/Modbus/Base/ModbusSerialBase.cs:390-395 | a 16-bit point inside the payload is the big-endian register at byte offset `2d` |
| ModbusDemux.RegisterAt | src/src/GWModbusStandard.STD/Core/Clients/Modbus/Base/ModbusSerialBase.cs:390-395 | the `try` block of a 16-bit point inside the payload reads the register at offset `2d` |
| ModbusDemux.WideInPayload | src/src/GWModbusStandard.STD/Core/Clients/Modbus/Base/ModbusSerialBase.cs:462-467 | a 32- or 64-bit point inside the payload reads the `2·words` bytes at offset `2d`, reversed and passed through `ByteFormatting` |
| ModbusDemux.HostBytesOf | src/src/GWModbusStandard.STD/Core/Clients/Modbus/Base/ModbusSerialBase.cs:462-467 | the bytes handed to `BitConverter` are the reversed window at offset `2d`, formatted |
| ModbusDemux.WideAt | src/src/GWModbusStandard.STD/Core/Clients/Modbus/Base/ModbusSerialBase.cs:462-467 | the `try` block of a wide point inside the payload succeeds with the reversed, formatted window |
| ModbusDemux.PointPastPayload | src/src/GWModbusStandard.STD/Core/Clients/Modbus/Base/ModbusSerialBase.cs:397-404 | a point whose registers lie past the payload is caught inside the `try`: `IsSucceed` false and the default value |
| ModbusDemux.LsbDigits | src/src/GWModbusStandard.STD/Core/Clients/Modbus/Base/ModbusSerialBase.cs:677 | the binary digits `IntToBinaryArray` is taken to produce are padded to at least the requested width |
| ModbusDemux.LsbBit | src/src/GWModbusStandard.STD/Core/Clients/Modbus/Base/ModbusSerialBase.cs:677 | digit `k` of the padded binary form, least significant first, is bit `k` of the value |
| ModbusDemux.LsbBound | src/src/GWModbusStandard.STD/Core/Clients/Modbus/Base/ModbusSerialBase.cs:677 | the digits hold the whole value: it is below two to their number |
| ModbusDemux.LsbDigitsLength | src/src/GWModbusStandard.STD/Core/Clients/Modbus/Base/ModbusSerialBase.cs:715 | a value below `2^n` padded to `n` has exactly `n` digits, so the 16-digit form of a register has 16 digits |
| ModbusDemux.ReadCoil | src/src/GWModbusStandard.STD/Core/Clients/Modbus/Base/ModbusSerialBase.cs:670-695 | `ReadCoil`/`ReadDiscrete`: throws exactly when an address does not parse; a failed read is `false` |
| ModbusDemux.CoilAt | src/src/GWModbusStandard.STD/Core/Clients/Modbus/Base/ModbusSerialBase.cs:674-694 | the `try` block of a coil read never throws out, and a failed read is `false` |
| ModbusDemux.CoilIndex | src/src/GWModbusStandard.STD/Core/Clients/Modbus/Base/ModbusSerialBase.cs:676 | for a coil at or after the first, `index` is `interval / 8 + 1`, the byte holding it counted from one |
| ModbusDemux.CeilingSteps | src/src/GWModbusStandard.STD/Core/Clients/Modbus/Base/ModbusSerialBase.cs:676 | both arms of the `index` conditional give the byte `interval / 8` counted from one |
| ModbusDemux.CoilIsBit | src/src/GWModbusStandard.STD/Core/Clients/Modbus/Base/ModbusSerialBase.cs:670-695 | a coil inside the payload is bit `d mod 8` of byte `d div 8`, whatever the padding of the binary form |
| ModbusDemux.CoilPastPayload | src/src/GWModbusStandard.STD/Core/Clients/Modbus/Base/ModbusSerialBase.cs:687-694 | a coil past the payload fails inside the `try` with `false` |
| ModbusDemux.CoilAtIsBit | src/src/GWModbusStandard.STD/Core/Clients/Modbus/Base/ModbusSerialBase.cs:676-681 | the `try` block reads bit `d mod 8` of byte `d div 8` |
| ModbusDemux.CoilAtDigit | src/src/GWModbusStandard.STD/Core/Clients/Modbus/Base/ModbusSerialBase.cs:677-680 | the coil is digit `d mod 8` of the reversed binary form of its byte, or `false` past its digits |
| ModbusDemux.ReversedDigit | src/src/GWModbusStandard.STD/Core/Clients/Modbus/Base/ModbusSerialBase.cs:677-680 | digit `k` of the reversed binary form is bit `k`, and a position beyond the digits is a zero bit |
| ModbusDemux.WeightedOfBits | src/src/GWModbusStandard.STD/Core/Clients/Modbus/Base/ModbusSerialBase.cs:721 | `Select((bit, index) => bit << index).Sum()` of consecutive bits is the field they form |
| ModbusDemux.WeightedOfMirroredBits | src/src/GWModbusStandard.STD/Core/Clients/Modbus/Base/ModbusSerialBase.cs:726 | the same sum over bits taken downward is the field read back to front |
| ModbusDemux.DigitIsBit | src/src/GWModbusStandard.STD/Core/Clients/Modbus/Base/ModbusSerialBase.cs:715 | digit `i` of the 16-digit form, most significant first, is bit `15 - i` |
| ModbusDemux.SliceLeft | src/src/GWModbusStandard.STD/Core/Clients/Modbus/Base/ModbusSerialBase.cs:716-721 | with `left`, the slice `start..end` is `(word >> (15 - end)) & (2^(end-start+1) - 1)` |
| ModbusDemux.LeftField | src/src/GWModbusStandard.STD/Core/Clients/Modbus/Base/ModbusSerialBase.cs:718-721 | with `left`, the digits taken are `start..end` of the sixteen, reversed |
| ModbusDemux.LeftFieldValue | src/src/GWModbusStandard.STD/Core/Clients/Modbus/Base/ModbusSerialBase.cs:720-721 | those reversed digits weigh the bits from `15 - end` upward |
| ModbusDemux.ReversedFieldBits | src/src/GWModbusStandard.STD/Core/Clients/Modbus/Base/ModbusSerialBase.cs:720 | the reversed digits are consecutive bits of the register |
| ModbusDemux.SliceRight | src/src/GWModbusStandard.STD/Core/Clients/Modbus/Base/ModbusSerialBase.cs:723-727 | without `left`, the slice is bits `end` down to `start`, mirrored |
| ModbusDemux.RightField | src/src/GWModbusStandard.STD/Core/Clients/Modbus/Base/ModbusSerialBase.cs:725 | without `left`, the digits taken are `15 - end .. 15 - start` in order |
| ModbusDemux.RightFieldBits | src/src/GWModbusStandard.STD/Core/Clients/Modbus/Base/ModbusSerialBase.cs:725 | those digits are bits `end` down to `start` |
| ModbusDemux.SliceSingleBit | src/src/GWModbusStandard.STD/Core/Clients/Modbus/Base/ModbusSerialBase.cs:709-726 | a one-bit address `r:s` reads bit `15 - s` with `left` and bit `s` without |
| ModbusDemux.ReadInt16Bit | src/src/GWModbusStandard.STD/Core/Clients/Modbus/Base/ModbusSerialBase.cs:703-730 | the bit-field read keeps a `short` in range |
| ModbusDemux.BitFieldValue | src/src/GWModbusStandard.STD/Core/Clients/Modbus/Base/ModbusSerialBase.cs:703-730 | for bit numbers `start <= end` within sixteen, the value is the `short` of the register's field: with `left` the bits `15 - end..15 - start` in place, without it bits `end` down to `start` read back to front; a single bit `s` is bit `15 - s`, or bit `s` |
| ModbusDemux.PlainRegister | src/src/GWModbusStandard.STD/Core/Clients/Modbus/Base/ModbusSerialBase.cs:705-707 | an address with neither `:` nor `-` reads the plain register |
| ModbusPdu.DecodeRequest | src/src/GWModbusStandard.STD/Core/Clients/Modbus/ModbusTcpClient.cs:1630-1635 | the reference decoding of a request PDU, independent of the builders (section 6 of the MODBUS Application Protocol Specification V1.1b3): what it accepts starts with the unit and function bytes |
| ModbusPdu.DecodeRead | src/src/GWModbusStandard.STD/Core/Clients/Modbus/ModbusTcpClient.cs:1630-1635 | a six-byte PDU with function code 1-4 decodes to a read of its start and quantity words |
| ModbusPdu.DecodeSingleWrite | src/src/GWModbusStandard.STD/Core/Clients/Modbus/ModbusTcpClient.cs:1664-1669 | a six-byte PDU with function code 5 or 6 decodes to a single write of its address and value words |
| ModbusPdu.DecodeMultipleWrite | src/src/GWModbusStandard.STD/Core/Clients/Modbus/ModbusTcpClient.cs:1680-1687 | a block write whose byte count is its payload length and twice its register count decodes to that write |
| ModbusPdu.ReadPduLayout | src/src/GWModbusStandard.STD/Core/Clients/Modbus/ModbusTcpClient.cs:1630-1635 | the six bytes `GetReadCommand` puts after the header form the read PDU of its station, function code, address and length |
| ModbusPdu.WriteRegisterPduLayout | src/src/GWModbusStandard.STD/Core/Clients/Modbus/ModbusTcpClient.cs:1664-1669 | the six PDU bytes of the function-code-6 branch form the single-register write of `(hi, lo)` at the address |
| ModbusPdu.BlockWriteHead | src/src/GWModbusStandard.STD/Core/Clients/Modbus/ModbusTcpClient.cs:1680-1686 | the bytes in front of a block write's values are seven |
| ModbusPdu.BlockWritePduLayout | src/src/GWModbusStandard.STD/Core/Clients/Modbus/ModbusTcpClient.cs:1680-1687 | station, function, address, quantity `n/2`, byte count `n` (cut to 8 bits) and the values form the block-write PDU |
| ModbusPdu.CoilWritePduLayout | src/src/GWModbusStandard.STD/Core/Clients/Modbus/ModbusTcpClient.cs:1711-1716 | the coil PDU carries 0xFF 0x00 for on and 0x00 0x00 for off, and decodes to the single write of 0xFF00 or 0 |
| ModbusPdu.ResolveAddress | src/src/GWModbusStandard.STD/Core/Clients/Modbus/ModbusTcpClient.cs:1619-1620 | the register address: `ushort.Parse` of the trimmed text, or with PLC addressing the text after the first character minus one, wrapped to 16 bits; either parse failing throws; the result is below 2^16 |
| ModbusPdu.PlcAddress | src/src/GWModbusStandard.STD/Core/Clients/Modbus/ModbusTcpClient.cs:1620 | with PLC addressing the register is `(ushort)(number after the first character - 1)` |
| ModbusPdu.PlcAddressWraps | src/src/GWModbusStandard.STD/Core/Clients/Modbus/ModbusTcpClient.cs:1620 | "40000" with PLC addressing wraps to register 65535 |
| ModbusTcp.TagOrDefault | src/src/GWModbusStandard.STD/Core/Clients/Modbus/ModbusTcpClient.cs:1623-1624 | `check?[i] ?? default`: the given tag, or 0x19 0xB2 |
| ModbusTcp.ReadFrameLayout | src/src/GWModbusStandard.STD/Core/Clients/Modbus/ModbusTcpClient.cs:1622-1636 | the twelve bytes of a read request: tag, protocol 0, length 6, then the read PDU |
| ModbusTcp.ReadCommandAt | src/src/GWModbusStandard.STD/Core/Clients/Modbus/ModbusTcpClient.cs:1622-1636 | the slot-by-slot fill yields that read frame |
| ModbusTcp.GetReadCommand | src/src/GWModbusStandard.STD/Core/Clients/Modbus/ModbusTcpClient.cs:1617-1637 | throws exactly when the address does not resolve; otherwise the read frame of the resolved address |
| ModbusTcp.WriteRegisterFrameLayout | src/src/GWModbusStandard.STD/Core/Clients/Modbus/ModbusTcpClient.cs:1658-1669 | the function-code-6 request: tag, protocol 0, the given length bytes, the register-write PDU |
| ModbusTcp.BlockWriteFrameLayout | src/src/GWModbusStandard.STD/Core/Clients/Modbus/ModbusTcpClient.cs:1674-1688 | the block write: a header whose length field counts the `7 + n` bytes that follow (cut to 16 bits), then the block-write PDU |
| ModbusTcp.WriteRegisterCommandAt | src/src/GWModbusStandard.STD/Core/Clients/Modbus/ModbusTcpClient.cs:1652-1671 | as written: eleven bytes, the last value byte appended, and length bytes 7, 0 — a length field of 0x0700 |
| ModbusTcp.BlockWriteCommandAt | src/src/GWModbusStandard.STD/Core/Clients/Modbus/ModbusTcpClient.cs:1672-1689 | the other branch yields the block-write frame |
| ModbusTcp.BlockWriteHeader | src/src/GWModbusStandard.STD/Core/Clients/Modbus/ModbusTcpClient.cs:1674-1686 | the thirteen header bytes in front of the values |
| ModbusTcp.WriteCommandAt | src/src/GWModbusStandard.STD/Core/Clients/Modbus/ModbusTcpClient.cs:1652-1690 | function code 6 with other than two value bytes throws; otherwise the register frame (length 0x0700) or the block frame |
| ModbusTcp.GetWriteCommand | src/src/GWModbusStandard.STD/Core/Clients/Modbus/ModbusTcpClient.cs:1647-1690 | throws exactly when the address does not resolve or the fc-6 length check fails; otherwise the frame of `WriteCommandAt` |
| ModbusTcp.WriteRegisterCommandFixed | src/src/GWModbusStandard.STD/Core/Clients/Modbus/ModbusTcpClient.cs:1652-1671 | corrected: the function-code-6 request whose length field counts the six bytes after it |
| ModbusTcp.CoilWriteFrameLayout | src/src/GWModbusStandard.STD/Core/Clients/Modbus/ModbusTcpClient.cs:1705-1716 | the coil request: tag, protocol 0, length 6, then the coil-write PDU |
| ModbusTcp.WriteCoilCommandAt | src/src/GWModbusStandard.STD/Core/Clients/Modbus/ModbusTcpClient.cs:1705-1717 | the fill yields that coil frame |
| ModbusTcp.GetWriteCoilCommand | src/src/GWModbusStandard.STD/Core/Clients/Modbus/ModbusTcpClient.cs:1700-1718 | throws exactly when the address does not resolve; otherwise the coil frame |
| ModbusTcp.SocketRead | src/src/GWModbusStandard.STD/Core/Clients/Modbus/ModbusTcpClient.cs:147 | `SocketRead(n)` succeeds exactly when `n` bytes are there, and returns those bytes |
| ModbusTcp.SendPackageSingle | src/src/GWModbusStandard.STD/Core/Clients/Modbus/ModbusTcpClient.cs:135-172 | succeeds exactly when an eight-byte head and the `length - 2` bytes its length field announces arrive; the reply is that prefix of the stream |
| ModbusTcp.ReceiveReadResponse | src/src/GWModbusStandard.STD/Core/Clients/Modbus/ModbusTcpClient.cs:147-157 | the receive stops exactly at the end of a well-formed reply, whatever follows on the stream |
| ModbusTcp.TcpReadReply | src/src/GWModbusStandard.STD/Core/Clients/Modbus/ModbusTcpClient.cs:199-230 | a failed send fails the read; a reply shorter than nine bytes throws out of `Read`; otherwise success exactly when the tag is echoed, and the value is bytes 9.. reversed (and formatted) even when the tag check fails |
| ModbusTcp.ReadOfResponse | src/src/GWModbusStandard.STD/Core/Clients/Modbus/ModbusTcpClient.cs:199-230 | a device's well-formed reply to a tagged read is accepted with its data reversed |
| ModbusTcp.TcpReplyToPlanner | src/src/GWModbusStandard.STD/Core/Clients/Modbus/ModbusTcpClient.cs:199-230 | through the TCP client a window read reaches the planner as an exception for a reply shorter than nine bytes, as a failure for a foreign tag, and as the reply's bytes from 9 on, reversed, for a tagged reply |
| ModbusTcp.TcpRegisterDecodes | src/src/GWModbusStandard.STD/Core/Clients/Modbus/ModbusTcpClient.cs:212-220 | end to end, a tagged reply whose data is one register `hi, lo` gives a `UInt16` point at the window start the value `hi·256 + lo` |
| ModbusTcp.TaggedReply | src/src/GWModbusStandard.STD/Core/Clients/Modbus/ModbusTcpClient.cs:212-220 | a reply of nine bytes or more echoing the tag is accepted with bytes 9.. reversed |
| ModbusTcp.TcpWriteReply | src/src/GWModbusStandard.STD/Core/Clients/Modbus/ModbusTcpClient.cs:1370-1390 | a write carries no value; it succeeds exactly when the tag matches and the helper sees no exception code; a foreign tag fails it |
| ModbusTcp.WriteOfExceptionResponse | src/src/GWModbusStandard.STD/Core/Clients/Modbus/ModbusTcpClient.cs:1386-1390 | an exception response the helper recognises is reported with its exception code |
| ModbusRtu.ReadCommandAt | src/src/GWModbusStandard.STD/Core/Clients/Modbus/ModbusRtuOverTcpClient.cs:1322-1332 | the six bytes filled in form the read PDU of station, function code, address and length |
| ModbusRtu.GetReadCommand | src/src/GWModbusStandard.STD/Core/Clients/Modbus/ModbusRtuOverTcpClient.cs:1320-1333 | throws exactly when the address does not resolve; otherwise the read PDU of the resolved address |
| ModbusRtu.WriteCommandAt | src/src/GWModbusStandard.STD/Core/Clients/Modbus/ModbusRtuOverTcpClient.cs:1345-1375 | function code 6 with other than two value bytes throws; code 6 gives the single-register write of the two bytes, any other code the block write |
| ModbusRtu.GetWriteCommand | src/src/GWModbusStandard.STD/Core/Clients/Modbus/ModbusRtuOverTcpClient.cs:1343-1376 | throws exactly when the address does not resolve or the code-6 length check fails; otherwise the register or block-write PDU |
| ModbusRtu.WriteCoilCommandAt | src/src/GWModbusStandard.STD/Core/Clients/Modbus/ModbusRtuOverTcpClient.cs:1388-1398 | the coil PDU: 0xFF 0x00 for on, 0x00 0x00 for off |
| ModbusRtu.GetWriteCoilCommand | src/src/GWModbusStandard.STD/Core/Clients/Modbus/ModbusRtuOverTcpClient.cs:1386-1399 | throws exactly when the address does not resolve; otherwise the coil PDU |
| ModbusRtu.ExpectedReplyLength | src/src/GWModbusStandard.STD/Core/Clients/Modbus/ModbusRtuOverTcpClient.cs:209-213 | the awaited length is at least 5 and leaves room for one bit per coil or two bytes per register |
| ModbusRtu.ExpectedLengthMatchesResponse | src/src/GWModbusStandard.STD/Core/Clients/Modbus/ModbusRtuOverTcpClient.cs:209-213 | the computed length is exactly the length of a device's reply to that read (Modbus over Serial Line V1.02, section 2.5.1) |
| ModbusRtu.RtuReadReply | src/src/GWModbusStandard.STD/Core/Clients/Modbus/ModbusRtuOverTcpClient.cs:214-246 | a failed send is returned; an empty reply fails; otherwise success exactly when the reply is five bytes or more and passes the CRC check; the payload (bytes 3 to len-2, reversed, formatted on request) is kept even on a CRC failure; shorter replies are caught |
| ModbusRtu.ResponsePayload | src/src/GWModbusStandard.STD/Core/Clients/Modbus/ModbusRtuOverTcpClient.cs:232-233 | bytes 3 to len-2 of a device's read reply are its data |
| ModbusRtu.ReadOfResponse | src/src/GWModbusStandard.STD/Core/Clients/Modbus/ModbusRtuOverTcpClient.cs:214-246 | a device's reply that passes the CRC check is accepted with its data reversed |
| ModbusRtu.RtuWriteReply | src/src/GWModbusStandard.STD/Core/Clients/Modbus/ModbusRtuOverTcpClient.cs:1115-1148 | a write returns no value and succeeds exactly when a reply of two bytes or more passes the CRC check; a CRC mismatch is reported as such |
| ModbusRtu.Read | src/src/GWModbusStandard.STD/Core/Clients/Modbus/ModbusRtuOverTcpClient.cs:196-251 | the address failure is caught as a failed result; otherwise the CRC-framed read PDU is sent with the computed reply length and the reply is judged by `RtuReadReply` |
| ModbusRtu.WriteValues | src/src/GWModbusStandard.STD/Core/Clients/Modbus/ModbusRtuOverTcpClient.cs:1159-1203 | the values always pass through `ByteFormatting`; the address or length failure is caught; otherwise the CRC-framed register or block PDU goes out with an eight-byte reply expected |
| ModbusRtu.WriteCoil | src/src/GWModbusStandard.STD/Core/Clients/Modbus/ModbusRtuOverTcpClient.cs:1107-1149 | the address failure is caught; otherwise the CRC-framed coil PDU goes out with an eight-byte reply expected |
| ModbusReliable.SendPackageReliable | src/src/GWModbusStandard.STD/Core/Clients/Modbus/Base/ModbusSerialBase.cs:75-122 | at most three sends and two connects, one warning per connect; every send but the last failed and every connect but the last succeeded; a first success returns at once; a failed reconnect is returned; an exception escapes only from a send made in the `catch`; any other result is the last send's |
| ModbusPlanner.Slots | src/src/GWModbusStandard.STD/Core/Clients/Modbus/Base/ModbusSerialBase.cs:847-849 | one slot per dictionary entry, in order, with its key's register parsed once |
| ModbusPlanner.MinAt | src/src/GWModbusStandard.STD/Core/Clients/Modbus/Base/ModbusSerialBase.cs:849 | `Min()`: the register of some point, and no point lies below it |
| ModbusPlanner.MaxAt | src/src/GWModbusStandard.STD/Core/Clients/Modbus/Base/ModbusSerialBase.cs:850 | `Max()`: the register of some point, and no point lies above it |
| ModbusPlanner.Members | src/src/GWModbusStandard.STD/Core/Clients/Modbus/Base/ModbusSerialBase.cs:855 | `tempAddress`: exactly the points whose register lies in `[min, min + 121]` |
| ModbusPlanner.MembersDistinct | src/src/GWModbusStandard.STD/Core/Clients/Modbus/Base/ModbusSerialBase.cs:855 | the members of a window keep the dictionary's distinct keys |
| ModbusPlanner.Widest | src/src/GWModbusStandard.STD/Core/Clients/Modbus/Base/ModbusSerialBase.cs:863 | `OrderByDescending(...).FirstOrDefault()`: a member with the highest register |
| ModbusPlanner.WidestIsFirst | src/src/GWModbusStandard.STD/Core/Clients/Modbus/Base/ModbusSerialBase.cs:863 | of the members with the highest register it is the first in dictionary order (the sort is stable) |
| ModbusPlanner.Width | src/src/GWModbusStandard.STD/Core/Clients/Modbus/Base/ModbusSerialBase.cs:864-886 | a defined type occupies 1 to 4 registers; the "undefined type" exception is exactly the unlisted types |
| ModbusPlanner.Decode | src/src/GWModbusStandard.STD/Core/Clients/Modbus/Base/ModbusSerialBase.cs:903-946 | `Byte` and unlisted types throw |
| ModbusPlanner.DemuxAll | src/src/GWModbusStandard.STD/Core/Clients/Modbus/Base/ModbusSerialBase.cs:903-949 | when nothing throws, one value per member, under the member's key, in member order |
| ModbusPlanner.KeyBelowIrreflexive | src/src/GWModbusStandard.STD/Core/Clients/Modbus/Base/ModbusSerialBase.cs:953 | the key order never puts a key below itself |
| ModbusPlanner.KeyBelowTransitive | src/src/GWModbusStandard.STD/Core/Clients/Modbus/Base/ModbusSerialBase.cs:953 | the key order is transitive |
| ModbusPlanner.KeyBelowTotal | src/src/GWModbusStandard.STD/Core/Clients/Modbus/Base/ModbusSerialBase.cs:953 | any two different keys are ordered one way or the other |
| ModbusPlanner.FirstByKey | src/src/GWModbusStandard.STD/Core/Clients/Modbus/Base/ModbusSerialBase.cs:953 | `OrderBy(t => t.Key).FirstOrDefault()`: a point none sorts below |
| ModbusPlanner.AtLeast | src/src/GWModbusStandard.STD/Core/Clients/Modbus/Base/ModbusSerialBase.cs:952-953 | exactly the points whose register is at least the bound |
| ModbusPlanner.NextStart | src/src/GWModbusStandard.STD/Core/Clients/Modbus/Base/ModbusSerialBase.cs:950-955 | as written: a next start exists exactly when some point lies at or beyond `min + length`, and it is such a point's register; corrected: it exists exactly when some point lies beyond the widest member, and it is the least such register |
| ModbusPlanner.TurnFacts | src/src/GWModbusStandard.STD/Core/Clients/Modbus/Base/ModbusSerialBase.cs:853-955 | a turn is vacant exactly when the window has no members; a read spans 1 to 125 registers; a turn that cuts values out yields one per member in order and its next start lies beyond the widest member |
| ModbusPlanner.WindowAdvances | src/src/GWModbusStandard.STD/Core/Clients/Modbus/Base/ModbusSerialBase.cs:850-956 | each turn moves the window start forward, so the loop ends |
| ModbusPlanner.BatchReadGroup | src/src/GWModbusStandard.STD/Core/Clients/Modbus/Base/ModbusSerialBase.cs:842-958 | the loop as written computes `Plan`: an empty group or an unparsable key throws in `Min()`, otherwise the windows are read from the least register |
| ModbusPlanner.ReadWindows | src/src/GWModbusStandard.STD/Core/Clients/Modbus/Base/ModbusSerialBase.cs:851-956 | the `while` loop computes `Run` from the least register |
| ModbusPlanner.ReadWindow | src/src/GWModbusStandard.STD/Core/Clients/Modbus/Base/ModbusSerialBase.cs:853-955 | one turn of the body computes `Window` and moves the start forward |
| ModbusPlanner.ReadTurn | src/src/GWModbusStandard.STD/Core/Clients/Modbus/Base/ModbusSerialBase.cs:855-949 | the reading part of a turn computes `TurnAt` |
| ModbusPlannerFacts.RegisterOfMember | src/src/GWModbusStandard.STD/Core/Clients/Modbus/Base/ModbusSerialBase.cs:849 | a slot's key maps back to its register |
| ModbusPlannerFacts.WindowBounded | src/src/GWModbusStandard.STD/Core/Clients/Modbus/Base/ModbusSerialBase.cs:853-888 | one turn keeps every issued read within 1 to 125 registers |
| ModbusPlannerFacts.RunBounded | src/src/GWModbusStandard.STD/Core/Clients/Modbus/Base/ModbusSerialBase.cs:851-956 | the whole loop keeps every issued read within 1 to 125 registers |
| ModbusPlannerFacts.PlanBounded | src/src/GWModbusStandard.STD/Core/Clients/Modbus/Base/ModbusSerialBase.cs:842-958 | a finished pass issued at least one read, each of 1 to 125 registers: `Convert.ToUInt16` never throws |
| ModbusPlannerFacts.WindowReads | src/src/GWModbusStandard.STD/Core/Clients/Modbus/Base/ModbusSerialBase.cs:855-888 | a window with members issues exactly one read, an empty one none |
| ModbusPlannerFacts.RunGrows | src/src/GWModbusStandard.STD/Core/Clients/Modbus/Base/ModbusSerialBase.cs:851-956 | the loop only adds reads |
| ModbusPlannerFacts.RunReads | src/src/GWModbusStandard.STD/Core/Clients/Modbus/Base/ModbusSerialBase.cs:849-888 | starting at a point's register, a finished loop issued at least one read |
| ModbusPlannerFacts.WindowKeeps | src/src/GWModbusStandard.STD/Core/Clients/Modbus/Base/ModbusSerialBase.cs:903-955 | one turn keeps the values' keys distinct, keys of the group, and below the next start |
| ModbusPlannerFacts.RunKeeps | src/src/GWModbusStandard.STD/Core/Clients/Modbus/Base/ModbusSerialBase.cs:851-956 | the whole loop keeps that |
| ModbusPlannerFacts.WindowCovers | src/src/GWModbusStandard.STD/Core/Clients/Modbus/Base/ModbusSerialBase.cs:950-955 | under the corrected advance a turn covers every point below the next start, and a turn that ends the pass covers them all |
| ModbusPlannerFacts.RunCovers | src/src/GWModbusStandard.STD/Core/Clients/Modbus/Base/ModbusSerialBase.cs:851-956 | under the corrected advance a successful loop yields every point's key |
| ModbusPlannerFacts.SlotKeys | src/src/GWModbusStandard.STD/Core/Clients/Modbus/Base/ModbusSerialBase.cs:847 | the slots keep the dictionary's distinct keys |
| ModbusPlannerFacts.PlanValues | src/src/GWModbusStandard.STD/Core/Clients/Modbus/Base/ModbusSerialBase.cs:842-958 | a finished pass yields each key at most once and only keys of the group; under the corrected advance a successful pass yields every key |
| ModbusPlanner.ReplyOf | src/src/GWModbusStandard.STD/Core/Clients/Modbus/Base/ModbusSerialBase.cs:888-902 | a `Read` that throws, or succeeds without a value, is an exception to the planner; a failed result is a failure; a value is handed on exactly as `Read` returns it (still reversed; `Extract` restores wire order) |
| ModbusPlannerFacts.ThrownReadAborts | src/src/GWModbusStandard.STD/Core/Clients/Modbus/Base/ModbusSerialBase.cs:888 | a read that throws ends the whole pass with the exception, whatever was read before |
| ModbusPlannerFacts.DemuxAllSucceeds | src/src/GWModbusStandard.STD/Core/Clients/Modbus/Base/ModbusSerialBase.cs:903-949 | extractions that never throw cut out every member's value |
| ModbusPlannerFacts.AsWrittenSkipsCovered | src/src/GWModbusStandard.STD/Core/Clients/Modbus/Base/ModbusSerialBase.cs:950-953 | as written, registers 0, 121 (eight bytes) and 123 give one read of 125 registers from 0 that covers 123, and the value of 123 is never added |
| ModbusPlannerFacts.AsWrittenSkipsByKeyOrder | src/src/GWModbusStandard.STD/Core/Clients/Modbus/Base/ModbusSerialBase.cs:952-953 | as written, after the window at 5 the key "10000" sorts before "9999", so the reads are (5, 1) and (10000, 1) and 9999 is never added |
| ModbusPlannerFacts.KeyOrderNext | src/src/GWModbusStandard.STD/Core/Clients/Modbus/Base/ModbusSerialBase.cs:952-953 | after the window at 5 the next start chosen is 10000 |
| ModbusPlannerFacts.LastTurn | src/src/GWModbusStandard.STD/Core/Clients/Modbus/Base/ModbusSerialBase.cs:954-955 | a first turn that cuts values out and finds no next start ends the pass with its values and read |
| ModbusPlannerFacts.TurnCuts | src/src/GWModbusStandard.STD/Core/Clients/Modbus/Base/ModbusSerialBase.cs:888-955 | a turn whose read and extractions succeed cuts one value per member and moves on to the next start |
| ModbusPlannerFacts.ExtractRegister | src/src/GWModbusStandard.STD/Core/Clients/Modbus/Base/ModbusSerialBase.cs:902-921 | a `UInt16` point at the window start, cut from a one-register value as `Read` returns it (low byte first), is the register `hi·256 + lo` |
| ModbusBatch.Distinct | src/src/GWModbusStandard.STD/Core/Clients/Modbus/Base/ModbusSerialBase.cs:808 | LINQ `Distinct()`: the same elements as its input, each once |
| ModbusBatch.FirstByAddressSpec | src/src/GWModbusStandard.STD/Core/Clients/Modbus/Base/ModbusSerialBase.cs:814-816 | `DistinctCustomBy(t => t.Address)` keeps inputs only, covers every address, and keeps each address once, so `ToDictionary` never meets a duplicate key |
| ModbusBatch.GroupOf | src/src/GWModbusStandard.STD/Core/Clients/Modbus/Base/ModbusSerialBase.cs:814 | exactly the inputs with that function code and station |
| ModbusBatch.PointsOf | src/src/GWModbusStandard.STD/Core/Clients/Modbus/Base/ModbusSerialBase.cs:816 | the dictionary of a group: one point per input, its address to its data type, in order |
| ModbusBatch.OutputsOf | src/src/GWModbusStandard.STD/Core/Clients/Modbus/Base/ModbusSerialBase.cs:820-829 | one `ModbusOutput` per value of a successful group, carrying its key, value, function code and station |
| ModbusBatch.VisitEscaped | src/src/GWModbusStandard.STD/Core/Clients/Modbus/Base/ModbusSerialBase.cs:809-838 | once an exception escapes, the groups after it are not read |
| ModbusBatch.ReadGroup | src/src/GWModbusStandard.STD/Core/Clients/Modbus/Base/ModbusSerialBase.cs:814-817 | the body of the inner loop builds the group's dictionary and computes its pass |
| ModbusBatch.ReadStations | src/src/GWModbusStandard.STD/Core/Clients/Modbus/Base/ModbusSerialBase.cs:812-837 | the inner `foreach` visits the stations of one function code in order, each group combined into the result |
| ModbusBatch.ReadStation | src/src/GWModbusStandard.STD/Core/Clients/Modbus/Base/ModbusSerialBase.cs:814-836 | one group's pass is added: its outputs on success, `SetErrInfo` on failure, the exception when it throws |
| ModbusBatch.BatchRead | src/src/GWModbusStandard.STD/Core/Clients/Modbus/Base/ModbusSerialBase.cs:804-840 | the nested loops compute the visit of every group in order |
| ModbusBatch.VisitEscapes | src/src/GWModbusStandard.STD/Core/Clients/Modbus/Base/ModbusSerialBase.cs:817 | an exception escapes exactly when some group's pass throws |
| ModbusBatch.VisitSucceeds | src/src/GWModbusStandard.STD/Core/Clients/Modbus/Base/ModbusSerialBase.cs:818-834 | without an exception, `IsSucceed` holds exactly when every group was read successfully |
| ModbusBatch.VisitOutputsSound | src/src/GWModbusStandard.STD/Core/Clients/Modbus/Base/ModbusSerialBase.cs:820-829 | every output comes from a successful group's entry, under that group's function code and station |
| ModbusBatch.VisitOutputsComplete | src/src/GWModbusStandard.STD/Core/Clients/Modbus/Base/ModbusSerialBase.cs:820-829 | every entry of every successful group becomes an output |
| ModbusBatch.StationsOfSpec | src/src/GWModbusStandard.STD/Core/Clients/Modbus/Base/ModbusSerialBase.cs:811 | the stations of a function code are exactly those some input with that code has |
| ModbusBatch.PairsSpec | src/src/GWModbusStandard.STD/Core/Clients/Modbus/Base/ModbusSerialBase.cs:808-812 | the group pairs are exactly the listed codes with their stations, each once |
| ModbusBatch.AllPairsSpec | src/src/GWModbusStandard.STD/Core/Clients/Modbus/Base/ModbusSerialBase.cs:808-812 | the two loops visit every (function code, station) group of the inputs, nothing else, each once |
| ModbusBatch.GroupPoints | src/src/GWModbusStandard.STD/Core/Clients/Modbus/Base/ModbusSerialBase.cs:814-816 | a group's dictionary has each of the group's addresses once and no other key |
| ModbusBatch.GroupPassValues | src/src/GWModbusStandard.STD/Core/Clients/Modbus/Base/ModbusSerialBase.cs:814-817 | a group's pass reads only addresses of the group; with the corrected window rule a successful pass reads all of them |
| ModbusBatch.BatchReadSound | src/src/GWModbusStandard.STD/Core/Clients/Modbus/Base/ModbusSerialBase.cs:804-840 | every output of `BatchRead` is an input's address, under that input's function code and station |
| ModbusBatch.BatchReadComplete | src/src/GWModbusStandard.STD/Core/Clients/Modbus/Base/ModbusSerialBase.cs:804-840 | with the corrected window rule a successful `BatchRead` has an output for every input |
| ModbusBatch.BatchReadEscapes | src/src/GWModbusStandard.STD/Core/Clients/Modbus/Base/ModbusSerialBase.cs:804-840 | an exception escapes `BatchRead` exactly when one group's pass throws |
| ModbusBatch.BatchReadSucceeds | src/src/GWModbusStandard.STD/Core/Clients/Modbus/Base/ModbusSerialBase.cs:804-840 | without an exception, `IsSucceed` says that every group was read successfully |
| ModbusBatch.BatchReadRetry | src/src/GWModbusStandard.STD/Core/Clients/Modbus/Base/ModbusSerialBase.cs:966-980 | at most `retryCount + 1` reads; every read but the last returned a failure without throwing; the last is returned, and it threw, succeeded or used up the retries |
| NodeStr.ParseDataType | src/src/GWModbusStandard.STD/Helper/NodeStrTranHelper.cs:27 | a parsed data type is one of the twelve named members |
| NodeStr.ParseNodeSpec | src/src/GWModbusStandard.STD/Helper/NodeStrTranHelper.cs:23-39 | a node string is accepted exactly when it has three comma-separated parts, the first a byte and the third a data type name; the address is the second part left-padded with '0' to four characters |
| NodeStr.NodeAddress | src/src/GWModbusStandard.STD/Helper/NodeStrTranHelper.cs:35 | an accepted address is at least four characters and ends with the text given |
| NodeStr.CacheKeyInjective | src/src/GWModbusStandard.STD/Helper/NodeStrTranHelper.cs:15 | the key `"{station}_{nodeStr}"` names one station and one node string |
| NodeStr.NodeEntry | src/src/GWModbusStandard.STD/Helper/NodeStrTranHelper.cs:53-57 | one node string adds at most one input to the list |
| NodeStr.Accepted | src/src/GWModbusStandard.STD/Helper/NodeStrTranHelper.cs:51-58 | the list holds at most one input per node string |
| NodeStr.NodeStrTranHelper.constructor | src/src/GWModbusStandard.STD/Helper/NodeStrTranHelper.cs:10 | the cache starts empty |
| NodeStr.NodeStrTranHelper.GetModbusInput | src/src/GWModbusStandard.STD/Helper/NodeStrTranHelper.cs:12-45 | a cache hit returns the cached object; a miss parses, caches only a successful parse under the key, and changes nothing else; the result is `null` exactly when the node string does not parse, and otherwise carries its parse, the station and the node string |
| NodeStr.NodeStrTranHelper.Collect | src/src/GWModbusStandard.STD/Helper/NodeStrTranHelper.cs:53-57 | one round of the loop appends the input exactly when the node string parses |
| NodeStr.NodeStrTranHelper.GetModbusInputList | src/src/GWModbusStandard.STD/Helper/NodeStrTranHelper.cs:47-61 | the inputs of the node strings that parse, in order, none for the others |
| NodeStr.NodeStrTranHelper.ClearCache | src/src/GWModbusStandard.STD/Helper/NodeStrTranHelper.cs:63-66 | the cache is empty afterwards |
| ModbusConfig.EndpointOfShape | src/src/GWModbusStandard.STD/Model/ConnectionConfig.cs:65-85 | a URL gives an endpoint only when it splits into exactly two parts at ':', the host parses as an address and the port is a number in `[0, 65535]` |
| ModbusConfig.EndpointOfFormat | src/src/GWModbusStandard.STD/Model/ConnectionConfig.cs:65-85 | `host:port` with a host that parses and a port in range reads back as that address and port |
| ModbusConfig.ConnectionConfig.constructor | src/src/GWModbusStandard.STD/Model/ConnectionConfig.cs:18-63 | the property initialisers: 5000 ms polling, TCP, 3000 ms timeout, ABCD, 9600 baud, 8 data bits, no stop bits, no parity |
| EquipSet.LastCallDecides | src/src/GWOpcUAStandard.STD/Model/EquipSetResponseModel.cs:12-24 | neither `Ok` nor `Fail` reads the fields it sets, so the last call decides code, message and data: `Ok` after `Fail` gives 200 again, `Fail` after `Ok` gives 400 |
| EquipSet.SucceedsAfterAll | src/src/GWModbusStandard.STD/Model/EquipSetModel.cs:27-45 | a response says 200 exactly when no call was made or the last call was `Ok` |
| EquipSet.EquipSetResponseModel.constructor | src/src/GWModbusStandard.STD/Model/EquipSetModel.cs:27-31 | a new response has code 200, no message and no data |
| EquipSet.EquipSetResponseModel.Fail | src/src/GWModbusStandard.STD/Model/EquipSetModel.cs:33-38 | the response becomes code 400 with the message and data given |
| EquipSet.EquipSetResponseModel.Ok | src/src/GWModbusStandard.STD/Model/EquipSetModel.cs:40-45 | the response becomes code 200 with the success message and data given |
| EquipSet.EquipSetRequestModel.constructor | src/src/GWModbusStandard.STD/Model/EquipSetModel.cs:11-16 | the control type given, empty write and read lists |
| ModbusSession.OfflineStepBounded | src/src/GWModbusStandard.STD/Model/ClientSession.Read.cs:13-29 | the offline counter stays within `[0, 5]`, and a successful check resets it and goes online |
| ModbusSession.FailuresGoOffline | src/src/GWModbusStandard.STD/Model/ClientSession.Read.cs:19-29 | failed checks leave the status alone while the counter stays within 5, and the next failure resets it and goes offline: from 0, the sixth failure in a row |
| ModbusSession.PagesPartition | src/src/GWModbusStandard.STD/Model/ClientSession.Read.cs:36-49 | the pages taken together are the points, each once, in order |
| ModbusSession.PagedPrefix | src/src/GWModbusStandard.STD/Model/ClientSession.Read.cs:44-49 | the first `p` pages are the first `p * PageSize` points |
| ModbusSession.BatchReadPageSound | src/src/GWModbusStandard.STD/Model/ClientSession.Read.cs:52 | `BatchRead` answers only for the points it is given |
| ModbusSession.StoredOther | src/src/GWModbusStandard.STD/Model/ClientSession.Read.cs:59-62 | storing outputs leaves every other key as it was |
| ModbusSession.PollStepOther | src/src/GWModbusStandard.STD/Model/ClientSession.Read.cs:44-68 | a page of other points leaves a key as it was |
| ModbusSession.PageAt | src/src/GWModbusStandard.STD/Model/ClientSession.Read.cs:46-49 | with one point per page, page `p` is the `p`-th point alone |
| ModbusSession.StoredLast | src/src/GWModbusStandard.STD/Model/ClientSession.Read.cs:59-62 | the last output of a read is the one stored under its key |
| ModbusSession.PollOther | src/src/GWModbusStandard.STD/Model/ClientSession.Read.cs:44-68 | a point no page holds keeps its value, present or absent, whatever the reads answer |
| ModbusSession.PollStores | src/src/GWModbusStandard.STD/Model/ClientSession.Read.cs:44-68 | after a poll, a point holds the last value its successful page read gave for it |
| ModbusSession.PollLater | src/src/GWModbusStandard.STD/Model/ClientSession.Read.cs:44-68 | later pages of other points leave a stored value alone |
| ModbusSession.EventsTakenOnce | src/src/GWModbusStandard.STD/Model/ClientSession.cs:92-140 | the events added for an equipment since it was last taken come back in one list, in order, once; a second take finds nothing; other equipment keeps its events |
| ModbusSession.AddedAllAt | src/src/GWModbusStandard.STD/Model/ClientSession.cs:92-102 | batches added for an equipment with no list become one list of all of them, in order, and nothing else changes |
| ModbusSession.InsertedKeys | src/src/GWModbusStandard.STD/Model/ClientSession.cs:104-110 | after `AddAddressInputs` a key is present exactly when it was before or some item has it |
| ModbusSession.InsertedValues | src/src/GWModbusStandard.STD/Model/ClientSession.cs:104-110 | the last item with a key is kept under it, and a key no item has keeps its point |
| ModbusSession.ClientSession.constructor | src/src/GWModbusStandard.STD/Model/ClientSession.cs:43-52 | a new session keeps its configuration and client, is online, and holds no point, value or event |
| ModbusSession.ClientSession.Create | src/src/GWModbusStandard.STD/Model/ClientSession.cs:46 | a `null` client is refused; otherwise a fresh online session with no point, value or event |
| ModbusSession.ClientSession.ReSetClientSession | src/src/GWModbusStandard.STD/Model/ClientSession.cs:72-76 | only the client is replaced |
| ModbusSession.ClientSession.ReSetPollingInterval | src/src/GWModbusStandard.STD/Model/ClientSession.cs:82-85 | only the polling interval is copied, into the session's own configuration object |
| ModbusSession.ClientSession.AddCurrentValue | src/src/GWModbusStandard.STD/Model/ClientSession.cs:87-90 | the value is stored under the key, replacing any earlier one |
| ModbusSession.ClientSession.AddCurrentEvent | src/src/GWModbusStandard.STD/Model/ClientSession.cs:92-102 | the events are appended to the equipment's list, or become its list |
| ModbusSession.ClientSession.AddAddressInputs | src/src/GWModbusStandard.STD/Model/ClientSession.cs:104-110 | each item is stored under its `DisplayNameKey`, a later one replacing an earlier one, and every point stays under its own key |
| ModbusSession.ClientSession.GetCurrentValues | src/src/GWModbusStandard.STD/Model/ClientSession.cs:112-125 | exactly the keys of the given points that have a stored value, with that value |
| ModbusSession.ClientSession.GetCurrentEvents | src/src/GWModbusStandard.STD/Model/ClientSession.cs:127-140 | the equipment's list is removed and returned, `null` when there is none |
| ModbusSession.ClientSession.SetOnline | src/src/GWModbusStandard.STD/Model/ClientSession.cs:142-145 | the session is online |
| ModbusSession.ClientSession.SetOffline | src/src/GWModbusStandard.STD/Model/ClientSession.cs:146-149 | the session is offline |
| ModbusSession.ClientSession.DisposeSession | src/src/GWModbusStandard.STD/Model/ClientSession.cs:151-172 | values, points and events are dropped and the session goes offline; the client, configuration and counters are kept |
| ModbusSession.ClientSession.Polled | src/src/GWModbusStandard.STD/Model/ClientSession.Read.cs:46 | the points in the order the key list gives |
| ModbusSession.ClientSession.PolledKeys | src/src/GWModbusStandard.STD/Model/ClientSession.Read.cs:46 | every point is polled under its own key, once |
| ModbusSession.ClientSession.ReadAllNodesValues | src/src/GWModbusStandard.STD/Model/ClientSession.Read.cs:11-69 | the connection check moves the counter and status; offline, nothing is read; online, the points are read a page at a time and each successful page's outputs are stored |
| ModbusSession.ClientSession.CheckConnection | src/src/GWModbusStandard.STD/Model/ClientSession.Read.cs:13-29 | the counter and status move as `OfflineStep` says |
| ModbusSession.ClientSession.ReadPages | src/src/GWModbusStandard.STD/Model/ClientSession.Read.cs:43-68 | the page loop computes `Poll` over all pages |
| ModbusSession.ClientSession.StoreAll | src/src/GWModbusStandard.STD/Model/ClientSession.Read.cs:59-62 | the store loop computes `Stored` |
| ModbusSession.ClientSession.StartPolling | src/src/GWModbusStandard.STD/Model/ClientSession.cs:57-69 | a poll already running is not started twice and changes nothing; otherwise one poll runs and the flag is cleared |
| ModbusSession.PollThenGet | src/src/GWModbusStandard.STD/Model/ClientSession.cs:112-125 | after an online poll, a point whose page was read successfully holds the last value that read gave, and `GetCurrentValues` returns it |
| ModbusManager.BackOff | src/src/GWModbusStandard.STD/Service/ConnClientManager.cs:44-49 | after a failure at `t` the URL is blocked exactly until `t + 30 s`: attempts before then return at once, later ones go ahead |
| ModbusManager.TransportOf | src/src/GWModbusStandard.STD/Service/ConnClientManager.cs:69-85 | TCP and RTU-over-TCP take the endpoint read from the URL and fail when it does not parse; RTU and ASCII take the URL as the port name; any other type throws; the client's kind is the configured type |
| ModbusManager.ItemReplies | src/src/GWModbusStandard.STD/Service/ConnClientManager.cs:211-249 | one response per item |
| ModbusManager.ItemRepliesSpec | src/src/GWModbusStandard.STD/Service/ConnClientManager.cs:211-249 | each item's response is about that item, says 200 exactly when its command succeeded, and carries its error text otherwise |
| ModbusManager.FirstThrowNone | src/src/GWModbusStandard.STD/Service/ConnClientManager.cs:197-258 | no command throws exactly when no first throw is found |
| ModbusManager.FirstThrowPrefix | src/src/GWModbusStandard.STD/Service/ConnClientManager.cs:211-249 | a throw within the first `n` items is the first throw of the list |
| ModbusManager.WriteValueSucceeds | src/src/GWModbusStandard.STD/Service/ConnClientManager.cs:197-259 | the response says 200 exactly when the URL is known and no command threw; failed items only mark their own entries |
| ModbusManager.WriteValueReadsWin | src/src/GWModbusStandard.STD/Service/ConnClientManager.cs:208-251 | with both lists given and nothing thrown, the read results replace the write results: one entry per read item |
| ModbusManager.ConnClientManager.constructor | src/src/GWModbusStandard.STD/Service/ConnClientManager.cs:17-29 | no sessions and no failed servers |
| ModbusManager.ConnClientManager.CreateNewSession | src/src/GWModbusStandard.STD/Service/ConnClientManager.cs:64-103 | a client that cannot be made or opened records the URL as failed until `now + 30 s` and returns `null`; otherwise a fresh session for the configuration and the client of its type, with the failures unchanged |
| ModbusManager.ConnClientManager.CreateClientSession | src/src/GWModbusStandard.STD/Service/ConnClientManager.cs:41-62 | a blocked URL changes nothing; a known URL keeps its session and takes the new polling interval; an unknown one gets a new session, or none (and is blocked) when that fails; other sessions and their configurations are left alone |
| ModbusManager.ConnClientManager.GetClientSessionStatus | src/src/GWModbusStandard.STD/Service/ConnClientManager.cs:111-130 | `false` for an unknown URL; otherwise one more poll is started and the session's status returned |
| ModbusManager.ConnClientManager.AddSubscription | src/src/GWModbusStandard.STD/Service/ConnClientManager.cs:176-187 | the points are added to the URL's session; an unknown URL is ignored |
| ModbusManager.ConnClientManager.GetCurrentValues | src/src/GWModbusStandard.STD/Service/ConnClientManager.cs:269-282 | `null` exactly for an unknown URL; otherwise the session's stored values of the given points |
| ModbusManager.ConnClientManager.GetCurrentEvents | src/src/GWModbusStandard.STD/Service/ConnClientManager.cs:292-313 | `null` for an unknown URL; otherwise the equipment's events are taken from the session |
| ModbusManager.ConnClientManager.GetModbusInputList | src/src/GWModbusStandard.STD/Service/ConnClientManager.cs:316-323 | `null` exactly for an unknown URL; otherwise the inputs of the node strings that parse, in order |
| ModbusManager.ConnClientManager.WriteValue | src/src/GWModbusStandard.STD/Service/ConnClientManager.cs:197-259 | a fresh response equal to `WriteValueReply`: unknown URL fails, a throw fails the whole response, otherwise the per-item responses of the read list (or of the write list) |
| ModbusManager.Answers | src/src/GWModbusStandard.STD/Service/ConnClientManager.cs:211-249 | the loop stops at the first command that throws; without one it yields each item's response in order |
| ModbusEquip.StationOfDecimal | src/src/GWModbusStandard.STD/CEquip.cs:86 | a station number written in decimal is read back as itself by `byte.TryParse` |
| ModbusEquip.SleepIntervalOfDecimal | src/src/GWModbusStandard.STD/CEquip.cs:83-95 | a nonzero interval written in decimal reads back as itself; zero gives the 5000 ms default |
| ModbusEquip.WriteValueAccepted | src/src/GWModbusStandard.STD/CEquip.cs:447-488 | function code 5 accepts exactly the four spellings of on and the four of off, code 6 exactly the texts that parse as a 16-bit unsigned number, and any other code the text as it is; refusals carry the code's error message |
| ModbusEquip.RegisterValueRoundTrip | src/src/GWModbusStandard.STD/CEquip.cs:470-476 | every register value in range, written in decimal, is accepted as itself |
| ModbusEquip.NameValue | src/src/GWModbusStandard.STD/CEquip.cs:323 | a member name of `ControlType` stands for a value below 3 |
| ModbusEquip.NamesValue | src/src/GWModbusStandard.STD/CEquip.cs:323 | comma-separated names or-ed together give a value below 4 |
| ModbusEquip.ControlTypeOf | src/src/GWModbusStandard.STD/CEquip.cs:323 | "Write", "Read" and "WriteRead", with surrounding white space, parse as those members |
| ModbusEquip.NumericControlType | src/src/GWModbusStandard.STD/CEquip.cs:323 | every `int` written in decimal parses, as the member of that value or as an undefined value |
| ModbusEquip.SevenIsUndefined | src/src/GWModbusStandard.STD/CEquip.cs:323 | "7" parses as the undefined value 7 |
| ModbusEquip.UndefinedSendsNothing | src/src/GWModbusStandard.STD/CEquip.cs:340-421 | an undefined control type passes the common checks and sends a request with no write and no read item |
| ModbusEquip.ControlTypeLists | src/src/GWModbusStandard.STD/CEquip.cs:323 | "Read,WriteRead" parses as the undefined value 3 and "Write, Read" as `Read` |
| ModbusEquip.ListOfTwo | src/src/GWModbusStandard.STD/CEquip.cs:323 | two names joined by a comma parse as the or of their values |
| ModbusEquip.Points | src/src/GWModbusStandard.STD/CEquip.cs:373 | one point per parse |
| ModbusEquip.DispatchKeepsType | src/src/GWModbusStandard.STD/CEquip.cs:340 | a command that is sent keeps the control type it was made for |
| ModbusEquip.CommandRejected | src/src/GWModbusStandard.STD/CEquip.cs:323-338 | an unparsable control text or a blank parameter refuses the command before anything is sent |
| ModbusEquip.ReadNeverRejected | src/src/GWModbusStandard.STD/CEquip.cs:367-380 | a `Read` is never refused: it reads at most one point per segment and writes none |
| ModbusEquip.WriteSent | src/src/GWModbusStandard.STD/CEquip.cs:343-366 | a `Write` that is sent names a node string that parses and carries one item with the parse of the value, reading nothing; otherwise it is refused |
| ModbusEquip.WriteCommand | src/src/GWModbusStandard.STD/CEquip.cs:350-366 | a `Write` whose node string parses and whose value is accepted sends that point with the parsed value |
| ModbusEquip.WriteReadCommand | src/src/GWModbusStandard.STD/CEquip.cs:387-420 | a `WriteRead` of two points that parse, with an accepted value, sends the first as the write item and the second as the read point |
| ModbusEquip.WriteOfSent | src/src/GWModbusStandard.STD/CEquip.cs:350-366 | the `Write` command of a parsing node string and an accepted value |
| ModbusEquip.DispatchOf | src/src/GWModbusStandard.STD/CEquip.cs:323-341 | once the checks pass, the command is that of the parsed control type |
| ModbusEquip.WriteReadKeepsParsed | src/src/GWModbusStandard.STD/CEquip.cs:401-408 | corrected: the `WriteRead` write item carries the value a `Write` of the same point would send |
| ModbusEquip.ParseBoolOf | src/src/GWModbusStandard.STD/CEquip.cs:417 | `bool.Parse` reads "true" and "false" in any case |
| ModbusEquip.CoilTextParses | src/src/GWModbusStandard.STD/CEquip.cs:456-461 | a coil state, written as text, is read back by `bool.Parse` as the same state |
| ModbusEquip.NotBool | src/src/GWModbusStandard.STD/CEquip.cs:417 | a one-character text that is not a letter is no truth value |
| ModbusEquip.WriteReadKeepsRaw | src/src/GWModbusStandard.STD/CEquip.cs:417 | as written: for a coil point the `WriteRead` write item carries the command text, where a `Write` of the same point and value carries `true` |
| ModbusEquip.WriteReadKeepsRawExample | src/src/GWModbusStandard.STD/CEquip.cs:454 | "1" is a spelling of on that `bool.Parse` refuses |
| ModbusEquip.Written | src/src/GWModbusStandard.STD/CEquip.cs:365 | one (point, value) pair per write item, in order |
| ModbusEquip.PointsOfViews | src/src/GWModbusStandard.STD/CEquip.cs:373-379 | the read points are the points of the successful parses |
| ModbusEquip.Equipment.constructor | src/src/GWModbusStandard.STD/CEquip.cs:47 | before `init` the station is 1 and there is no configuration |
| ModbusEquip.Equipment.Init | src/src/GWModbusStandard.STD/CEquip.cs:58-114 | the station from the equipment address, a fresh configuration with the connection parameter as URL, the parsed polling interval and the defaults |
| ModbusEquip.Equipment.SetParm | src/src/GWModbusStandard.STD/CEquip.cs:308-445 | a refused command sends nothing and fails with its message; otherwise the request carries the command's points and values, the response is the pool's `WriteValue`, and the result is whether it says 200 |
| ModbusEquip.Equipment.SendCommand | src/src/GWModbusStandard.STD/CEquip.cs:340-445 | the part of `SetParm` after the common checks: the control type's request, sent unless its branch failed the response |
| ModbusEquip.Transmit | src/src/GWModbusStandard.STD/CEquip.cs:432-440 | the request is handed to the pool unchanged and the response is the pool's answer |
| ModbusEquip.Prepare | src/src/GWModbusStandard.STD/CEquip.cs:340-421 | the `switch` fills the request of the command or fails the response with its message |
| ModbusEquip.WriteCase | src/src/GWModbusStandard.STD/CEquip.cs:343-366 | the `Write` branch: an item that parses is added even when its value is refused |
| ModbusEquip.AddWrite | src/src/GWModbusStandard.STD/CEquip.cs:365 | the write list becomes the one item |
| ModbusEquip.WriteItem | src/src/GWModbusStandard.STD/CEquip.cs:350-364 | a node string that does not parse fails the response; a refused value fails it with the value's error; otherwise the item carries the parsed value |
| ModbusEquip.ReadCase | src/src/GWModbusStandard.STD/CEquip.cs:367-380 | the `Read` branch: no write item, the points of the segments that parse |
| ModbusEquip.AddReads | src/src/GWModbusStandard.STD/CEquip.cs:379 | the read list becomes the given points |
| ModbusEquip.WriteReadOfParsed | src/src/GWModbusStandard.STD/CEquip.cs:401-420 | once both points parse, a `WriteRead` is refused with the value's error or sends the write item and the read point |
| ModbusEquip.ReadItem | src/src/GWModbusStandard.STD/CEquip.cs:410-415 | a read point that does not parse fails the response with the command error |
| ModbusEquip.WriteReadOfUnparsed | src/src/GWModbusStandard.STD/CEquip.cs:394-415 | a `WriteRead` whose write or read point does not parse is refused with the command error |
| ModbusEquip.WriteReadCase | src/src/GWModbusStandard.STD/CEquip.cs:381-420 | the `WriteRead` branch: the parameter must split in two and both points must parse; the write item carries the raw value as written, or its parse once corrected |
| ModbusEquip.AddWriteRead | src/src/GWModbusStandard.STD/CEquip.cs:418-419 | the write list becomes the write item and the read list the read point |
| ModbusEquip.WriteReadItems | src/src/GWModbusStandard.STD/CEquip.cs:392-417 | the read point is looked up only after the write point parses; the branch's command is `WriteReadOf` |
| ModbusEquip.CoilOnParsed | src/src/GWModbusStandard.STD/CEquip.cs:454-458 | every spelling of "on" that a coil write accepts parses as `true` |
| ModbusEquip.Or | src/src/GWModbusStandard.STD/CEquip.cs:323 | the bitwise or of two `ControlType` values below 4 stays below 4 |
| ModbusEquip.TrueParses | src/src/GWModbusStandard.STD/CEquip.cs:417 | `bool.Parse` reads the text "True" as `true` |
| ModbusEquip.FalseParses | src/src/GWModbusStandard.STD/CEquip.cs:417 | `bool.Parse` reads the text "False" as `false` |
| ModbusEquip.OneIsNotBool | src/src/GWModbusStandard.STD/CEquip.cs:417 | `bool.Parse` refuses the text "1" |
| Text.Split | src/src/GWModbusStandard.STD/Helper/NodeStrTranHelper.cs:23 | `String.Split`: at least one piece, and no piece contains a separator |
| Text.JoinSplit | src/src/GWModbusStandard.STD/Helper/NodeStrTranHelper.cs:23 | gluing the pieces back with the separator gives the text again |
| Text.SplitHeadIsPrefix | src/src/GWModbusStandard.STD/Helper/NodeStrTranHelper.cs:23 | the first piece is the text before the first separator |
| Text.SplitNoSeparator | src/src/GWModbusStandard.STD/Helper/NodeStrTranHelper.cs:23 | a text without separators is its own single piece |
| Text.SplitAtSeparator | src/src/GWModbusStandard.STD/CEquip.cs:387-393 | a text with one separator splits into the two sides |
| Text.PadLeft | src/src/GWModbusStandard.STD/Helper/NodeStrTranHelper.cs:35 | `PadLeft(width, c)`: a text at least `width` long is kept; a shorter one gets `c` in front up to `width` |
| Text.ToUpper | src/src/BCDataSimu.STD/CEquip.cs:442 | upper case character by character, the length kept |
| Text.ParseInteger | src/src/GWModbusStandard.STD/CEquip.cs:83-86 | `TryParse` of an integral type gives only values in the type's range |
| Text.NatStringValue | src/src/GWModbusStandard.STD/CEquip.cs:83 | the digits of a natural number read back as it |
| Text.ParseDecimalString | src/src/GWModbusStandard.STD/CEquip.cs:83-86 | the decimal text of a value in range parses back as the value |
| Text.DecimalStringInjective | src/src/GWModbusStandard.STD/Helper/NodeStrTranHelper.cs:15 | distinct numbers have distinct decimal texts |
| Text.DecimalStringEnds | src/src/GWModbusStandard.STD/CEquip.cs:323 | a decimal text starts with a digit or '-' and ends with a digit |
| Text.DecimalStringChars | src/src/GWModbusStandard.STD/Helper/NodeStrTranHelper.cs:15 | a decimal text holds only digits and '-' |
| Text.IndexOf | src/src/BCDataSimu.STD/CEquip.cs:463 | the position of the first occurrence of the character |
| Text.IndexOfGlued | src/src/BCDataSimu.STD/CEquip.cs:463 | in `x + c + y` with no `c` in `x`, the first `c` is at `|x|` |
| Text.SeparatedUnique | src/src/GWModbusStandard.STD/Helper/NodeStrTranHelper.cs:15 | `x + c + y` determines `x` and `y` when `x` holds no `c` |
| OpcUaStatus.AliveEarlier | src/src/GWOpcUAStandard.STD/Model/OpcUASessionStatus.cs:14-18 | liveness only ends: alive at some time means alive at every earlier time |
| OpcUaStatus.AliveUntilDeadline | src/src/GWOpcUAStandard.STD/Model/OpcUASessionStatus.cs:14-18 | a session is alive exactly until `since + timeout` seconds; the comparison is strict |
| OpcUaStatus.OpcUaSessionStatus.constructor | src/src/GWOpcUAStandard.STD/Model/OpcUASessionStatus.cs:7-11 | the given timeout (10 s by default), created now, no keep-alive yet |
| OpcUaStatus.OpcUaSessionStatus.GetTimeOutStatus | src/src/GWOpcUAStandard.STD/Model/OpcUASessionStatus.cs:14-18 | alive exactly while less than the timeout has passed since the last keep-alive, or since creation before any |
| OpcUaStatus.OpcUaSessionStatus.SetOnceKeepAliveTime | src/src/GWOpcUAStandard.STD/Model/OpcUASessionStatus.cs:19-22 | the keep-alive time becomes now, the creation time is kept, and with a positive timeout the session is alive now |
| OpcUaStatus.NewStatusAlive | src/src/GWOpcUAStandard.STD/Model/OpcUASessionStatus.cs:7-18 | a new status is alive from its creation for exactly its timeout unless a keep-alive comes |
| OpcUaSessions.KeepsByQuality | src/src/GWOpcUAStandard.STD/Model/OpcUaSession.cs:345-363 | a list of quality types admits a status code exactly when it names the code's own class (section 7.39 of OPC UA Part 4); an empty list admits nothing |
| OpcUaSessions.FilterNodeQualityType | src/src/GWOpcUAStandard.STD/Model/OpcUaSession.cs:345-363 | a value is kept exactly when some listed quality type admits its status code |
| OpcUaSessions.StoredSound | src/src/GWOpcUAStandard.STD/Model/OpcUaSession.cs:274-288 | a read stores exactly the nodes read whose status passes the filter, with their values unchanged; no quality type stores nothing |
| OpcUaSessions.StoredStep | src/src/GWOpcUAStandard.STD/Model/OpcUaSession.cs:274-288 | storing a longer read is storing the shorter read and then the last node when it passes |
| OpcUaSessions.StoreOne | src/src/GWOpcUAStandard.STD/Model/OpcUaSession.cs:274-288 | one turn of the store loop stores one more node |
| OpcUaSessions.Enumerate | src/src/GWOpcUAStandard.STD/Model/OpcUaSession.cs:243-246 | the enumeration of a set holds exactly its members |
| OpcUaSessions.OpcUaSession.constructor | src/src/GWOpcUAStandard.STD/Model/OpcUaSession.cs:16-26 | a new session has its configuration and SDK session, monitors nothing, holds no value, and a fresh status created now with the default timeout |
| OpcUaSessions.OpcUaSession.ReSetOpcUaSession | src/src/GWOpcUAStandard.STD/Model/OpcUaSession.cs:27-72 | every subscription and value is forgotten and the new SDK session taken; with a session a fresh status starts now, without one the exception from `CreateSubscription` escapes and the old status stays |
| OpcUaSessions.OpcUaSession.AddItems | src/src/GWOpcUAStandard.STD/Model/OpcUaSession.cs:85-108 | the monitored set gains exactly the accepted node ids; `added` says whether any was new |
| OpcUaSessions.OpcUaSession.AddAllSubscription | src/src/GWOpcUAStandard.STD/Model/OpcUaSession.cs:80-115 | the monitored set gains exactly the accepted node ids of the list, none twice |
| OpcUaSessions.OpcUaSession.AddSubscription | src/src/GWOpcUAStandard.STD/Model/OpcUaSession.cs:123-177 | subscribes like `AddAllSubscription`; only when something was added, the monitored nodes without a value and the list are read and their passing values stored; otherwise no value changes |
| OpcUaSessions.OpcUaSession.ReadNodeValueByNodes | src/src/GWOpcUAStandard.STD/Model/OpcUaSession.cs:291-344 | the accepted nodes of the list are read and each value passing the filter stored; nothing else changes |
| OpcUaSessions.OpcUaSession.StoreReads | src/src/GWOpcUAStandard.STD/Model/OpcUaSession.cs:274-288 | the store loop adds exactly the passing values of the nodes read |
| OpcUaSessions.OpcUaSession.ReadAllNodes | src/src/GWOpcUAStandard.STD/Model/OpcUaSession.cs:241-289 | with nothing monitored nothing happens; with a dropped status it throws before storing; otherwise every monitored node is read, the keep-alive refreshed and passing values stored |
| OpcUaSessions.OpcUaSession.OnNotification | src/src/GWOpcUAStandard.STD/Model/OpcUaSession.cs:209-219 | an item notification stores its value under the item's name and then refreshes the keep-alive, which throws exactly when the status was dropped; other notifications change nothing |
| OpcUaSessions.OpcUaSession.DisposeSession | src/src/GWOpcUAStandard.STD/Model/OpcUaSession.cs:365-395 | every subscription and value is forgotten and the status dropped |
| OpcUaSessions.ParsedElements | src/src/GWOpcUAStandard.STD/Model/OpcUaSession.cs:296-300 | the accepted node ids of a list are the accepted members of its set |
| OpcUaManagers.HotReloadCompare | src/src/GWOpcUAStandard.STD/OpcUaManager.cs:514-553 | a pooled session is kept exactly when every field but the kept qualities is the same |
| OpcUaManagers.HotReloadEquivalence | src/src/GWOpcUAStandard.STD/OpcUaManager.cs:514-553 | the comparison is reflexive, symmetric and transitive |
| OpcUaManagers.HotReloadIgnoresQualities | src/src/GWOpcUAStandard.STD/OpcUaManager.cs:514-553 | a change of the kept qualities alone never reloads a session |
| OpcUaManagers.NewConfigsReload | src/src/GWOpcUAStandard.STD/OpcUaManager.cs:514-553 | two default configurations are the same connection exactly when they name the same server |
| OpcUaManagers.StateListExact | src/src/GWOpcUAStandard.STD/OpcUaManager.cs:556-581 | every entry written names a URL of the state map and says "online" exactly when its state is true; every URL has its entry |
| OpcUaManagers.WriteMessageSucceeded | src/src/GWOpcUAStandard.STD/OpcUaManager.cs:181-231 | the message says success exactly when the URL has a session and the server answered a good status |
| OpcUaManagers.GoodWriteFails | src/src/GWOpcUAStandard.STD/OpcUaManager.cs:208-229 | as written, a good write still gives code 400, with the success message |
| OpcUaManagers.IntendedWriteSucceeds | src/src/GWOpcUAStandard.STD/OpcUaManager.cs:208-229 | corrected: the response says 200 exactly when the URL has a session and the status is good; otherwise 400 with the same message |
| OpcUaManagers.DistinctNeverRepeats | src/src/GWOpcUAStandard.STD/OpcUaManager.cs:304-337 | distinct node ids never trip the duplicate-key `Add` |
| OpcUaManagers.TwiceRepeats | src/src/GWOpcUAStandard.STD/OpcUaManager.cs:304-337 | asking twice for a node with a value trips it |
| OpcUaManagers.RepeatsPrefix | src/src/GWOpcUAStandard.STD/OpcUaManager.cs:304-337 | a repeat among the first ids is a repeat of the whole list |
| OpcUaManagers.OpcUaManager.constructor | src/src/GWOpcUAStandard.STD/OpcUaManager.cs:30 | no sessions, states or failed servers |
| OpcUaManagers.OpcUaManager.CreateNewSession | src/src/GWOpcUAStandard.STD/OpcUaManager.cs:97-132 | no session or a failing setup blocks the URL for 30 s and returns `null`; a connected session marks the URL online; otherwise a fresh session monitoring the accepted node ids with their passing values stored |
| OpcUaManagers.OpcUaManager.Drop | src/src/GWOpcUAStandard.STD/OpcUaManager.cs:62-65 | the pooled session is disposed, the URL marked offline and removed; its SDK session is kept |
| OpcUaManagers.OpcUaManager.CreateClientSession | src/src/GWOpcUAStandard.STD/OpcUaManager.cs:37-92 | a blocked URL changes nothing; a pooled session is dropped when its configuration changed, it timed out or lost its SDK session, and its liveness check throws when its status is gone; an unknown URL gets a new session or is blocked and marked offline |
| OpcUaManagers.OpcUaManager.AddSubscriptionToMonitoredItems | src/src/GWOpcUAStandard.STD/OpcUaManager.cs:164-173 | the set gains exactly the node ids of the list |
| OpcUaManagers.OpcUaManager.WriteValueAsync | src/src/GWOpcUAStandard.STD/OpcUaManager.cs:181-231 | as written, a fresh response failed with the message of how the write went |
| OpcUaManagers.OpcUaManager.GetNodeIdValues | src/src/GWOpcUAStandard.STD/OpcUaManager.cs:304-337 | an unknown URL gives an empty map; otherwise the requested ids with a non-`null` value, with it, or an empty map when one of them is requested twice |
| Simulator.SleepTimeOf | src/src/BCDataSimu.STD/CEquip.cs:248-258 | a blank communication parameter gives the 500 ms default |
| Simulator.SleepTimeOfText | src/src/BCDataSimu.STD/CEquip.cs:248-258 | an integer parameter is taken as the sleep time; non-blank text that is not an integer gives 0, not the default |
| Simulator.SetYxAccepted | src/src/BCDataSimu.STD/CEquip.cs:424-450 | `X`/`x`, any second character and a positive number set that YX, on exactly when the integer value is above 0 |
| Simulator.SetYcAccepted | src/src/BCDataSimu.STD/CEquip.cs:424-487 | `C`/`c` with a positive number and a plain integer value is accepted exactly when the equipment has that YC item |
| Simulator.YcYxRejects | src/src/BCDataSimu.STD/CEquip.cs:426-434 | a minor instruction of at most two characters, an empty value or a number that is not positive is rejected |
| Simulator.CommOffOnlyByZero | src/src/BCDataSimu.STD/CEquip.cs:191-213 | the communication goes down exactly for `SETCOMMSTATE` (any case) with a minor instruction that trims to `0` |
| Simulator.InstructionsDistinct | src/src/BCDataSimu.STD/CEquip.cs:22-24 | the three main instructions are different strings, so the switch has one arm per instruction |
| Simulator.CEquip.constructor | src/src/BCDataSimu.STD/CEquip.cs:30-37 | a new simulator is on its first entry, communication up, 500 ms sleep, no YX and no event |
| Simulator.CEquip.CheckCommunicationState | src/src/BCDataSimu.STD/CEquip.cs:232-243 | answers the communication flag |
| Simulator.CEquip.InitializeSleepTime | src/src/BCDataSimu.STD/CEquip.cs:248-258 | the sleep time becomes what `SleepTimeOf` gives for the parameter |
| Simulator.CEquip.Init | src/src/BCDataSimu.STD/CEquip.cs:52-72 | succeeds exactly when the communication is up and the host's init succeeds; only then, and on the first entry or a reset, the sleep time is reloaded and the first-entry flag cleared; otherwise both are unchanged |
| Simulator.CEquip.GetData | src/src/BCDataSimu.STD/CEquip.cs:79-89 | `fail` while the communication is down, otherwise the host's answer |
| Simulator.CEquip.GetYX | src/src/BCDataSimu.STD/CEquip.cs:124-182 | a YX that has a value keeps it, a missing one gets its default by level and inversion; a missing row is refused and changes nothing |
| Simulator.CEquip.HandleSetYXValue | src/src/BCDataSimu.STD/CEquip.cs:495-503 | an integer value sets the YX on exactly when it is above 0; any other value throws and changes nothing |
| Simulator.CEquip.HandleSetCommState | src/src/BCDataSimu.STD/CEquip.cs:577-588 | always accepted; the communication goes down for `0` (trimmed) and is otherwise unchanged |
| Simulator.CEquip.HandleAddEvent | src/src/BCDataSimu.STD/CEquip.cs:565-570 | appends one event with the minor instruction as its text and nothing else |
| Simulator.CEquip.HandleSetYCYXValue | src/src/BCDataSimu.STD/CEquip.cs:424-503 | accepted exactly when `YcYxEffect` does not reject; the YX map changes only for a YX command, by that one entry |
| Simulator.CEquip.SetParm | src/src/BCDataSimu.STD/CEquip.cs:191-213 | accepted exactly when `Dispatch` does not reject, with exactly that command's effect on YX values, communication and events; the communication never comes back up |

## Left out

**Behaviour that is outside the model**
- Sockets, serial ports and DNS: `Connect`, `SendAsync`, `SocketRead`, `SerialPortRead` and `EnsureConnected` are not modelled. A send or a connect is given as its result. The TCP client's `SendPackageReliable` is in `SocketBase`, which is not part of this model.
- Concurrency: semaphores, `lock`, the `Interlocked` skip-if-busy flags, `ConcurrentDictionary` and the `Lazy` pools. Each operation is modelled as running alone. `StartPolling`'s busy flag is a plain field.
- Sleeps and delays are not modelled: `Task.Delay` in `StartPolling` and `PullData`, and `base.Sleep` in the simulator's `GetData` and `CheckCommunicationState`.
- Floating point: `ReadFloat`/`ReadDouble`, the `float`/`double` `Write` overloads, `Convert.ToDouble`, and the simulator's `GetYC`, `CreateYCValue`, `IsValidExistingData` and `ParseSequenceData`.
- Randomness: the TCP check head (`GetCheckHead`) is the parameter `check`, and the simulator's random YC values are not modelled.
- The clock: times are milliseconds passed in as `now`. `DateTime` parsing is not modelled.
- Text encodings: `ReadString` and `Write(string)` depend on the `Encoding` API.
- ASCII/LRC framing and `ModbusRtuClient`/`ModbusAsciiClient` are not part of this model. The pool only chooses them as transports.
- `SocketHelper.SafeClose` returns at once in the source, so every close after a tag mismatch is a no-op here too.
- Logging (`WriteLogFile`, the console) is left out. No modelled outcome depends on it.
- The host framework is not part of this model: `CEquipBase`, `DataCenter`, the station database, `EquipItem` lookups and `base.init`. What they answer is a parameter.
- JSON configuration and `LinkStateFileService` file writing are left out. `WriteState` is modelled up to the list of link states it hands to the file writer.
- A `null` string argument is modelled as `None` only where the source tests for `null`. Elsewhere strings are never `null`.

**Helpers whose code is not part of this model**
- `CRC16.GetCRC16`/`CheckCRC16` are the parameters `crc`/`checkCrc`, with no property assumed. `ModbusRtu` proves frame layouts for any CRC function.
- `ByteFormatting` (the `EndianFormat` reordering) is the parameter `fmt`, with no property assumed.
- ModbusDemux.LsbDigits: `DataConvert.IntToBinaryArray(v, width)` is assumed to return the binary digits of `v`, most significant first, padded to `width`. `BinaryDigits`, `ReadInt16Bit` and the bit-slice lemmas rest on that assumption, which the source does not show.
- ModbusDemux.Distance: the difference `address - beginAddress`, and the `DistanceOf` and `ByteOffset` built on it, are unbounded integers. In C# they are `int` and wrap: `ReadInt16("-2147483648", "2147483647", …)` wraps, and `(d / 2) * 4` overflows once `d` reaches 2^29. So `ByteOffset` being `2d` holds in C# only while no step overflows. The batch read never gets there, because its addresses come from `ushort.Parse`, which keeps them within 0..65535.
- `ModbusHelper`, `DistinctCustomBy` and `Result.SetErrInfo` are not modelled beyond what the call sites show. `DistinctCustomBy(t => t.Address)` is taken to keep the first point of each address (`ModbusBatch.FirstByAddressSpec`).

**Behaviour modelled more narrowly than the source**
- ModbusPlanner.KeyBelow: `OrderBy(t => t.Key)` uses the default, culture-sensitive string comparer. The model uses the ordinal (character-code) order. The two agree on keys of digits alone. They can differ on keys with a `:bit` suffix: culture order puts "100:3" before "1005", ordinal order puts "1005" first. So for such groups the modelled next window start can differ from the source's.
- ModbusManager.ConnClientManager.CreateNewSession: the model returns a session with no points, and no poll is started. The source then fills the session from the station database (`AddAllAddress`) and starts polling (`StartPolling`). The station database is not part of this model. `AddAllAddress`'s effect is covered by `ModbusSession.ClientSession.AddAddressInputs`, and a poll by `ModbusSession.ClientSession.StartPolling`.
- ModbusEquip.Equipment.Init: models the equipment whose `Reserve2` is blank, which keeps the TCP/ABCD defaults. When `Reserve2` holds JSON, the source overrides `ModbusType`, `EndianFormat`, `BaudRate`, `DataBits`, `TimeOut`, `Parity`, `StopBits` and the default event level, then calls `OnLoaded`. That JSON parsing is not modelled. Neither is the result of `base.init`.
- ModbusSession.AddEvents: the model copies the event list. In the source, `AddRange` appends to the `List` object that the caller passed in the first time, so that caller's list is aliased and changes too. The model does not capture this aliasing.
- NodeStr.ParseDataType: `Enum.TryParse<DataTypeEnum>` also accepts decimal numbers and comma-separated names. The model reads member names only. The numeric values of the client library's `DataTypeEnum` are not part of this model (the OPC UA driver's `DataTypeEnum.cs` is a different enum), so a node string whose type is written as a number is refused here.
- ModbusPlanner.Reader: a read is one of three outcomes: a value, a failed result, or an exception. The model does not say which exception was thrown, only that one escapes.
- ModbusRtu.Read: the single-address typed wrappers of the clients are not modelled separately. `ReadInt16`, `ReadInt32`, `ReadUInt64` and their siblings call `Read` with a fixed length and convert the bytes with `BitConverter`. The batch path's conversions are modelled in `ModbusDemux`.

**OPC UA and simulator operations not modelled**
- OpcUaSessions: the SDK calls are not modelled: `Session.Create`, certificate setup, `CreateSubscription`, `Session.Read` and `Session.Write`. Whether a node id parses is the parameter `parses`, and what a read returns is the parameter `read`. `OnKeepAlive` is left out: it refreshes the keep-alive time (`OpcUaStatus.OpcUaSessionStatus.SetOnceKeepAliveTime`) when the SDK's keep-alive status is not bad. `PullData` is left out: it is a skip-if-busy wrapper around `ReadAllNodes`.
- OpcUaSessions.StoredSound: the store key is the node id text the model is given. The source stores each value under `NodeId.ToString()`, the SDK's canonical form, which can differ from the configured text (for example `ns=0;` is dropped). `Stored`, `StoredStep`, `StoreReads`, `ReadNodeValueByNodes` and `ReadAllNodes` hold when the configured ids are already canonical; canonicalisation is SDK code that is not part of this model.
- OpcUaManagers: `ReadAllNodes`, `AddSubscription` and `GetOpcSessionStatus` of the manager are not modelled separately.
  - `ReadAllNodes` and `AddSubscription` look up the URL's session and call the session member of the same name.
  - `GetOpcSessionStatus` combines the SDK's `KeepAliveStopped` with `OpcUaStatus.OpcUaSessionStatus.GetTimeOutStatus`, and starts `PullData` when polling is on.
- Simulator.YcEffect: `HandleSetYCValue` is modelled only as accepted or refused. The value it stores in the YC tables is not modelled, because it depends on `Convert.ToDouble` and `DateTime` parsing. A valid time stamp is the parameter `parsesDate`.
- Simulator: `HandleSetParmCount`, `InitializeSetParmCountDict` and `Confirm2NormalState` are left out. They keep counters for the random YC values, which are not modelled.
- Text.ToUpper: maps the ASCII letters only. Culture-specific and non-ASCII case mappings are not modelled.
- Text.Trim: removes only the six ASCII white-space characters (space, tab, line feed, carriage return, vertical tab, form feed). .NET also trims other Unicode white space, such as U+00A0, and the model does not. The same holds for `IsBlank` in `ModbusEquip` and `Simulator` (`string.IsNullOrWhiteSpace`), which treats a string of such characters as not blank.

## Findings

| source | as written | input that shows it | evidently intended | confidence | as-written member | corrected member |
|---|---|---|---|---|---|---|
| src/src/GWModbusStandard.STD/Core/Clients/Modbus/Base/ModbusSerialBase.cs:950-953 | the next window starts at the key-order-first point at or beyond `min + length`, the end of the read window | registers 0, 121 (eight bytes wide) and 123: one read of 125 registers covers 123, but its value is never cut out. After register 5, the key "10000" sorts before "9999", so register 9999 is never read | the next window starts at the least register beyond the widest member just read | not executed | ModbusPlannerFacts.AsWrittenSkipsCovered, ModbusPlannerFacts.AsWrittenSkipsByKeyOrder | ModbusPlannerFacts.RunCovers, ModbusPlannerFacts.PlanValues |
| src/src/GWModbusStandard.STD/Core/Clients/Modbus/ModbusTcpClient.cs:1661-1662 | the function-code-6 request's MBAP length bytes are 7, 0, that is 0x0700, for a twelve-byte frame | any `Write` of one register with function code 6 | a length field of 6, the number of bytes that follow it | not executed | ModbusTcp.WriteRegisterCommandAt | ModbusTcp.WriteRegisterCommandFixed |
| src/src/GWModbusStandard.STD/CEquip.cs:417 | the `WriteRead` write item carries the raw value text, overwriting the value `TryParseWriteValue` parsed | a coil point with value "1": a `Write` sends `true`, a `WriteRead` sends "1", and `bool.Parse("1")` throws | the write item keeps the parsed value, as in the `Write` branch | not executed | ModbusEquip.WriteReadKeepsRaw, ModbusEquip.WriteReadKeepsRawExample | ModbusEquip.WriteReadKeepsParsed |
| src/src/GWOpcUAStandard.STD/OpcUaManager.cs:208-212 | a good write status ends with `Fail("执行成功")` | any write the server accepts: the response code is 400 and the message says the write succeeded | `Ok` for a good status | not executed | OpcUaManagers.GoodWriteFails | OpcUaManagers.IntendedWriteSucceeds |
