/** `CEquip` of the Modbus driver: the equipment's connection parameters read
  * at `init`, and `SetParm`, which checks a set-point command, turns it into
  * a write and read request and sends it through the connection pool. */
module ModbusEquip {
  import opened Wrappers
  import opened Bytes
  import opened Text
  import opened ModbusModels
  import opened NodeStr
  import opened ModbusConfig
  import opened EquipSet
  import opened ModbusManager

  const BadCommand := "操作命令错误，请按使用文档填写"
  const EmptyParameter := "操作参数不能为空，请按使用文档填写"
  const CoilValueError := "功能码为5时，写入值必须是 [1, 0, true, false, 65280, 0x0000] 中的一个"
  const RegisterValueError := "功能码为6时，写入值必须是 0~65535 的整数"

  /** `_defaultSleepInterval`, in milliseconds. */
  const DefaultSleepInterval := 5000

  // ----- init -----

  /** `byte.TryParse(Equip_addr, out _stationNumber)`: a failed parse leaves
    * 0, not the field's initial 1. */
  function StationOf(equipAddr: string): (r: byte) {
    match ParseByte(equipAddr)
    case Some(n) => n
    case None => 0
  }

  /** `int.TryParse` of `communication_time_param`, with 0 (also what a
    * failed parse leaves) replaced by the default. */
  function SleepIntervalOf(timeParam: string): (r: int) {
    match ParseInt(timeParam)
    case Some(n) => if n == 0 then DefaultSleepInterval else n
    case None => DefaultSleepInterval
  }

  /** The station number written in decimal reads back as itself. */
  lemma StationOfDecimal(station: byte)
    ensures StationOf(DecimalString(station)) == station
  {
    ParseDecimalString(station, 0, ByteMax);
  }

  /** A nonzero interval written in decimal reads back as itself; zero and
    * text that is not a number give the default. */
  lemma SleepIntervalOfDecimal(n: int)
    requires IntMin <= n <= IntMax
    ensures SleepIntervalOf(DecimalString(n)) == if n == 0 then DefaultSleepInterval else n
  {
    ParseDecimalString(n, IntMin, IntMax);
  }

  // ----- the write value -----

  /** The result of `TryParseWriteValue`: the value to write, or the error. */
  datatype Parsed = Parsed(value: Boxed) | Refused(error: string)

  const CoilOn: set<string> := {"1", "true", "True", "65280"}
  const CoilOff: set<string> := {"0", "false", "False", "0x0000"}

  /** A coil write (function code 5) takes one of eight spellings of on and
    * off, a register write (6) a number that fits in 16 bits, and any other
    * function code the text as it is. */
  function TryParseWriteValue(functionCode: byte, value: string): Parsed
  {
    if functionCode == 5 then
      if value in CoilOn then Parsed(Coil(true))
      else if value in CoilOff then Parsed(Coil(false))
      else Refused(CoilValueError)
    else if functionCode == 6 then
      match ParseUShort(value)
      case Some(n) => Parsed(Register(n))
      case None => Refused(RegisterValueError)
    else Parsed(Raw(value))
  }

  /** A coil write (function code 5) takes one of eight spellings of on and
    * off, a register write (6) exactly the texts that parse as a 16-bit
    * unsigned number, and any other function code the text as it is. */
  lemma WriteValueAccepted(functionCode: byte, value: string)
    ensures var r := TryParseWriteValue(functionCode, value);
            functionCode == 5 ==>
              (r == Parsed(Coil(true)) <==> value in CoilOn) &&
              (r == Parsed(Coil(false)) <==> value in CoilOff) &&
              (r.Refused? <==> value !in CoilOn && value !in CoilOff) &&
              (r.Refused? ==> r.error == CoilValueError)
    ensures var r := TryParseWriteValue(functionCode, value);
            functionCode == 6 ==>
              (r.Parsed? <==> ParseUShort(value).Some?) &&
              (r.Parsed? ==> r.value == Register(ParseUShort(value).value) && 0 <= r.value.n <= UShortMax) &&
              (r.Refused? ==> r.error == RegisterValueError)
    ensures functionCode != 5 && functionCode != 6 ==> TryParseWriteValue(functionCode, value) == Parsed(Raw(value))
  {
  }

  /** Every register value in range, written in decimal, is accepted as
    * itself. */
  lemma RegisterValueRoundTrip(n: int)
    requires 0 <= n <= UShortMax
    ensures TryParseWriteValue(6, DecimalString(n)) == Parsed(Register(n))
  {
    ParseDecimalString(n, 0, UShortMax);
  }

  // ----- the command -----

  /** The value of a member name of `ControlType` (case-sensitive). */
  function NameValue(name: string): (r: Option<int>)
    ensures r.Some? ==> 0 <= r.value < 3
  {
    if name == "Write" then Some(0)
    else if name == "Read" then Some(1)
    else if name == "WriteRead" then Some(2)
    else None
  }

  /** The values of comma-separated member names, each piece trimmed,
    * combined with a bitwise or; `None` when a piece is not a name. */
  function NamesValue(pieces: seq<string>): (r: Option<int>)
    ensures r.Some? ==> 0 <= r.value < 4
  {
    if |pieces| == 0 then Some(0)
    else match NamesValue(pieces[..|pieces| - 1])
      case None => None
      case Some(w) =>
        match NameValue(Trim(pieces[|pieces| - 1]))
        case None => None
        case Some(v) => Some(Or(w, v))
  }

  /** Bitwise or of two enum values below 4. */
  function Or(w: int, v: int): (r: int)
    requires 0 <= w < 4 && 0 <= v < 4
    ensures 0 <= r < 4
  {
    ((w as bv2) | (v as bv2)) as int
  }

  /** `0` is the neutral value of the or. */
  lemma OrZero(v: int)
    requires 0 <= v < 4
    ensures Or(0, v) == v
  {
    if v == 0 { assert Or(0, 0) == 0; }
    else if v == 1 { assert Or(0, 1) == 1; }
    else if v == 2 { assert Or(0, 2) == 2; }
    else { assert Or(0, 3) == 3; }
  }

  /** Names separated by commas: the value of the first or-ed with that of
    * the rest. */
  lemma NamesOfTwo(x: string, y: string)
    requires ',' !in x && ',' !in y
    ensures NamesValue(Split(x + [','] + y, {','})) ==
            if NameValue(Trim(x)).Some? && NameValue(Trim(y)).Some?
            then Some(Or(NameValue(Trim(x)).value, NameValue(Trim(y)).value)) else None
  {
    SplitAtSeparator(x, y, ',');
    var p := [x, y];
    assert p[..1] == [x];
    NamesOfOne(x);
  }

  /** One name alone has its own value. */
  lemma NamesOfOne(x: string)
    ensures NamesValue([x]) == if NameValue(Trim(x)).Some? then Some(NameValue(Trim(x)).value) else None
  {
    var p := [x];
    assert p[..0] == [];
    assert NamesValue(p[..0]) == Some(0);
    if NameValue(Trim(x)).Some? {
      OrZero(NameValue(Trim(x)).value);
    }
  }

  /** A text with no comma that does not start like a number is one name. */
  lemma OneName(s: string)
    requires var t := Trim(s); |t| > 0 && !(IsDigit(t[0]) || t[0] == '-' || t[0] == '+') && ',' !in t && Trim(t) == t
    ensures var v := NameValue(Trim(s));
            ParseControlType(s) == if v.Some? then Some(ControlTypeOfValue(v.value)) else None
  {
    var t := Trim(s);
    SplitNoSeparator(t, {','});
    NamesOfOne(t);
  }

  /** The control type an enum value stands for. */
  function ControlTypeOfValue(v: int): ControlType {
    if v == 0 then Write else if v == 1 then Read else if v == 2 then WriteRead else Undefined(v)
  }

  /** `Enum.TryParse<ControlType>(s)`: text that, once trimmed, starts with
    * a digit or a sign is read as an `int`, whatever value it has; any other
    * text as comma-separated member names, or-ed together. */
  function ParseControlType(s: string): Option<ControlType> {
    var t := Trim(s);
    if |t| == 0 then None
    else if IsDigit(t[0]) || t[0] == '-' || t[0] == '+' then
      match ParseInt(t)
      case None => None
      case Some(v) => Some(ControlTypeOfValue(v))
    else
      match NamesValue(Split(t, {','}))
      case None => None
      case Some(v) => Some(ControlTypeOfValue(v))
  }

  /** A member name parses as that member. */
  lemma {:induction false} ControlTypeOf(s: string)
    ensures Trim(s) == "Write" ==> ParseControlType(s) == Some(Write)
    ensures Trim(s) == "Read" ==> ParseControlType(s) == Some(Read)
    ensures Trim(s) == "WriteRead" ==> ParseControlType(s) == Some(WriteRead)
  {
    var t := Trim(s);
    if t == "Write" || t == "Read" || t == "WriteRead" {
      TrimPlain(t);
      OneName(s);
    }
  }

  /** Every `int` written in decimal parses as the control type of that
    * value: "0", "1" and "2" are the three members, and any other number is
    * accepted as an undefined one. */
  lemma NumericControlType(n: int)
    requires IntMin <= n <= IntMax
    ensures ParseControlType(DecimalString(n)) == Some(ControlTypeOfValue(n))
  {
    var t := DecimalString(n);
    ParseDecimalString(n, IntMin, IntMax);
    DecimalStringEnds(n);
    TrimPlain(t);
  }

  /** A value outside the enum, such as "7", passes the common checks and
    * is sent as a request that writes and reads nothing. */
  lemma UndefinedSendsNothing(station: byte, m: string, s: string, value: string, kept: Kept)
    requires !IsBlank(s) && ParseControlType(m).Some? && ParseControlType(m).value.Undefined?
    ensures CommandOf(station, m, s, value, kept) == Send(ParseControlType(m).value, [], [])
  {
  }

  lemma SevenIsUndefined()
    ensures ParseControlType("7") == Some(Undefined(7))
  {
    NumericControlType(7);
    assert DecimalString(7) == "7";
  }

  /** A list of names or-s their values: "Read,WriteRead" is the undefined
    * value 3, and "Write" adds nothing to a list. */
  lemma ControlTypeLists()
    ensures ParseControlType("Read,WriteRead") == Some(Undefined(3))
    ensures ParseControlType("Write, Read") == Some(Read)
  {
    ReadWriteReadList();
    WriteReadList();
  }

  lemma ReadWriteReadList()
    ensures ParseControlType("Read,WriteRead") == Some(Undefined(3))
  {
    var x, y := "Read", "WriteRead";
    TrimPlain(x);
    TrimPlain(y);
    assert x + [','] + y == "Read,WriteRead";
    ListOfTwo(x, y);
    assert Or(1, 2) == 3;
  }

  lemma WriteReadList()
    ensures ParseControlType("Write, Read") == Some(Read)
  {
    var x, y := "Write", " Read";
    TrimPlain(x);
    TrimPlain("Read");
    assert y[1..] == "Read";
    assert Trim(y) == "Read";
    assert x + [','] + y == "Write, Read";
    ListOfTwo(x, y);
    OrZero(1);
  }

  /** Two names joined by a comma parse as their or-ed value. */
  lemma ListOfTwo(x: string, y: string)
    requires |x| > 0 && !IsWhite(x[0]) && !IsDigit(x[0]) && x[0] != '-' && x[0] != '+'
    requires |y| > 0 && !IsWhite(y[|y| - 1]) && ',' !in x && ',' !in y
    ensures var s := x + [','] + y;
            ParseControlType(s) ==
            if NameValue(Trim(x)).Some? && NameValue(Trim(y)).Some?
            then Some(ControlTypeOfValue(Or(NameValue(Trim(x)).value, NameValue(Trim(y)).value))) else None
  {
    var s := x + [','] + y;
    TrimPlain(s);
    NamesOfTwo(x, y);
  }

  /** `string.IsNullOrWhiteSpace`. */
  predicate IsBlank(s: string) {
    forall i :: 0 <= i < |s| ==> IsWhite(s[i])
  }

  /** What the write item of a `WriteRead` finally carries: as written, the
    * command text (`writeAddr.Value = value`), replacing the parsed value;
    * corrected, the parsed value, as for a `Write`. */
  datatype Kept = KeepsRaw | KeepsParsed

  /** What `SetParm` does with a command before anything is sent: it is
    * refused with the response's last message, or a request is sent with
    * these write items (point and value) and read points. */
  datatype Command =
    | Rejected(message: string)
    | Send(controlType: ControlType, writes: seq<(Input, Boxed)>, readList: seq<Input>)

  /** The points of a list of parses. */
  function Points(accepted: seq<(Input, Option<string>)>): (r: seq<Input>)
    ensures |r| == |accepted|
  {
    if |accepted| == 0 then [] else Points(accepted[..|accepted| - 1]) + [accepted[|accepted| - 1].0]
  }

  /** The command `SetParm` makes of a control type, a node string parameter
    * and a value; `kept` chooses what a `WriteRead` write item carries. */
  function CommandOf(station: byte, mainInstruct: string, minorInstruct: string, value: string, kept: Kept): Command {
    if IsBlank(minorInstruct) then Rejected(EmptyParameter)
    else match ParseControlType(mainInstruct)
      case None => Rejected(BadCommand)
      case Some(controlType) => Dispatch(station, controlType, minorInstruct, value, kept)
  }

  /** The command of each control type, once the checks common to all
    * have passed. */
  function Dispatch(station: byte, controlType: ControlType, minorInstruct: string, value: string, kept: Kept): Command {
    match controlType
    case Write => WriteOf(station, minorInstruct, value)
    case Read => Send(Read, [], Points(Accepted(station, Split(minorInstruct, {'|'}))))
    case WriteRead => WriteReadOf(station, Split(minorInstruct, {'|'}), value, kept)
    case Undefined(_) => Send(controlType, [], [])
  }

  /** A command that is sent keeps the control type it was made for. */
  lemma DispatchKeepsType(station: byte, controlType: ControlType, minorInstruct: string, value: string, kept: Kept)
    ensures Dispatch(station, controlType, minorInstruct, value, kept).Send? ==>
            Dispatch(station, controlType, minorInstruct, value, kept).controlType == controlType
  {
  }

  /** `Write`: one node string and its value. */
  function WriteOf(station: byte, nodeStr: string, value: string): Command {
    match ParseNode(nodeStr)
    case None => Rejected(BadCommand)
    case Some(n) =>
      match TryParseWriteValue(n.code, value)
      case Refused(e) => Rejected(e)
      case Parsed(v) => Send(Write, [(Built(station, nodeStr, n), v)], [])
  }

  /** `WriteRead`: the write point and the read point, and the value; the
    * read point is checked before the value's error is reported. */
  function WriteReadOf(station: byte, parts: seq<string>, value: string, kept: Kept): Command {
    if |parts| != 2 then Rejected(BadCommand)
    else match ParseNode(parts[0])
      case None => Rejected(BadCommand)
      case Some(w) =>
        var parsed := TryParseWriteValue(w.code, value);
        match ParseNode(parts[1])
        case None => Rejected(BadCommand)
        case Some(r) =>
          if parsed.Refused? then Rejected(parsed.error)
          else
            var v := if kept == KeepsRaw then Raw(value) else parsed.value;
            Send(WriteRead, [(Built(station, parts[0], w), v)], [Built(station, parts[1], r)])
  }

  /** A command is refused before anything is sent when the parameter is
    * blank or the control type is unknown. */
  lemma CommandRejected(station: byte, mainInstruct: string, minorInstruct: string, value: string, kept: Kept)
    requires IsBlank(minorInstruct) || ParseControlType(mainInstruct).None?
    ensures CommandOf(station, mainInstruct, minorInstruct, value, kept).Rejected?
  {
  }

  /** A `Read` is never refused, however few of its node strings parse: it
    * reads no more points than there are segments, and writes none. */
  lemma ReadNeverRejected(station: byte, mainInstruct: string, minorInstruct: string, value: string, kept: Kept)
    requires !IsBlank(minorInstruct) && ParseControlType(mainInstruct) == Some(Read)
    ensures var c := CommandOf(station, mainInstruct, minorInstruct, value, kept);
            c.Send? && c.writes == [] && |c.readList| <= |Split(minorInstruct, {'|'})|
  {
    DispatchOf(station, mainInstruct, minorInstruct, value, kept);
  }

  /** A `Write` that is sent names a node string that parses and carries one
    * item whose value is the parse of the text, and reads nothing; a node
    * string that does not parse or a refused value refuses it. */
  lemma WriteSent(station: byte, mainInstruct: string, minorInstruct: string, value: string, kept: Kept)
    requires ParseControlType(mainInstruct) == Some(Write)
    ensures var c := CommandOf(station, mainInstruct, minorInstruct, value, kept);
            c.Send? <==>
              !IsBlank(minorInstruct) && ParseNode(minorInstruct).Some? &&
              TryParseWriteValue(ParseNode(minorInstruct).value.code, value).Parsed?
    ensures var c := CommandOf(station, mainInstruct, minorInstruct, value, kept);
            c.Send? ==>
              |c.writes| == 1 && c.readList == [] &&
              TryParseWriteValue(ParseNode(minorInstruct).value.code, value) == Parsed(c.writes[0].1)
  {
    if !IsBlank(minorInstruct) {
      DispatchOf(station, mainInstruct, minorInstruct, value, kept);
    }
  }

  /** A `Write` whose node string parses and whose value is accepted sends
    * that one point with the parsed value. */
  lemma WriteCommand(station: byte, m: string, w: string, value: string, kept: Kept)
    requires ParseControlType(m) == Some(Write)
    requires !IsBlank(w) && ParseNode(w).Some?
    requires TryParseWriteValue(ParseNode(w).value.code, value).Parsed?
    ensures CommandOf(station, m, w, value, kept) ==
            Send(Write, [(Built(station, w, ParseNode(w).value), TryParseWriteValue(ParseNode(w).value.code, value).value)], [])
  {
    DispatchOf(station, m, w, value, kept);
  }

  /** A `WriteRead` naming two points that parse, with an accepted value,
    * sends the first as the write item and the second as the read point;
    * the write item carries the raw text as written and the parsed value
    * once corrected. */
  lemma WriteReadCommand(station: byte, m: string, w: string, r: string, value: string, kept: Kept)
    requires ParseControlType(m) == Some(WriteRead)
    requires '|' !in w && '|' !in r && ParseNode(w).Some? && ParseNode(r).Some?
    requires TryParseWriteValue(ParseNode(w).value.code, value).Parsed?
    ensures CommandOf(station, m, w + "|" + r, value, kept) ==
            Send(WriteRead,
                 [(Built(station, w, ParseNode(w).value),
                   if kept == KeepsRaw then Raw(value) else TryParseWriteValue(ParseNode(w).value.code, value).value)],
                 [Built(station, r, ParseNode(r).value)])
  {
    var s := w + "|" + r;
    assert s == w + ['|'] + r;
    SplitAtSeparator(w, r, '|');
    NotBlankJoined(w, r);
    DispatchOf(station, m, s, value, kept);
    WriteReadOfParsed(station, [w, r], value, kept);
    WriteOfSent(station, w, value);
  }

  /** A `Write` whose node string parses and whose value is accepted. */
  lemma WriteOfSent(station: byte, w: string, value: string)
    requires ParseNode(w).Some? && TryParseWriteValue(ParseNode(w).value.code, value).Parsed?
    ensures WriteOf(station, w, value) ==
            Send(Write, [(Built(station, w, ParseNode(w).value), TryParseWriteValue(ParseNode(w).value.code, value).value)], [])
  {
  }

  /** Once the parameter is not blank and the control type parses, the
    * command is that control type's. */
  lemma DispatchOf(station: byte, m: string, s: string, value: string, kept: Kept)
    requires !IsBlank(s) && ParseControlType(m).Some?
    ensures CommandOf(station, m, s, value, kept) == Dispatch(station, ParseControlType(m).value, s, value, kept)
  {
  }

  lemma NotBlankJoined(w: string, r: string)
    ensures !IsBlank(w + "|" + r)
  {
    assert (w + "|" + r)[|w|] == '|';
  }

  /** Corrected: the write item of a `WriteRead` carries the value a `Write`
    * of the same node string would send. */
  lemma WriteReadKeepsParsed(station: byte, m: string, mw: string, w: string, r: string, value: string)
    requires ParseControlType(m) == Some(WriteRead) && ParseControlType(mw) == Some(Write)
    requires '|' !in w && '|' !in r && !IsBlank(w) && ParseNode(w).Some? && ParseNode(r).Some?
    requires TryParseWriteValue(ParseNode(w).value.code, value).Parsed?
    ensures var c := CommandOf(station, m, w + "|" + r, value, KeepsParsed);
            c.Send? && c.writes == CommandOf(station, mw, w, value, KeepsParsed).writes &&
            c.readList == [Built(station, r, ParseNode(r).value)]
  {
    WriteReadCommand(station, m, w, r, value, KeepsParsed);
    WriteCommand(station, mw, w, value, KeepsParsed);
  }

  /** `Value.ToString()` of a write item, as `WriteAddressValues` reads it;
    * `None` is the `NullReferenceException` of an item with no value. */
  function WriteText(v: Boxed): Option<string> {
    match v
    case Null => None
    case Coil(b) => Some(if b then "True" else "False")
    case Register(n) => Some(DecimalString(n))
    case Raw(s) => Some(s)
  }

  /** `bool.Parse`: "true" or "false" in any case, surrounding white space
    * ignored; anything else throws (`None`). */
  function ParseBool(s: string): Option<bool> {
    var t := ToUpper(Trim(s));
    if t == "TRUE" then Some(true) else if t == "FALSE" then Some(false) else None
  }

  /** Text whose trimmed upper case is `TRUE` or `FALSE` parses as that
    * truth value. */
  lemma ParseBoolOf(s: string)
    ensures ToUpper(Trim(s)) == "TRUE" ==> ParseBool(s) == Some(true)
    ensures ToUpper(Trim(s)) == "FALSE" ==> ParseBool(s) == Some(false)
  {
  }

  /** A coil state is written as text `bool.Parse` reads back as the same
    * state. */
  lemma CoilTextParses(b: bool)
    ensures WriteText(Coil(b)).Some? && ParseBool(WriteText(Coil(b)).value) == Some(b)
  {
    if b {
      TrueParses();
    } else {
      FalseParses();
    }
  }

  lemma TrueParses()
    ensures ParseBool("True") == Some(true)
  {
    UpperTrue();
    BoolText("True", "TRUE");
  }

  lemma FalseParses()
    ensures ParseBool("False") == Some(false)
  {
    UpperFalse();
    BoolText("False", "FALSE");
  }

  lemma UpperTrue()
    ensures ToUpper("True") == "TRUE"
  {
    var u := ToUpper("True");
    assert u[0] == 'T' && u[1] == 'R' && u[2] == 'U' && u[3] == 'E';
  }

  lemma UpperFalse()
    ensures ToUpper("False") == "FALSE"
  {
    var u := ToUpper("False");
    assert u[0] == 'F' && u[1] == 'A' && u[2] == 'L' && u[3] == 'S' && u[4] == 'E';
  }

  /** Text with no surrounding white space whose upper case is `TRUE` or
    * `FALSE` parses as that truth value. */
  lemma BoolText(s: string, upper: string)
    requires |s| > 0 && !IsWhite(s[0]) && !IsWhite(s[|s| - 1]) && ToUpper(s) == upper
    requires upper == "TRUE" || upper == "FALSE"
    ensures ParseBool(s) == Some(upper == "TRUE")
  {
    TrimPlain(s);
    ParseBoolOf(s);
  }

  /** A one-character text that is neither white space nor a letter reads
    * as no truth value. */
  lemma NotBool(s: string)
    requires |s| == 1 && !IsWhite(s[0]) && !('a' <= s[0] <= 'z') && !('A' <= s[0] <= 'Z')
    ensures ParseBool(s).None?
  {
    TrimPlain(s);
    assert ToUpper(s) == s;
  }

  /** As written: for a coil point, a `WriteRead` whose value is a spelling
    * of "on" sends that text, where a `Write` of the same point and value
    * sends `true`. `WriteAddressValues` reads `true` back
    * (`CoilTextParses`) but throws on the text "1" (`OneIsNotBool`). */
  lemma WriteReadKeepsRaw(station: byte, m: string, mw: string, w: string, r: string, value: string)
    requires ParseControlType(m) == Some(WriteRead) && ParseControlType(mw) == Some(Write)
    requires '|' !in w && '|' !in r && !IsBlank(w) && ParseNode(w).Some? && ParseNode(r).Some?
    requires ParseNode(w).value.code == 5 && value in CoilOn
    ensures CommandOf(station, m, w + "|" + r, value, KeepsRaw) ==
            Send(WriteRead, [(Built(station, w, ParseNode(w).value), Raw(value))], [Built(station, r, ParseNode(r).value)])
    ensures CommandOf(station, mw, w, value, KeepsRaw) == Send(Write, [(Built(station, w, ParseNode(w).value), Coil(true))], [])
  {
    CoilOnParsed(value);
    WriteReadCommand(station, m, w, r, value, KeepsRaw);
    WriteCommand(station, mw, w, value, KeepsRaw);
  }

  lemma CoilOnParsed(value: string)
    requires value in CoilOn
    ensures TryParseWriteValue(5, value) == Parsed(Coil(true))
  {
  }

  /** The finding's inputs exist: the control texts "WriteRead" and
    * "Write", and the value "1", which a coil write accepts as on but
    * `bool.Parse` refuses. */
  lemma WriteReadKeepsRawExample()
    ensures ParseControlType("WriteRead") == Some(WriteRead) && ParseControlType("Write") == Some(Write)
    ensures "1" in CoilOn && ParseBool("1").None?
  {
    WriteReadName();
    WriteName();
    OneIsNotBool();
  }

  lemma WriteReadName()
    ensures ParseControlType("WriteRead") == Some(WriteRead)
  {
    TrimPlain("WriteRead");
    ControlTypeOf("WriteRead");
  }

  lemma WriteName()
    ensures ParseControlType("Write") == Some(Write)
  {
    TrimPlain("Write");
    ControlTypeOf("Write");
  }

  lemma OneIsNotBool()
    ensures ParseBool("1").None?
  {
    NotBool("1");
  }

  /** Splitting `x + sep + y` with no separator in `x` gives `x` followed by
    * the pieces of `y`. */
  lemma {:induction false} SplitAtSeparatorList(x: string, y: string, ys: seq<string>)
    requires ',' !in x && Split(y, {','}) == ys
    ensures Split(x + [','] + y, {','}) == [x] + ys
    decreases |x|
  {
    var s := x + [','] + y;
    if |x| == 0 {
      assert s == [','] + y && s[1..] == y;
    } else {
      assert s[1..] == x[1..] + [','] + y;
      SplitAtSeparatorList(x[1..], y, ys);
      assert [x[0]] + x[1..] == x;
    }
  }

  lemma DigitParse(s: string, n: int)
    requires |s| == 1 && IsDigit(s[0]) && n == s[0] as int - 48
    ensures ParseByte(s) == Some(n)
  {
    ParseDecimalString(n, 0, ByteMax);
    assert DecimalString(n) == s;
  }

  // ----- the equipment -----

  /** The values and points a request carries: each write item's point and
    * the value it will write. */
  function Written(ms: seq<ModbusInput>): (r: seq<(Input, Boxed)>)
    reads ms
    ensures |r| == |ms| && forall i :: 0 <= i < |ms| ==> r[i] == (ms[i].View(), ms[i].value)
  {
    if |ms| == 0 then [] else Written(ms[..|ms| - 1]) + [(ms[|ms| - 1].View(), ms[|ms| - 1].value)]
  }

  lemma WrittenOne(ms: seq<ModbusInput>, m: ModbusInput)
    requires ms == [m]
    ensures Written(ms) == [(m.View(), m.value)]
  {
  }

  /** The points of the inputs a node string list gives are the points of
    * its successful parses. */
  lemma {:induction false} PointsOfViews(rs: seq<ModbusInput>)
    ensures Points(Views(rs)) == InputsOf(rs)
  {
    if |rs| > 0 {
      PointsOfViews(rs[..|rs| - 1]);
    }
  }

  /** One Modbus equipment of the host: its station number and connection
    * configuration. */
  class Equipment {
    var stationNumber: byte
    var config: ConnectionConfig?

    /** Before `init` the station is 1 and there is no configuration. */
    constructor ()
      ensures stationNumber == 1 && config == null
    {
      stationNumber := 1;
      config := null;
    }

    /** `init`: the station from the equipment address and a new
      * configuration for the connection parameter and polling interval. */
    method Init(communicationParam: string, timeParam: string, equipAddr: string)
      modifies this
      ensures stationNumber == StationOf(equipAddr) && config != null && fresh(config)
      ensures config.serverUrl == communicationParam && config.sleepInterval == SleepIntervalOf(timeParam)
      ensures config.modbusType == Tcp && config.timeOut == 3000 && config.endianFormat == ABCD
    {
      var sleepInterval := match ParseInt(timeParam) case Some(n) => n case None => 0;
      stationNumber := StationOf(equipAddr);
      config := new ConnectionConfig(communicationParam);
      config.sleepInterval := if sleepInterval == 0 then DefaultSleepInterval else sleepInterval;
    }

    /** `SetParm`: a refused command sends nothing and fails with its
      * message; otherwise the request carries the command's points and
      * values, the response is what the pool's `WriteValue` makes of it,
      * and the result says whether that response is a success. */
    method SetParm(mainInstruct: string, minorInstruct: string, value: string, kept: Kept,
                   manager: ConnClientManager, write: ModbusInput -> Answer, read: ModbusInput -> Answer)
      returns (ok: bool, request: EquipSetRequestModel?, response: EquipSetResponseModel)
      requires config != null
      ensures var c := CommandOf(stationNumber, mainInstruct, minorInstruct, value, kept);
              c.Rejected? ==> !ok && response.code == FailureCode && response.message == Some(c.message)
      ensures var c := CommandOf(stationNumber, mainInstruct, minorInstruct, value, kept);
              c.Send? ==>
                request != null && request.controlType == c.controlType &&
                Written(request.writeList) == c.writes && InputsOf(request.readList) == c.readList &&
                response.View() == WriteValueReply(config.serverUrl in manager.clientSessions,
                                                   request.writeList, request.readList, write, read)
      ensures ok <==> CommandOf(stationNumber, mainInstruct, minorInstruct, value, kept).Send? && response.code == SuccessCode
    {
      response := new EquipSetResponseModel();
      ok := false;
      request := null;
      var controlType := ParseControlType(mainInstruct);
      if controlType.None? {
        response.Fail(BadCommand, NoData);
      }
      if IsBlank(minorInstruct) {
        response.Fail(EmptyParameter, NoData);
      }
      if response.code != SuccessCode {
        return;
      }
      assert CommandOf(stationNumber, mainInstruct, minorInstruct, value, kept) ==
             Dispatch(stationNumber, controlType.value, minorInstruct, value, kept);
      ok, request, response := SendCommand(controlType.value, minorInstruct, value, kept, manager, write, read);
    }

    /** The rest of `SetParm` once the common checks have passed: the
      * request of the control type, sent through the pool unless the
      * branch failed the response. */
    method SendCommand(controlType: ControlType, minorInstruct: string, value: string, kept: Kept,
                       manager: ConnClientManager, write: ModbusInput -> Answer, read: ModbusInput -> Answer)
      returns (ok: bool, request: EquipSetRequestModel, response: EquipSetResponseModel)
      requires config != null
      ensures var c := Dispatch(stationNumber, controlType, minorInstruct, value, kept);
              c.Rejected? ==> !ok && response.code == FailureCode && response.message == Some(c.message)
      ensures var c := Dispatch(stationNumber, controlType, minorInstruct, value, kept);
              c.Send? ==>
                request.controlType == controlType && c.controlType == controlType &&
                Written(request.writeList) == c.writes && InputsOf(request.readList) == c.readList &&
                response.View() == WriteValueReply(config.serverUrl in manager.clientSessions,
                                                   request.writeList, request.readList, write, read)
      ensures ok <==> Dispatch(stationNumber, controlType, minorInstruct, value, kept).Send? && response.code == SuccessCode
    {
      var nodeStrTran := new NodeStrTranHelper();
      response := new EquipSetResponseModel();
      request := new EquipSetRequestModel(controlType);
      ok := false;
      Prepare(nodeStrTran, stationNumber, controlType, minorInstruct, value, kept, request, response);
      if response.code != SuccessCode {
        return;
      }
      DispatchKeepsType(stationNumber, controlType, minorInstruct, value, kept);
      response := Transmit(manager, config.serverUrl, nodeStrTran, request, write, read);
      ok := response.code == SuccessCode;
    }
  }

  /** The tail of `SetParm`: hands the request to the manager, then
    * empties the helper's cache. */
  method Transmit(manager: ConnClientManager, serverUrl: string, nodeStrTran: NodeStrTranHelper,
                  request: EquipSetRequestModel, write: ModbusInput -> Answer, read: ModbusInput -> Answer)
    returns (response: EquipSetResponseModel)
    modifies nodeStrTran
    ensures Written(request.writeList) == old(Written(request.writeList))
    ensures InputsOf(request.readList) == old(InputsOf(request.readList))
    ensures response.View() ==
            WriteValueReply(serverUrl in manager.clientSessions, request.writeList, request.readList, write, read)
  {
    response := manager.WriteValue(serverUrl, request, write, read);
    nodeStrTran.ClearCache();
  }

  /** A response as `new` leaves it. */
  predicate Untouched(r: Reply) {
    r == Reply(SuccessCode, None, NoData)
  }

  /** The `switch` of `SetParm`: fills a new request, or fails the
    * response with the command's message. */
  method Prepare(nodeStrTran: NodeStrTranHelper, station: byte, controlType: ControlType, minorInstruct: string,
                 value: string, kept: Kept, request: EquipSetRequestModel, response: EquipSetResponseModel)
    requires nodeStrTran.Valid() && nodeStrTran.cache == map[]
    requires request.writeList == [] && request.readList == [] && Untouched(response.View())
    modifies nodeStrTran, request, response
    ensures var c := Dispatch(station, controlType, minorInstruct, value, kept);
            (c.Rejected? ==> response.code == FailureCode && response.message == Some(c.message)) &&
            (c.Send? ==> Untouched(response.View()) && Written(request.writeList) == c.writes &&
                         InputsOf(request.readList) == c.readList)
  {
    match controlType {
      case Write =>
        WriteCase(nodeStrTran, station, minorInstruct, value, request, response);
      case Read =>
        ReadCase(nodeStrTran, station, minorInstruct, request);
      case WriteRead =>
        WriteReadCase(nodeStrTran, station, Split(minorInstruct, {'|'}), value, kept, request, response);
      case Undefined(_) =>
    }
  }

  /** The `Write` branch of `SetParm`: an item that parses is added even
    * when its value is refused, with the value left unset. */
  method WriteCase(nodeStrTran: NodeStrTranHelper, station: byte, nodeStr: string, value: string,
                   request: EquipSetRequestModel, response: EquipSetResponseModel)
    requires nodeStrTran.Valid() && nodeStrTran.cache == map[]
    requires request.writeList == [] && request.readList == [] && Untouched(response.View())
    modifies nodeStrTran, request, response
    ensures var c := WriteOf(station, nodeStr, value);
            (c.Rejected? ==> response.code == FailureCode && response.message == Some(c.message)) &&
            (c.Send? ==> Untouched(response.View()) && Written(request.writeList) == c.writes && request.readList == [])
  {
    var writeAddress := WriteItem(nodeStrTran, station, nodeStr, value, response);
    if writeAddress != null {
      AddWrite(request, writeAddress);
    }
  }

  /** `writeList.Add` on a request whose write list is empty. */
  method AddWrite(request: EquipSetRequestModel, m: ModbusInput)
    requires request.writeList == []
    modifies request
    ensures request.writeList == [m] && request.readList == old(request.readList)
    ensures Written(request.writeList) == [(m.View(), m.value)]
  {
    request.writeList := request.writeList + [m];
    WrittenOne(request.writeList, m);
  }

  /** The lookup of a write point and the parse of its value, shared by the
    * `Write` and `WriteRead` branches: a node string that does not parse
    * fails the response; a refused value fails it with the value's error
    * and leaves the item's value as it was. */
  method WriteItem(nodeStrTran: NodeStrTranHelper, station: byte, nodeStr: string, value: string,
                   response: EquipSetResponseModel)
    returns (writeAddr: ModbusInput?)
    requires nodeStrTran.Valid() && nodeStrTran.cache == map[] && Untouched(response.View())
    modifies nodeStrTran, response
    ensures nodeStrTran.Valid()
    ensures writeAddr == null <==> ParseNode(nodeStr).None?
    ensures writeAddr != null ==> fresh(writeAddr) && writeAddr.View() == Built(station, nodeStr, ParseNode(nodeStr).value)
    ensures var c := WriteOf(station, nodeStr, value);
            (c.Rejected? ==> response.code == FailureCode && response.message == Some(c.message)) &&
            (c.Send? ==> writeAddr != null && Untouched(response.View()) && c.writes == [(writeAddr.View(), writeAddr.value)])
  {
    writeAddr := nodeStrTran.GetModbusInput(station, nodeStr);
    if writeAddr == null {
      response.Fail(BadCommand, NoData);
      return;
    }
    ghost var w := writeAddr.View();
    var parsed := TryParseWriteValue(writeAddr.functionCode, value);
    if parsed.Refused? {
      response.Fail(parsed.error, NoData);
    } else {
      writeAddr.value := parsed.value;
    }
    assert writeAddr.View() == w;
  }

  /** The `Read` branch of `SetParm`: the points of the segments that
    * parse; never refused. */
  method ReadCase(nodeStrTran: NodeStrTranHelper, station: byte, minorInstruct: string, request: EquipSetRequestModel)
    requires nodeStrTran.Valid() && request.writeList == [] && request.readList == []
    modifies nodeStrTran, request
    ensures Written(request.writeList) == [] && InputsOf(request.readList) == Points(Accepted(station, Split(minorInstruct, {'|'})))
  {
    var readAddressList := nodeStrTran.GetModbusInputList(station, Split(minorInstruct, {'|'}));
    AddReads(request, readAddressList);
    PointsOfViews(request.readList);
  }

  /** `readList.AddRange` on a request whose lists are empty. */
  method AddReads(request: EquipSetRequestModel, rs: seq<ModbusInput>)
    requires request.writeList == [] && request.readList == []
    modifies request
    ensures request.writeList == [] && request.readList == rs && Views(request.readList) == Views(rs)
  {
    request.readList := request.readList + rs;
    assert request.readList == rs;
  }

  /** `WriteReadOf` once both points parse: refused with the value's
    * error, or sending the write item and the read point. */
  lemma WriteReadOfParsed(station: byte, parts: seq<string>, value: string, kept: Kept)
    requires |parts| == 2 && ParseNode(parts[0]).Some? && ParseNode(parts[1]).Some?
    ensures var r := ParseNode(parts[1]).value;
            WriteReadOf(station, parts, value, kept) ==
              match WriteOf(station, parts[0], value)
              case Rejected(e) => Rejected(e)
              case Send(_, writes, _) =>
                Send(WriteRead, [(writes[0].0, if kept == KeepsRaw then Raw(value) else writes[0].1)],
                     [Built(station, parts[1], r)])
  {
  }

  /** The lookup of the read point of a `WriteRead`: a node string that
    * does not parse fails the response. */
  method ReadItem(nodeStrTran: NodeStrTranHelper, station: byte, nodeStr: string, response: EquipSetResponseModel)
    returns (readAddr: ModbusInput?)
    requires nodeStrTran.Valid()
    modifies nodeStrTran, response
    ensures readAddr == null <==> ParseNode(nodeStr).None?
    ensures readAddr == null ==> response.code == FailureCode && response.message == Some(BadCommand)
    ensures readAddr != null ==>
              readAddr.View() == Built(station, nodeStr, ParseNode(nodeStr).value) && response.View() == old(response.View())
  {
    readAddr := nodeStrTran.GetModbusInput(station, nodeStr);
    if readAddr == null {
      response.Fail(BadCommand, NoData);
    }
  }

  /** `WriteReadOf` when either point does not parse. */
  lemma WriteReadOfUnparsed(station: byte, parts: seq<string>, value: string, kept: Kept)
    requires |parts| == 2 && (ParseNode(parts[0]).None? || ParseNode(parts[1]).None?)
    ensures WriteReadOf(station, parts, value, kept) == Rejected(BadCommand)
  {
  }

  /** The `WriteRead` branch of `SetParm`: both points must parse; the
    * write item carries `value` as written (`KeepsRaw`) or its parse. */
  method WriteReadCase(nodeStrTran: NodeStrTranHelper, station: byte, parts: seq<string>, value: string, kept: Kept,
                       request: EquipSetRequestModel, response: EquipSetResponseModel)
    requires nodeStrTran.Valid() && nodeStrTran.cache == map[]
    requires request.writeList == [] && request.readList == [] && Untouched(response.View())
    modifies nodeStrTran, request, response
    ensures var c := WriteReadOf(station, parts, value, kept);
            (c.Rejected? ==> response.code == FailureCode && response.message == Some(c.message)) &&
            (c.Send? ==> Untouched(response.View()) && Written(request.writeList) == c.writes &&
                         InputsOf(request.readList) == c.readList)
  {
    if |parts| != 2 {
      response.Fail(BadCommand, NoData);
      return;
    }
    var writeAddr, readAddr := WriteReadItems(nodeStrTran, station, parts, value, kept, response);
    if readAddr == null {
      return;
    }
    AddWriteRead(request, writeAddr, readAddr);
  }

  /** `writeList.Add` and `readList.Add` on a request whose lists are
    * empty. */
  method AddWriteRead(request: EquipSetRequestModel, w: ModbusInput, r: ModbusInput)
    requires request.writeList == [] && request.readList == []
    modifies request
    ensures request.writeList == [w] && request.readList == [r]
    ensures Written(request.writeList) == [(w.View(), w.value)] && InputsOf(request.readList) == [r.View()]
  {
    request.writeList := request.writeList + [w];
    request.readList := request.readList + [r];
    WrittenOne(request.writeList, w);
  }

  /** The two lookups of the `WriteRead` branch and the write item's value;
    * `readAddr` is `null` when the branch returns before adding them. */
  method WriteReadItems(nodeStrTran: NodeStrTranHelper, station: byte, parts: seq<string>, value: string, kept: Kept,
                        response: EquipSetResponseModel)
    returns (writeAddr: ModbusInput?, readAddr: ModbusInput?)
    requires |parts| == 2 && nodeStrTran.Valid() && nodeStrTran.cache == map[] && Untouched(response.View())
    modifies nodeStrTran, response
    ensures readAddr != null ==> writeAddr != null
    ensures readAddr == null ==> ParseNode(parts[0]).None? || ParseNode(parts[1]).None?
    ensures var c := WriteReadOf(station, parts, value, kept);
            (c.Rejected? ==> response.code == FailureCode && response.message == Some(c.message)) &&
            (c.Send? ==> readAddr != null && writeAddr != null && Untouched(response.View()) &&
                         c.writes == [(writeAddr.View(), writeAddr.value)] && c.readList == [readAddr.View()])
  {
    writeAddr := WriteItem(nodeStrTran, station, parts[0], value, response);
    if writeAddr == null {
      WriteReadOfUnparsed(station, parts, value, kept);
      return writeAddr, null;
    }
    ghost var w := writeAddr.View();
    readAddr := ReadItem(nodeStrTran, station, parts[1], response);
    if readAddr == null {
      WriteReadOfUnparsed(station, parts, value, kept);
      return;
    }
    ghost var r := readAddr.View();
    WriteReadOfParsed(station, parts, value, kept);
    if kept == KeepsRaw {
      writeAddr.value := Raw(value);
    }
    assert writeAddr.View() == w && readAddr.View() == r;
  }
}
