/** The point records of the Modbus driver: `ModbusInput` (a point to read
  * or write, built from a node string) and `ModbusOutput` (a value read),
  * both keyed by `DisplayNameKey`. */
module ModbusModels {
  import opened Wrappers
  import opened Bytes
  import opened Text
  import opened ModbusPlanner

  /** `$"{StationNumber}_{FunctionCode}_{Address}"`, the numbers in decimal. */
  function DisplayKey(station: byte, code: byte, address: string): string {
    Join([DecimalString(station), DecimalString(code), address], '_')
  }

  lemma JoinThree(a: string, b: string, c: string)
    ensures Join([a, b, c], '_') == a + "_" + b + "_" + c
  {
    assert [a, b, c][1..] == [b, c] && [b, c][1..] == [c];
    assert Join([b, c], '_') == b + ['_'] + c;
    assert Join([a, b, c], '_') == a + ['_'] + (b + ['_'] + c);
  }

  /** The key tells station, function code and address apart: the two
    * numbers are digit runs, so the first two `_` are the separators. */
  lemma DisplayKeyInjective(station: byte, code: byte, address: string,
                            station': byte, code': byte, address': string)
    requires DisplayKey(station, code, address) == DisplayKey(station', code', address')
    ensures station == station' && code == code' && address == address'
  {
    DecimalStringChars(station, '_');
    DecimalStringChars(station', '_');
    DecimalStringChars(code, '_');
    DecimalStringChars(code', '_');
    var tail := DecimalString(code) + "_" + address;
    var tail' := DecimalString(code') + "_" + address';
    JoinThree(DecimalString(station), DecimalString(code), address);
    JoinThree(DecimalString(station'), DecimalString(code'), address');
    assert DisplayKey(station, code, address) == DecimalString(station) + ['_'] + tail;
    assert DisplayKey(station', code', address') == DecimalString(station') + ['_'] + tail';
    SeparatedUnique(DecimalString(station), tail, DecimalString(station'), tail', '_');
    assert tail == DecimalString(code) + ['_'] + address;
    assert tail' == DecimalString(code') + ['_'] + address';
    SeparatedUnique(DecimalString(code), address, DecimalString(code'), address', '_');
    DecimalStringInjective(station, station');
    DecimalStringInjective(code, code');
  }

  /** What a write carries in `ModbusInput.Value` (an `object`): nothing, a
    * coil state, a register value or the text as given. */
  datatype Boxed = Null | Coil(b: bool) | Register(n: int) | Raw(s: string)

  /** The fields of a `ModbusInput` at one moment. */
  datatype Input = Input(address: string, dataType: DataType, station: byte, code: byte)

  class ModbusInput {
    var address: string
    var dataType: DataType
    var stationNumber: byte
    var functionCode: byte
    var value: Boxed
    /** `NodeStr` has a private setter: only `SetNodeStr` changes it. */
    var nodeStr: Option<string>

    /** `new ModbusInput { Address = …, DataType = …, FunctionCode = …,
      * StationNumber = … }`. */
    constructor (address: string, dataType: DataType, station: byte, code: byte)
      ensures this.address == address && this.dataType == dataType
      ensures stationNumber == station && functionCode == code
      ensures value == Null && nodeStr == None
    {
      this.address := address;
      this.dataType := dataType;
      stationNumber := station;
      functionCode := code;
      value := Null;
      nodeStr := None;
    }

    /** The key ignores `DataType` and `Value`. */
    function DisplayNameKey(): string
      reads this
    {
      DisplayKey(stationNumber, functionCode, address)
    }

    /** The point: every field but `Value` and `NodeStr`. */
    function View(): Input
      reads this`address, this`dataType, this`stationNumber, this`functionCode
    {
      Input(address, dataType, stationNumber, functionCode)
    }

    method SetNodeStr(s: string)
      modifies this
      ensures nodeStr == Some(s)
      ensures address == old(address) && dataType == old(dataType) && value == old(value)
      ensures stationNumber == old(stationNumber) && functionCode == old(functionCode)
    {
      nodeStr := Some(s);
    }
  }

  /** The fields of a list of inputs, in order. */
  function InputsOf(ms: seq<ModbusInput>): (r: seq<Input>)
    reads ms
    ensures |r| == |ms| && forall i :: 0 <= i < |ms| ==> r[i] == ms[i].View()
  {
    if |ms| == 0 then [] else InputsOf(ms[..|ms| - 1]) + [ms[|ms| - 1].View()]
  }

  /** A value read for one address of a batch. */
  datatype ModbusOutput = ModbusOutput(address: string, station: byte, code: byte, value: Value)
  {
    /** The key ignores `Value`. */
    function DisplayNameKey(): string {
      DisplayKey(station, code, address)
    }
  }

  /** The key of an output is the key of an input exactly when they name the
    * same station, function code and address: the join by which values read
    * are stored. */
  lemma OutputKeyJoinsInput(o: ModbusOutput, i: Input)
    ensures o.DisplayNameKey() == DisplayKey(i.station, i.code, i.address) <==>
            o.station == i.station && o.code == i.code && o.address == i.address
  {
    if o.DisplayNameKey() == DisplayKey(i.station, i.code, i.address) {
      DisplayKeyInjective(o.station, o.code, o.address, i.station, i.code, i.address);
    }
  }
}
