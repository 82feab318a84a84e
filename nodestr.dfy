/** `NodeStrTranHelper`: node strings `"functionCode,address,dataType"` of a
  * station turned into `ModbusInput` objects, with a cache keyed by
  * `"{station}_{nodeStr}"`. */
module NodeStr {
  import opened Wrappers
  import opened Bytes
  import opened Text
  import opened ModbusPlanner
  import opened ModbusModels

  /** `Enum.TryParse<DataTypeEnum>(s)` by member name (case-sensitive,
    * surrounding white space ignored). */
  function ParseDataType(s: string): (r: Option<DataType>)
    ensures r.Some? ==> !r.value.OtherType?
  {
    match Trim(s)
    case "Bool" => Some(Bool)
    case "Byte" => Some(Byte)
    case "Int16" => Some(Int16)
    case "UInt16" => Some(UInt16)
    case "Int32" => Some(Int32)
    case "UInt32" => Some(UInt32)
    case "Int64" => Some(Int64)
    case "UInt64" => Some(UInt64)
    case "Float" => Some(Float)
    case "Double" => Some(Double)
    case "Int16Bit" => Some(Int16Bit)
    case "UInt16Bit" => Some(UInt16Bit)
    case _ => None
  }

  /** What a node string says: function code, address and data type. */
  datatype Node = Node(code: byte, address: string, dataType: DataType)

  /** The parse of `GetModbusInput`: exactly three comma-separated parts, a
    * byte, an address left-padded with '0' to four characters, and a data
    * type name. */
  function ParseNode(nodeStr: string): Option<Node> {
    var parts := Split(nodeStr, {','});
    if |parts| != 3 || ParseByte(parts[0]).None? || ParseDataType(parts[2]).None? then None
    else Some(Node(ParseByte(parts[0]).value, PadLeft(parts[1], 4, '0'), ParseDataType(parts[2]).value))
  }

  /** A node string is accepted exactly when it has three parts, the first a
    * byte and the third a data type name; the address is the second part
    * left-padded with '0' to four characters (longer text is kept as is and
    * not checked to be numeric). */
  lemma ParseNodeSpec(nodeStr: string)
    ensures var parts := Split(nodeStr, {','});
            ParseNode(nodeStr).Some? <==> |parts| == 3 && ParseByte(parts[0]).Some? && ParseDataType(parts[2]).Some?
    ensures var parts := Split(nodeStr, {','});
            ParseNode(nodeStr).Some? ==>
              ParseNode(nodeStr).value.code as int == ParseByte(parts[0]).value &&
              ParseNode(nodeStr).value.address == PadLeft(parts[1], 4, '0') &&
              Some(ParseNode(nodeStr).value.dataType) == ParseDataType(parts[2])
  {
  }

  /** The address of a node is at least four characters, and a shorter
    * address text keeps its digits at the end. */
  lemma NodeAddress(nodeStr: string)
    requires ParseNode(nodeStr).Some?
    ensures var a := ParseNode(nodeStr).value.address;
            var t := Split(nodeStr, {','})[1];
            |a| >= 4 && (|t| >= 4 ==> a == t) && (|t| < 4 ==> a[4 - |t|..] == t)
  {
  }

  function CacheKey(station: byte, nodeStr: string): string {
    DecimalString(station) + "_" + nodeStr
  }

  lemma CacheKeyInjective(station: byte, nodeStr: string, station': byte, nodeStr': string)
    requires CacheKey(station, nodeStr) == CacheKey(station', nodeStr')
    ensures station == station' && nodeStr == nodeStr'
  {
    DecimalStringChars(station, '_');
    DecimalStringChars(station', '_');
    SeparatedUnique(DecimalString(station), nodeStr, DecimalString(station'), nodeStr', '_');
    DecimalStringInjective(station, station');
  }

  /** The fields of an input built from `nodeStr` for `station`. */
  function Built(station: byte, nodeStr: string, n: Node): Input {
    Input(n.address, n.dataType, station, n.code)
  }

  /** What one node string contributes to a list: its input and itself
    * when it parses, nothing otherwise. */
  function NodeEntry(station: byte, nodeStr: string): (r: seq<(Input, Option<string>)>)
    ensures |r| <= 1
  {
    match ParseNode(nodeStr)
    case None => []
    case Some(n) => [(Built(station, nodeStr, n), Some(nodeStr))]
  }

  /** The node strings of `nodeStrs` that parse, as the inputs built from
    * them, in order. */
  function Accepted(station: byte, nodeStrs: seq<string>): (r: seq<(Input, Option<string>)>)
    ensures |r| <= |nodeStrs|
  {
    if |nodeStrs| == 0 then []
    else Accepted(station, nodeStrs[..|nodeStrs| - 1]) + NodeEntry(station, nodeStrs[|nodeStrs| - 1])
  }

  lemma AcceptedStep(station: byte, nodeStrs: seq<string>, i: nat)
    requires i < |nodeStrs|
    ensures Accepted(station, nodeStrs[..i + 1]) == Accepted(station, nodeStrs[..i]) + NodeEntry(station, nodeStrs[i])
  {
    assert nodeStrs[..i + 1][..i] == nodeStrs[..i];
  }

  /** The inputs of a list with the node string each one keeps. */
  function Views(rs: seq<ModbusInput>): seq<(Input, Option<string>)>
    reads set r | r in rs
  {
    if |rs| == 0 then []
    else
      var last := rs[|rs| - 1];
      Views(rs[..|rs| - 1]) + [(last.View(), last.nodeStr)]
  }

  lemma ViewsSnoc(rs: seq<ModbusInput>, m: ModbusInput)
    ensures Views(rs + [m]) == Views(rs) + [(m.View(), m.nodeStr)]
  {
    assert (rs + [m])[..|rs|] == rs;
  }

  class NodeStrTranHelper {
    var cache: map<string, ModbusInput>

    /** Every cached input carries the node string and station it was built
      * from, under their key, and its fields are that node string's parse. */
    ghost predicate Valid()
      reads this, cache.Values`address, cache.Values`dataType, cache.Values`stationNumber,
            cache.Values`functionCode, cache.Values`nodeStr
    {
      forall k :: k in cache ==>
        var m := cache[k];
        m.nodeStr.Some? && k == CacheKey(m.stationNumber, m.nodeStr.value) &&
        ParseNode(m.nodeStr.value).Some? &&
        m.View() == Built(m.stationNumber, m.nodeStr.value, ParseNode(m.nodeStr.value).value)
    }

    constructor ()
      ensures cache == map[] && Valid()
    {
      cache := map[];
    }

    /** A hit returns the cached object; a miss parses, and only a
      * successful parse is built and cached. Either way the result is the
      * parse of `nodeStr` for `station`. */
    method GetModbusInput(station: byte, nodeStr: string) returns (r: ModbusInput?)
      requires Valid()
      modifies this
      ensures Valid()
      ensures var key := CacheKey(station, nodeStr);
              (key in old(cache) ==> r == old(cache)[key] && cache == old(cache)) &&
              (key !in old(cache) && r == null ==> cache == old(cache)) &&
              (key !in old(cache) && r != null ==> fresh(r) && cache == old(cache)[key := r])
      ensures r == null <==> ParseNode(nodeStr).None?
      ensures r != null ==> r.View() == Built(station, nodeStr, ParseNode(nodeStr).value) && r.nodeStr == Some(nodeStr)
    {
      var key := CacheKey(station, nodeStr);
      if key in cache {
        r := cache[key];
        CacheKeyInjective(station, nodeStr, r.stationNumber, r.nodeStr.value);
        return;
      }
      var strArray := Split(nodeStr, {','});
      if |strArray| != 3 || ParseByte(strArray[0]).None? || ParseDataType(strArray[2]).None? {
        return null;
      }
      var functionCode: byte := ParseByte(strArray[0]).value;
      var dataTypeEnum := ParseDataType(strArray[2]).value;
      r := new ModbusInput(PadLeft(strArray[1], 4, '0'), dataTypeEnum, station, functionCode);
      r.SetNodeStr(nodeStr);
      cache := cache[key := r];
    }

    /** One round of `GetModbusInputList`: the input for `nodeStr`, added
      * to `result` when it is not `null`. */
    method Collect(station: byte, nodeStr: string, result: seq<ModbusInput>) returns (result': seq<ModbusInput>)
      requires Valid()
      modifies this
      ensures Valid()
      ensures Views(result') == old(Views(result)) + NodeEntry(station, nodeStr)
    {
      var modbusInput := GetModbusInput(station, nodeStr);
      result' := result;
      if modbusInput != null {
        ViewsSnoc(result, modbusInput);
        result' := result + [modbusInput];
      }
    }

    /** The successful parses of `nodeStrs`, in order; never `null`. */
    method GetModbusInputList(station: byte, nodeStrs: seq<string>) returns (result: seq<ModbusInput>)
      requires Valid()
      modifies this
      ensures Valid()
      ensures Views(result) == Accepted(station, nodeStrs)
    {
      result := [];
      for i := 0 to |nodeStrs|
        invariant Valid()
        invariant Views(result) == Accepted(station, nodeStrs[..i])
      {
        result := Collect(station, nodeStrs[i], result);
        AcceptedStep(station, nodeStrs, i);
      }
      assert nodeStrs[..|nodeStrs|] == nodeStrs;
    }

    method ClearCache()
      modifies this
      ensures cache == map[] && Valid()
    {
      cache := map[];
    }
  }
}
