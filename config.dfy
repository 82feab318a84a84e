/** `ConnectionConfig` of the Modbus driver: the connection parameters of one
  * server and the `IP:Port` endpoint read from its URL. */
module ModbusConfig {
  import opened Wrappers
  import opened Bytes
  import opened Text

  /** `ModbusType`; `OtherType` is any other value the enum field can hold. */
  datatype ModbusType = Tcp | Rtu | Ascii | RtuOverTcp | OtherType(n: int)

  datatype EndianFormat = ABCD | BADC | CDAB | DCBA

  datatype StopBits = NoStopBits | One | Two | OnePointFive

  datatype Parity = NoParity | Odd | Even | Mark | Space

  /** An `IPEndPoint`: the parsed address and the port. */
  datatype Endpoint = Endpoint(address: seq<byte>, port: int)

  const MaxPort := 65535

  /** `ServerIpAndPoint`: `ServerUrl.Split(':')` must give exactly two parts
    * (a `FormatException` otherwise), the port is `int.Parse`d, the address
    * `IPAddress.Parse`d (`parseIp`, not modelled) and `new IPEndPoint` refuses
    * a port outside `[0, 65535]`. `None` is the exception. */
  function EndpointOf(url: string, parseIp: string -> Option<seq<byte>>): Option<Endpoint> {
    var parts := Split(url, {':'});
    if |parts| != 2 then None
    else match (ParseInt(parts[1]), parseIp(parts[0]))
      case (Some(port), Some(address)) =>
        if 0 <= port <= MaxPort then Some(Endpoint(address, port)) else None
      case _ => None
  }

  /** A URL gives an endpoint only when it is `host:port` with one colon, the
    * host parses as an address and the port is a number in range. */
  lemma EndpointOfShape(url: string, parseIp: string -> Option<seq<byte>>)
    ensures EndpointOf(url, parseIp).Some? ==>
              exists host, port :: url == host + ":" + port && ':' !in host && ':' !in port &&
                                   parseIp(host) == Some(EndpointOf(url, parseIp).value.address) &&
                                   ParseInt(port) == Some(EndpointOf(url, parseIp).value.port) &&
                                   0 <= EndpointOf(url, parseIp).value.port <= MaxPort
  {
    var parts := Split(url, {':'});
    if EndpointOf(url, parseIp).Some? {
      JoinSplit(url, ':');
      assert Join(parts, ':') == parts[0] + [':'] + parts[1];
      assert parts[0] + [':'] + parts[1] == parts[0] + ":" + parts[1];
      assert ':' !in parts[0] && ':' !in parts[1] by {
        assert forall j :: 0 <= j < |parts[0]| ==> parts[0][j] !in {':'};
        assert forall j :: 0 <= j < |parts[1]| ==> parts[1][j] !in {':'};
      }
    }
  }

  /** The URL written from a host and a port in range reads back as them. */
  lemma EndpointOfFormat(host: string, port: int, parseIp: string -> Option<seq<byte>>)
    requires ':' !in host && parseIp(host).Some? && 0 <= port <= MaxPort
    ensures EndpointOf(host + ":" + DecimalString(port), parseIp) == Some(Endpoint(parseIp(host).value, port))
  {
    DecimalStringChars(port, ':');
    assert host + ":" + DecimalString(port) == host + [':'] + DecimalString(port);
    SplitAtSeparator(host, DecimalString(port), ':');
    ParseDecimalString(port, IntMin, IntMax);
  }

  class ConnectionConfig {
    /** `IP:Port`, or a serial port name. */
    var serverUrl: string
    /** Milliseconds between two polls. */
    var sleepInterval: int
    var modbusType: ModbusType
    /** Send and receive timeout, in milliseconds. */
    var timeOut: int
    var endianFormat: EndianFormat
    var baudRate: int
    var dataBits: int
    var stopBits: StopBits
    var parity: Parity

    /** The property initialisers: 5000 ms polling, TCP, a 3000 ms timeout,
      * ABCD order, 9600 baud, 8 data bits, no stop bits, no parity. */
    constructor (serverUrl: string)
      ensures this.serverUrl == serverUrl && sleepInterval == 5000 && modbusType == Tcp
      ensures timeOut == 3000 && endianFormat == ABCD && baudRate == 9600 && dataBits == 8
      ensures stopBits == NoStopBits && parity == NoParity
    {
      this.serverUrl := serverUrl;
      sleepInterval := 5000;
      modbusType := Tcp;
      timeOut := 3000;
      endianFormat := ABCD;
      baudRate := 9600;
      dataBits := 8;
      stopBits := NoStopBits;
      parity := NoParity;
    }

    function ServerIpAndPoint(parseIp: string -> Option<seq<byte>>): Option<Endpoint>
      reads this
    {
      EndpointOf(serverUrl, parseIp)
    }
  }
}
