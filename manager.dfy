/** `ConnClientManager` of the Modbus driver: the pool of client sessions by
  * server URL, the back-off after a failed connection, and the calls the
  * equipment makes through the pool. Times are milliseconds on one clock,
  * passed in as `now`. */
module ModbusManager {
  import opened Wrappers
  import opened Bytes
  import opened ModbusPlanner
  import opened ModbusModels
  import opened ModbusConfig
  import opened ModbusBatch
  import opened NodeStr
  import opened EquipSet
  import opened ModbusSession

  /** `reTryTime`, in seconds. */
  const ReTryTime := 30
  const ReTryMillis := ReTryTime * 1000

  /** A new `EquipSetResponseModel`. */
  const NewReply := Reply(SuccessCode, None, NoData)

  const NoSessionMessage := "设备连接对象不存在"
  const ExceptionPrefix := "命令执行出现异常："

  // ----- the back-off gate -----

  /** `CreateClientSession` returns at once while the URL's recorded retry
    * time is later than now. */
  predicate Blocked(connectFailServers: map<string, int>, url: string, now: int) {
    url in connectFailServers && connectFailServers[url] > now
  }

  /** After a failure recorded at `failedAt`, the URL stays blocked for
    * exactly 30 seconds: every attempt before then returns at once, and any
    * attempt from then on goes ahead. */
  lemma BackOff(connectFailServers: map<string, int>, url: string, failedAt: int, now: int)
    ensures Blocked(connectFailServers[url := failedAt + ReTryMillis], url, now) <==> now < failedAt + ReTryMillis
  {
  }

  // ----- the transport -----

  function TypeOf(t: Transport): ModbusType {
    match t
    case TcpClient(_) => Tcp
    case RtuClient(_) => Rtu
    case AsciiClient(_) => Ascii
    case RtuOverTcpClient(_) => RtuOverTcp
  }

  /** The `switch` of `CreateNewSession`: the network clients take the
    * endpoint read from the URL (whose failure throws), the serial ones the
    * URL as the port name, and any other type throws. `None` is the
    * exception. */
  function TransportOf(modbusType: ModbusType, serverUrl: string, parseIp: string -> Option<seq<byte>>): (r: Option<Transport>)
    ensures r.Some? ==> TypeOf(r.value) == modbusType
    ensures modbusType.OtherType? ==> r.None?
    ensures modbusType.Rtu? || modbusType.Ascii? ==> r.Some?
    ensures modbusType.Tcp? || modbusType.RtuOverTcp? ==>
              (r.Some? <==> EndpointOf(serverUrl, parseIp).Some?)
  {
    match modbusType
    case Tcp =>
      (match EndpointOf(serverUrl, parseIp)
       case Some(e) => Some(TcpClient(e))
       case None => None)
    case Rtu => Some(RtuClient(serverUrl))
    case Ascii => Some(AsciiClient(serverUrl))
    case RtuOverTcp =>
      (match EndpointOf(serverUrl, parseIp)
       case Some(e) => Some(RtuOverTcpClient(e))
       case None => None)
    case OtherType(_) => None
  }

  // ----- the result of a command -----

  /** What one `WriteAddressValues` or `ReadAddressValues` of a session does:
    * it throws, or returns a result with its error text. */
  datatype Answer = Threw(message: string) | Done(isSucceed: bool, err: string)

  /** The per-item response: `Ok(input)` or `Fail(res.Err, input)` on a new
    * response. */
  function ItemReply(item: ModbusInput, a: Answer): Reply {
    if a.Threw? then NewReply
    else if a.isSucceed then After(NewReply, OkCall(Item(item)))
    else After(NewReply, FailCall(a.err, Item(item)))
  }

  /** The per-item responses of a list, in order. */
  function ItemReplies(items: seq<ModbusInput>, answer: ModbusInput -> Answer): (r: seq<Reply>)
    ensures |r| == |items|
  {
    if |items| == 0 then [] else ItemReplies(items[..|items| - 1], answer) + [ItemReply(items[|items| - 1], answer(items[|items| - 1]))]
  }

  /** Each item has its own response, about that item, successful exactly
    * when its command succeeded and carrying its error text otherwise. */
  lemma {:induction false} ItemRepliesSpec(items: seq<ModbusInput>, answer: ModbusInput -> Answer, i: nat)
    requires i < |items| && answer(items[i]).Done?
    ensures ItemReplies(items, answer)[i].data == Item(items[i])
    ensures ItemReplies(items, answer)[i].code == SuccessCode <==> answer(items[i]).isSucceed
    ensures !answer(items[i]).isSucceed ==> ItemReplies(items, answer)[i].message == Some(answer(items[i]).err)
  {
    if i < |items| - 1 {
      ItemRepliesSpec(items[..|items| - 1], answer, i);
    }
  }

  /** The message of the first command of a list that throws, if any. */
  function FirstThrow(items: seq<ModbusInput>, answer: ModbusInput -> Answer): Option<string> {
    if |items| == 0 then None
    else match FirstThrow(items[..|items| - 1], answer)
      case Some(m) => Some(m)
      case None =>
        var a := answer(items[|items| - 1]);
        if a.Threw? then Some(a.message) else None
  }

  /** No command of a list throws exactly when `FirstThrow` finds none. */
  lemma {:induction false} FirstThrowNone(items: seq<ModbusInput>, answer: ModbusInput -> Answer)
    ensures FirstThrow(items, answer).None? <==> forall i :: 0 <= i < |items| ==> answer(items[i]).Done?
  {
    if |items| > 0 {
      var init := items[..|items| - 1];
      FirstThrowNone(init, answer);
      assert forall i :: 0 <= i < |init| ==> init[i] == items[i];
    }
  }

  lemma {:induction false} FirstThrowPrefix(items: seq<ModbusInput>, answer: ModbusInput -> Answer, n: nat)
    requires n <= |items| && FirstThrow(items[..n], answer).Some?
    ensures FirstThrow(items, answer) == FirstThrow(items[..n], answer)
  {
    if n < |items| {
      assert items[..|items| - 1][..n] == items[..n];
      FirstThrowPrefix(items[..|items| - 1], answer, n);
    } else {
      assert items[..n] == items;
    }
  }

  /** The response of `WriteValue`: an unknown URL fails; a command that
    * throws fails the whole response with the exception text; otherwise the
    * per-item responses of the read list, or of the write list when there is
    * nothing to read, are returned with code 200, and with both lists empty
    * the new response is returned unchanged. */
  function WriteValueReply(known: bool, writeList: seq<ModbusInput>, readList: seq<ModbusInput>,
                           write: ModbusInput -> Answer, read: ModbusInput -> Answer): Reply
  {
    if !known then After(NewReply, FailCall(NoSessionMessage, NoData))
    else if |writeList| > 0 && FirstThrow(writeList, write).Some? then
      After(NewReply, FailCall(ExceptionPrefix + FirstThrow(writeList, write).value, NoData))
    else if |readList| > 0 && FirstThrow(readList, read).Some? then
      After(NewReply, FailCall(ExceptionPrefix + FirstThrow(readList, read).value, NoData))
    else if |readList| > 0 then After(NewReply, OkCall(Replies(ItemReplies(readList, read))))
    else if |writeList| > 0 then After(NewReply, OkCall(Replies(ItemReplies(writeList, write))))
    else NewReply
  }

  /** The response says success exactly when the URL is known and no command
    * threw: items whose command failed do not change the response's own
    * code, only their own entries. */
  lemma WriteValueSucceeds(known: bool, writeList: seq<ModbusInput>, readList: seq<ModbusInput>,
                           write: ModbusInput -> Answer, read: ModbusInput -> Answer)
    ensures WriteValueReply(known, writeList, readList, write, read).code == SuccessCode <==>
              known && (forall i :: 0 <= i < |writeList| ==> write(writeList[i]).Done?) &&
              (forall i :: 0 <= i < |readList| ==> read(readList[i]).Done?)
  {
    FirstThrowNone(writeList, write);
    FirstThrowNone(readList, read);
  }

  /** When both lists are given and nothing throws, the read results replace
    * the write results: the response holds one entry per read item. */
  lemma WriteValueReadsWin(writeList: seq<ModbusInput>, readList: seq<ModbusInput>,
                           write: ModbusInput -> Answer, read: ModbusInput -> Answer)
    requires |writeList| > 0 && |readList| > 0
    requires forall i :: 0 <= i < |writeList| ==> write(writeList[i]).Done?
    requires forall i :: 0 <= i < |readList| ==> read(readList[i]).Done?
    ensures WriteValueReply(true, writeList, readList, write, read).data == Replies(ItemReplies(readList, read))
    ensures |WriteValueReply(true, writeList, readList, write, read).data.replies| == |readList|
  {
    FirstThrowNone(writeList, write);
    FirstThrowNone(readList, read);
  }

  class ConnClientManager {
    /** The sessions by server URL. */
    var clientSessions: map<string, ClientSession>
    /** The time until which a URL whose connection failed is not retried. */
    var connectFailServers: map<string, int>

    constructor ()
      ensures clientSessions == map[] && connectFailServers == map[]
    {
      clientSessions := map[];
      connectFailServers := map[];
    }

    /** Makes the client for `config` and opens it (`connected` is whether
      * `EnsureConnected` returns); the new session starts with no points.
      * On any failure the URL is blocked for 30 seconds and `null` is
      * returned. */
    method CreateNewSession(config: ConnectionConfig, now: int, connected: bool, parseIp: string -> Option<seq<byte>>)
      returns (s: ClientSession?)
      modifies this`connectFailServers
      ensures var t := TransportOf(config.modbusType, config.serverUrl, parseIp);
              s == null <==> t.None? || !connected
      ensures s == null ==> connectFailServers == old(connectFailServers)[config.serverUrl := now + ReTryMillis]
      ensures s != null ==> connectFailServers == old(connectFailServers) && fresh(s) && s.Valid() &&
                            s.config == config && Some(s.session) == TransportOf(config.modbusType, config.serverUrl, parseIp) &&
                            s.status && s.addressInputs == map[] && s.currentValues == map[] && s.currentEvents == map[]
    {
      var modbusClient := TransportOf(config.modbusType, config.serverUrl, parseIp);
      if modbusClient.None? || !connected {
        connectFailServers := connectFailServers[config.serverUrl := now + ReTryMillis];
        return null;
      }
      s := new ClientSession(config, modbusClient.value);
    }

    /** Adds the session for `config.serverUrl` when there is none, unless
      * the URL is blocked, and takes the polling interval of `config` into
      * the session kept for it. */
    method CreateClientSession(config: ConnectionConfig, now: int, connected: bool, parseIp: string -> Option<seq<byte>>)
      modifies this, config, set s | s in clientSessions.Values :: s.config
      ensures Blocked(old(connectFailServers), config.serverUrl, now) ==>
                clientSessions == old(clientSessions) && connectFailServers == old(connectFailServers)
      ensures !Blocked(old(connectFailServers), config.serverUrl, now) && config.serverUrl in old(clientSessions) ==>
                clientSessions == old(clientSessions) && connectFailServers == old(connectFailServers) &&
                clientSessions[config.serverUrl].config.sleepInterval == config.sleepInterval &&
                unchanged(clientSessions[config.serverUrl].config`serverUrl, clientSessions[config.serverUrl].config`modbusType,
                          clientSessions[config.serverUrl].config`timeOut, clientSessions[config.serverUrl].config`endianFormat,
                          clientSessions[config.serverUrl].config`baudRate, clientSessions[config.serverUrl].config`dataBits,
                          clientSessions[config.serverUrl].config`stopBits, clientSessions[config.serverUrl].config`parity)
      ensures Blocked(old(connectFailServers), config.serverUrl, now) ==>
                unchanged(config) && forall s | s in old(clientSessions).Values :: unchanged(s.config)
      ensures forall s | s in old(clientSessions).Values && s.config != config &&
                         (config.serverUrl in old(clientSessions) ==> s.config != old(clientSessions)[config.serverUrl].config) ::
                unchanged(s.config)
      ensures config.serverUrl in old(clientSessions) && old(clientSessions)[config.serverUrl].config != config ==> unchanged(config)
      ensures !Blocked(old(connectFailServers), config.serverUrl, now) && config.serverUrl !in old(clientSessions) ==>
                var t := TransportOf(config.modbusType, config.serverUrl, parseIp);
                if t.None? || !connected then
                  clientSessions == old(clientSessions) &&
                  connectFailServers == old(connectFailServers)[config.serverUrl := now + ReTryMillis]
                else
                  connectFailServers == old(connectFailServers) && config.serverUrl in clientSessions &&
                  fresh(clientSessions[config.serverUrl]) &&
                  clientSessions == old(clientSessions)[config.serverUrl := clientSessions[config.serverUrl]] &&
                  clientSessions[config.serverUrl].config == config &&
                  Some(clientSessions[config.serverUrl].session) == t
    {
      var url := config.serverUrl;
      if url in connectFailServers {
        var lastErrorDate := connectFailServers[url];
        if lastErrorDate > now {
          return;
        }
      }
      var session: ClientSession;
      if url in clientSessions {
        session := clientSessions[url];
        assert session in old(clientSessions).Values;
      } else {
        var created := CreateNewSession(config, now, connected, parseIp);
        if created == null {
          return;
        }
        session := created;
        clientSessions := clientSessions[url := session];
      }
      session.ReSetPollingInterval(config);
    }

    /** The status of the URL's session after one more poll is started;
      * `false` for an unknown URL. */
    method GetClientSessionStatus(serverUrl: string, connected: bool, keys: seq<string>, read: seq<Input> -> BatchOutcome)
      returns (r: bool)
      requires serverUrl in clientSessions ==> clientSessions[serverUrl].Enumerates(keys)
      modifies if serverUrl in clientSessions then {clientSessions[serverUrl]} else {}
      ensures serverUrl !in clientSessions ==> !r
      ensures serverUrl in clientSessions ==> r == clientSessions[serverUrl].status
      ensures serverUrl in clientSessions && !old(clientSessions[serverUrl].isPolling) ==>
                (clientSessions[serverUrl].offlineCount, r) ==
                OfflineStep(connected, old(clientSessions[serverUrl].offlineCount), old(clientSessions[serverUrl].status))
    {
      if serverUrl in clientSessions {
        var clientSession := clientSessions[serverUrl];
        clientSession.StartPolling(connected, keys, read);
        return clientSession.status;
      }
      return false;
    }

    /** Adds points to the URL's session; an unknown URL is ignored. */
    method AddSubscription(serverUrl: string, station: byte, modbusInputs: seq<ModbusInput>)
      requires serverUrl in clientSessions ==> clientSessions[serverUrl].Valid()
      modifies if serverUrl in clientSessions then {clientSessions[serverUrl]} else {}
      ensures serverUrl in clientSessions ==>
                clientSessions[serverUrl].Valid() &&
                clientSessions[serverUrl].addressInputs ==
                Inserted(old(clientSessions[serverUrl].addressInputs), modbusInputs)
    {
      if serverUrl !in clientSessions {
        return;
      }
      clientSessions[serverUrl].AddAddressInputs(modbusInputs);
    }

    /** The stored values of the given points; `None` (`null`) for an
      * unknown URL. */
    method GetCurrentValues(serverUrl: string, modbusInputs: seq<ModbusInput>) returns (r: Option<map<string, Value>>)
      ensures r.None? <==> serverUrl !in clientSessions
      ensures r.Some? ==>
                var values := clientSessions[serverUrl].currentValues;
                (forall k :: k in r.value <==> k in values && exists m :: m in modbusInputs && m.DisplayNameKey() == k) &&
                forall k :: k in r.value ==> r.value[k] == values[k]
    {
      if serverUrl !in clientSessions {
        return None;
      }
      var values := clientSessions[serverUrl].GetCurrentValues(modbusInputs);
      return Some(values);
    }

    /** Takes the events of an equipment from the URL's session; `None`
      * (`null`) for an unknown URL or when there are none. */
    method GetCurrentEvents(serverUrl: string, equipNo: int) returns (r: Option<seq<EquipEvent>>)
      modifies if serverUrl in clientSessions then {clientSessions[serverUrl]} else {}
      ensures serverUrl !in clientSessions ==> r.None?
      ensures serverUrl in clientSessions ==>
                (r, clientSessions[serverUrl].currentEvents) ==
                TakeEvents(old(clientSessions[serverUrl].currentEvents), equipNo)
    {
      if serverUrl in clientSessions {
        r := clientSessions[serverUrl].GetCurrentEvents(equipNo);
        return;
      }
      return None;
    }

    /** Parses node strings with the URL's session cache; `None` (`null`)
      * for an unknown URL. */
    method GetModbusInputList(serverUrl: string, stationNumber: byte, nodeStrs: seq<string>)
      returns (r: Option<seq<ModbusInput>>)
      requires serverUrl in clientSessions ==> clientSessions[serverUrl].nodeStrTranHelper.Valid()
      modifies if serverUrl in clientSessions then {clientSessions[serverUrl].nodeStrTranHelper} else {}
      ensures r.None? <==> serverUrl !in clientSessions
      ensures r.Some? ==> Views(r.value) == Accepted(stationNumber, nodeStrs)
    {
      if serverUrl !in clientSessions {
        return None;
      }
      var modbusInputs := clientSessions[serverUrl].nodeStrTranHelper.GetModbusInputList(stationNumber, nodeStrs);
      return Some(modbusInputs);
    }

    /** Sends a command to the URL's session: `write` and `read` are what the
      * session's `WriteAddressValues` and `ReadAddressValues` do for an
      * item. */
    method WriteValue(serverUrl: string, request: EquipSetRequestModel,
                      write: ModbusInput -> Answer, read: ModbusInput -> Answer)
      returns (response: EquipSetResponseModel)
      ensures fresh(response)
      ensures response.View() ==
              WriteValueReply(serverUrl in clientSessions, request.writeList, request.readList, write, read)
    {
      response := new EquipSetResponseModel();
      if serverUrl !in clientSessions {
        response.Fail(NoSessionMessage, NoData);
        return;
      }
      if |request.writeList| > 0 {
        var writeResultList, thrown := Answers(request.writeList, write);
        if thrown.Some? {
          response.Fail(ExceptionPrefix + thrown.value, NoData);
          return;
        }
        response.Ok(Replies(writeResultList));
      }
      if |request.readList| > 0 {
        var readResultList, thrown := Answers(request.readList, read);
        if thrown.Some? {
          response.Fail(ExceptionPrefix + thrown.value, NoData);
          return;
        }
        response.Ok(Replies(readResultList));
      }
    }
  }

  /** The loop over a list of a `WriteValue`: one new response per item,
    * stopped by the first command that throws. */
  method Answers(items: seq<ModbusInput>, answer: ModbusInput -> Answer) returns (replies: seq<Reply>, thrown: Option<string>)
    ensures thrown == FirstThrow(items, answer)
    ensures thrown.None? ==> replies == ItemReplies(items, answer)
  {
    replies := [];
    for i := 0 to |items|
      invariant FirstThrow(items[..i], answer).None?
      invariant replies == ItemReplies(items[..i], answer)
    {
      assert items[..i + 1][..i] == items[..i];
      var res := answer(items[i]);
      if res.Threw? {
        FirstThrowPrefix(items, answer, i + 1);
        return replies, Some(res.message);
      }
      var writeRes := new EquipSetResponseModel();
      if res.isSucceed {
        writeRes.Ok(Item(items[i]));
      } else {
        writeRes.Fail(res.err, Item(items[i]));
      }
      replies := replies + [writeRes.View()];
    }
    assert items[..|items|] == items;
    return replies, None;
  }
}
