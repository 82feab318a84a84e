/** `OpcUaManager` of the OPC UA driver: the pool of sessions by server URL,
  * the online state of each URL, the back-off after a failed connection,
  * and the calls the equipment makes through the pool. Times are
  * milliseconds on one clock, passed in as `now`; what the OPC UA SDK does
  * (connecting, writing, reading) is given as parameters. */
module OpcUaManagers {
  import opened Wrappers
  import opened Text
  import opened EquipSet
  import opened OpcUaConfig
  import opened OpcUaStatus
  import opened OpcUaSessions

  /** `reTryTime`, in seconds. */
  const ReTryTime := 30
  const ReTryMillis := ReTryTime * MillisPerSecond

  // ----- the hot-reload comparison -----

  /** `HotReloadCompare`: whether a pooled session can be kept for a new
    * configuration. Nine fields are compared in turn; the list of kept
    * qualities is not. */
  function HotReloadCompare(param1: ConnectionConfig, param2: ConnectionConfig): (same: bool)
    ensures same <==> param1.(nodeQualityType := param2.nodeQualityType) == param2
  {
    if param1.serverUrl != param2.serverUrl then false
    else if param1.polling != param2.polling then false
    else if param1.pollingSleepTime != param2.pollingSleepTime then false
    else if param1.connectionType != param2.connectionType then false
    else if param1.userName != param2.userName then false
    else if param1.password != param2.password then false
    else if param1.certificatePath != param2.certificatePath then false
    else if param1.certificatePwd != param2.certificatePwd then false
    else if param1.certificateName != param2.certificateName then false
    else true
  }

  /** The comparison is an equivalence: a configuration is kept for itself,
    * the order of the two does not matter, and it chains. */
  lemma HotReloadEquivalence(a: ConnectionConfig, b: ConnectionConfig, c: ConnectionConfig)
    ensures HotReloadCompare(a, a)
    ensures HotReloadCompare(a, b) == HotReloadCompare(b, a)
    ensures HotReloadCompare(a, b) && HotReloadCompare(b, c) ==> HotReloadCompare(a, c)
  {
  }

  /** A change of the kept qualities alone never reloads a session. */
  lemma HotReloadIgnoresQualities(a: ConnectionConfig, types: seq<NodeQualityType>)
    ensures HotReloadCompare(a, a.(nodeQualityType := types))
  {
  }

  /** Two configurations left at their defaults are the same connection
    * exactly when they name the same server. */
  lemma NewConfigsReload(u: string, v: string, t1: seq<NodeQualityType>, t2: seq<NodeQualityType>)
    ensures HotReloadCompare(NewConfig(u, t1), NewConfig(v, t2)) <==> u == v
  {
  }

  // ----- the link-state file -----

  const CodePrefix := "OPCUA-Conn-"
  const StateName := "OPCUA-ConnectionState"
  const Online := "online"
  const Offline := "offline"

  /** A `LinkStateFileModel` without its time stamp. */
  datatype LinkStateFileModel = LinkStateFileModel(code: string, state: bool, stateName: string, name: string)

  /** The entry `WriteState` writes for one URL. */
  function LinkStateOf(url: string, state: bool): LinkStateFileModel {
    LinkStateFileModel(CodePrefix + url, state, if state then Online else Offline, StateName)
  }

  /** The entries `WriteState` writes: one per URL of the state map, in the
    * map's (unspecified) order. */
  function StateList(opcUaSessionsState: map<string, bool>): set<LinkStateFileModel> {
    set url | url in opcUaSessionsState :: LinkStateOf(url, opcUaSessionsState[url])
  }

  /** The URL an entry's code names. */
  function UrlOfCode(code: string): Option<string> {
    if |CodePrefix| <= |code| && code[..|CodePrefix|] == CodePrefix then Some(code[|CodePrefix|..]) else None
  }

  /** Every entry names a URL of the state map, carries that URL's state and
    * says "online" exactly when the state is true; every URL has its entry.
    * So the file tells the state of each URL and nothing else. */
  lemma StateListExact(opcUaSessionsState: map<string, bool>, e: LinkStateFileModel, url: string)
    ensures e in StateList(opcUaSessionsState) ==>
              UrlOfCode(e.code).Some? && UrlOfCode(e.code).value in opcUaSessionsState &&
              e.state == opcUaSessionsState[UrlOfCode(e.code).value] &&
              (e.stateName == Online <==> e.state) && e.name == StateName
    ensures url in opcUaSessionsState ==> LinkStateOf(url, opcUaSessionsState[url]) in StateList(opcUaSessionsState)
  {
    if e in StateList(opcUaSessionsState) {
      var u :| u in opcUaSessionsState && e == LinkStateOf(u, opcUaSessionsState[u]);
      assert (CodePrefix + u)[..|CodePrefix|] == CodePrefix;
      assert (CodePrefix + u)[|CodePrefix|..] == u;
    }
  }

  // ----- a write -----

  /** What the SDK's `Write` does for the one value: it throws (a node id
    * that does not parse, a failed call), or answers a status code. */
  datatype WriteOutcome = WriteThrew(message: string) | Written(code: StatusCode)

  const SucceededMessage := "执行成功"
  const StatusPrefix := "执行失败，返回Code为: "
  const NotFoundMessage := "执行失败，连接未找到"
  const ThrewPrefix := "执行失败，异常信息："

  /** A new `EquipSetResponseModel`. */
  const NewReply := Reply(SuccessCode, None, NoData)

  /** The message `WriteValueAsync` reports. */
  function WriteMessage(known: bool, outcome: WriteOutcome): string {
    if !known then NotFoundMessage
    else match outcome
      case WriteThrew(m) => ThrewPrefix + m
      case Written(code) => if IsGood(code) then SucceededMessage else StatusPrefix + DecimalString(code)
  }

  /** The message says the write succeeded exactly when the URL has a
    * session and the server answered a good status. */
  lemma WriteMessageSucceeded(known: bool, outcome: WriteOutcome)
    ensures WriteMessage(known, outcome) == SucceededMessage <==> known && outcome.Written? && IsGood(outcome.code)
  {
    var m := WriteMessage(known, outcome);
    if !known {
      assert m[2] != SucceededMessage[2];
    } else if outcome.WriteThrew? {
      assert m[2] == ThrewPrefix[2] != SucceededMessage[2];
    } else if !IsGood(outcome.code) {
      assert m[2] == StatusPrefix[2] != SucceededMessage[2];
    }
  }

  /** As written every branch ends with `Fail`, so the response code is 400
    * even when the write succeeded and the message says so. */
  lemma GoodWriteFails(code: StatusCode)
    requires IsGood(code)
    ensures var r := After(NewReply, FailCall(WriteMessage(true, Written(code)), NoData));
            r.code == FailureCode && r.message == Some(SucceededMessage)
  {
  }

  /** The response evidently intended: `Ok` for a good status, `Fail` with
    * the same messages otherwise. */
  function IntendedWriteReply(known: bool, outcome: WriteOutcome): Reply {
    if known && outcome.Written? && IsGood(outcome.code) then After(NewReply, OkCall(NoData))
    else After(NewReply, FailCall(WriteMessage(known, outcome), NoData))
  }

  /** The intended response succeeds exactly when the URL has a session and
    * the server answered a good status. */
  lemma IntendedWriteSucceeds(known: bool, outcome: WriteOutcome)
    ensures IntendedWriteReply(known, outcome).code == SuccessCode <==> known && outcome.Written? && IsGood(outcome.code)
    ensures IntendedWriteReply(known, outcome).code == FailureCode ==>
              IntendedWriteReply(known, outcome).message == Some(WriteMessage(known, outcome))
  {
  }

  // ----- the lookup of values -----

  predicate HasValue(values: map<string, Option<DataValue>>, id: string) {
    id in values && values[id].Some?
  }

  /** The requested node ids that have a non-`null` value, with it. */
  function Present(values: map<string, Option<DataValue>>, nodeIds: seq<string>): map<string, DataValue> {
    map id | id in Elements(nodeIds) && HasValue(values, id) :: values[id].value
  }

  /** Some node id that has a value is requested twice: `Dictionary.Add`
    * then throws on the second, and the lookup answers an empty map. */
  predicate Repeats(values: map<string, Option<DataValue>>, nodeIds: seq<string>) {
    exists i, j :: 0 <= i < j < |nodeIds| && nodeIds[i] == nodeIds[j] && HasValue(values, nodeIds[i])
  }

  /** Distinct node ids never repeat, so the lookup then answers exactly the
    * requested ids that have a value. */
  lemma DistinctNeverRepeats(values: map<string, Option<DataValue>>, nodeIds: seq<string>)
    requires forall i, j :: 0 <= i < j < |nodeIds| ==> nodeIds[i] != nodeIds[j]
    ensures !Repeats(values, nodeIds)
  {
  }

  /** Asking twice for a node that has a value empties the answer. */
  lemma TwiceRepeats(values: map<string, Option<DataValue>>, id: string)
    requires HasValue(values, id)
    ensures Repeats(values, [id, id])
  {
    assert [id, id][0] == [id, id][1];
  }

  lemma LookupStep(values: map<string, Option<DataValue>>, nodeIds: seq<string>, k: nat)
    requires k < |nodeIds|
    ensures Present(values, nodeIds[..k + 1]) ==
            if HasValue(values, nodeIds[k]) then Present(values, nodeIds[..k])[nodeIds[k] := values[nodeIds[k]].value]
            else Present(values, nodeIds[..k])
    ensures Repeats(values, nodeIds[..k + 1]) <==>
            Repeats(values, nodeIds[..k]) || (HasValue(values, nodeIds[k]) && nodeIds[k] in Elements(nodeIds[..k]))
  {
    ElementsPrefix(nodeIds, k);
    var a, b := nodeIds[..k + 1], nodeIds[..k];
    if Repeats(values, a) {
      var i, j :| 0 <= i < j < |a| && a[i] == a[j] && HasValue(values, a[i]);
      if j < k {
        assert b[i] == b[j];
      } else {
        assert b[i] == nodeIds[k];
      }
    }
    if Repeats(values, b) {
      var i, j :| 0 <= i < j < |b| && b[i] == b[j] && HasValue(values, b[i]);
      assert a[i] == a[j];
    }
    if HasValue(values, nodeIds[k]) && nodeIds[k] in Elements(b) {
      var i :| 0 <= i < |b| && b[i] == nodeIds[k];
      assert a[i] == a[k];
    }
  }

  /** What `CreateNewSession` gets from the SDK: no session (`null`), or a
    * session that may or may not be connected, after which setting it up
    * (the first read, the subscriptions) may throw. */
  datatype Connection = Refused | Opened(connected: bool, setupFails: bool)

  class OpcUaManager {
    var opcUaSessions: map<string, OpcUaSession>
    var opcUaSessionsState: map<string, bool>
    /** The time until which a URL whose connection failed is not retried. */
    var connectFailServers: map<string, int>

    constructor ()
      ensures opcUaSessions == map[] && opcUaSessionsState == map[] && connectFailServers == map[]
    {
      opcUaSessions := map[];
      opcUaSessionsState := map[];
      connectFailServers := map[];
    }

    /** `CreateNewSession`: connects (a connected session marks the URL
      * online), then reads once and subscribes to `nodeIds`, the node ids of
      * the URL's equipment in the station database. Without a session, or
      * when setting it up throws, the URL is blocked for 30 seconds and
      * `null` is returned. */
    method CreateNewSession(config: ConnectionConfig, now: int, connection: Connection,
                            nodeIds: seq<string>, parses: string -> bool, read: string -> DataValue)
      returns (s: OpcUaSession?)
      modifies this`connectFailServers, this`opcUaSessionsState
      ensures s == null <==> connection.Refused? || connection.setupFails
      ensures connectFailServers ==
              if s == null then old(connectFailServers)[config.serverUrl := now + ReTryMillis] else old(connectFailServers)
      ensures opcUaSessionsState ==
              if connection.Opened? && connection.connected then old(opcUaSessionsState)[config.serverUrl := true]
              else old(opcUaSessionsState)
      ensures s != null ==>
                fresh(s) && s.connectionConfig == config && s.hasSession &&
                s.monitoredItems == Parsed(nodeIds, parses) &&
                s.nodeIdValues == Stored(Parsed(nodeIds, parses), read, config.nodeQualityType) &&
                s.statusInfo != null && fresh(s.statusInfo) && s.statusInfo.timeOut == DefaultTimeOut &&
                s.statusInfo.sessionCreateTime == now && s.statusInfo.lastKeepAliveTime == None
    {
      if connection.Refused? {
        connectFailServers := connectFailServers[config.serverUrl := now + ReTryMillis];
        return null;
      }
      if connection.connected {
        opcUaSessionsState := opcUaSessionsState[config.serverUrl := true];
      }
      if connection.setupFails {
        connectFailServers := connectFailServers[config.serverUrl := now + ReTryMillis];
        return null;
      }
      s := new OpcUaSession(config, now);
      s.ReadNodeValueByNodes(nodeIds, parses, read);
      s.AddAllSubscription(nodeIds, parses);
      assert map[] + Stored(Parsed(nodeIds, parses), read, config.nodeQualityType) ==
             Stored(Parsed(nodeIds, parses), read, config.nodeQualityType);
    }

    /** Takes a pooled session out: disposed, marked offline, removed. */
    method Drop(url: string, session: OpcUaSession)
      modifies this`opcUaSessions, this`opcUaSessionsState, session
      ensures opcUaSessions == old(opcUaSessions) - {url}
      ensures opcUaSessionsState == old(opcUaSessionsState)[url := false]
      ensures session.monitoredItems == {} && session.nodeIdValues == map[] && session.statusInfo == null
      ensures session.hasSession == old(session.hasSession)
    {
      session.DisposeSession();
      opcUaSessionsState := opcUaSessionsState[url := false];
      opcUaSessions := opcUaSessions - {url};
    }

    /** `CreateClientSession`: unless the URL is blocked, makes a session for
      * it when there is none, then drops the pooled session when its
      * configuration changed, when it has been silent for its timeout, or
      * when it has lost its SDK session. A pooled session whose status is
      * already `null` makes the liveness check throw. */
    method CreateClientSession(config: ConnectionConfig, now: int, connection: Connection,
                               nodeIds: seq<string>, parses: string -> bool, read: string -> DataValue)
      returns (threw: bool)
      modifies this, if config.serverUrl in opcUaSessions then {opcUaSessions[config.serverUrl]} else {}
      ensures var url := config.serverUrl;
              url in old(connectFailServers) && old(connectFailServers)[url] > now ==>
                !threw && opcUaSessions == old(opcUaSessions) && opcUaSessionsState == old(opcUaSessionsState) &&
                connectFailServers == old(connectFailServers)
      ensures var url := config.serverUrl;
              !(url in old(connectFailServers) && old(connectFailServers)[url] > now) && url in old(opcUaSessions) ==>
                var s := old(opcUaSessions)[url];
                connectFailServers == old(connectFailServers) &&
                if !HotReloadCompare(s.connectionConfig, config) ||
                   (old(s.statusInfo) != null && (!old(s.statusInfo.GetTimeOutStatus(now)) || !old(s.hasSession))) then
                  !threw && opcUaSessions == old(opcUaSessions) - {url} &&
                  opcUaSessionsState == old(opcUaSessionsState)[url := false] &&
                  s.monitoredItems == {} && s.nodeIdValues == map[] && s.statusInfo == null
                else
                  threw == (old(s.statusInfo) == null) &&
                  opcUaSessions == old(opcUaSessions) && opcUaSessionsState == old(opcUaSessionsState)
      ensures var url := config.serverUrl;
              !(url in old(connectFailServers) && old(connectFailServers)[url] > now) && url !in old(opcUaSessions) ==>
                !threw &&
                if connection.Refused? || connection.setupFails then
                  opcUaSessions == old(opcUaSessions) &&
                  opcUaSessionsState == old(opcUaSessionsState)[url := false] &&
                  connectFailServers == old(connectFailServers)[url := now + ReTryMillis]
                else
                  url in opcUaSessions && fresh(opcUaSessions[url]) &&
                  opcUaSessions == old(opcUaSessions)[url := opcUaSessions[url]] &&
                  opcUaSessions[url].connectionConfig == config &&
                  opcUaSessions[url].monitoredItems == Parsed(nodeIds, parses) &&
                  opcUaSessions[url].nodeIdValues == Stored(Parsed(nodeIds, parses), read, config.nodeQualityType) &&
                  opcUaSessionsState == (if connection.connected then old(opcUaSessionsState)[url := true] else old(opcUaSessionsState)) &&
                  connectFailServers == old(connectFailServers)
    {
      var url := config.serverUrl;
      if url in connectFailServers {
        var lastErrorDate := connectFailServers[url];
        if lastErrorDate > now {
          return false;
        }
      }
      var opcUaSession: OpcUaSession;
      if url in opcUaSessions {
        opcUaSession := opcUaSessions[url];
      } else {
        var created := CreateNewSession(config, now, connection, nodeIds, parses, read);
        if created == null {
          opcUaSessions := opcUaSessions - {url};
          opcUaSessionsState := opcUaSessionsState[url := false];
          return false;
        }
        opcUaSession := created;
        opcUaSessions := opcUaSessions[url := created];
        HotReloadEquivalence(config, config, config);
      }
      if !HotReloadCompare(opcUaSession.connectionConfig, config) {
        Drop(url, opcUaSession);
        return false;
      }
      if opcUaSession.statusInfo == null {
        return true;
      }
      var alive := opcUaSession.statusInfo.GetTimeOutStatus(now);
      if !alive {
        Drop(url, opcUaSession);
      }
      if !opcUaSession.hasSession {
        Drop(url, opcUaSession);
      }
      return false;
    }

    /** `AddSubscriptionToMonitoredItems`, on the set its callers pass, a
      * session's `MonitoredItems`: afterwards the set holds its old members
      * and every node id of the list, and nothing else. */
    method AddSubscriptionToMonitoredItems(session: OpcUaSession, nodeIds: seq<string>)
      modifies session`monitoredItems
      ensures session.monitoredItems == old(session.monitoredItems) + Elements(nodeIds)
    {
      for k := 0 to |nodeIds|
        invariant session.monitoredItems == old(session.monitoredItems) + Elements(nodeIds[..k])
      {
        ElementsPrefix(nodeIds, k);
        var nodeId := nodeIds[k];
        if nodeId !in session.monitoredItems {
          session.monitoredItems := session.monitoredItems + {nodeId};
        }
      }
      assert nodeIds[..|nodeIds|] == nodeIds;
    }

    /** `WriteValueAsync`: writes one value through the URL's session and
      * reports how it went; every branch ends with `Fail`. */
    method WriteValueAsync(serverUrl: string, nodeId: string, outcome: WriteOutcome)
      returns (equipSet: EquipSetResponseModel)
      ensures fresh(equipSet)
      ensures equipSet.View() == After(NewReply, FailCall(WriteMessage(serverUrl in opcUaSessions, outcome), NoData))
    {
      equipSet := new EquipSetResponseModel();
      if serverUrl in opcUaSessions {
        match outcome
        case WriteThrew(m) =>
          equipSet.Fail(ThrewPrefix + m, NoData);
        case Written(code) =>
          if IsGood(code) {
            equipSet.Fail(SucceededMessage, NoData);
          } else {
            equipSet.Fail(StatusPrefix + DecimalString(code), NoData);
          }
      } else {
        equipSet.Fail(NotFoundMessage, NoData);
      }
    }

    /** `GetNodeIdValues`: the requested node ids that have a non-`null`
      * value in the URL's session, with it; an unknown URL, or a node id
      * with a value requested twice, gives an empty map. */
    method GetNodeIdValues(serverUrl: string, nodeIds: seq<string>) returns (result: map<string, DataValue>)
      ensures serverUrl !in opcUaSessions ==> result == map[]
      ensures serverUrl in opcUaSessions ==>
                var values := opcUaSessions[serverUrl].nodeIdValues;
                result == if Repeats(values, nodeIds) then map[] else Present(values, nodeIds)
    {
      if serverUrl !in opcUaSessions {
        return map[];
      }
      var values := opcUaSessions[serverUrl].nodeIdValues;
      result := map[];
      for k := 0 to |nodeIds|
        invariant result == Present(values, nodeIds[..k]) && !Repeats(values, nodeIds[..k])
      {
        LookupStep(values, nodeIds, k);
        var nodeId := nodeIds[k];
        if nodeId in values {
          var val := values[nodeId];
          if val.Some? {
            if nodeId in result {
              RepeatsPrefix(values, nodeIds, k + 1);
              return map[];
            }
            result := result[nodeId := val.value];
          }
        }
      }
      assert nodeIds[..|nodeIds|] == nodeIds;
    }
  }

  lemma RepeatsPrefix(values: map<string, Option<DataValue>>, nodeIds: seq<string>, n: nat)
    requires n <= |nodeIds| && Repeats(values, nodeIds[..n])
    ensures Repeats(values, nodeIds)
  {
    var i, j :| 0 <= i < j < n && nodeIds[..n][i] == nodeIds[..n][j] && HasValue(values, nodeIds[..n][i]);
    assert nodeIds[i] == nodeIds[j];
  }
}
