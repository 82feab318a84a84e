/** `OpcUaSession` of the OPC UA driver: one connection to a server, the node
  * ids it has subscribed to (`MonitoredItems`), the last value seen for each
  * node (`NodeIdValues`) and the liveness status of the connection.
  *
  * The OPC UA SDK is not part of this model: whether `new NodeId(text)`
  * accepts a node id is the parameter `parses`, and what `Session.Read`
  * returns for a node is the parameter `read`. Times are milliseconds on one
  * clock, passed in as `now`. */
module OpcUaSessions {
  import opened Wrappers
  import opened OpcUaConfig
  import opened OpcUaStatus

  /** A 32-bit OPC UA status code. */
  type StatusCode = c: int | 0 <= c < 0x1_0000_0000

  /** The severity of a status code is its two top bits (section 7.39 of
    * OPC UA Part 4): 0 is good, 1 uncertain, 2 and 3 bad. */
  const SeverityUnit := 0x4000_0000

  predicate IsGood(c: StatusCode) { c / SeverityUnit == 0 }
  predicate IsUncertain(c: StatusCode) { c / SeverityUnit == 1 }
  predicate IsBad(c: StatusCode) { c / SeverityUnit >= 2 }

  /** A `DataValue`: the node's value, by its text (`None` is a `null`
    * value), and its status code. */
  datatype DataValue = DataValue(value: Option<string>, statusCode: StatusCode)

  /** The quality class of a status code. */
  function QualityOf(c: StatusCode): NodeQualityType {
    if IsGood(c) then Good else if IsUncertain(c) then Uncertain else Bad
  }

  /** One listed quality type admits a status code. */
  predicate Matches(t: NodeQualityType, c: StatusCode) {
    match t
    case Good => IsGood(c)
    case Uncertain => IsUncertain(c)
    case Bad => IsBad(c)
  }

  /** Some listed quality type admits the status code. */
  predicate Keeps(types: seq<NodeQualityType>, c: StatusCode) {
    exists i :: 0 <= i < |types| && Matches(types[i], c)
  }

  /** The quality classes do not overlap, so a list admits a status code
    * exactly when it names the code's own class; in particular an empty list
    * admits nothing, and the order and repetitions of the list are
    * irrelevant. */
  lemma KeepsByQuality(types: seq<NodeQualityType>, c: StatusCode)
    ensures Keeps(types, c) <==> QualityOf(c) in types
  {
    if Keeps(types, c) {
      var i :| 0 <= i < |types| && Matches(types[i], c);
      assert types[i] == QualityOf(c);
    }
    if QualityOf(c) in types {
      var i :| 0 <= i < |types| && types[i] == QualityOf(c);
      assert Matches(types[i], c);
    }
  }

  /** `FilterNodeQualityType`: whether a read value of this status is kept. */
  method FilterNodeQualityType(types: seq<NodeQualityType>, code: StatusCode) returns (keep: bool)
    ensures keep <==> Keeps(types, code)
  {
    for i := 0 to |types|
      invariant forall j :: 0 <= j < i ==> !Matches(types[j], code)
    {
      var t := types[i];
      if t == Good && IsGood(code) {
        return true;
      } else if t == Uncertain && IsUncertain(code) {
        return true;
      } else if t == Bad && IsBad(code) {
        return true;
      }
    }
    return false;
  }

  function Elements(xs: seq<string>): set<string> {
    set i | 0 <= i < |xs| :: xs[i]
  }

  /** The node ids of a list that the SDK accepts: the ones that get
    * subscribed, and the ones that get read. */
  function Parsed(nodeIds: seq<string>, parses: string -> bool): set<string> {
    set i | 0 <= i < |nodeIds| && parses(nodeIds[i]) :: nodeIds[i]
  }

  /** The members of a set that the SDK accepts. */
  function Accepted(ids: set<string>, parses: string -> bool): set<string> {
    set id | id in ids && parses(id)
  }

  /** The entries a read of `ids` stores: the value of each node whose status
    * passes the quality filter. */
  function Stored(ids: set<string>, read: string -> DataValue, types: seq<NodeQualityType>): map<string, Option<DataValue>> {
    map id | id in ids && Keeps(types, read(id).statusCode) :: Some(read(id))
  }

  /** A read stores only nodes it read, and only values that pass the
    * quality filter, unchanged; with no quality type configured it stores
    * nothing at all. */
  lemma StoredSound(ids: set<string>, read: string -> DataValue, types: seq<NodeQualityType>, id: string)
    ensures id in Stored(ids, read, types) <==> id in ids && QualityOf(read(id).statusCode) in types
    ensures id in Stored(ids, read, types) ==> Stored(ids, read, types)[id] == Some(read(id))
    ensures |types| == 0 ==> Stored(ids, read, types) == map[]
  {
    KeepsByQuality(types, read(id).statusCode);
  }

  /** Storing a read of a larger list is storing the read of the shorter list
    * and then, if it passes the filter, the value of the last node. */
  lemma StoredStep(ids: seq<string>, k: nat, read: string -> DataValue, types: seq<NodeQualityType>)
    requires k < |ids|
    ensures var id := ids[k];
            Stored(Elements(ids[..k + 1]), read, types) ==
            Stored(Elements(ids[..k]), read, types) +
            (if Keeps(types, read(id).statusCode) then map[id := Some(read(id))] else map[])
  {
    ElementsPrefix(ids, k);
  }

  /** One turn of the store loop: the map so far, with the next node's
    * value if it passes the filter, is the store of one more node. */
  lemma StoreOne(m: map<string, Option<DataValue>>, base: map<string, Option<DataValue>>, ids: seq<string>, k: nat,
                 read: string -> DataValue, types: seq<NodeQualityType>)
    requires k < |ids| && m == base + Stored(Elements(ids[..k]), read, types)
    ensures var id := ids[k];
            (if Keeps(types, read(id).statusCode) then m[id := Some(read(id))] else m) ==
            base + Stored(Elements(ids[..k + 1]), read, types)
  {
    StoredStep(ids, k, read, types);
    var id := ids[k];
    if Keeps(types, read(id).statusCode) {
      assert m[id := Some(read(id))] == base + (Stored(Elements(ids[..k]), read, types) + map[id := Some(read(id))]);
    } else {
      assert Stored(Elements(ids[..k]), read, types) + map[] == Stored(Elements(ids[..k]), read, types);
    }
  }

  /** The elements of a list, in some order: the enumeration of a
    * `HashSet`, whose order is unspecified. */
  method Enumerate(s: set<string>) returns (xs: seq<string>)
    ensures Elements(xs) == s
  {
    xs := [];
    var rest := s;
    while rest != {}
      invariant Elements(xs) + rest == s && rest <= s
      decreases |rest|
    {
      var x :| x in rest;
      ElementsAppend(xs, x);
      xs := xs + [x];
      rest := rest - {x};
    }
  }

  class OpcUaSession {
    const connectionConfig: ConnectionConfig
    /** Whether the SDK session object is present (`Session != null`). */
    var hasSession: bool
    var monitoredItems: set<string>
    var nodeIdValues: map<string, Option<DataValue>>
    var statusInfo: OpcUaSessionStatus?

    /** A new session over an open SDK session has subscribed to nothing,
      * holds no value, and a fresh status created `now` with the default
      * timeout. */
    constructor (connectionConfig: ConnectionConfig, now: int)
      ensures this.connectionConfig == connectionConfig && hasSession
      ensures monitoredItems == {} && nodeIdValues == map[]
      ensures statusInfo != null && fresh(statusInfo)
      ensures statusInfo.timeOut == DefaultTimeOut && statusInfo.sessionCreateTime == now &&
              statusInfo.lastKeepAliveTime == None
    {
      this.connectionConfig := connectionConfig;
      hasSession := true;
      monitoredItems := {};
      nodeIdValues := map[];
      statusInfo := new OpcUaSessionStatus(now);
    }

    /** `ReSetOpcUaSession`: forgets every subscription and value and takes
      * the new SDK session (`resession` is whether it is present). With a
      * session, the subscription is made anew and a fresh status starts
      * `now`. Without one, `CreateSubscription` dereferences the missing
      * session's subscriptions: the exception escapes (`escaped`) before the
      * status is replaced, so the old status stays. */
    method ReSetOpcUaSession(resession: bool, now: int) returns (escaped: bool)
      modifies this
      ensures escaped <==> !resession
      ensures hasSession == resession && monitoredItems == {} && nodeIdValues == map[]
      ensures escaped ==> statusInfo == old(statusInfo)
      ensures !escaped ==> statusInfo != null && fresh(statusInfo)
      ensures !escaped ==> statusInfo.timeOut == DefaultTimeOut && statusInfo.sessionCreateTime == now &&
                           statusInfo.lastKeepAliveTime == None
    {
      monitoredItems := {};
      nodeIdValues := map[];
      hasSession := resession;
      if !resession {
        return true;
      }
      statusInfo := new OpcUaSessionStatus(now);
      escaped := false;
    }

    /** The loop shared by `AddAllSubscription` and `AddSubscription`: each
      * node id not yet monitored whose monitored item can be made is added;
      * `added` tells whether any was. */
    method AddItems(nodeIds: seq<string>, parses: string -> bool) returns (added: bool)
      modifies this`monitoredItems
      ensures monitoredItems == old(monitoredItems) + Parsed(nodeIds, parses)
      ensures added <==> !(Parsed(nodeIds, parses) <= old(monitoredItems))
    {
      added := false;
      for k := 0 to |nodeIds|
        invariant monitoredItems == old(monitoredItems) + Parsed(nodeIds[..k], parses)
        invariant added <==> !(Parsed(nodeIds[..k], parses) <= old(monitoredItems))
      {
        ParsedStep(nodeIds, k, parses);
        var nodeId := nodeIds[k];
        if nodeId !in monitoredItems {
          if parses(nodeId) {
            monitoredItems := monitoredItems + {nodeId};
            added := true;
          }
        }
      }
      assert nodeIds[..|nodeIds|] == nodeIds;
    }

    /** `AddAllSubscription`: subscribes to every node id of the list that is
      * not yet monitored and that the SDK accepts; ids already monitored are
      * left alone and none is added twice. */
    method AddAllSubscription(nodeIds: seq<string>, parses: string -> bool)
      modifies this`monitoredItems
      ensures monitoredItems == old(monitoredItems) + Parsed(nodeIds, parses)
    {
      var _ := AddItems(nodeIds, parses);
    }

    /** `AddSubscription`: subscribes like `AddAllSubscription` and, only when
      * some node id was added, reads at once every monitored node that has
      * no value yet together with every node id of the list. `readNodes` is
      * the set of nodes asked for, `None` when no read is made. */
    method AddSubscription(nodeIds: seq<string>, parses: string -> bool, read: string -> DataValue)
      returns (readNodes: Option<set<string>>)
      modifies this`monitoredItems, this`nodeIdValues
      ensures monitoredItems == old(monitoredItems) + Parsed(nodeIds, parses)
      ensures readNodes.Some? <==> monitoredItems != old(monitoredItems)
      ensures readNodes.Some? ==>
                readNodes.value == (monitoredItems - old(nodeIdValues).Keys) + Elements(nodeIds)
      ensures readNodes.None? ==> nodeIdValues == old(nodeIdValues)
      ensures readNodes.Some? ==>
                nodeIdValues == old(nodeIdValues) +
                                Stored(Accepted(readNodes.value, parses), read, connectionConfig.nodeQualityType)
    {
      var hasAddMonitoredItems := AddItems(nodeIds, parses);
      if !hasAddMonitoredItems {
        return None;
      }
      var nodeIdKeysSet := nodeIdValues.Keys;
      var itemsNotInNodeIdValues := (set item | item in monitoredItems && item !in nodeIdKeysSet) + Elements(nodeIds);
      var nodes := Enumerate(itemsNotInNodeIdValues);
      ReadNodeValueByNodes(nodes, parses, read);
      assert Parsed(nodes, parses) == Accepted(itemsNotInNodeIdValues, parses) by {
        ParsedElements(nodes, parses);
      }
      return Some(itemsNotInNodeIdValues);
    }

    /** `ReadNodeValueByNodes`: reads the nodes of the list the SDK accepts
      * and stores each value that passes the quality filter; an empty list,
      * or one of which no node id is accepted, reads nothing. */
    method ReadNodeValueByNodes(nodes: seq<string>, parses: string -> bool, read: string -> DataValue)
      modifies this`nodeIdValues
      ensures nodeIdValues == old(nodeIdValues) + Stored(Parsed(nodes, parses), read, connectionConfig.nodeQualityType)
    {
      if |nodes| == 0 {
        assert Parsed(nodes, parses) == {};
        assert Stored({}, read, connectionConfig.nodeQualityType) == map[];
        return;
      }
      var nodesToRead: seq<string> := [];
      for k := 0 to |nodes|
        invariant Elements(nodesToRead) == Parsed(nodes[..k], parses)
        invariant nodeIdValues == old(nodeIdValues)
      {
        ParsedStep(nodes, k, parses);
        if parses(nodes[k]) {
          ElementsAppend(nodesToRead, nodes[k]);
          nodesToRead := nodesToRead + [nodes[k]];
        }
      }
      assert nodes[..|nodes|] == nodes;
      if |nodesToRead| == 0 {
        assert Elements(nodesToRead) == {};
        assert Stored({}, read, connectionConfig.nodeQualityType) == map[];
        return;
      }
      StoreReads(nodesToRead, read);
    }

    /** The store loop of the reads: the value of each node read is stored
      * under its node id when it passes the quality filter. */
    method StoreReads(ids: seq<string>, read: string -> DataValue)
      modifies this`nodeIdValues
      ensures nodeIdValues == old(nodeIdValues) + Stored(Elements(ids), read, connectionConfig.nodeQualityType)
    {
      var types := connectionConfig.nodeQualityType;
      for i := 0 to |ids|
        invariant nodeIdValues == old(nodeIdValues) + Stored(Elements(ids[..i]), read, types)
      {
        StoreOne(nodeIdValues, old(nodeIdValues), ids, i, read, types);
        var nodeId := ids[i];
        var keep := FilterNodeQualityType(types, read(nodeId).statusCode);
        if keep {
          nodeIdValues := nodeIdValues[nodeId := Some(read(nodeId))];
        }
      }
      assert ids[..|ids|] == ids;
    }

    /** `ReadAllNodes`: with nothing monitored it does nothing. Otherwise it
      * reads every monitored node, refreshes the keep-alive time `now` (a
      * status already set to `null` by `DisposeSession` throws there, before
      * anything is stored) and stores each value that passes the quality
      * filter. */
    method ReadAllNodes(read: string -> DataValue, now: int) returns (threw: bool)
      modifies this`nodeIdValues, statusInfo
      ensures monitoredItems == {} ==> !threw && nodeIdValues == old(nodeIdValues) &&
                                       (statusInfo != null ==> statusInfo.lastKeepAliveTime == old(statusInfo.lastKeepAliveTime))
      ensures monitoredItems != {} && statusInfo == null ==> threw && nodeIdValues == old(nodeIdValues)
      ensures monitoredItems != {} && statusInfo != null ==>
                !threw && statusInfo.lastKeepAliveTime == Some(now) &&
                nodeIdValues == old(nodeIdValues) + Stored(monitoredItems, read, connectionConfig.nodeQualityType)
    {
      if monitoredItems == {} {
        return false;
      }
      var nodesToRead := Enumerate(monitoredItems);
      if statusInfo == null {
        return true;
      }
      statusInfo.SetOnceKeepAliveTime(now);
      StoreReads(nodesToRead, read);
      return false;
    }

    /** `OnNotification`: a data-change notification stores its value (which
      * may be `null`) under the item's display name, its node id, and then
      * refreshes the keep-alive time; after `DisposeSession` the status is
      * `null` and that refresh throws, after the value is stored. Any other
      * notification changes nothing. */
    method OnNotification(displayName: string, isItemNotification: bool, value: Option<DataValue>, now: int)
      returns (threw: bool)
      modifies this`nodeIdValues, statusInfo
      ensures !isItemNotification ==> !threw && nodeIdValues == old(nodeIdValues)
      ensures isItemNotification ==> nodeIdValues == old(nodeIdValues)[displayName := value]
      ensures isItemNotification ==> (threw <==> statusInfo == null)
      ensures isItemNotification && statusInfo != null ==> statusInfo.lastKeepAliveTime == Some(now)
    {
      if !isItemNotification {
        return false;
      }
      nodeIdValues := nodeIdValues[displayName := value];
      if statusInfo == null {
        return true;
      }
      statusInfo.SetOnceKeepAliveTime(now);
      return false;
    }

    /** `DisposeSession`: forgets every subscription and value and drops the
      * status. */
    method DisposeSession()
      modifies this`monitoredItems, this`nodeIdValues, this`statusInfo
      ensures monitoredItems == {} && nodeIdValues == map[] && statusInfo == null
    {
      monitoredItems := {};
      nodeIdValues := map[];
      statusInfo := null;
    }
  }

  lemma ParsedStep(nodeIds: seq<string>, k: nat, parses: string -> bool)
    requires k < |nodeIds|
    ensures Parsed(nodeIds[..k + 1], parses) ==
            Parsed(nodeIds[..k], parses) + (if parses(nodeIds[k]) then {nodeIds[k]} else {})
  {
    var a, b := nodeIds[..k + 1], nodeIds[..k];
    forall x | x in Parsed(a, parses)
      ensures x in Parsed(b, parses) + (if parses(nodeIds[k]) then {nodeIds[k]} else {})
    {
      var i :| 0 <= i < k + 1 && parses(a[i]) && a[i] == x;
      if i < k { assert b[i] == x; }
    }
    forall x | x in Parsed(b, parses) ensures x in Parsed(a, parses) {
      var i :| 0 <= i < k && parses(b[i]) && b[i] == x;
      assert a[i] == x;
    }
    assert a[k] == nodeIds[k];
  }

  lemma ParsedElements(nodes: seq<string>, parses: string -> bool)
    ensures Parsed(nodes, parses) == Accepted(Elements(nodes), parses)
  {
  }

  lemma ElementsAppend(xs: seq<string>, x: string)
    ensures Elements(xs + [x]) == Elements(xs) + {x}
  {
    assert (xs + [x])[|xs|] == x;
    forall y | y in Elements(xs) ensures y in Elements(xs + [x]) {
      var i :| 0 <= i < |xs| && xs[i] == y;
      assert (xs + [x])[i] == y;
    }
  }

  lemma ElementsPrefix(xs: seq<string>, k: nat)
    requires k < |xs|
    ensures Elements(xs[..k + 1]) == Elements(xs[..k]) + {xs[k]}
  {
    assert xs[..k + 1] == xs[..k] + [xs[k]];
    ElementsAppend(xs[..k], xs[k]);
  }
}
