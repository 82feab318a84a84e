/** `ClientSession` of the Modbus driver: one connection's points, the values
  * and events gathered for them, the online status with its offline counter,
  * and the paged poll that reads every point. */
module ModbusSession {
  import opened Wrappers
  import opened Bytes
  import opened ModbusPlanner
  import opened ModbusModels
  import opened ModbusBatch
  import opened ModbusConfig
  import opened NodeStr

  /** `EquipEventModel`; the time is a number, the clock is not modelled. */
  datatype EquipEvent = EquipEvent(eventId: string, eventName: string, eventCode: string,
                                   eventMsg: string, eventTime: int)

  /** The Modbus client a session talks through. */
  datatype Transport = TcpClient(endpoint: Endpoint) | RtuClient(port: string) |
                       AsciiClient(port: string) | RtuOverTcpClient(endpoint: Endpoint)

  // ----- the offline counter -----

  /** The consecutive failed connection checks tolerated while online. */
  const OfflineLimit := 5

  /** The connection check of a poll: a success resets the counter and goes
    * online; a failure counts, and the failure that takes the count past the
    * limit resets it and goes offline. Gives the new counter and status. */
  function OfflineStep(connected: bool, count: int, status: bool): (int, bool) {
    if connected then (0, true)
    else if count + 1 > OfflineLimit then (0, false)
    else (count + 1, status)
  }

  /** The counter never leaves `[0, 5]`. */
  lemma OfflineStepBounded(connected: bool, count: int, status: bool)
    requires 0 <= count <= OfflineLimit
    ensures 0 <= OfflineStep(connected, count, status).0 <= OfflineLimit
    ensures connected ==> OfflineStep(connected, count, status) == (0, true)
  {
  }

  /** `n` failed checks in a row. */
  function Failures(count: int, status: bool, n: nat): (int, bool) {
    if n == 0 then (count, status)
    else
      var (c, s) := Failures(count, status, n - 1);
      OfflineStep(false, c, s)
  }

  /** From a counter `count`, the failures that keep it within the limit
    * leave the status alone, and the next one goes offline: from 0, the
    * sixth failure in a row is the one. */
  lemma {:induction false} FailuresGoOffline(count: int, status: bool, n: nat)
    requires 0 <= count <= OfflineLimit && n <= OfflineLimit + 1 - count
    ensures n <= OfflineLimit - count ==> Failures(count, status, n) == (count + n, status)
    ensures n == OfflineLimit + 1 - count ==> Failures(count, status, n) == (0, false)
  {
    if n > 0 {
      FailuresGoOffline(count, status, n - 1);
    }
  }

  // ----- the paged poll -----

  /** `PageSize`: every page holds one point. */
  const PageSize := 1

  /** `(int)Math.Ceiling((double)n / PageSize)` for a count `n`. */
  function TotalPages(n: nat): nat {
    (n + PageSize - 1) / PageSize
  }

  /** `Skip((pageNumber - 1) * PageSize).Take(PageSize)`. */
  function Page(inputs: seq<Input>, pageNumber: nat): seq<Input>
    requires pageNumber >= 1
  {
    Take(Skip(inputs, (pageNumber - 1) * PageSize), PageSize)
  }

  /** The pages 1 to `pages`, one after the other. */
  function Paged(inputs: seq<Input>, pages: nat): seq<Input> {
    if pages == 0 then [] else Paged(inputs, pages - 1) + Page(inputs, pages)
  }

  /** The pages cut the points into consecutive slices: taken together they
    * are the points, each once, in order. */
  lemma {:induction false} PagesPartition(inputs: seq<Input>)
    ensures Paged(inputs, TotalPages(|inputs|)) == inputs
  {
    PagedPrefix(inputs, TotalPages(|inputs|));
  }

  lemma {:induction false} PagedPrefix(inputs: seq<Input>, pages: nat)
    requires pages <= TotalPages(|inputs|)
    ensures Paged(inputs, pages) == inputs[..if pages * PageSize < |inputs| then pages * PageSize else |inputs|]
  {
    if pages > 0 {
      PagedPrefix(inputs, pages - 1);
      assert (pages - 1) * PageSize < |inputs|;
    }
  }

  /** The values after storing the outputs of a read, in order: each under
    * its `DisplayNameKey`. */
  function Stored(values: map<string, Value>, outputs: seq<ModbusOutput>): map<string, Value> {
    if |outputs| == 0 then values
    else
      var last := outputs[|outputs| - 1];
      Stored(values, outputs[..|outputs| - 1])[last.DisplayNameKey() := last.value]
  }

  /** The values after pages 1 to `pages`: a successful read stores its
    * outputs, a failed one or one that threw is logged and skipped. */
  function Poll(values: map<string, Value>, inputs: seq<Input>, read: seq<Input> -> BatchOutcome,
                pages: nat): map<string, Value>
  {
    if pages == 0 then values
    else
      var before := Poll(values, inputs, read, pages - 1);
      var r := read(Page(inputs, pages));
      if r.Batch? && r.isSucceed then Stored(before, r.outputs) else before
  }

  /** The values after a poll that ended `online` or not: offline, nothing
    * is read. */
  function AfterPoll(values: map<string, Value>, online: bool, points: seq<Input>,
                     read: seq<Input> -> BatchOutcome): map<string, Value>
  {
    if online then Poll(values, points, read, TotalPages(|points|)) else values
  }

  function InputKey(x: Input): string {
    DisplayKey(x.station, x.code, x.address)
  }

  /** A read of a page answers only for the page's points. */
  predicate PageSound(read: seq<Input> -> BatchOutcome, page: seq<Input>) {
    read(page).Batch? ==>
      forall o :: o in read(page).outputs ==>
        exists x :: x in page && x.address == o.address && x.code == o.code && x.station == o.station
  }

  /** `BatchRead` of the model answers only for the points it is given. */
  lemma BatchReadPageSound(read: Reader, fmt: seq<byte> -> seq<byte>, pad: nat, rule: Advance, page: seq<Input>)
    ensures PageSound(p => Visit(AllPairs(p), Passes(p, read, fmt, pad, rule)), page)
  {
    var r := Visit(AllPairs(page), Passes(page, read, fmt, pad, rule));
    if r.Batch? {
      forall o | o in r.outputs
        ensures exists x :: x in page && x.address == o.address && x.code == o.code && x.station == o.station
      {
        BatchReadSound(page, read, fmt, pad, rule, o);
      }
    }
  }

  lemma {:induction false} StoredOther(values: map<string, Value>, outputs: seq<ModbusOutput>, k: string)
    requires forall o :: o in outputs ==> o.DisplayNameKey() != k
    ensures k in Stored(values, outputs) <==> k in values
    ensures k in values ==> Stored(values, outputs)[k] == values[k]
  {
    if |outputs| > 0 {
      StoredOther(values, outputs[..|outputs| - 1], k);
    }
  }

  /** A page whose points all have keys other than `k` leaves `k` alone. */
  lemma PollStepOther(values: map<string, Value>, inputs: seq<Input>,
                      read: seq<Input> -> BatchOutcome, p: nat, k: string)
    requires p >= 1 && PageSound(read, Page(inputs, p))
    requires forall x :: x in Page(inputs, p) ==> InputKey(x) != k
    ensures k in Poll(values, inputs, read, p) <==> k in Poll(values, inputs, read, p - 1)
    ensures k in Poll(values, inputs, read, p - 1) ==>
              Poll(values, inputs, read, p)[k] == Poll(values, inputs, read, p - 1)[k]
  {
    var page := Page(inputs, p);
    var r := read(page);
    if r.Batch? && r.isSucceed {
      forall o | o in r.outputs ensures o.DisplayNameKey() != k {
        var x :| x in page && x.address == o.address && x.code == o.code && x.station == o.station;
      }
      StoredOther(Poll(values, inputs, read, p - 1), r.outputs, k);
    }
  }

  /** Page `p` of a list of points is its `p`-th point alone. */
  lemma PageAt(inputs: seq<Input>, p: nat)
    requires 1 <= p <= |inputs|
    ensures Page(inputs, p) == [inputs[p - 1]]
  {
  }

  /** The last output of a read is the one stored under its key. */
  lemma StoredLast(values: map<string, Value>, outputs: seq<ModbusOutput>)
    requires |outputs| > 0
    ensures var last := outputs[|outputs| - 1];
            last.DisplayNameKey() in Stored(values, outputs) && Stored(values, outputs)[last.DisplayNameKey()] == last.value
  {
  }

  /** A point no page holds keeps its stored value, present or absent,
    * whatever the reads answer. */
  lemma {:induction false} PollOther(values: map<string, Value>, inputs: seq<Input>,
                                     read: seq<Input> -> BatchOutcome, pages: nat, k: string)
    requires forall p :: 1 <= p <= pages ==> PageSound(read, Page(inputs, p))
    requires forall x :: x in Paged(inputs, pages) ==> InputKey(x) != k
    ensures k in Poll(values, inputs, read, pages) <==> k in values
    ensures k in values ==> Poll(values, inputs, read, pages)[k] == values[k]
  {
    if pages > 0 {
      PollOther(values, inputs, read, pages - 1, k);
      PollStepOther(values, inputs, read, pages, k);
    }
  }

  /** The value a successful page read last for a point is the one stored
    * for it after the whole poll: pages of other points leave it alone. */
  lemma {:induction false} PollStores(values: map<string, Value>, inputs: seq<Input>,
                                      read: seq<Input> -> BatchOutcome, i: nat)
    requires i < |inputs|
    requires forall j :: 0 <= j < |inputs| && j != i ==> InputKey(inputs[j]) != InputKey(inputs[i])
    requires forall p :: 1 <= p <= |inputs| ==> PageSound(read, Page(inputs, p))
    requires read([inputs[i]]).Batch? && read([inputs[i]]).isSucceed && |read([inputs[i]]).outputs| > 0
    ensures var outputs := read([inputs[i]]).outputs;
            var after := Poll(values, inputs, read, TotalPages(|inputs|));
            InputKey(inputs[i]) in after && after[InputKey(inputs[i])] == outputs[|outputs| - 1].value
  {
    var k := InputKey(inputs[i]);
    var outputs := read([inputs[i]]).outputs;
    var last := outputs[|outputs| - 1];
    PageAt(inputs, i + 1);
    assert last in outputs;
    var x :| x in [inputs[i]] && x.address == last.address && x.code == last.code && x.station == last.station;
    assert last.DisplayNameKey() == k;
    var mid := Poll(values, inputs, read, i + 1);
    assert mid == Stored(Poll(values, inputs, read, i), outputs);
    StoredLast(Poll(values, inputs, read, i), outputs);
    assert k in mid && mid[k] == last.value;
    PollLater(values, inputs, read, i + 1, |inputs|, k);
    assert TotalPages(|inputs|) == |inputs|;
  }

  /** Pages `lo + 1` to `hi` do not touch `k` when their points have other
    * keys. */
  lemma {:induction false} PollLater(values: map<string, Value>, inputs: seq<Input>,
                                     read: seq<Input> -> BatchOutcome, lo: nat, hi: nat, k: string)
    requires lo <= hi <= |inputs|
    requires forall p :: lo < p <= hi ==> PageSound(read, Page(inputs, p))
    requires forall j :: lo <= j < hi ==> InputKey(inputs[j]) != k
    requires k in Poll(values, inputs, read, lo)
    ensures k in Poll(values, inputs, read, hi) && Poll(values, inputs, read, hi)[k] == Poll(values, inputs, read, lo)[k]
    decreases hi
  {
    if hi > lo {
      PollLater(values, inputs, read, lo, hi - 1, k);
      PageAt(inputs, hi);
      PollStepOther(values, inputs, read, hi, k);
    }
  }

  // ----- the event queue -----

  /** `AddCurrentEvent`: the events are appended to the list kept for the
    * equipment, or become its list. */
  function AddEvents(m: map<int, seq<EquipEvent>>, equipNo: int, values: seq<EquipEvent>): map<int, seq<EquipEvent>> {
    m[equipNo := if equipNo in m then m[equipNo] + values else values]
  }

  /** `GetCurrentEvents`: the list kept for the equipment is removed and
    * returned, `None` (`null`) when there is none. */
  function TakeEvents(m: map<int, seq<EquipEvent>>, equipNo: int): (Option<seq<EquipEvent>>, map<int, seq<EquipEvent>>) {
    if equipNo in m then (Some(m[equipNo]), m - {equipNo}) else (None, m)
  }

  /** The events added for an equipment since it was last taken come back
    * in order in one list, once: a second take finds nothing. Other
    * equipment keeps its events. */
  lemma {:induction false} EventsTakenOnce(m: map<int, seq<EquipEvent>>, equipNo: int, batches: seq<seq<EquipEvent>>)
    requires |batches| > 0
    ensures var (taken, rest) := TakeEvents(AddedAll(m - {equipNo}, equipNo, batches), equipNo);
            taken == Some(Flatten(batches)) && rest == m - {equipNo} && TakeEvents(rest, equipNo).0 == None
  {
    AddedAllAt(m - {equipNo}, equipNo, batches);
    var after := AddedAll(m - {equipNo}, equipNo, batches);
    assert after - {equipNo} == m - {equipNo};
  }

  function AddedAll(m: map<int, seq<EquipEvent>>, equipNo: int, batches: seq<seq<EquipEvent>>): map<int, seq<EquipEvent>> {
    if |batches| == 0 then m else AddEvents(AddedAll(m, equipNo, batches[..|batches| - 1]), equipNo, batches[|batches| - 1])
  }

  function Flatten(batches: seq<seq<EquipEvent>>): seq<EquipEvent> {
    if |batches| == 0 then [] else Flatten(batches[..|batches| - 1]) + batches[|batches| - 1]
  }

  lemma {:induction false} AddedAllAt(m: map<int, seq<EquipEvent>>, equipNo: int, batches: seq<seq<EquipEvent>>)
    requires equipNo !in m && |batches| > 0
    ensures equipNo in AddedAll(m, equipNo, batches) && AddedAll(m, equipNo, batches)[equipNo] == Flatten(batches)
    ensures AddedAll(m, equipNo, batches) - {equipNo} == m
  {
    var init := batches[..|batches| - 1];
    if |init| == 0 {
      assert Flatten(batches) == [] + batches[0];
    } else {
      AddedAllAt(m, equipNo, init);
    }
  }

  // ----- the points of a session -----

  /** The points after `AddAddressInputs(items)`: each under its key, a later
    * item replacing an earlier one with the same key. */
  function Inserted(m: map<string, ModbusInput>, items: seq<ModbusInput>): map<string, ModbusInput>
    reads set x | x in items
  {
    if |items| == 0 then m
    else
      var last := items[|items| - 1];
      Inserted(m, items[..|items| - 1])[last.DisplayNameKey() := last]
  }

  /** A key is present after the insertion when it was before or an item has
    * it. */
  lemma {:induction false} InsertedKeys(m: map<string, ModbusInput>, items: seq<ModbusInput>, k: string)
    ensures k in Inserted(m, items) <==> k in m || exists i :: 0 <= i < |items| && items[i].DisplayNameKey() == k
  {
    if |items| > 0 {
      var init := items[..|items| - 1];
      InsertedKeys(m, init, k);
      if exists i :: 0 <= i < |init| && init[i].DisplayNameKey() == k {
        var i :| 0 <= i < |init| && init[i].DisplayNameKey() == k;
        assert items[i] == init[i];
      }
    }
  }

  /** The last item with a key is the one kept under it, and a key no item
    * has keeps its point. */
  lemma {:induction false} InsertedValues(m: map<string, ModbusInput>, items: seq<ModbusInput>, k: string)
    requires k in Inserted(m, items)
    ensures (forall i :: 0 <= i < |items| ==> items[i].DisplayNameKey() != k) && k in m ==>
              Inserted(m, items)[k] == m[k]
    ensures forall i :: 0 <= i < |items| && items[i].DisplayNameKey() == k &&
                        (forall j :: i < j < |items| ==> items[j].DisplayNameKey() != k) ==>
              Inserted(m, items)[k] == items[i]
  {
    if |items| > 0 {
      var init := items[..|items| - 1];
      var last := items[|items| - 1];
      if last.DisplayNameKey() != k {
        assert k in Inserted(m, init);
        InsertedValues(m, init, k);
        forall i | 0 <= i < |items| && items[i].DisplayNameKey() == k &&
                   (forall j :: i < j < |items| ==> items[j].DisplayNameKey() != k)
          ensures Inserted(m, items)[k] == items[i]
        {
          assert i < |init| && init[i] == items[i];
          assert forall j :: i < j < |init| ==> init[j] == items[j];
        }
      }
    }
  }

  class ClientSession {
    var config: ConnectionConfig
    var session: Transport
    /** The points, by `DisplayNameKey`. */
    var addressInputs: map<string, ModbusInput>
    /** The last value read, by `DisplayNameKey`. */
    var currentValues: map<string, Value>
    /** The events not yet taken, by equipment number. */
    var currentEvents: map<int, seq<EquipEvent>>
    var nodeStrTranHelper: NodeStrTranHelper
    /** Online. */
    var status: bool
    /** Failed connection checks since the last success. */
    var offlineCount: int
    /** A poll is running (`_isPolling`). */
    var isPolling: bool

    /** Every point is kept under its own key. */
    ghost predicate Valid()
      reads this, addressInputs.Values
    {
      (forall k :: k in addressInputs ==> addressInputs[k].DisplayNameKey() == k) &&
      0 <= offlineCount <= OfflineLimit
    }

    /** A new session is online and holds no point, value or event. */
    constructor (config: ConnectionConfig, session: Transport)
      ensures Valid() && this.config == config && this.session == session
      ensures status && addressInputs == map[] && currentValues == map[] && currentEvents == map[]
      ensures offlineCount == 0 && !isPolling && fresh(nodeStrTranHelper) && nodeStrTranHelper.cache == map[]
    {
      this.config := config;
      this.session := session;
      status := true;
      currentValues := map[];
      currentEvents := map[];
      addressInputs := map[];
      nodeStrTranHelper := new NodeStrTranHelper();
      offlineCount := 0;
      isPolling := false;
    }

    /** `new ClientSession(config, session)`: a `null` client is refused with
      * an `ArgumentNullException`, given here as `null`. */
    static method Create(config: ConnectionConfig, session: Option<Transport>) returns (s: ClientSession?)
      ensures s == null <==> session.None?
      ensures s != null ==> fresh(s) && s.Valid() && s.config == config && s.session == session.value &&
                            s.status && s.addressInputs == map[] && s.currentValues == map[] && s.currentEvents == map[]
    {
      if session.None? {
        return null;
      }
      s := new ClientSession(config, session.value);
    }

    method ReSetClientSession(resession: Transport)
      modifies this`session
      ensures session == resession
    {
      session := resession;
    }

    /** Only the polling interval is taken from the new configuration, into
      * the configuration object the session was made with. */
    method ReSetPollingInterval(newConfig: ConnectionConfig)
      modifies config`sleepInterval
      ensures config.sleepInterval == newConfig.sleepInterval
    {
      config.sleepInterval := newConfig.sleepInterval;
    }

    method AddCurrentValue(key: string, value: Value)
      modifies this`currentValues
      ensures currentValues == old(currentValues)[key := value]
    {
      currentValues := currentValues[key := value];
    }

    method AddCurrentEvent(equipNo: int, values: seq<EquipEvent>)
      modifies this`currentEvents
      ensures currentEvents == AddEvents(old(currentEvents), equipNo, values)
    {
      if equipNo in currentEvents {
        currentEvents := currentEvents[equipNo := currentEvents[equipNo] + values];
      } else {
        currentEvents := currentEvents[equipNo := values];
      }
    }

    method AddAddressInputs(items: seq<ModbusInput>)
      requires Valid()
      modifies this`addressInputs
      ensures Valid()
      ensures addressInputs == Inserted(old(addressInputs), items)
    {
      for i := 0 to |items|
        invariant Valid()
        invariant addressInputs == Inserted(old(addressInputs), items[..i])
      {
        assert items[..i + 1][..i] == items[..i];
        addressInputs := addressInputs[items[i].DisplayNameKey() := items[i]];
      }
      assert items[..|items|] == items;
    }

    /** The stored values of the given points: exactly the keys of the
      * points that have a value, with that value. */
    method GetCurrentValues(inputs: seq<ModbusInput>) returns (r: map<string, Value>)
      ensures forall k :: k in r <==> k in currentValues && exists m :: m in inputs && m.DisplayNameKey() == k
      ensures forall k :: k in r ==> r[k] == currentValues[k]
    {
      var keys := set m | m in inputs :: m.DisplayNameKey();
      r := map k | k in currentValues && k in keys :: currentValues[k];
    }

    method GetCurrentEvents(equipNo: int) returns (r: Option<seq<EquipEvent>>)
      modifies this`currentEvents
      ensures (r, currentEvents) == TakeEvents(old(currentEvents), equipNo)
    {
      if equipNo in currentEvents {
        r := Some(currentEvents[equipNo]);
        currentEvents := currentEvents - {equipNo};
      } else {
        r := None;
      }
    }

    method SetOnline()
      modifies this`status
      ensures status
    {
      status := true;
    }

    method SetOffline()
      modifies this`status
      ensures !status
    {
      status := false;
    }

    /** Values, points and events are dropped and the session goes offline;
      * the client is kept. */
    method DisposeSession()
      modifies this
      ensures currentValues == map[] && addressInputs == map[] && currentEvents == map[] && !status
      ensures config == old(config) && session == old(session) && nodeStrTranHelper == old(nodeStrTranHelper)
      ensures offlineCount == old(offlineCount) && isPolling == old(isPolling)
    {
      currentValues := map[];
      addressInputs := map[];
      currentEvents := map[];
      SetOffline();
    }

    /** `keys` lists every point key once: the order in which
      * `AddressInputs.Values` enumerates, which the dictionary leaves open. */
    ghost predicate Enumerates(keys: seq<string>)
      reads this`addressInputs
    {
      (forall i, j :: 0 <= i < j < |keys| ==> keys[i] != keys[j]) &&
      forall k :: k in keys <==> k in addressInputs
    }

    /** The points in the order `keys` gives. */
    function Polled(keys: seq<string>): (r: seq<Input>)
      requires forall k :: k in keys ==> k in addressInputs
      reads this`addressInputs, addressInputs.Values
      ensures |r| == |keys| && forall i :: 0 <= i < |keys| ==> r[i] == addressInputs[keys[i]].View()
    {
      if |keys| == 0 then [] else Polled(keys[..|keys| - 1]) + [addressInputs[keys[|keys| - 1]].View()]
    }

    /** A session whose points are kept under their own keys polls each
      * point under that key, once. */
    lemma PolledKeys(keys: seq<string>)
      requires Valid() && Enumerates(keys)
      ensures forall i :: 0 <= i < |keys| ==> InputKey(Polled(keys)[i]) == keys[i]
      ensures forall i, j :: 0 <= i < |keys| && 0 <= j < |keys| && i != j ==>
                InputKey(Polled(keys)[i]) != InputKey(Polled(keys)[j])
    {
    }

    /** One poll: the connection check moves the offline counter and the
      * status (`connected` is whether `EnsureConnected` returned); offline,
      * nothing is read; online, the points are read a page at a time and
      * every successful page's values are stored. `read` is `BatchRead` of
      * the client: a page whose read throws is `Escaped`. */
    method ReadAllNodesValues(connected: bool, keys: seq<string>, read: seq<Input> -> BatchOutcome)
      requires Enumerates(keys)
      modifies this`offlineCount, this`status, this`currentValues
      ensures (offlineCount, status) == OfflineStep(connected, old(offlineCount), old(status))
      ensures currentValues == AfterPoll(old(currentValues), status, old(Polled(keys)), read)
    {
      CheckConnection(connected);
      if !status {
        return;
      }
      var totalItems := |keys|;
      if totalItems == 0 {
        return;
      }
      ReadPages(Polled(keys), read);
    }

    /** The connection check at the start of a poll. */
    method CheckConnection(connected: bool)
      modifies this`offlineCount, this`status
      ensures (offlineCount, status) == OfflineStep(connected, old(offlineCount), old(status))
    {
      if connected {
        offlineCount := 0;
        SetOnline();
      } else {
        offlineCount := offlineCount + 1;
        if offlineCount > OfflineLimit {
          offlineCount := 0;
          SetOffline();
        }
      }
    }

    /** The page loop of an online poll. */
    method ReadPages(points: seq<Input>, read: seq<Input> -> BatchOutcome)
      modifies this`currentValues
      ensures currentValues == Poll(old(currentValues), points, read, TotalPages(|points|))
    {
      var totalPages := TotalPages(|points|);
      for pageNumber := 1 to totalPages + 1
        invariant currentValues == Poll(old(currentValues), points, read, pageNumber - 1)
      {
        var pagedResults := Page(points, pageNumber);
        var resultList := read(pagedResults);
        if resultList.Escaped? || !resultList.isSucceed {
          continue;
        }
        StoreAll(resultList.outputs);
      }
    }

    /** The store loop of a successful page. */
    method StoreAll(outputs: seq<ModbusOutput>)
      modifies this`currentValues
      ensures currentValues == Stored(old(currentValues), outputs)
    {
      for j := 0 to |outputs|
        invariant currentValues == Stored(old(currentValues), outputs[..j])
      {
        assert outputs[..j + 1][..j] == outputs[..j];
        var item := outputs[j];
        currentValues := currentValues[item.DisplayNameKey() := item.value];
      }
      assert outputs[..|outputs|] == outputs;
    }

    /** A poll that is already running is not started twice; otherwise the
      * nodes are read and the flag is cleared again. The sleep before the
      * flag is cleared is not modelled. */
    method StartPolling(connected: bool, keys: seq<string>, read: seq<Input> -> BatchOutcome)
      requires Enumerates(keys)
      modifies this`offlineCount, this`status, this`currentValues, this`isPolling
      ensures old(isPolling) ==> isPolling && offlineCount == old(offlineCount) && status == old(status) &&
                                 currentValues == old(currentValues)
      ensures !old(isPolling) ==> !isPolling
      ensures !old(isPolling) ==> (offlineCount, status) == OfflineStep(connected, old(offlineCount), old(status))
      ensures !old(isPolling) ==> currentValues == AfterPoll(old(currentValues), status, old(Polled(keys)), read)
    {
      if isPolling {
        return;
      }
      isPolling := true;
      ReadAllNodesValues(connected, keys, read);
      isPolling := false;
    }
  }

  /** After an online poll, a point whose page was read successfully holds
    * the last value that read gave for it, and `GetCurrentValues` returns
    * it. */
  lemma PollThenGet(s: ClientSession, keys: seq<string>, read: seq<Input> -> BatchOutcome, i: nat)
    requires s.Valid() && s.Enumerates(keys) && i < |keys|
    requires forall p :: 1 <= p <= |keys| ==> PageSound(read, Page(s.Polled(keys), p))
    requires var x := s.Polled(keys)[i]; read([x]).Batch? && read([x]).isSucceed && |read([x]).outputs| > 0
    ensures var outputs := read([s.Polled(keys)[i]]).outputs;
            var after := Poll(s.currentValues, s.Polled(keys), read, TotalPages(|keys|));
            keys[i] in after && after[keys[i]] == outputs[|outputs| - 1].value
  {
    s.PolledKeys(keys);
    PollStores(s.currentValues, s.Polled(keys), read, i);
  }
}
