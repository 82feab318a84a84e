/** `BatchRead(List<ModbusInput> addresses)` and `BatchRead(addresses,
  * retryCount)` of `ModbusSerialBase` (the TCP and RTU-over-TCP clients
  * carry the same code): one planner pass per (function code, station)
  * group, and whole reruns while the result is not successful. */
module ModbusBatch {
  import opened Wrappers
  import opened Bytes
  import opened ModbusPlanner
  import opened ModbusPlannerFacts
  import opened ModbusModels

  /** LINQ `Distinct()`: the first occurrence of each element, in order. */
  function Distinct(s: seq<byte>): (r: seq<byte>)
    ensures forall x :: x in r <==> x in s
    ensures forall i, j :: 0 <= i < j < |r| ==> r[i] != r[j]
  {
    if |s| == 0 then []
    else
      var rest := Distinct(s[..|s| - 1]);
      var last := s[|s| - 1];
      assert forall x :: x in s <==> x in s[..|s| - 1] || x == last;
      if last in rest then rest else rest + [last]
  }

  function AddressesOf(s: seq<Input>): (r: seq<string>)
    ensures |r| == |s| && forall i :: 0 <= i < |s| ==> r[i] == s[i].address
  {
    seq(|s|, i requires 0 <= i < |s| => s[i].address)
  }

  /** `DistinctCustomBy(t => t.Address)`: the first input of each address,
    * in order. */
  function FirstByAddress(s: seq<Input>): seq<Input> {
    if |s| == 0 then []
    else
      var rest := FirstByAddress(s[..|s| - 1]);
      if s[|s| - 1].address in AddressesOf(rest) then rest else rest + [s[|s| - 1]]
  }

  /** What is kept is taken from the input, covers each of its addresses and
    * has each address once, so `ToDictionary` cannot meet a duplicate key. */
  lemma {:induction false} FirstByAddressSpec(s: seq<Input>)
    ensures forall x :: x in FirstByAddress(s) ==> x in s
    ensures forall a :: a in AddressesOf(FirstByAddress(s)) <==> a in AddressesOf(s)
    ensures forall i, j :: 0 <= i < j < |FirstByAddress(s)| ==>
              FirstByAddress(s)[i].address != FirstByAddress(s)[j].address
  {
    if |s| > 0 {
      var init := s[..|s| - 1];
      var last := s[|s| - 1];
      FirstByAddressSpec(init);
      var rest := FirstByAddress(init);
      assert s == init + [last];
      assert forall a :: a in AddressesOf(s) <==> a in AddressesOf(init) || a == last.address;
      if last.address !in AddressesOf(rest) {
        assert AddressesOf(rest + [last]) == AddressesOf(rest) + [last.address];
      }
    }
  }

  function CodesOf(s: seq<Input>): seq<byte> {
    seq(|s|, i requires 0 <= i < |s| => s[i].code)
  }

  /** The stations of the inputs with function code `code`, distinct, in
    * order of first appearance. */
  function StationsOf(s: seq<Input>, code: byte): seq<byte> {
    if |s| == 0 then []
    else
      var rest := StationsOf(s[..|s| - 1], code);
      if s[|s| - 1].code == code then rest + [s[|s| - 1].station] else rest
  }

  /** The inputs of one (function code, station) group, in order. */
  function GroupOf(s: seq<Input>, code: byte, station: byte): (r: seq<Input>)
    ensures forall x :: x in r <==> x in s && x.code == code && x.station == station
  {
    if |s| == 0 then []
    else
      var rest := GroupOf(s[..|s| - 1], code, station);
      var last := s[|s| - 1];
      assert forall x :: x in s <==> x in s[..|s| - 1] || x == last;
      if last.code == code && last.station == station then rest + [last] else rest
  }

  /** `.ToDictionary(t => t.Address, t => t.DataType)` of a group. */
  function PointsOf(g: seq<Input>): (r: seq<Point>)
    ensures |r| == |g| && forall i :: 0 <= i < |g| ==> r[i] == Point(g[i].address, g[i].dataType)
  {
    seq(|g|, i requires 0 <= i < |g| => Point(g[i].address, g[i].dataType))
  }

  /** The group pairs in the order the two `foreach` loops visit them. */
  function Pairs(s: seq<Input>, codes: seq<byte>): seq<(byte, byte)> {
    if |codes| == 0 then []
    else
      var c := codes[|codes| - 1];
      Pairs(s, codes[..|codes| - 1]) + PairsOfCode(c, Distinct(StationsOf(s, c)))
  }

  function PairsOfCode(c: byte, stations: seq<byte>): (r: seq<(byte, byte)>)
    ensures |r| == |stations| && forall i :: 0 <= i < |r| ==> r[i] == (c, stations[i])
  {
    seq(|stations|, i requires 0 <= i < |stations| => (c, stations[i]))
  }

  function AllPairs(s: seq<Input>): seq<(byte, byte)> {
    Pairs(s, Distinct(CodesOf(s)))
  }

  /** What `BatchRead` returns: an exception escaping (from a group pass),
    * or the result with `IsSucceed` and its `ModbusOutput` list. */
  datatype BatchOutcome = Escaped | Batch(isSucceed: bool, outputs: seq<ModbusOutput>)

  /** The outputs of a successful group: one per value, in order. */
  function OutputsOf(values: seq<Entry>, code: byte, station: byte): (r: seq<ModbusOutput>)
    ensures |r| == |values| &&
            forall i :: 0 <= i < |r| ==> r[i] == ModbusOutput(values[i].key, station, code, values[i].value)
  {
    seq(|values|, i requires 0 <= i < |values| => ModbusOutput(values[i].key, station, code, values[i].value))
  }

  /** The pass of one group. */
  function GroupPass(s: seq<Input>, code: byte, station: byte, read: Reader, fmt: seq<byte> -> seq<byte>,
                     pad: nat, rule: Advance): Pass
  {
    Plan(PointsOf(FirstByAddress(GroupOf(s, code, station))), station, code, read, fmt, pad, rule)
  }

  /** One group's pass added to the result so far: its outputs when it
    * succeeded, `SetErrInfo` when it failed, the exception when it threw. */
  function Combine(acc: BatchOutcome, code: byte, station: byte, p: Pass): BatchOutcome {
    match acc
    case Escaped => Escaped
    case Batch(ok, outputs) =>
      match p
      case Aborted => Escaped
      case Finished(true, values, _) => Batch(ok, outputs + OutputsOf(values, code, station))
      case Finished(false, _, _) => Batch(false, outputs)
  }

  /** The groups `pairs` visited in order, `pass` giving each group's pass. */
  function Visit(pairs: seq<(byte, byte)>, pass: (byte, byte) -> Pass): BatchOutcome {
    if |pairs| == 0 then Batch(true, [])
    else
      var last := pairs[|pairs| - 1];
      Combine(Visit(pairs[..|pairs| - 1], pass), last.0, last.1, pass(last.0, last.1))
  }

  lemma VisitStep(pairs: seq<(byte, byte)>, c: byte, st: byte, pass: (byte, byte) -> Pass)
    ensures Visit(pairs + [(c, st)], pass) == Combine(Visit(pairs, pass), c, st, pass(c, st))
  {
    assert (pairs + [(c, st)])[..|pairs|] == pairs;
  }

  /** Once an exception has escaped, the groups after it are not read. */
  lemma {:induction false} VisitEscaped(pairs: seq<(byte, byte)>, longer: seq<(byte, byte)>, pass: (byte, byte) -> Pass)
    requires pairs <= longer && Visit(pairs, pass) == Escaped
    ensures Visit(longer, pass) == Escaped
    decreases |longer|
  {
    if |longer| > |pairs| {
      assert pairs <= longer[..|longer| - 1];
      VisitEscaped(pairs, longer[..|longer| - 1], pass);
    } else {
      assert pairs == longer;
    }
  }

  /** Every group's pass, as one function of (function code, station). */
  function Passes(addresses: seq<Input>, read: Reader, fmt: seq<byte> -> seq<byte>, pad: nat, rule: Advance)
    : (byte, byte) -> Pass
  {
    (c: byte, st: byte) => GroupPass(addresses, c, st, read, fmt, pad, rule)
  }

  lemma PairsOfCodeSnoc(c: byte, stations: seq<byte>, j: nat)
    requires j < |stations|
    ensures PairsOfCode(c, stations[..j + 1]) == PairsOfCode(c, stations[..j]) + [(c, stations[j])]
  {
  }

  /** The body of the inner loop: one group's dictionary and its pass. */
  method ReadGroup(addresses: seq<Input>, functionCode: byte, stationNumber: byte, read: Reader,
                   fmt: seq<byte> -> seq<byte>, pad: nat, rule: Advance)
    returns (p: Pass)
    ensures p == GroupPass(addresses, functionCode, stationNumber, read, fmt, pad, rule)
  {
    var addressList := PointsOf(FirstByAddress(GroupOf(addresses, functionCode, stationNumber)));
    p := BatchReadGroup(addressList, stationNumber, functionCode, read, fmt, pad, rule);
  }

  lemma PairsSnoc(s: seq<Input>, codes: seq<byte>, i: nat)
    requires i < |codes|
    ensures Pairs(s, codes[..i + 1]) == Pairs(s, codes[..i]) + PairsOfCode(codes[i], Distinct(StationsOf(s, codes[i])))
  {
    assert codes[..i + 1][..i] == codes[..i];
  }

  lemma {:induction false} PairsPrefix(s: seq<Input>, codes: seq<byte>, k: nat)
    requires k <= |codes|
    ensures Pairs(s, codes[..k]) <= Pairs(s, codes)
    decreases |codes|
  {
    if k < |codes| {
      PairsPrefix(s, codes[..|codes| - 1], k);
      assert codes[..|codes| - 1][..k] == codes[..k];
    } else {
      assert codes[..k] == codes;
    }
  }

  lemma StationStep(done: seq<(byte, byte)>, c: byte, stations: seq<byte>, j: nat, pass: (byte, byte) -> Pass)
    requires j < |stations|
    ensures Visit(done + PairsOfCode(c, stations[..j + 1]), pass) ==
            Combine(Visit(done + PairsOfCode(c, stations[..j]), pass), c, stations[j], pass(c, stations[j]))
    ensures done + PairsOfCode(c, stations[..j + 1]) <= done + PairsOfCode(c, stations)
  {
    assert PairsOfCode(c, stations[..j + 1]) == PairsOfCode(c, stations)[..j + 1];
    PairsOfCodeSnoc(c, stations, j);
    assert done + PairsOfCode(c, stations[..j + 1]) == done + PairsOfCode(c, stations[..j]) + [(c, stations[j])];
    VisitStep(done + PairsOfCode(c, stations[..j]), c, stations[j], pass);
  }

  /** The inner `foreach` over the stations of one function code, from the
    * result `isSucceed`/`outputs` of the groups `done` before it. */
  method ReadStations(addresses: seq<Input>, functionCode: byte, stationNumbers: seq<byte>,
                      read: Reader, fmt: seq<byte> -> seq<byte>, pad: nat, rule: Advance,
                      ghost done: seq<(byte, byte)>, isSucceed: bool, outputs: seq<ModbusOutput>)
    returns (r: BatchOutcome)
    requires Batch(isSucceed, outputs) == Visit(done, Passes(addresses, read, fmt, pad, rule))
    ensures r == Visit(done + PairsOfCode(functionCode, stationNumbers), Passes(addresses, read, fmt, pad, rule))
  {
    ghost var pass := Passes(addresses, read, fmt, pad, rule);
    var ok, outs := isSucceed, outputs;
    assert done + PairsOfCode(functionCode, stationNumbers[..0]) == done;
    for j := 0 to |stationNumbers|
      invariant Batch(ok, outs) == Visit(done + PairsOfCode(functionCode, stationNumbers[..j]), pass)
    {
      var next := ReadStation(addresses, functionCode, stationNumbers[j], read, fmt, pad, rule, ok, outs);
      StationStep(done, functionCode, stationNumbers, j, pass);
      assert pass(functionCode, stationNumbers[j]) == GroupPass(addresses, functionCode, stationNumbers[j], read, fmt, pad, rule);
      if next.Escaped? {
        VisitEscaped(done + PairsOfCode(functionCode, stationNumbers[..j + 1]),
                     done + PairsOfCode(functionCode, stationNumbers), pass);
        return Escaped;
      }
      ok, outs := next.isSucceed, next.outputs;
    }
    assert stationNumbers[..|stationNumbers|] == stationNumbers;
    return Batch(ok, outs);
  }

  /** The body of the inner loop: one group's pass, and what it adds to
    * the result. */
  method ReadStation(addresses: seq<Input>, functionCode: byte, stationNumber: byte, read: Reader,
                     fmt: seq<byte> -> seq<byte>, pad: nat, rule: Advance, isSucceed: bool, outputs: seq<ModbusOutput>)
    returns (r: BatchOutcome)
    ensures r == Combine(Batch(isSucceed, outputs), functionCode, stationNumber,
                         GroupPass(addresses, functionCode, stationNumber, read, fmt, pad, rule))
  {
    var tempResult := ReadGroup(addresses, functionCode, stationNumber, read, fmt, pad, rule);
    match tempResult
    case Aborted =>
      r := Escaped;
    case Finished(true, values, _) =>
      r := Batch(isSucceed, outputs + OutputsOf(values, functionCode, stationNumber));
    case Finished(false, _, _) =>
      r := Batch(false, outputs);
  }

  /** The two nested `foreach` loops. */
  method BatchRead(addresses: seq<Input>, read: Reader, fmt: seq<byte> -> seq<byte>, pad: nat, rule: Advance)
    returns (r: BatchOutcome)
    ensures r == Visit(AllPairs(addresses), Passes(addresses, read, fmt, pad, rule))
  {
    ghost var pass := Passes(addresses, read, fmt, pad, rule);
    var isSucceed := true;
    var outputs: seq<ModbusOutput> := [];
    var functionCodes := Distinct(CodesOf(addresses));
    for i := 0 to |functionCodes|
      invariant Batch(isSucceed, outputs) == Visit(Pairs(addresses, functionCodes[..i]), pass)
    {
      var functionCode := functionCodes[i];
      var stationNumbers := Distinct(StationsOf(addresses, functionCode));
      PairsSnoc(addresses, functionCodes, i);
      var tempResult := ReadStations(addresses, functionCode, stationNumbers, read, fmt, pad, rule,
                                     Pairs(addresses, functionCodes[..i]), isSucceed, outputs);
      if tempResult.Escaped? {
        PairsPrefix(addresses, functionCodes, i + 1);
        VisitEscaped(Pairs(addresses, functionCodes[..i + 1]), AllPairs(addresses), pass);
        return Escaped;
      }
      isSucceed, outputs := tempResult.isSucceed, tempResult.outputs;
    }
    assert functionCodes[..|functionCodes|] == functionCodes;
    return Batch(isSucceed, outputs);
  }

  /** A group that was read successfully. */
  predicate GroupOk(p: Pass) {
    p.Finished? && p.ok
  }

  /** An exception escapes exactly when some group's pass throws. */
  lemma {:induction false} VisitEscapes(pairs: seq<(byte, byte)>, pass: (byte, byte) -> Pass)
    ensures Visit(pairs, pass).Escaped? <==>
            exists k :: 0 <= k < |pairs| && pass(pairs[k].0, pairs[k].1).Aborted?
  {
    if |pairs| > 0 {
      var init := pairs[..|pairs| - 1];
      var last := pairs[|pairs| - 1];
      VisitEscapes(init, pass);
      assert forall k :: 0 <= k < |init| ==> init[k] == pairs[k];
      if pass(last.0, last.1).Aborted? {
        assert pairs[|pairs| - 1] == last;
      }
    }
  }

  /** Without an exception, `IsSucceed` is true exactly when every group
    * was read successfully: one failed group (`SetErrInfo`) spoils it. */
  lemma {:induction false} VisitSucceeds(pairs: seq<(byte, byte)>, pass: (byte, byte) -> Pass)
    requires Visit(pairs, pass).Batch?
    ensures Visit(pairs, pass).isSucceed <==>
            forall k :: 0 <= k < |pairs| ==> GroupOk(pass(pairs[k].0, pairs[k].1))
  {
    if |pairs| > 0 {
      var init := pairs[..|pairs| - 1];
      var last := pairs[|pairs| - 1];
      VisitSucceeds(init, pass);
      assert forall k :: 0 <= k < |init| ==> init[k] == pairs[k];
      if !GroupOk(pass(last.0, last.1)) {
        assert pairs[|pairs| - 1] == last;
      }
    }
  }

  /** Every output comes from a successful group: its function code and
    * station name the group and its address and value are an entry read. */
  lemma {:induction false} VisitOutputsSound(pairs: seq<(byte, byte)>, pass: (byte, byte) -> Pass, o: ModbusOutput)
    requires Visit(pairs, pass).Batch? && o in Visit(pairs, pass).outputs
    ensures exists k :: 0 <= k < |pairs| && pairs[k] == (o.code, o.station) &&
                        GroupOk(pass(pairs[k].0, pairs[k].1)) &&
                        Entry(o.address, o.value) in pass(pairs[k].0, pairs[k].1).values
  {
    var init := pairs[..|pairs| - 1];
    var last := pairs[|pairs| - 1];
    var p := pass(last.0, last.1);
    var acc := Visit(init, pass);
    if o in acc.outputs {
      VisitOutputsSound(init, pass, o);
      var k :| 0 <= k < |init| && init[k] == (o.code, o.station) &&
                GroupOk(pass(init[k].0, init[k].1)) &&
                Entry(o.address, o.value) in pass(init[k].0, init[k].1).values;
      assert pairs[k] == init[k];
    } else {
      assert GroupOk(p) && o in OutputsOf(p.values, last.0, last.1);
      var i :| 0 <= i < |p.values| && o == OutputsOf(p.values, last.0, last.1)[i];
      assert Entry(o.address, o.value) == p.values[i];
      assert pairs[|pairs| - 1] == (o.code, o.station);
    }
  }

  /** Every entry of every successful group becomes an output. */
  lemma {:induction false} VisitOutputsComplete(pairs: seq<(byte, byte)>, pass: (byte, byte) -> Pass, k: nat, e: Entry)
    requires Visit(pairs, pass).Batch?
    requires k < |pairs| && GroupOk(pass(pairs[k].0, pairs[k].1)) && e in pass(pairs[k].0, pairs[k].1).values
    ensures ModbusOutput(e.key, pairs[k].1, pairs[k].0, e.value) in Visit(pairs, pass).outputs
  {
    var init := pairs[..|pairs| - 1];
    var last := pairs[|pairs| - 1];
    var p := pass(last.0, last.1);
    if k < |init| {
      assert init[k] == pairs[k];
      VisitOutputsComplete(init, pass, k, e);
    } else {
      var i :| 0 <= i < |p.values| && p.values[i] == e;
      assert OutputsOf(p.values, last.0, last.1)[i] == ModbusOutput(e.key, pairs[k].1, pairs[k].0, e.value);
    }
  }

  /** A group pair names a function code and a station some input has. */
  predicate HasGroup(s: seq<Input>, c: byte, st: byte) {
    exists x :: x in s && x.code == c && x.station == st
  }

  lemma {:induction false} StationsOfSpec(s: seq<Input>, c: byte)
    ensures forall st :: st in StationsOf(s, c) <==> HasGroup(s, c, st)
  {
    if |s| > 0 {
      var init := s[..|s| - 1];
      StationsOfSpec(init, c);
      assert s == init + [s[|s| - 1]];
      forall st ensures HasGroup(s, c, st) <==> HasGroup(init, c, st) || (s[|s| - 1].code == c && s[|s| - 1].station == st) {
        if HasGroup(s, c, st) {
          var x :| x in s && x.code == c && x.station == st;
          if x != s[|s| - 1] {
            assert x in init;
          }
        }
      }
    }
  }

  lemma {:induction false} PairsSpec(s: seq<Input>, codes: seq<byte>)
    ensures forall c, st :: (c, st) in Pairs(s, codes) <==> c in codes && st in StationsOf(s, c)
    ensures (forall i, j :: 0 <= i < j < |codes| ==> codes[i] != codes[j]) ==>
            forall i, j :: 0 <= i < j < |Pairs(s, codes)| ==> Pairs(s, codes)[i] != Pairs(s, codes)[j]
  {
    if |codes| > 0 {
      var init := codes[..|codes| - 1];
      var c := codes[|codes| - 1];
      var stations := Distinct(StationsOf(s, c));
      PairsSpec(s, init);
      assert codes == init + [c];
      var tail := PairsOfCode(c, stations);
      assert forall q :: q in tail <==> q.0 == c && q.1 in stations;
      if forall i, j :: 0 <= i < j < |codes| ==> codes[i] != codes[j] {
        var all := Pairs(s, codes);
        var head := Pairs(s, init);
        assert all == head + tail;
        forall i, j | 0 <= i < j < |all| ensures all[i] != all[j] {
          if j >= |head| && i < |head| {
            assert all[i] in head && all[i].0 in init;
            assert all[j].0 == c;
          } else if i >= |head| {
            assert tail[i - |head|] == all[i] && tail[j - |head|] == all[j];
          }
        }
      }
    }
  }

  /** The two loops visit every (function code, station) group of the
    * inputs, nothing else, and each group once. */
  lemma AllPairsSpec(s: seq<Input>)
    ensures forall c: byte, st: byte :: (c, st) in AllPairs(s) <==> HasGroup(s, c, st)
    ensures forall i, j :: 0 <= i < j < |AllPairs(s)| ==> AllPairs(s)[i] != AllPairs(s)[j]
  {
    var codes := Distinct(CodesOf(s));
    PairsSpec(s, codes);
    forall c: byte, st: byte ensures (c, st) in AllPairs(s) <==> HasGroup(s, c, st) {
      StationsOfSpec(s, c);
      if HasGroup(s, c, st) {
        var x :| x in s && x.code == c && x.station == st;
        var i :| 0 <= i < |s| && s[i] == x;
        assert CodesOf(s)[i] == c;
      }
    }
  }

  predicate DistinctPoints(points: seq<Point>) {
    forall i, j :: 0 <= i < j < |points| ==> points[i].key != points[j].key
  }

  /** A group's dictionary: its keys are the group's addresses, each once. */
  lemma GroupPoints(s: seq<Input>, c: byte, st: byte)
    ensures DistinctPoints(PointsOf(FirstByAddress(GroupOf(s, c, st))))
    ensures forall k :: k in PointKeys(PointsOf(FirstByAddress(GroupOf(s, c, st)))) <==>
                        exists x :: x in s && x.code == c && x.station == st && x.address == k
  {
    var grouped := GroupOf(s, c, st);
    var g := FirstByAddress(grouped);
    var points := PointsOf(g);
    FirstByAddressSpec(grouped);
    forall k ensures k in PointKeys(points) <==> k in AddressesOf(g) {
      if k in AddressesOf(g) {
        var i :| 0 <= i < |g| && AddressesOf(g)[i] == k;
        assert points[i] in points;
      }
    }
    forall k ensures k in AddressesOf(grouped) <==> exists x :: x in grouped && x.address == k {
      if exists x :: x in grouped && x.address == k {
        var x :| x in grouped && x.address == k;
        var i :| 0 <= i < |grouped| && grouped[i] == x;
        assert AddressesOf(grouped)[i] == k;
      }
    }
  }

  /** One group's pass reads only addresses of the group; with the corrected
    * window rule a successful pass reads all of them. */
  lemma GroupPassValues(s: seq<Input>, c: byte, st: byte, read: Reader, fmt: seq<byte> -> seq<byte>,
                        pad: nat, rule: Advance)
    ensures var r := GroupPass(s, c, st, read, fmt, pad, rule);
            r.Finished? ==> forall e :: e in r.values ==>
              exists x :: x in s && x.code == c && x.station == st && x.address == e.key
    ensures var r := GroupPass(s, c, st, read, fmt, pad, rule);
            rule == Corrected && GroupOk(r) ==> forall x :: x in s && x.code == c && x.station == st ==>
              x.address in KeysOf(r.values)
  {
    var points := PointsOf(FirstByAddress(GroupOf(s, c, st)));
    GroupPoints(s, c, st);
    PlanValues(points, st, c, read, fmt, pad, rule);
    var r := GroupPass(s, c, st, read, fmt, pad, rule);
    assert r == Plan(points, st, c, read, fmt, pad, rule);
    if r.Finished? {
      forall e | e in r.values
        ensures exists x :: x in s && x.code == c && x.station == st && x.address == e.key
      {
        assert e.key in KeysOf(r.values);
      }
    }
  }

  /** Every output of `BatchRead` is the value of an input's address, under
    * that input's function code and station. */
  lemma BatchReadSound(addresses: seq<Input>, read: Reader, fmt: seq<byte> -> seq<byte>, pad: nat,
                       rule: Advance, o: ModbusOutput)
    requires var r := Visit(AllPairs(addresses), Passes(addresses, read, fmt, pad, rule));
             r.Batch? && o in r.outputs
    ensures exists x :: x in addresses && x.address == o.address && x.code == o.code && x.station == o.station
  {
    var pass := Passes(addresses, read, fmt, pad, rule);
    VisitOutputsSound(AllPairs(addresses), pass, o);
    GroupPassValues(addresses, o.code, o.station, read, fmt, pad, rule);
    assert Entry(o.address, o.value) in pass(o.code, o.station).values;
  }

  /** With the corrected window rule, a successful `BatchRead` has an output
    * for every input. */
  lemma BatchReadComplete(addresses: seq<Input>, read: Reader, fmt: seq<byte> -> seq<byte>, pad: nat, x: Input)
    requires var r := Visit(AllPairs(addresses), Passes(addresses, read, fmt, pad, Corrected));
             r.Batch? && r.isSucceed && x in addresses
    ensures exists o :: o in Visit(AllPairs(addresses), Passes(addresses, read, fmt, pad, Corrected)).outputs &&
                        o.address == x.address && o.code == x.code && o.station == x.station
  {
    var pairs := AllPairs(addresses);
    var pass := Passes(addresses, read, fmt, pad, Corrected);
    AllPairsSpec(addresses);
    assert (x.code, x.station) in pairs;
    var k :| 0 <= k < |pairs| && pairs[k] == (x.code, x.station);
    VisitSucceeds(pairs, pass);
    var p := pass(x.code, x.station);
    assert GroupOk(p);
    GroupPassValues(addresses, x.code, x.station, read, fmt, pad, Corrected);
    var e :| e in p.values && e.key == x.address;
    VisitOutputsComplete(pairs, pass, k, e);
    assert ModbusOutput(e.key, x.station, x.code, e.value) in Visit(pairs, pass).outputs;
  }

  /** An exception escapes `BatchRead` exactly when one group's pass throws. */
  lemma BatchReadEscapes(addresses: seq<Input>, read: Reader, fmt: seq<byte> -> seq<byte>, pad: nat, rule: Advance)
    ensures Visit(AllPairs(addresses), Passes(addresses, read, fmt, pad, rule)).Escaped? <==>
            exists c: byte, st: byte :: HasGroup(addresses, c, st) && GroupPass(addresses, c, st, read, fmt, pad, rule).Aborted?
  {
    var pairs := AllPairs(addresses);
    var pass := Passes(addresses, read, fmt, pad, rule);
    AllPairsSpec(addresses);
    VisitEscapes(pairs, pass);
    if exists c: byte, st: byte :: HasGroup(addresses, c, st) && GroupPass(addresses, c, st, read, fmt, pad, rule).Aborted? {
      var c: byte, st: byte :| HasGroup(addresses, c, st) && GroupPass(addresses, c, st, read, fmt, pad, rule).Aborted?;
      var k :| 0 <= k < |pairs| && pairs[k] == (c, st);
      assert pass(pairs[k].0, pairs[k].1).Aborted?;
    }
  }

  /** Without an exception, `IsSucceed` says that every group was read. */
  lemma BatchReadSucceeds(addresses: seq<Input>, read: Reader, fmt: seq<byte> -> seq<byte>, pad: nat, rule: Advance)
    requires Visit(AllPairs(addresses), Passes(addresses, read, fmt, pad, rule)).Batch?
    ensures Visit(AllPairs(addresses), Passes(addresses, read, fmt, pad, rule)).isSucceed <==>
            forall c: byte, st: byte :: HasGroup(addresses, c, st) ==> GroupOk(GroupPass(addresses, c, st, read, fmt, pad, rule))
  {
    var pairs := AllPairs(addresses);
    var pass := Passes(addresses, read, fmt, pad, rule);
    AllPairsSpec(addresses);
    VisitSucceeds(pairs, pass);
    if Visit(pairs, pass).isSucceed {
      forall c: byte, st: byte | HasGroup(addresses, c, st)
        ensures GroupOk(GroupPass(addresses, c, st, read, fmt, pad, rule))
      {
        var k :| 0 <= k < |pairs| && pairs[k] == (c, st);
        assert GroupOk(pass(pairs[k].0, pairs[k].1));
      }
    } else {
      var k :| 0 <= k < |pairs| && !GroupOk(pass(pairs[k].0, pairs[k].1));
      assert pairs[k] in pairs;
      assert HasGroup(addresses, pairs[k].0, pairs[k].1);
    }
  }

  /** `BatchRead(addresses, retryCount)`: a failed read (not one that threw)
    * is logged as a warning and read again, at most `retryCount` more times.
    * `attempt(n)` is what the `n`-th read of the same addresses returns,
    * since the device may answer differently each time; `runs` counts the
    * reads made, so `runs - 1` warnings were logged. */
  method BatchReadRetry(attempt: nat -> BatchOutcome, retryCount: nat) returns (r: BatchOutcome, runs: nat)
    ensures 1 <= runs <= retryCount + 1 && r == attempt(runs - 1)
    ensures forall n :: 0 <= n < runs - 1 ==> attempt(n).Batch? && !attempt(n).isSucceed
    ensures r.Escaped? || r.isSucceed || runs == retryCount + 1
  {
    r := attempt(0);
    runs := 1;
    if r.Escaped? {
      return;
    }
    for i := 0 to retryCount
      invariant runs == i + 1 && r == attempt(i) && r.Batch?
      invariant forall n :: 0 <= n < runs - 1 ==> attempt(n).Batch? && !attempt(n).isSucceed
    {
      if !r.isSucceed {
        r := attempt(runs);
        runs := runs + 1;
        if r.Escaped? {
          return;
        }
      } else {
        break;
      }
    }
  }
}
