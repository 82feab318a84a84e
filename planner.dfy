/** The window planner of `BatchRead(addressList, stationNumber, functionCode)`
  * in `ModbusSerialBase` (the copies in `ModbusTcpClient` and
  * `ModbusRtuOverTcpClient` are the same code): the points of one
  * (function code, station) group, keyed by their address text, are read in
  * windows of at most 125 registers, and each window's payload is cut into
  * the points' values. */
module ModbusPlanner {
  import opened Wrappers
  import opened Bytes
  import opened Text
  import opened ModbusDemux
  import ModbusResult

  /** `DataTypeEnum`: the twelve names the planner switches on; any other
    * member of the enum is `OtherType`. */
  datatype DataType =
    | Bool | Byte | Int16 | UInt16 | Int32 | UInt32 | Int64 | UInt64 | Float | Double
    | Int16Bit | UInt16Bit
    | OtherType(name: string)

  /** One entry of the group's dictionary: address text to data type. */
  datatype Point = Point(key: string, dataType: DataType)

  /** The `object` stored for a point. Floating-point values keep the bytes
    * `BitConverter.ToSingle`/`ToDouble` would read. */
  datatype Value = Number(n: int) | Flag(b: bool) | Real(bits: seq<byte>)

  /** A value added to the result dictionary under its address key. */
  datatype Entry = Entry(key: string, value: Value)

  /** One `Read(minAddress, station, functionCode, readLength)` issued. */
  datatype Request = Request(start: int, length: int)

  /** The outcome of one group: an exception escaping, or the result with its
    * values in insertion order and the reads issued. */
  datatype Pass = Aborted | Finished(ok: bool, values: seq<Entry>, issued: seq<Request>)

  /** What the read of one window gives: an exception escaping `Read` (the
    * TCP client throws on a reply shorter than its header), a `Result` that
    * is not successful, or its `Value` (the payload in reverse order, as
    * `Read` returns it). */
  datatype ReadReply = ReadThrew | ReadFailed | ReadValue(value: seq<byte>)

  /** The read of one window, by station, function code, start and length. */
  type Reader = (byte, byte, int, int) -> ReadReply

  /** What the planner makes of the client's `Read`: an exception that
    * escapes it, or a success without a value (whose `Reverse()` throws),
    * is an exception; a failed result is a failure; a value is handed on as
    * `Read` returns it, for `Extract` to reverse into `rValue`. */
  function ReplyOf(o: ModbusResult.Outcome): (r: ReadReply)
    ensures r.ReadThrew? <==> o.Escaped? || (o.isSucceed && o.value.None?)
    ensures r.ReadFailed? <==> o.Returned? && !o.isSucceed
    ensures r.ReadValue? ==> o.Returned? && o.value == Some(r.value)
  {
    match o
    case Escaped => ReadThrew
    case Returned(ok, value, _) =>
      if !ok then ReadFailed
      else match value
        case None => ReadThrew
        case Some(v) => ReadValue(v)
  }

  /** One read of a window, named so that the loop and its specification
    * share the term. */
  function Fetch(read: Reader, station: byte, code: byte, start: int, length: int): (reply: ReadReply)
    ensures reply == read(station, code, start, length)
  {
    read(station, code, start, length)
  }

  /** How the next window start is chosen: as the source does, or as a
    * correction that reads every point once. */
  datatype Advance = AsWritten | Corrected

  /** `int.Parse(key.Split(':')[0])`. */
  function Num(key: string): Option<int> {
    ParseInt(Split(key, {':'})[0])
  }

  /** The register number of a key (0 when it does not parse). */
  function At(key: string): int {
    match Num(key)
    case Some(n) => n
    case None => 0
  }

  predicate Numeric(ps: seq<Point>) {
    forall p :: p in ps ==> Num(p.key).Some?
  }

  /** A point with its register parsed once: `int.Parse` is deterministic, so
    * every place the source re-parses a key gets this number. */
  datatype Slot = Slot(key: string, register: int, dataType: DataType)

  function Slots(ps: seq<Point>): (r: seq<Slot>)
    ensures |r| == |ps|
    ensures forall i :: 0 <= i < |ps| ==> r[i] == Slot(ps[i].key, At(ps[i].key), ps[i].dataType)
  {
    seq(|ps|, i requires 0 <= i < |ps| => Slot(ps[i].key, At(ps[i].key), ps[i].dataType))
  }

  predicate DistinctKeys(ps: seq<Slot>) {
    forall i, j :: 0 <= i < j < |ps| ==> ps[i].key != ps[j].key
  }

  function MinAt(ps: seq<Slot>): (m: int)
    requires |ps| > 0
    ensures exists p :: p in ps && p.register == m
    ensures forall p :: p in ps ==> m <= p.register
  {
    if |ps| == 1 then ps[0].register
    else
      var rest := MinAt(ps[1..]);
      if ps[0].register <= rest then ps[0].register else rest
  }

  function MaxAt(ps: seq<Slot>): (m: int)
    requires |ps| > 0
    ensures exists p :: p in ps && p.register == m
    ensures forall p :: p in ps ==> p.register <= m
  {
    if |ps| == 1 then ps[0].register
    else
      var rest := MaxAt(ps[1..]);
      if ps[0].register >= rest then ps[0].register else rest
  }

  /** The reach of a window beyond its start: `readLength = 121`. */
  const Reach := 121

  /** `tempAddress`: the points whose register lies in `[min, min + 121]`, in
    * dictionary order. */
  function Members(ps: seq<Slot>, min: int): (w: seq<Slot>)
    ensures forall p :: p in w <==> p in ps && min <= p.register <= min + Reach
    ensures |w| <= |ps|
  {
    if |ps| == 0 then []
    else
      var rest := Members(ps[1..], min);
      if min <= ps[0].register <= min + Reach then [ps[0]] + rest else rest
  }

  lemma {:induction false} MembersDistinct(ps: seq<Slot>, min: int)
    requires DistinctKeys(ps)
    ensures DistinctKeys(Members(ps, min))
  {
    if |ps| > 0 {
      MembersDistinct(ps[1..], min);
      var rest := Members(ps[1..], min);
      forall p | p in rest
        ensures p.key != ps[0].key
      {
        var j :| 0 <= j < |ps[1..]| && ps[1..][j] == p;
        assert ps[j + 1] == p;
      }
    }
  }

  /** `tempAddress.OrderByDescending(register).FirstOrDefault()`: the first
    * member with the highest register (the sort is stable). */
  function Widest(w: seq<Slot>): (top: Slot)
    requires |w| > 0
    ensures top in w && forall p :: p in w ==> p.register <= top.register
  {
    if |w| == 1 then w[0]
    else
      var t := Widest(w[1..]);
      if t.register > w[0].register then t else w[0]
  }

  /** Of several members with the highest register, `Widest` is the first. */
  lemma {:induction false} WidestIsFirst(w: seq<Slot>) returns (i: nat)
    requires |w| > 0
    ensures i < |w| && w[i] == Widest(w) && forall j :: 0 <= j < i ==> w[j].register < w[i].register
  {
    if |w| == 1 {
      i := 0;
    } else {
      var t := Widest(w[1..]);
      if t.register > w[0].register {
        var k := WidestIsFirst(w[1..]);
        i := k + 1;
        forall j | 0 <= j < i
          ensures w[j].register < w[i].register
        {
          if j > 0 {
            assert w[j] == w[1..][j - 1];
          }
        }
      } else {
        i := 0;
      }
    }
  }

  /** The registers a point occupies; `None` is the "undefined type"
    * exception. */
  function Width(t: DataType): (n: Option<int>)
    ensures n.Some? ==> 1 <= n.value <= 4
    ensures n.None? <==> t.OtherType?
  {
    match t
    case Bool | Byte | Int16 | UInt16 | Int16Bit | UInt16Bit => Some(1)
    case Int32 | UInt32 | Float => Some(2)
    case Int64 | UInt64 | Double => Some(4)
    case OtherType(_) => None
  }

  function AsNumber(x: Extracted<int>): Option<Value> {
    match x
    case Threw => None
    case Got(_, v) => Some(Number(v))
  }

  /** The value of one member, by its type; `None` is an exception escaping:
    * `Byte` and unknown types throw, and `UInt16Bit` goes through the signed
    * `ReadInt16Bit`. A failed extraction stores its default value. */
  function Decode(p: Slot, min: int, payload: seq<byte>, fmt: seq<byte> -> seq<byte>, pad: nat): (v: Option<Value>)
    ensures p.dataType.Byte? || p.dataType.OtherType? ==> v.None?
  {
    var head := Split(p.key, {':'})[0];
    var begin := DecimalString(min);
    match p.dataType
    case Bool =>
      (match ReadCoil(begin, head, payload, pad)
       case Threw => None
       case Got(_, b) => Some(Flag(b)))
    case Byte => None
    case Int16 => AsNumber(ReadWords(begin, head, payload, 1, true, fmt))
    case Int16Bit => AsNumber(ReadInt16Bit(min, p.key, payload, true))
    case UInt16 => AsNumber(ReadWords(begin, head, payload, 1, false, fmt))
    case UInt16Bit => AsNumber(ReadInt16Bit(min, p.key, payload, true))
    case Int32 => AsNumber(ReadWords(begin, head, payload, 2, true, fmt))
    case UInt32 => AsNumber(ReadWords(begin, head, payload, 2, false, fmt))
    case Int64 => AsNumber(ReadWords(begin, head, payload, 4, true, fmt))
    case UInt64 => AsNumber(ReadWords(begin, head, payload, 4, false, fmt))
    case Float =>
      (match HostBytes(begin, head, payload, 2, fmt)
       case Threw => None
       case Got(_, bs) => Some(Real(bs)))
    case Double =>
      (match HostBytes(begin, head, payload, 4, fmt)
       case Threw => None
       case Got(_, bs) => Some(Real(bs)))
    case OtherType(_) => None
  }

  /** How one member's value is cut out of the `Value` a window's read
    * returned. */
  type Extractor = (Slot, int, seq<byte>) -> Option<Value>

  /** The extractor of the Modbus readers: each reader is given `rValue`,
    * the read's value reversed back into register order. */
  function Extract(fmt: seq<byte> -> seq<byte>, pad: nat): Extractor {
    (p: Slot, min: int, value: seq<byte>) => Decode(p, min, Reverse<byte>(value), fmt, pad)
  }

  /** The `foreach` over the members: each value added under its key, in
    * order; an exception ends the whole pass. */
  function DemuxAll(w: seq<Slot>, min: int, value: seq<byte>, decode: Extractor)
    : (r: Option<seq<Entry>>)
    ensures r.Some? ==> |r.value| == |w| && forall i :: 0 <= i < |w| ==> r.value[i].key == w[i].key
  {
    if |w| == 0 then Some([])
    else
      match decode(w[0], min, value)
      case None => None
      case Some(v) =>
        match DemuxAll(w[1..], min, value, decode)
        case None => None
        case Some(rest) => Some([Entry(w[0].key, v)] + rest)
  }

  /** The order `OrderBy(m => m.Key)` sorts keys by, taken here as the
    * character-by-character (ordinal) order. The source uses the default
    * string comparer, which is culture-sensitive; the two agree on keys made
    * of digits alone and can differ once other characters such as `:` are
    * mixed in. */
  predicate KeyBelow(a: string, b: string) {
    if |a| == 0 then |b| > 0
    else if |b| == 0 then false
    else if a[0] != b[0] then a[0] < b[0]
    else KeyBelow(a[1..], b[1..])
  }

  lemma {:induction false} KeyBelowIrreflexive(a: string)
    ensures !KeyBelow(a, a)
  {
    if |a| > 0 {
      KeyBelowIrreflexive(a[1..]);
    }
  }

  lemma {:induction false} KeyBelowTransitive(a: string, b: string, c: string)
    requires KeyBelow(a, b) && KeyBelow(b, c)
    ensures KeyBelow(a, c)
  {
    if |a| > 0 && |b| > 0 && |c| > 0 && a[0] == b[0] && b[0] == c[0] {
      KeyBelowTransitive(a[1..], b[1..], c[1..]);
    }
  }

  lemma {:induction false} KeyBelowTotal(a: string, b: string)
    ensures a == b || KeyBelow(a, b) || KeyBelow(b, a)
  {
    if |a| > 0 && |b| > 0 && a[0] == b[0] {
      KeyBelowTotal(a[1..], b[1..]);
      if a[1..] == b[1..] {
        assert a == [a[0]] + a[1..] && b == [b[0]] + b[1..];
      }
    }
  }

  /** `OrderBy(t => t.Key).FirstOrDefault()`, the key order taken as
    * ordinal: the point with the least key, the first one on a tie. */
  function FirstByKey(s: seq<Slot>): (r: Slot)
    requires |s| > 0
    ensures r in s && forall p :: p in s ==> !KeyBelow(p.key, r.key)
  {
    if |s| == 1 then
      KeyBelowIrreflexive(s[0].key);
      s[0]
    else
      var m := FirstByKey(s[1..]);
      if KeyBelow(m.key, s[0].key) then
        KeyBelowStaysMinimal(s, m);
        m
      else
        KeyBelowNewMinimal(s, m);
        s[0]
  }

  lemma KeyBelowStaysMinimal(s: seq<Slot>, m: Slot)
    requires |s| > 1 && m in s[1..] && KeyBelow(m.key, s[0].key)
    requires forall p :: p in s[1..] ==> !KeyBelow(p.key, m.key)
    ensures forall p :: p in s ==> !KeyBelow(p.key, m.key)
  {
    if KeyBelow(s[0].key, m.key) {
      KeyBelowTransitive(s[0].key, m.key, s[0].key);
      KeyBelowIrreflexive(s[0].key);
    }
  }

  lemma KeyBelowNewMinimal(s: seq<Slot>, m: Slot)
    requires |s| > 1 && m in s[1..] && !KeyBelow(m.key, s[0].key)
    requires forall p :: p in s[1..] ==> !KeyBelow(p.key, m.key)
    ensures forall p :: p in s ==> !KeyBelow(p.key, s[0].key)
  {
    KeyBelowIrreflexive(s[0].key);
    forall p | p in s[1..]
      ensures !KeyBelow(p.key, s[0].key)
    {
      KeyBelowTotal(p.key, m.key);
      if KeyBelow(p.key, s[0].key) && KeyBelow(m.key, p.key) {
        KeyBelowTransitive(m.key, p.key, s[0].key);
      }
    }
  }

  /** The points whose register is at least `t`, in dictionary order. */
  function AtLeast(ps: seq<Slot>, t: int): (r: seq<Slot>)
    ensures forall p :: p in r <==> p in ps && p.register >= t
  {
    if |ps| == 0 then []
    else
      var rest := AtLeast(ps[1..], t);
      if ps[0].register >= t then [ps[0]] + rest else rest
  }

  /** The next window start after the window at `min` of `length` registers
    * whose widest member is `top`; `None` ends the pass. As written: the
    * register of the key-order-first point at or beyond `min + length`.
    * Corrected: the least register beyond `top`. */
  function NextStart(ps: seq<Slot>, min: int, length: int, top: Slot, rule: Advance): (next: Option<int>)
    ensures next.Some? ==> exists p :: p in ps && p.register == next.value
    ensures rule == AsWritten ==>
              (next.Some? <==> exists p :: p in ps && p.register >= min + length) &&
              (next.Some? ==> next.value >= min + length)
    ensures rule == Corrected ==>
              (next.Some? <==> exists p :: p in ps && p.register > top.register) &&
              (next.Some? ==> next.value > top.register &&
                              forall p :: p in ps && p.register > top.register ==> next.value <= p.register)
  {
    match rule
    case AsWritten =>
      var later := AtLeast(ps, min + length);
      if |later| == 0 then None else Some(FirstByKey(later).register)
    case Corrected =>
      var later := AtLeast(ps, top.register + 1);
      if |later| == 0 then None else Some(MinAt(later))
  }

  /** What the body of one turn reads and cuts out at a window start, apart
    * from the values and reads so far: no member (the start moves on by
    * 121), an exception escaping, a read that failed, or a read whose
    * members' values were all cut out, with the next start if there is one. */
  datatype Turn =
    | Vacant
    | Throws
    | Unread(length: int)
    | Cut(length: int, vs: seq<Entry>, next: Option<int>)

  /** The body of the `while (maxAddress >= minAddress)` loop at window
    * start `min`, every branch of it. */
  function TurnAt(ps: seq<Slot>, station: byte, code: byte, read: Reader, decode: Extractor,
                  rule: Advance, min: int): Turn
  {
    var w := Members(ps, min);
    if |w| == 0 then Vacant
    else
      var top := Widest(w);
      match Width(top.dataType)
      case None => Throws
      case Some(width) =>
        var length := top.register + width - min;
        match Fetch(read, station, code, min, length)
        case ReadThrew => Throws
        case ReadFailed => Unread(length)
        case ReadValue(value) =>
          match DemuxAll(w, min, value, decode)
          case None => Throws
          case Some(vs) => Cut(length, vs, NextStart(ps, min, length, top, rule))
  }

  /** What a turn of the body guarantees: a window with members issues one
    * read of 1 to 125 registers, cuts out one value per member in member
    * order, and moves on past its widest member. */
  lemma TurnFacts(ps: seq<Slot>, station: byte, code: byte, read: Reader, decode: Extractor,
                  rule: Advance, min: int)
    ensures var t := TurnAt(ps, station, code, read, decode, rule, min);
            var w := Members(ps, min);
            (t.Vacant? <==> |w| == 0) &&
            (t.Unread? || t.Cut? ==> 1 <= t.length <= 125) &&
            (t.Cut? ==>
               |t.vs| == |w| && (forall i :: 0 <= i < |w| ==> t.vs[i].key == w[i].key) &&
               t.next == NextStart(ps, min, t.length, Widest(w), rule) &&
               (t.next.Some? ==> t.next.value > Widest(w).register))
  {
    var t := TurnAt(ps, station, code, read, decode, rule, min);
    var w := Members(ps, min);
    if |w| == 0 {
      assert t == Vacant;
    } else {
      var top := Widest(w);
      assert min <= top.register <= min + Reach;
      match Width(top.dataType)
      case None =>
        assert t == Throws;
      case Some(width) =>
        var length := top.register + width - min;
        match Fetch(read, station, code, min, length)
        case ReadThrew =>
          assert t == Throws;
        case ReadFailed =>
          assert t == Unread(length);
        case ReadValue(value) =>
          match DemuxAll(w, min, value, decode)
          case None =>
            assert t == Throws;
          case Some(vs) =>
            var next := NextStart(ps, min, length, top, rule);
            assert t == Cut(length, vs, next);
            assert next.Some? ==> next.value > top.register;
    }
  }

  /** What one turn of the loop body leaves: the pass ends with a result, or
    * the loop goes on from `next` with the values and reads so far. */
  datatype Step = Stop(result: Pass) | Continue(next: int, values: seq<Entry>, issued: seq<Request>)

  /** One turn of the loop at window start `min`: the turn's values are
    * added after `values` and its read after `issued`. */
  function Window(ps: seq<Slot>, station: byte, code: byte, read: Reader, decode: Extractor,
                  rule: Advance, min: int, values: seq<Entry>, issued: seq<Request>): Step
  {
    match TurnAt(ps, station, code, read, decode, rule, min)
    case Vacant => Continue(min + Reach, values, issued)
    case Throws => Stop(Aborted)
    case Unread(length) => Stop(Finished(false, values, issued + [Request(min, length)]))
    case Cut(length, vs, None) => Stop(Finished(true, values + vs, issued + [Request(min, length)]))
    case Cut(length, vs, Some(next)) => Continue(next, values + vs, issued + [Request(min, length)])
  }

  /** The loop moves its window start forward, so it ends. */
  lemma WindowAdvances(ps: seq<Slot>, station: byte, code: byte, read: Reader, decode: Extractor,
                       rule: Advance, min: int, values: seq<Entry>, issued: seq<Request>)
    ensures var s := Window(ps, station, code, read, decode, rule, min, values, issued);
            s.Continue? ==> s.next > min
  {
    TurnFacts(ps, station, code, read, decode, rule, min);
    var w := Members(ps, min);
    if |w| > 0 {
      assert Widest(w) in w;
    }
  }

  /** The loop from window start `min`, with the values and reads so far. */
  function Run(ps: seq<Slot>, station: byte, code: byte, read: Reader, decode: Extractor,
               rule: Advance, min: int, values: seq<Entry>, issued: seq<Request>): Pass
    requires |ps| > 0
    decreases MaxAt(ps) - min
  {
    if MaxAt(ps) < min then Finished(true, values, issued)
    else
      match Window(ps, station, code, read, decode, rule, min, values, issued)
      case Stop(r) => r
      case Continue(next, values', issued') =>
        WindowAdvances(ps, station, code, read, decode, rule, min, values, issued);
        Run(ps, station, code, read, decode, rule, next, values', issued')
  }

  /** The whole pass: `Min()` over the registers throws on an empty group or
    * a key that does not parse. */
  function Plan(ps: seq<Point>, station: byte, code: byte, read: Reader, fmt: seq<byte> -> seq<byte>,
                pad: nat, rule: Advance): Pass
  {
    if |ps| == 0 || !Numeric(ps) then Aborted
    else
      var slots := Slots(ps);
      Run(slots, station, code, read, Extract(fmt, pad), rule, MinAt(slots), [], [])
  }

  /** The loop as the source writes it, proved to compute `Plan`. */
  method BatchReadGroup(addresses: seq<Point>, station: byte, code: byte, read: Reader, fmt: seq<byte> -> seq<byte>,
                        pad: nat, rule: Advance) returns (r: Pass)
    ensures r == Plan(addresses, station, code, read, fmt, pad, rule)
  {
    if |addresses| == 0 || !Numeric(addresses) {
      return Aborted;
    }
    r := ReadWindows(Slots(addresses), station, code, read, Extract(fmt, pad), rule);
  }

  /** The `while` loop over the windows of a group whose keys all parse. */
  method ReadWindows(ps: seq<Slot>, station: byte, code: byte, read: Reader, decode: Extractor,
                     rule: Advance) returns (r: Pass)
    requires |ps| > 0
    ensures r == Run(ps, station, code, read, decode, rule, MinAt(ps), [], [])
  {
    ghost var goal := Run(ps, station, code, read, decode, rule, MinAt(ps), [], []);
    var values: seq<Entry> := [];
    var issued: seq<Request> := [];
    var minAddress := MinAt(ps);
    var maxAddress := MaxAt(ps);
    while maxAddress >= minAddress
      invariant maxAddress == MaxAt(ps)
      invariant Run(ps, station, code, read, decode, rule, minAddress, values, issued) == goal
      decreases maxAddress - minAddress
    {
      var step := ReadWindow(ps, station, code, read, decode, rule, minAddress, values, issued);
      match step
      case Stop(result) =>
        return result;
      case Continue(next, values', issued') =>
        minAddress, values, issued := next, values', issued';
    }
    return Finished(true, values, issued);
  }

  /** One turn of the loop body: the window at `minAddress` is read and its
    * members' values are added. */
  method ReadWindow(ps: seq<Slot>, station: byte, code: byte, read: Reader, decode: Extractor, rule: Advance,
                    minAddress: int, values: seq<Entry>, issued: seq<Request>) returns (step: Step)
    ensures step == Window(ps, station, code, read, decode, rule, minAddress, values, issued)
    ensures step.Continue? ==> step.next > minAddress
  {
    WindowAdvances(ps, station, code, read, decode, rule, minAddress, values, issued);
    var turn := ReadTurn(ps, station, code, read, decode, rule, minAddress);
    match turn
    case Vacant =>
      step := Continue(minAddress + Reach, values, issued);
    case Throws =>
      step := Stop(Aborted);
    case Unread(readLength) =>
      step := Stop(Finished(false, values, issued + [Request(minAddress, readLength)]));
    case Cut(readLength, decoded, next) =>
      var issued' := issued + [Request(minAddress, readLength)];
      if next.None? {
        step := Stop(Finished(true, values + decoded, issued'));
      } else {
        step := Continue(next.value, values + decoded, issued');
      }
  }

  /** The reading part of the loop body: the window's members, the widest
    * of them, the read and the values cut out of it. */
  method ReadTurn(ps: seq<Slot>, station: byte, code: byte, read: Reader, decode: Extractor, rule: Advance,
                  minAddress: int) returns (turn: Turn)
    ensures turn == TurnAt(ps, station, code, read, decode, rule, minAddress)
  {
    var tempAddress := Members(ps, minAddress);
    if |tempAddress| == 0 {
      return Vacant;
    }
    var tempMax := Widest(tempAddress);
    var width := Width(tempMax.dataType);
    if width.None? {
      return Throws;
    }
    var readLength := tempMax.register + width.value - minAddress;
    var tempResult := Fetch(read, station, code, minAddress, readLength);
    if tempResult.ReadThrew? {
      return Throws;
    }
    if tempResult.ReadFailed? {
      return Unread(readLength);
    }
    var decoded := DemuxAll(tempAddress, minAddress, tempResult.value, decode);
    if decoded.None? {
      return Throws;
    }
    return Cut(readLength, decoded.value, NextStart(ps, minAddress, readLength, tempMax, rule));
  }
}

module ModbusPlannerFacts {
  import opened Wrappers
  import opened Bytes
  import opened Text
  import opened ModbusPlanner
  import ModbusDemux

  /** Every read issued spans 1 to 125 registers: `Convert.ToUInt16` never
    * overflows and the request stays inside the protocol's limit. */
  predicate Bounded(rs: seq<Request>) {
    forall q :: q in rs ==> 1 <= q.length <= 125
  }

  predicate DistinctEntries(vs: seq<Entry>) {
    forall i, j :: 0 <= i < j < |vs| ==> vs[i].key != vs[j].key
  }

  function KeysOf(vs: seq<Entry>): set<string> {
    set e | e in vs :: e.key
  }

  function KeySet(ps: seq<Slot>): set<string> {
    set p | p in ps :: p.key
  }

  /** The register of the first slot with this key (0 when none has it). */
  function RegisterOf(ps: seq<Slot>, key: string): int {
    if |ps| == 0 then 0
    else if ps[0].key == key then ps[0].register
    else RegisterOf(ps[1..], key)
  }

  lemma {:induction false} RegisterOfMember(ps: seq<Slot>, p: Slot)
    requires DistinctKeys(ps) && p in ps
    ensures RegisterOf(ps, p.key) == p.register
  {
    if ps[0] != p {
      assert p in ps[1..];
      var j :| 0 <= j < |ps[1..]| && ps[1..][j] == p;
      assert ps[0].key != ps[j + 1].key;
      RegisterOfMember(ps[1..], p);
    }
  }

  /** One turn of the loop keeps every issued read inside 1 to 125
    * registers: the widest member lies at most 121 past the window start and
    * is at most 4 registers wide. */
  lemma WindowBounded(ps: seq<Slot>, station: byte, code: byte, read: Reader, decode: Extractor, rule: Advance,
                      min: int, values: seq<Entry>, issued: seq<Request>)
    requires Bounded(issued)
    ensures var s := Window(ps, station, code, read, decode, rule, min, values, issued);
            (s.Continue? ==> Bounded(s.issued)) && (s.Stop? && s.result.Finished? ==> Bounded(s.result.issued))
  {
    TurnFacts(ps, station, code, read, decode, rule, min);
    var t := TurnAt(ps, station, code, read, decode, rule, min);
    if t.Unread? || t.Cut? {
      BoundedAppend(issued, Request(min, t.length));
    }
  }

  lemma BoundedAppend(issued: seq<Request>, q: Request)
    requires Bounded(issued) && 1 <= q.length <= 125
    ensures Bounded(issued + [q])
  {
  }

  lemma {:induction false} RunBounded(ps: seq<Slot>, station: byte, code: byte, read: Reader, decode: Extractor,
                                      rule: Advance, min: int, values: seq<Entry>, issued: seq<Request>)
    requires |ps| > 0 && Bounded(issued)
    ensures var r := Run(ps, station, code, read, decode, rule, min, values, issued);
            r.Finished? ==> Bounded(r.issued)
    decreases MaxAt(ps) - min
  {
    if MaxAt(ps) >= min {
      WindowBounded(ps, station, code, read, decode, rule, min, values, issued);
      WindowAdvances(ps, station, code, read, decode, rule, min, values, issued);
      match Window(ps, station, code, read, decode, rule, min, values, issued)
      case Stop(_) =>
      case Continue(next, values', issued') =>
        RunBounded(ps, station, code, read, decode, rule, next, values', issued');
    }
  }

  /** `BatchRead` never asks for more than 125 registers, nor for none. */
  lemma PlanBounded(points: seq<Point>, station: byte, code: byte, read: Reader, fmt: seq<byte> -> seq<byte>,
                    pad: nat, rule: Advance)
    ensures var r := Plan(points, station, code, read, fmt, pad, rule);
            r.Finished? ==> Bounded(r.issued) && |r.issued| >= 1
  {
    if |points| > 0 && Numeric(points) {
      var slots := Slots(points);
      RunBounded(slots, station, code, read, Extract(fmt, pad), rule, MinAt(slots), [], []);
      RunReads(slots, station, code, read, Extract(fmt, pad), rule, MinAt(slots), [], []);
    }
  }

  /** A window with members issues one read, whatever it then does; an empty
    * one issues none. */
  lemma WindowReads(ps: seq<Slot>, station: byte, code: byte, read: Reader, decode: Extractor, rule: Advance,
                    min: int, values: seq<Entry>, issued: seq<Request>)
    ensures var s := Window(ps, station, code, read, decode, rule, min, values, issued);
            var n := if |Members(ps, min)| > 0 then 1 else 0;
            (s.Continue? ==> |s.issued| == |issued| + n) && (s.Stop? && s.result.Finished? ==> |s.result.issued| == |issued| + n)
  {
    TurnFacts(ps, station, code, read, decode, rule, min);
  }

  /** The loop only adds reads. */
  lemma {:induction false} RunGrows(ps: seq<Slot>, station: byte, code: byte, read: Reader, decode: Extractor,
                                    rule: Advance, min: int, values: seq<Entry>, issued: seq<Request>)
    requires |ps| > 0
    ensures var r := Run(ps, station, code, read, decode, rule, min, values, issued);
            r.Finished? ==> |r.issued| >= |issued|
    decreases MaxAt(ps) - min
  {
    if MaxAt(ps) >= min {
      WindowReads(ps, station, code, read, decode, rule, min, values, issued);
      WindowAdvances(ps, station, code, read, decode, rule, min, values, issued);
      match Window(ps, station, code, read, decode, rule, min, values, issued)
      case Stop(_) =>
      case Continue(next, values', issued') =>
        RunGrows(ps, station, code, read, decode, rule, next, values', issued');
    }
  }

  /** From a start that is some point's register, the loop reads at least one
    * window. */
  lemma RunReads(ps: seq<Slot>, station: byte, code: byte, read: Reader, decode: Extractor,
                 rule: Advance, min: int, values: seq<Entry>, issued: seq<Request>)
    requires |ps| > 0 && exists p :: p in ps && p.register == min
    ensures var r := Run(ps, station, code, read, decode, rule, min, values, issued);
            r.Finished? ==> |r.issued| > |issued|
  {
    var p :| p in ps && p.register == min;
    assert p in Members(ps, min);
    assert MaxAt(ps) >= min;
    WindowReads(ps, station, code, read, decode, rule, min, values, issued);
    WindowAdvances(ps, station, code, read, decode, rule, min, values, issued);
    match Window(ps, station, code, read, decode, rule, min, values, issued)
    case Stop(result) =>
    case Continue(next, values', issued') =>
      RunGrows(ps, station, code, read, decode, rule, next, values', issued');
  }

  /** What one turn of the loop keeps about the values so far: their keys
    * are distinct, are keys of points, and parse below the next start. */
  predicate Kept(ps: seq<Slot>, values: seq<Entry>, min: int) {
    DistinctEntries(values) && KeysOf(values) <= KeySet(ps) && forall e :: e in values ==> RegisterOf(ps, e.key) < min
  }

  /** Appending the values of a window whose members parse into
    * `[min, hi]` keeps the values distinct and below `hi + 1`. */
  lemma AppendKeeps(ps: seq<Slot>, values: seq<Entry>, w: seq<Slot>, vs: seq<Entry>, min: int, hi: int)
    requires Kept(ps, values, min) && DistinctKeys(w)
    requires |vs| == |w| && forall i :: 0 <= i < |w| ==> vs[i].key == w[i].key
    requires DistinctKeys(ps) && min <= hi && forall p :: p in w ==> p in ps && min <= p.register <= hi
    ensures Kept(ps, values + vs, hi + 1)
  {
    var all := values + vs;
    forall i, j | 0 <= i < j < |all|
      ensures all[i].key != all[j].key
    {
      if j < |values| {
      } else if i >= |values| {
        assert all[i] == vs[i - |values|] && all[j] == vs[j - |values|];
      } else {
        assert all[i] in values;
        assert all[j] == vs[j - |values|];
        assert w[j - |values|] in w;
        RegisterOfMember(ps, w[j - |values|]);
      }
    }
    forall e | e in all
      ensures e.key in KeySet(ps) && RegisterOf(ps, e.key) < hi + 1
    {
      if e in values {
        assert e.key in KeysOf(values);
      } else {
        var i :| 0 <= i < |vs| && vs[i] == e;
        assert w[i] in w;
        assert w[i].key in KeySet(ps);
        RegisterOfMember(ps, w[i]);
      }
    }
  }

  lemma KeptLater(ps: seq<Slot>, values: seq<Entry>, a: int, b: int)
    requires Kept(ps, values, a) && a <= b
    ensures Kept(ps, values, b)
  {
  }

  /** One turn of the loop keeps `Kept` from the window start to the next. */
  lemma WindowKeeps(ps: seq<Slot>, station: byte, code: byte, read: Reader, decode: Extractor, rule: Advance,
                    min: int, values: seq<Entry>, issued: seq<Request>)
    requires DistinctKeys(ps) && Kept(ps, values, min)
    ensures var s := Window(ps, station, code, read, decode, rule, min, values, issued);
            (s.Continue? ==> s.next > min && Kept(ps, s.values, s.next)) &&
            (s.Stop? && s.result.Finished? ==> DistinctEntries(s.result.values) && KeysOf(s.result.values) <= KeySet(ps))
  {
    TurnFacts(ps, station, code, read, decode, rule, min);
    var t := TurnAt(ps, station, code, read, decode, rule, min);
    var w := Members(ps, min);
    if t.Vacant? {
      KeptLater(ps, values, min, min + Reach);
    } else if t.Cut? {
      var top := Widest(w);
      MembersDistinct(ps, min);
      AppendKeeps(ps, values, w, t.vs, min, top.register);
      if t.next.Some? {
        KeptLater(ps, values + t.vs, top.register + 1, t.next.value);
      }
    }
  }

  lemma {:induction false} RunKeeps(ps: seq<Slot>, station: byte, code: byte, read: Reader, decode: Extractor,
                                    rule: Advance, min: int, values: seq<Entry>, issued: seq<Request>)
    requires |ps| > 0 && DistinctKeys(ps) && Kept(ps, values, min)
    ensures var r := Run(ps, station, code, read, decode, rule, min, values, issued);
            r.Finished? ==> DistinctEntries(r.values) && KeysOf(r.values) <= KeySet(ps)
    decreases MaxAt(ps) - min
  {
    if MaxAt(ps) >= min {
      WindowKeeps(ps, station, code, read, decode, rule, min, values, issued);
      match Window(ps, station, code, read, decode, rule, min, values, issued)
      case Stop(_) =>
      case Continue(next, values', issued') =>
        RunKeeps(ps, station, code, read, decode, rule, next, values', issued');
    }
  }

  /** Every point parsing below `min` has its value among `values`. */
  predicate Covered(ps: seq<Slot>, values: seq<Entry>, min: int) {
    forall p :: p in ps && p.register < min ==> p.key in KeysOf(values)
  }

  /** Appending a window's values covers every point up to its widest
    * member. */
  lemma AppendCovers(ps: seq<Slot>, values: seq<Entry>, w: seq<Slot>, vs: seq<Entry>, min: int, top: Slot)
    requires Covered(ps, values, min) && w == Members(ps, min)
    requires |vs| == |w| && forall i :: 0 <= i < |w| ==> vs[i].key == w[i].key
    requires top in w && forall p :: p in w ==> p.register <= top.register
    ensures Covered(ps, values + vs, top.register + 1)
  {
    forall p | p in ps && p.register < top.register + 1
      ensures p.key in KeysOf(values + vs)
    {
      if p.register < min {
        assert p.key in KeysOf(values);
        var e :| e in values && e.key == p.key;
        assert e in values + vs;
      } else {
        assert p in w;
        var i :| 0 <= i < |w| && w[i] == p;
        assert vs[i] in values + vs;
      }
    }
  }

  /** Under the corrected advance one turn of the loop covers every point
    * below the next start, and a pass that ends well covers them all. */
  lemma WindowCovers(ps: seq<Slot>, station: byte, code: byte, read: Reader, decode: Extractor,
                     min: int, values: seq<Entry>, issued: seq<Request>)
    requires Covered(ps, values, min)
    ensures var s := Window(ps, station, code, read, decode, Corrected, min, values, issued);
            (s.Continue? ==> Covered(ps, s.values, s.next)) &&
            (s.Stop? && s.result.Finished? && s.result.ok ==> KeySet(ps) <= KeysOf(s.result.values))
  {
    TurnFacts(ps, station, code, read, decode, Corrected, min);
    var t := TurnAt(ps, station, code, read, decode, Corrected, min);
    var w := Members(ps, min);
    if t.Vacant? {
      forall p | p in ps && p.register < min + Reach
        ensures p.key in KeysOf(values)
      {
        assert p !in w;
      }
    } else if t.Cut? {
      var top := Widest(w);
      AppendCovers(ps, values, w, t.vs, min, top);
      forall p | p in ps && (t.next.None? || p.register < t.next.value)
        ensures p.key in KeysOf(values + t.vs)
      {
        assert p.register < top.register + 1;
      }
    }
  }

  lemma {:induction false} RunCovers(ps: seq<Slot>, station: byte, code: byte, read: Reader, decode: Extractor,
                                     min: int, values: seq<Entry>, issued: seq<Request>)
    requires |ps| > 0 && Covered(ps, values, min)
    ensures var r := Run(ps, station, code, read, decode, Corrected, min, values, issued);
            r.Finished? && r.ok ==> KeySet(ps) <= KeysOf(r.values)
    decreases MaxAt(ps) - min
  {
    var r := Run(ps, station, code, read, decode, Corrected, min, values, issued);
    if MaxAt(ps) < min {
      assert r == Finished(true, values, issued);
    } else {
      WindowCovers(ps, station, code, read, decode, min, values, issued);
      WindowAdvances(ps, station, code, read, decode, Corrected, min, values, issued);
      match Window(ps, station, code, read, decode, Corrected, min, values, issued)
      case Stop(result) =>
        assert r == result;
      case Continue(next, values', issued') =>
        assert r == Run(ps, station, code, read, decode, Corrected, next, values', issued');
        RunCovers(ps, station, code, read, decode, next, values', issued');
    }
  }

  /** The keys of the group's dictionary. */
  function PointKeys(points: seq<Point>): set<string> {
    set p | p in points :: p.key
  }

  lemma SlotKeys(points: seq<Point>)
    requires forall i, j :: 0 <= i < j < |points| ==> points[i].key != points[j].key
    ensures DistinctKeys(Slots(points)) && KeySet(Slots(points)) == PointKeys(points)
  {
    var slots := Slots(points);
    forall k | k in PointKeys(points)
      ensures k in KeySet(slots)
    {
      var p :| p in points && p.key == k;
      var i :| 0 <= i < |points| && points[i] == p;
      assert slots[i] in slots;
    }
  }

  /** A group whose reads all complete yields each key at most once and only
    * keys of the group; under the corrected advance it yields every key. */
  lemma PlanValues(points: seq<Point>, station: byte, code: byte, read: Reader, fmt: seq<byte> -> seq<byte>,
                   pad: nat, rule: Advance)
    requires forall i, j :: 0 <= i < j < |points| ==> points[i].key != points[j].key
    ensures var r := Plan(points, station, code, read, fmt, pad, rule);
            r.Finished? ==> DistinctEntries(r.values) && KeysOf(r.values) <= PointKeys(points)
    ensures var r := Plan(points, station, code, read, fmt, pad, rule);
            rule == Corrected && r.Finished? && r.ok ==> KeysOf(r.values) == PointKeys(points)
  {
    if |points| > 0 && Numeric(points) {
      var slots := Slots(points);
      SlotKeys(points);
      RunKeeps(slots, station, code, read, Extract(fmt, pad), rule, MinAt(slots), [], []);
      if rule == Corrected {
        RunCovers(slots, station, code, read, Extract(fmt, pad), MinAt(slots), [], []);
      }
    }
  }

  /** A read that throws ends the whole pass with the exception, whatever
    * was read before. */
  lemma ThrownReadAborts(ps: seq<Slot>, station: byte, code: byte, read: Reader, decode: Extractor,
                         rule: Advance, min: int, values: seq<Entry>, issued: seq<Request>)
    requires var w := Members(ps, min);
             |w| > 0 && Width(Widest(w).dataType).Some? &&
             read(station, code, min, Widest(w).register + Width(Widest(w).dataType).value - min).ReadThrew?
    ensures Window(ps, station, code, read, decode, rule, min, values, issued) == Stop(Aborted)
  {
  }

  /** Reads and extractions that always succeed. */
  ghost predicate Succeeds(read: Reader, decode: Extractor) {
    (forall station, code, start, length :: read(station, code, start, length).ReadValue?) &&
    (forall p, min, value :: decode(p, min, value).Some?)
  }

  lemma {:induction false} DemuxAllSucceeds(w: seq<Slot>, min: int, value: seq<byte>, decode: Extractor)
    requires forall p, min, value :: decode(p, min, value).Some?
    ensures DemuxAll(w, min, value, decode).Some?
  {
    if |w| > 0 {
      DemuxAllSucceeds(w[1..], min, value, decode);
    }
  }

  /** As written, the next start is looked for at or beyond the end of the
    * read window rather than beyond its widest member: registers 0, 121
    * (eight bytes wide) and 123 give one read of 125 registers from 0 that
    * covers 123, but the value of 123 is never cut out. */
  lemma AsWrittenSkipsCovered(station: byte, code: byte, read: Reader, decode: Extractor)
    requires Succeeds(read, decode)
    ensures var r := Run(CoveredGroup, station, code, read, decode, AsWritten, 0, [], []);
            r.Finished? && r.ok && r.issued == [Request(0, 125)] && "123" !in KeysOf(r.values)
  {
    CoveredTurn(station, code, read, decode);
    var t := TurnAt(CoveredGroup, station, code, read, decode, AsWritten, 0);
    LastTurn(CoveredGroup, station, code, read, decode, AsWritten, 0, t);
    KeysOfTwo(t.vs);
  }

  /** Registers 0, 121 (eight bytes wide) and 123. */
  const CoveredGroup := [Slot("0", 0, Int16), Slot("121", 121, Int64), Slot("123", 123, Int16)]

  lemma CoveredTurn(station: byte, code: byte, read: Reader, decode: Extractor)
    requires Succeeds(read, decode)
    ensures var t := TurnAt(CoveredGroup, station, code, read, decode, AsWritten, 0);
            MinAt(CoveredGroup) == 0 &&
            t.Cut? && t.length == 125 && t.next == None && |t.vs| == 2 && t.vs[0].key == "0" && t.vs[1].key == "121"
  {
    var ps := CoveredGroup;
    assert MinAt(ps) == 0;
    var w := Members(ps, 0);
    assert w == [ps[0], ps[1]];
    assert Widest(w) == ps[1];
    assert Width(Int64) == Some(4);
    assert AtLeast(ps, 125) == [];
    assert NextStart(ps, 0, 125, ps[1], AsWritten) == None;
    assert Fetch(read, station, code, 0, 125).ReadValue?;
    DemuxAllSucceeds(w, 0, read(station, code, 0, 125).value, decode);
    TurnFacts(ps, station, code, read, decode, AsWritten, 0);
  }

  /** A loop whose first turn cuts values out and finds no next start
    * finishes with that turn's values and read. */
  lemma LastTurn(ps: seq<Slot>, station: byte, code: byte, read: Reader, decode: Extractor, rule: Advance,
                 min: int, t: Turn)
    requires |ps| > 0 && min == MinAt(ps)
    requires t == TurnAt(ps, station, code, read, decode, rule, min) && t.Cut? && t.next.None?
    ensures Run(ps, station, code, read, decode, rule, min, [], []) == Finished(true, t.vs, [Request(min, t.length)])
  {
    assert MaxAt(ps) >= min;
    WindowOfTurn(ps, station, code, read, decode, rule, min, [], [], t);
    assert [] + t.vs == t.vs && [] + [Request(min, t.length)] == [Request(min, t.length)];
  }

  /** A turn that cuts values out adds them and its read. */
  lemma WindowOfTurn(ps: seq<Slot>, station: byte, code: byte, read: Reader, decode: Extractor, rule: Advance,
                     min: int, values: seq<Entry>, issued: seq<Request>, t: Turn)
    requires t == TurnAt(ps, station, code, read, decode, rule, min) && t.Cut?
    ensures Window(ps, station, code, read, decode, rule, min, values, issued)
         == if t.next.Some? then Continue(t.next.value, values + t.vs, issued + [Request(min, t.length)])
            else Stop(Finished(true, values + t.vs, issued + [Request(min, t.length)]))
  {
  }

  /** The loop from a start at or below the highest register takes one turn. */
  lemma RunStep(ps: seq<Slot>, station: byte, code: byte, read: Reader, decode: Extractor, rule: Advance,
                min: int, values: seq<Entry>, issued: seq<Request>)
    requires |ps| > 0 && MaxAt(ps) >= min
    ensures Run(ps, station, code, read, decode, rule, min, values, issued)
         == match Window(ps, station, code, read, decode, rule, min, values, issued)
            case Stop(r) => r
            case Continue(next, values', issued') => Run(ps, station, code, read, decode, rule, next, values', issued')
  {
  }

  /** Registers 5, 9999 and 10000, in that dictionary order. */
  const KeyOrderGroup := [Slot("5", 5, Int16), Slot("9999", 9999, Int16), Slot("10000", 10000, Int16)]

  /** After the window at 5, the key-order-first point beyond it is "10000". */
  lemma KeyOrderNext()
    ensures NextStart(KeyOrderGroup, 5, 1, KeyOrderGroup[0], AsWritten) == Some(10000)
  {
    var ps := KeyOrderGroup;
    assert AtLeast(ps, 6) == [ps[1], ps[2]];
    assert KeyBelow("10000", "9999");
    assert FirstByKey([ps[1], ps[2]]) == ps[2];
  }

  lemma KeyOrderFirstTurn(station: byte, code: byte, read: Reader, decode: Extractor)
    requires Succeeds(read, decode)
    ensures var t := TurnAt(KeyOrderGroup, station, code, read, decode, AsWritten, 5);
            t.Cut? && t.length == 1 && t.next == Some(10000) && |t.vs| == 1 && t.vs[0].key == "5"
  {
    KeyOrderFirstMembers();
    KeyOrderNext();
    TurnCuts(KeyOrderGroup, station, code, read, decode, AsWritten, 5);
  }

  lemma KeyOrderFirstMembers()
    ensures var w := Members(KeyOrderGroup, 5);
            w == [KeyOrderGroup[0]] && Widest(w) == KeyOrderGroup[0] && Width(Int16) == Some(1)
  {
    var ps := KeyOrderGroup;
    var w := Members(ps, 5);
    assert w == [ps[0]];
  }

  /** A turn over a window with members whose read and extraction succeed
    * cuts out one value per member and moves on to the next start. */
  lemma TurnCuts(ps: seq<Slot>, station: byte, code: byte, read: Reader, decode: Extractor, rule: Advance, min: int)
    requires Succeeds(read, decode)
    requires |Members(ps, min)| > 0 && Width(Widest(Members(ps, min)).dataType).Some?
    ensures var w := Members(ps, min);
            var top := Widest(w);
            var length := top.register + Width(top.dataType).value - min;
            var t := TurnAt(ps, station, code, read, decode, rule, min);
            t.Cut? && t.length == length && t.next == NextStart(ps, min, length, top, rule) &&
            |t.vs| == |w| && forall i :: 0 <= i < |w| ==> t.vs[i].key == w[i].key
  {
    var w := Members(ps, min);
    var top := Widest(w);
    var length := top.register + Width(top.dataType).value - min;
    assert Fetch(read, station, code, min, length).ReadValue?;
    DemuxAllSucceeds(w, min, read(station, code, min, length).value, decode);
    TurnFacts(ps, station, code, read, decode, rule, min);
  }

  lemma KeyOrderFirstWindow(station: byte, code: byte, read: Reader, decode: Extractor)
    requires Succeeds(read, decode)
    ensures var s := Window(KeyOrderGroup, station, code, read, decode, AsWritten, 5, [], []);
            s.Continue? && s.next == 10000 && s.issued == [Request(5, 1)] && KeysOf(s.values) == {"5"}
  {
    KeyOrderFirstTurn(station, code, read, decode);
    var t := TurnAt(KeyOrderGroup, station, code, read, decode, AsWritten, 5);
    WindowOfTurn(KeyOrderGroup, station, code, read, decode, AsWritten, 5, [], [], t);
    assert [] + t.vs == t.vs && [] + [Request(5, 1)] == [Request(5, 1)];
    KeysOfOne(t.vs);
  }

  lemma KeysOfTwo(vs: seq<Entry>)
    requires |vs| == 2
    ensures KeysOf(vs) == {vs[0].key, vs[1].key}
  {
    assert vs == [vs[0], vs[1]];
  }

  lemma KeysOfOne(vs: seq<Entry>)
    requires |vs| == 1
    ensures KeysOf(vs) == {vs[0].key}
  {
    assert vs == [vs[0]];
  }

  lemma KeyOrderSecondTurn(station: byte, code: byte, read: Reader, decode: Extractor)
    requires Succeeds(read, decode)
    ensures var t := TurnAt(KeyOrderGroup, station, code, read, decode, AsWritten, 10000);
            t.Cut? && t.length == 1 && t.next == None && |t.vs| == 1 && t.vs[0].key == "10000"
  {
    var ps := KeyOrderGroup;
    assert Width(Int16) == Some(1);
    var w := Members(ps, 10000);
    assert w == [ps[2]];
    assert Widest(w) == ps[2];
    assert AtLeast(ps, 10001) == [];
    assert NextStart(ps, 10000, 1, ps[2], AsWritten) == None;
    assert Fetch(read, station, code, 10000, 1).ReadValue?;
    DemuxAllSucceeds(w, 10000, read(station, code, 10000, 1).value, decode);
    TurnFacts(ps, station, code, read, decode, AsWritten, 10000);
  }

  lemma KeyOrderSecondWindow(station: byte, code: byte, read: Reader, decode: Extractor,
                             values: seq<Entry>, issued: seq<Request>)
    requires Succeeds(read, decode)
    ensures var s := Window(KeyOrderGroup, station, code, read, decode, AsWritten, 10000, values, issued);
            s.Stop? && s.result.Finished? && s.result.ok && s.result.issued == issued + [Request(10000, 1)] &&
            KeysOf(s.result.values) == KeysOf(values) + {"10000"}
  {
    KeyOrderSecondTurn(station, code, read, decode);
    var t := TurnAt(KeyOrderGroup, station, code, read, decode, AsWritten, 10000);
    WindowOfTurn(KeyOrderGroup, station, code, read, decode, AsWritten, 10000, values, issued, t);
    KeysOfAppend(values, t.vs);
    KeysOfOne(t.vs);
  }

  lemma KeysOfAppend(values: seq<Entry>, vs: seq<Entry>)
    ensures KeysOf(values + vs) == KeysOf(values) + KeysOf(vs)
  {
  }

  /** As written, the next start is the register of the key-order-first
    * point beyond the window, not the nearest one: after register 5 the key
    * "10000" sorts before "9999", so 9999 is jumped over. */
  lemma AsWrittenSkipsByKeyOrder(station: byte, code: byte, read: Reader, decode: Extractor)
    requires Succeeds(read, decode)
    ensures var r := Run(KeyOrderGroup, station, code, read, decode, AsWritten, 5, [], []);
            r.Finished? && r.ok && r.issued == [Request(5, 1), Request(10000, 1)] && "9999" !in KeysOf(r.values)
  {
    var ps := KeyOrderGroup;
    assert MaxAt(ps) == 10000;
    KeyOrderFirstWindow(station, code, read, decode);
    var s := Window(ps, station, code, read, decode, AsWritten, 5, [], []);
    KeyOrderSecondWindow(station, code, read, decode, s.values, s.issued);
    RunStep(ps, station, code, read, decode, AsWritten, 5, [], []);
    RunStep(ps, station, code, read, decode, AsWritten, 10000, s.values, s.issued);
  }

  /** A `UInt16` point at the window start, read back from a one-register
    * window: `Extract` reverses the value `Read` returned (low byte first)
    * into wire order and decodes the register high byte first. */
  lemma {:induction false} ExtractRegister(min: int, hi: byte, lo: byte, fmt: seq<byte> -> seq<byte>, pad: nat)
    requires 0 <= min <= IntMax
    ensures Extract(fmt, pad)(Slot(DecimalString(min), min, UInt16), min, [lo, hi]) == Some(Number(hi * 256 + lo))
  {
    ExtractIsDecode(fmt, pad, Slot(DecimalString(min), min, UInt16), min, [lo, hi]);
    ReverseTwo(lo, hi);
    ModbusDemux.DecimalKey(min);
    DecodeUnsignedRegister(DecimalString(min), min, [hi, lo], fmt, pad);
    NumberOfRegister(DecimalString(min), min, hi, lo, fmt);
  }

  lemma NumberOfRegister(key: string, min: int, hi: byte, lo: byte, fmt: seq<byte> -> seq<byte>)
    requires ParseInt(Trim(key)) == Some(min)
    ensures AsNumber(ModbusDemux.ReadWords(key, key, [hi, lo], 1, false, fmt)) == Some(Number(hi * 256 + lo))
  {
    ModbusDemux.OnlyRegister(key, min, hi, lo, fmt);
  }

  lemma ReverseTwo(lo: byte, hi: byte)
    ensures Reverse([lo, hi]) == [hi, lo]
  {
  }

  lemma ExtractIsDecode(fmt: seq<byte> -> seq<byte>, pad: nat, p: Slot, min: int, value: seq<byte>)
    ensures Extract(fmt, pad)(p, min, value) == Decode(p, min, Reverse(value), fmt, pad)
  {
  }

  lemma DecodeUnsignedRegister(key: string, min: int, payload: seq<byte>, fmt: seq<byte> -> seq<byte>, pad: nat)
    requires key == DecimalString(min) && Split(key, {':'})[0] == key
    ensures Decode(Slot(key, min, UInt16), min, payload, fmt, pad)
            == AsNumber(ModbusDemux.ReadWords(key, key, payload, 1, false, fmt))
  {
  }



}
