/** The command records of the drivers: `EquipSetRequestModel` (what a
  * set-point command writes and reads) and `EquipSetResponseModel` (its
  * result). The OPC UA driver carries its own copy of the response class,
  * field for field and method for method the same; this one stands for both. */
module EquipSet {
  import opened Wrappers
  import opened ModbusModels

  /** `ControlType`: its three members (values 0, 1 and 2), or any other
    * value of the underlying `int`, which the enum type also holds. */
  datatype ControlType = Write | Read | WriteRead | Undefined(value: int)

  /** What a response carries in `Data` (an `object`): nothing, the point a
    * per-item result is about, or the list of per-item results. */
  datatype Data = NoData | Item(input: ModbusInput) | Replies(replies: seq<Reply>)

  /** A response's fields at one moment. */
  datatype Reply = Reply(code: int, message: Option<string>, data: Data)

  const SuccessCode := 200
  const FailureCode := 400
  const SuccessMessage := "命令执行成功"

  /** The two ways a response is completed. */
  datatype Call = OkCall(data: Data) | FailCall(msg: string, data: Data)

  /** The response after one `Ok` or `Fail` call. */
  function After(r: Reply, c: Call): Reply {
    match c
    case OkCall(data) => Reply(SuccessCode, Some(SuccessMessage), data)
    case FailCall(msg, data) => Reply(FailureCode, Some(msg), data)
  }

  /** The response after a series of calls, in order. */
  function AfterAll(r: Reply, calls: seq<Call>): Reply {
    if |calls| == 0 then r else After(AfterAll(r, calls[..|calls| - 1]), calls[|calls| - 1])
  }

  /** Neither call reads the response it changes, so the last call decides
    * every field: an `Ok` after a `Fail` gives 200 again, and a `Fail`
    * after an `Ok` gives 400. */
  lemma {:induction false} LastCallDecides(r: Reply, calls: seq<Call>)
    requires |calls| > 0
    ensures var last := calls[|calls| - 1];
            AfterAll(r, calls) == After(Reply(0, None, NoData), last)
    ensures var last := calls[|calls| - 1];
            AfterAll(r, calls).code == (if last.OkCall? then SuccessCode else FailureCode) &&
            AfterAll(r, calls).data == last.data
  {
  }

  /** The response is a success exactly when no call was made, or the last
    * call was `Ok`. */
  lemma {:induction false} SucceedsAfterAll(calls: seq<Call>)
    ensures AfterAll(Reply(SuccessCode, None, NoData), calls).code == SuccessCode <==>
            |calls| == 0 || calls[|calls| - 1].OkCall?
  {
  }

  class EquipSetResponseModel {
    var code: int
    var message: Option<string>
    var data: Data

    /** A new response says success (`Code` is 200) and has no message. */
    constructor ()
      ensures View() == Reply(SuccessCode, None, NoData)
    {
      code := SuccessCode;
      message := None;
      data := NoData;
    }

    function View(): Reply
      reads this
    {
      Reply(code, message, data)
    }

    method Fail(msg: string, data: Data)
      modifies this
      ensures View() == After(old(View()), FailCall(msg, data))
    {
      this.data := data;
      code := FailureCode;
      message := Some(msg);
    }

    method Ok(data: Data)
      modifies this
      ensures View() == After(old(View()), OkCall(data))
    {
      this.data := data;
      code := SuccessCode;
      message := Some(SuccessMessage);
    }
  }

  class EquipSetRequestModel {
    const controlType: ControlType
    var writeList: seq<ModbusInput>
    var readList: seq<ModbusInput>

    /** A new request has empty write and read lists. */
    constructor (controlType: ControlType)
      ensures this.controlType == controlType && writeList == [] && readList == []
    {
      this.controlType := controlType;
      writeList := [];
      readList := [];
    }
  }
}
