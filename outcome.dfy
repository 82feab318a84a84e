/** What a driver call hands back: either the exception escapes the call, or a
  * `Result` comes back with `IsSucceed`, `Value` and the reason it failed. */
module ModbusResult {
  import opened Wrappers
  import opened Bytes

  /** Why a call reports `IsSucceed == false`. */
  datatype Err =
    | NoError
    | SendFailed        // the send's own failed result is passed on
    | TagMismatch       // "响应结果校验失败": the reply does not carry the request tag
    | EmptyReply        // "响应结果为空"
    | CrcMismatch       // "响应结果CRC16验证失败"
    | Caught            // an exception caught inside the call
    | DeviceError(code: byte)  // `ModbusHelper.ErrMsg` of the exception code

  datatype Outcome =
    | Escaped
    | Returned(isSucceed: bool, value: Option<seq<byte>>, err: Err)
}
