/** The reliable send of the Modbus clients: `SendPackageReliable` of the
  * serial base and `SendPackage` of the RTU-over-TCP client, which share one
  * shape. A send that fails is logged, the connection is reopened and the
  * send is made once more; an exception from a send is handled the same way
  * in the `catch`, and that includes an exception from the retry itself. */
module ModbusReliable {
  import opened Bytes

  /** What one `_sendPackage()` does: it throws, or returns a result. */
  datatype Attempt = Threw | Answered(isSucceed: bool, reply: seq<byte>)

  /** What the reliable send does: an exception escapes (from the send made
    * inside `catch`), the failed `Connect()` result is returned, or a send's
    * result is returned. */
  datatype Sent = Escapes | ConnectFailed | Returned(isSucceed: bool, reply: seq<byte>)

  predicate Failed(a: Attempt) {
    a.Threw? || !a.isSucceed
  }

  /** `send(n)` is what the `n`-th send does and `connect(n)` whether the
    * `n`-th `Connect()` succeeds (a failed connect is returned, it does not
    * throw). `warnings` counts the `WarningLog` calls. */
  method SendPackageReliable(send: nat -> Attempt, connect: nat -> bool)
    returns (r: Sent, sends: nat, connects: nat, warnings: nat)
    ensures 1 <= sends <= 3 && connects <= 2 && sends - 1 <= connects <= sends
    ensures warnings == connects
    // every send but the last failed, every connect but the last succeeded
    ensures forall n :: 0 <= n < sends - 1 ==> Failed(send(n))
    ensures forall n :: 0 <= n < connects - 1 ==> connect(n)
    // a send that succeeds at once is returned without a reconnect
    ensures !Failed(send(0)) ==> sends == 1 && connects == 0 && r == Returned(true, send(0).reply)
    // a failed connect is returned and nothing is sent after it
    ensures r.ConnectFailed? <==> connects == sends && !connect(connects - 1)
    ensures r.Returned? ==> send(sends - 1) == Answered(r.isSucceed, r.reply)
    ensures r.Escapes? <==> send(sends - 1).Threw? && connects == sends - 1 && sends >= 2
    // a connect follows every failed send that is not the third
    ensures r.Returned? && !r.isSucceed ==> sends >= 2
    ensures sends == 3 ==> send(0).Answered? && send(1).Threw?
  {
    sends, connects, warnings := 0, 0, 0;
    var threw := false;
    // try
    var result := send(sends);
    sends := sends + 1;
    if result.Threw? {
      threw := true;
    } else if !result.isSucceed {
      warnings := warnings + 1;
      var conentResult := connect(connects);
      connects := connects + 1;
      if !conentResult {
        return ConnectFailed, sends, connects, warnings;
      }
      result := send(sends);
      sends := sends + 1;
      if result.Threw? {
        threw := true;
      } else {
        return Returned(result.isSucceed, result.reply), sends, connects, warnings;
      }
    } else {
      return Returned(true, result.reply), sends, connects, warnings;
    }
    // catch
    assert threw;
    warnings := warnings + 1;
    var conentResult := connect(connects);
    connects := connects + 1;
    if !conentResult {
      return ConnectFailed, sends, connects, warnings;
    }
    result := send(sends);
    sends := sends + 1;
    if result.Threw? {
      return Escapes, sends, connects, warnings;
    }
    return Returned(result.isSucceed, result.reply), sends, connects, warnings;
  }
}
