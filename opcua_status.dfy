/** `OpcUASessionStatus` of the OPC UA driver: when a session was created,
  * when it last showed a sign of life, and how long it may stay silent.
  * Times are milliseconds on one clock, passed in as `now`; the timeout is
  * given in seconds, as in the driver. */
module OpcUaStatus {
  import opened Wrappers

  /** The timeout a status gets when none is given, in seconds. */
  const DefaultTimeOut := 10
  const MillisPerSecond := 1000

  /** A session is alive while less than `timeOut` seconds have passed since
    * `since`; the comparison is strict. */
  predicate AliveAt(since: int, timeOut: int, now: int) {
    now - since < timeOut * MillisPerSecond
  }

  /** Liveness only ends: alive at some time means alive at every earlier
    * time, and once dead a session stays dead. */
  lemma AliveEarlier(since: int, timeOut: int, now: int, earlier: int)
    requires earlier <= now && AliveAt(since, timeOut, now)
    ensures AliveAt(since, timeOut, earlier)
  {
  }

  /** A session is alive exactly until its deadline `since + timeOut` s. */
  lemma AliveUntilDeadline(since: int, timeOut: int, now: int)
    ensures AliveAt(since, timeOut, now) <==> now < since + timeOut * MillisPerSecond
  {
  }

  class OpcUaSessionStatus {
    /** `_timeOut`, in seconds. */
    const timeOut: int
    var lastKeepAliveTime: Option<int>
    var sessionCreateTime: int

    /** A new status was created `now`, has seen no keep-alive and has the
      * given timeout, 10 seconds by default. */
    constructor (now: int, timeOutSec: int := DefaultTimeOut)
      ensures timeOut == timeOutSec && sessionCreateTime == now && lastKeepAliveTime == None
    {
      timeOut := timeOutSec;
      sessionCreateTime := now;
      lastKeepAliveTime := None;
    }

    /** The time liveness is measured from: the last keep-alive, or the
      * creation time before any keep-alive. */
    function CheckTime(): int
      reads this
    {
      match lastKeepAliveTime
      case Some(t) => t
      case None => sessionCreateTime
    }

    function GetTimeOutStatus(now: int): (alive: bool)
      reads this
      ensures lastKeepAliveTime.None? ==> (alive <==> now < sessionCreateTime + timeOut * MillisPerSecond)
      ensures lastKeepAliveTime.Some? ==> (alive <==> now < lastKeepAliveTime.value + timeOut * MillisPerSecond)
    {
      AliveAt(CheckTime(), timeOut, now)
    }

    /** Records a keep-alive `now`; with a positive timeout the session is
      * then alive at that moment, whatever its state before. */
    method SetOnceKeepAliveTime(now: int)
      modifies this
      ensures lastKeepAliveTime == Some(now) && sessionCreateTime == old(sessionCreateTime)
      ensures timeOut > 0 ==> GetTimeOutStatus(now)
    {
      lastKeepAliveTime := Some(now);
    }
  }

  /** A new status with a positive timeout is alive when created, and stays
    * alive for exactly its timeout unless a keep-alive comes. */
  lemma NewStatusAlive(s: OpcUaSessionStatus, now: int, later: int)
    requires s.lastKeepAliveTime.None? && s.sessionCreateTime == now
    ensures s.GetTimeOutStatus(later) <==> later < now + s.timeOut * MillisPerSecond
  {
  }
}
