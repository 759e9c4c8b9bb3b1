/** The security audit tables: visitor log entries and second-factor
  * verification attempts. */
module Logs {
  import opened Common

  /** One visitor log row (timestamps in seconds). */
  datatype VisitorLog = VisitorLog(
    ip: string,
    path: string,
    httpMethod: string,
    isAuthenticated: bool,
    usernameAttempted: Option<string>,
    suspicious: bool,
    statusCode: Option<int>,
    timestamp: int,
    unixTimestamp: int)

  /** The row as saving stores it: a zero unix timestamp is filled in with
    * the current time, anything else is kept. */
  function Saved(log: VisitorLog, now: int): (r: VisitorLog)
    ensures r == log.(unixTimestamp := r.unixTimestamp)
    ensures log.unixTimestamp != 0 ==> r.unixTimestamp == log.unixTimestamp
    ensures log.unixTimestamp == 0 ==> r.unixTimestamp == now
    ensures r.unixTimestamp == 0 ==> now == 0
  {
    if log.unixTimestamp == 0 then log.(unixTimestamp := now) else log
  }

  /** Saving stamps a row once: re-saving later keeps the first stamp, as
    * long as the first save did not itself happen at time zero. */
  lemma SaveStampsOnce(log: VisitorLog, first: int, later: int)
    requires first != 0
    ensures Saved(log, first).unixTimestamp != 0
    ensures Saved(Saved(log, first), later) == Saved(log, first)
  {
  }

  /** One second-factor verification attempt (the columns the retention
    * sweep reads). */
  datatype TwoFactorAttempt = TwoFactorAttempt(userId: int, ip: string, success: bool, createdAt: int)

  class AuditLog {
    var visitorLogs: seq<VisitorLog>
    var twoFactorAttempts: seq<TwoFactorAttempt>

    constructor ()
      ensures visitorLogs == [] && twoFactorAttempts == []
    {
      visitorLogs := [];
      twoFactorAttempts := [];
    }

    /** Insert a visitor log row, stamping it as saving does. */
    method InsertVisitorLog(log: VisitorLog, now: int)
      modifies this
      ensures visitorLogs == old(visitorLogs) + [Saved(log, now)]
      ensures twoFactorAttempts == old(twoFactorAttempts)
    {
      visitorLogs := visitorLogs + [Saved(log, now)];
    }
  }
}
