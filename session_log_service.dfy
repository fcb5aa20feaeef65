/** The backend's append-only audit log of event mutations and its two
    queries. */
module SessionLogs {
  import opened EventTypes
  import opened Seqs

  /** One audit record. `id` is the identity the log repository assigns;
      the model numbers records 1, 2, 3, ... in append order. */
  datatype SessionLog = SessionLog(
    id: int,
    ipAddress: string,
    action: string,
    eventId: Option<int>,
    timestamp: int,
    location: string)

  function HasIp(ip: string): SessionLog -> bool {
    (l: SessionLog) => l.ipAddress == ip
  }

  function HasEventId(eventId: int): SessionLog -> bool {
    (l: SessionLog) => l.eventId == Some(eventId)
  }

  /** Appending a record extends the by-address query by that record when
      it is from the address, and leaves it as it was otherwise. */
  lemma {:induction false} LogActionExtendsIpQuery(logs: seq<SessionLog>, log: SessionLog, ipAddress: string)
    ensures Filter(logs + [log], HasIp(ipAddress)) ==
      Filter(logs, HasIp(ipAddress)) + (if log.ipAddress == ipAddress then [log] else [])
  {
    FilterAppend(logs, [log], HasIp(ipAddress));
  }

  /** Appending a record extends the by-event query by that record when it
      is about the event, and leaves it as it was otherwise. */
  lemma {:induction false} LogActionExtendsEventQuery(logs: seq<SessionLog>, log: SessionLog, eventId: int)
    ensures Filter(logs + [log], HasEventId(eventId)) ==
      Filter(logs, HasEventId(eventId)) + (if log.eventId == Some(eventId) then [log] else [])
  {
    FilterAppend(logs, [log], HasEventId(eventId));
  }

  class SessionLogService {
    /** The log repository's records, oldest first. */
    var logs: seq<SessionLog>

    constructor ()
      ensures logs == []
    {
      logs := [];
    }

    /** `logAction`: appends exactly one record carrying the arguments and
        the clock reading `now`; earlier records are unchanged. */
    method LogAction(ipAddress: string, action: string, eventId: Option<int>, location: string, now: int)
      modifies this
      ensures logs == old(logs) + [SessionLog(|old(logs)| + 1, ipAddress, action, eventId, now, location)]
    {
      var log := SessionLog(|logs| + 1, ipAddress, action, eventId, now, location);
      logs := logs + [log];
    }

    /** `findByIpAddress`: the records from `ipAddress`, in log order. */
    function GetLogsByIp(ipAddress: string): (r: seq<SessionLog>)
      reads this
      ensures forall i :: 0 <= i < |r| ==> r[i] in logs && r[i].ipAddress == ipAddress
      ensures forall i :: 0 <= i < |logs| && logs[i].ipAddress == ipAddress ==> logs[i] in r
    {
      Filter(logs, HasIp(ipAddress))
    }

    /** `findByEventId`: the records about `eventId`, in log order. */
    function GetLogsByEventId(eventId: int): (r: seq<SessionLog>)
      reads this
      ensures forall i :: 0 <= i < |r| ==> r[i] in logs && r[i].eventId == Some(eventId)
      ensures forall i :: 0 <= i < |logs| && logs[i].eventId == Some(eventId) ==> logs[i] in r
    {
      Filter(logs, HasEventId(eventId))
    }
  }
}
