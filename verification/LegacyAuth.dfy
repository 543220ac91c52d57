/** The session manager as an object over its tables, each statement tied to a step of module Sessions. */
module LegacyAuth {
  import opened Common
  import opened Sessions

  class LegacyAuthManager {
    var sessions: map<Id, Session>
    var passwords: set<nat>

    /** The tables seen at a time, with nobody else about. */
    function At(now: int): (r: State)
      reads this
    {
      State(now, sessions, passwords, map[], [], {}, map[], false, false)
    }

    constructor (passwords: set<nat>)
      ensures sessions == map[] && this.passwords == passwords
    {
      sessions := map[];
      this.passwords := passwords;
    }

    /** The insert fails on an id that is in use. */
    method CreateLegacySession(sessionId: Id, did: string, password: nat, now: int) returns (ok: bool)
      modifies this`sessions
      ensures ok <==> sessionId !in old(sessions)
      ensures sessions == if ok then LoginStep(old(At(now)), sessionId, did, password).rows else old(sessions)
      ensures ok ==>
                sessions == old(sessions)[sessionId := Session(did, password, Stored(now), Stored(now + 90 * DAY), None)]
    {
      if sessionId in sessions {
        return false;
      }
      ok := true;
      sessions := sessions[sessionId := Session(did, password, Stored(now), Stored(now + REFRESH_TTL), None)];
    }

    method GetLegacySession(sessionId: Id, now: int) returns (r: Option<Session>)
      modifies this`sessions
      ensures sessions == LookupStep(old(At(now)), sessionId).rows
      ensures r == if sessionId in sessions then Some(sessions[sessionId]) else None
      ensures r.Some? <==> sessionId in old(sessions) && old(sessions)[sessionId].expiresAt > now
      ensures r.Some? ==> sessions == old(sessions)
      ensures forall id :: id != sessionId ==> (id in sessions <==> id in old(sessions))
      ensures forall id :: id in sessions ==> sessions[id] == old(sessions)[id]
    {
      if sessionId !in sessions {
        return None;
      }
      var session := sessions[sessionId];
      if session.expiresAt <= now {
        sessions := sessions - {sessionId};
        return None;
      }
      r := Some(session);
    }

    method DeleteExpired(did: string, now: int)
      modifies this`sessions
      ensures sessions == old(sessions) - Expired(old(At(now)), did)
      ensures forall id :: id in sessions <==>
                             id in old(sessions) && !(old(sessions)[id].did == did && old(sessions)[id].expiresAt <= now)
    {
      sessions := map id | id in sessions && !(sessions[id].did == did && sessions[id].expiresAt <= now) :: sessions[id];
    }

    /** A password change or a takedown ends all sessions of the account and no other. */
    method RevokeSessions(did: string)
      modifies this`sessions
      ensures forall id :: id in sessions <==> id in old(sessions) && old(sessions)[id].did != did
      ensures forall id :: id in sessions ==> sessions[id] == old(sessions)[id]
      ensures forall now :: sessions == Do(old(At(now)), Revoke(did)).rows
    {
      sessions := map id | id in sessions && sessions[id].did != did :: sessions[id];
    }

    /** The compare-and-set transaction. */
    method CommitRotation(sessionId: Id, row: Session, now: int, nextId: Id) returns (success: bool)
      modifies this`sessions
      ensures success == Wins(old(At(now)), Ready(sessionId, 0, row, now, nextId))
      ensures sessions == CommitStep(old(At(now)), 0, Ready(sessionId, 0, row, now, nextId)).rows
      ensures success <==> sessionId in old(sessions) && old(sessions)[sessionId].next in {None, Some(nextId)}
      ensures !success ==> sessions == old(sessions)
    {
      var graceExpiresAt := now + GRACE_TTL;
      var shortenedExpiresAt := if graceExpiresAt < row.expiresAt then graceExpiresAt else row.expiresAt;
      if sessionId !in sessions {
        return false;
      }
      var current := sessions[sessionId];
      if current.next.Some? && current.next != Some(nextId) {
        return false;
      }
      sessions := sessions[sessionId := current.(next := Some(nextId), expiresAt := Stored(shortenedExpiresAt))];
      if nextId !in sessions {
        sessions := sessions[nextId := Session(row.did, row.password, Stored(now), Stored(now + REFRESH_TTL), None)];
      }
      success := true;
    }

    /**
     * `rotateLegacyRefresh` when nobody interferes: it does what the steps Rotate, Select, Tidy and
     * Commit do in a row, and never has to start over.
     */
    method RotateLegacyRefresh(sessionId: Id, candidate: Id, now: int) returns (outcome: Outcome)
      modifies this`sessions
      ensures var s1 := SelectStep(old(At(now)), 0, Waiting(sessionId, 0));
              if s1.outcomes != [] then outcome == s1.outcomes[0] && sessions == old(sessions)
              else
                var s2 := TidyStep(s1, 0, s1.callers[0], candidate);
                if s2.outcomes != [] then outcome == s2.outcomes[0] && sessions == s2.rows
                else
                  var s3 := CommitStep(s2, 0, s2.callers[0]);
                  s3.outcomes == [outcome] && sessions == s3.rows
      // The same in terms of the tables: the session and its app password are both needed.
      ensures outcome == InvalidToken(sessionId) <==>
              !(sessionId in old(sessions) && old(sessions)[sessionId].password in passwords)
      ensures outcome == ExpiredToken(sessionId) <==>
              && sessionId in old(sessions) && old(sessions)[sessionId].password in passwords
              && old(sessions)[sessionId].expiresAt <= now
      ensures outcome.Rotated? <==>
              && sessionId in old(sessions) && old(sessions)[sessionId].password in passwords
              && old(sessions)[sessionId].expiresAt > now
      ensures outcome.InvalidToken? ==> sessions == old(sessions)
      ensures outcome.ExpiredToken? ==> sessions == old(sessions) - Old(old(sessions), old(sessions)[sessionId].did, now)
      ensures outcome.Rotated? && candidate != sessionId ==>
                && sessionId in old(sessions) && outcome.sid == sessionId
                && sessions == RotatedTable(old(sessions), sessionId, outcome.nextId, now)
                && outcome.nextId == match old(sessions)[sessionId].next { case Some(n) => n case None => candidate }
    {
      if sessionId !in sessions || sessions[sessionId].password !in passwords {
        return InvalidToken(sessionId);
      }
      var row := sessions[sessionId];
      DeleteExpired(row.did, now);
      if row.expiresAt <= now {
        return ExpiredToken(sessionId);
      }
      var nextId := if row.next.Some? then row.next.value else candidate;
      var success := CommitRotation(sessionId, row, now, nextId);
      outcome := Rotated(sessionId, nextId);
    }
  }

  const DAY: int := 24 * 60 * 60 * 1000

  /** The account's sessions that have expired. */
  function Old(table: map<Id, Session>, did: string, now: int): (r: set<Id>) {
    set id | id in table && table[id].did == did && table[id].expiresAt <= now
  }

  /**
   * The table after a rotation: the account's expired sessions are gone, the session points to its
   * successor and ends within two hours, and the successor is there, made for 90 days if it was not.
   */
  function RotatedTable(table: map<Id, Session>, sid: Id, nextId: Id, now: int): (r: map<Id, Session>)
    requires sid in table
  {
    var was := table[sid];
    var tidy := table - Old(table, was.did, now);
    var until := if now + 2 * 60 * 60 * 1000 < was.expiresAt then now + 2 * 60 * 60 * 1000 else was.expiresAt;
    var marked := tidy[sid := was.(next := Some(nextId), expiresAt := Stored(until))];
    if nextId in marked then marked
    else marked[nextId := Session(was.did, was.password, Stored(now), Stored(now + 90 * DAY), None)]
  }
}
