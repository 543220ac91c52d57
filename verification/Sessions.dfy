/**
 * Refresh-token rotation (accounts/legacy-auth.ts) as a transition system. A rotation is three
 * separate steps (read, tidy, transaction), so any number of callers may race.
 */
module Sessions {
  import opened Common

  type Id = string

  /** Times are milliseconds; the database keeps whole seconds. */
  const REFRESH_TTL: int := 90 * 24 * 60 * 60 * 1000
  const GRACE_TTL: int := 2 * 60 * 60 * 1000

  function Stored(time: int): (r: int) {
    time / 1000 * 1000
  }

  datatype Session = Session(did: string, password: nat, createdAt: int, expiresAt: int, next: Option<Id>)

  /** Where one call of `rotateLegacyRefresh` stands; `attempt` counts its retries. */
  datatype Caller =
    | Idle
    | Waiting(sid: Id, attempt: nat)
    | Holding(sid: Id, attempt: nat, row: Session)
    | Ready(sid: Id, attempt: nat, row: Session, now: int, nextId: Id)

  datatype Outcome = Rotated(sid: Id, nextId: Id) | InvalidToken(sid: Id) | ExpiredToken(sid: Id)

  /** The first rotation of a session: its successor, the caller's time, and the shortened expiry. */
  datatype Link = Link(next: Id, at: int, expiresAt: int, did: string)

  /**
   * The tables, the callers, and history: every id ever generated or presented, the first rotation of every
   * session, whether a lookup has removed a row, and whether a successor was inserted again.
   */
  datatype State = State(
    clock: int,
    rows: map<Id, Session>,
    passwords: set<nat>,
    callers: map<nat, Caller>,
    outcomes: seq<Outcome>,
    known: set<Id>,
    links: map<Id, Link>,
    looked: bool,
    recreated: bool)

  function Fresh(clock: int, passwords: set<nat>): (r: State) {
    State(clock, map[], passwords, map[], [], {}, map[], false, false)
  }

  datatype Action =
    | Tick(ms: nat)
    | Login(id: Id, did: string, password: nat)
    | RemovePassword(password: nat)
    | Revoke(did: string)
    | Lookup(id: Id)
    | Rotate(caller: nat, sid: Id)
    | Select(caller: nat)
    | Tidy(caller: nat, candidate: Id)
    | Commit(caller: nat)

  function CallerAt(s: State, k: nat): (r: Caller) {
    if k in s.callers then s.callers[k] else Idle
  }

  /** A caller that would rotate a session for the first time, to an id nobody else has seen yet. */
  predicate Proposes(c: Caller) {
    c.Ready? && c.row.next.None?
  }

  /** Generated ids are new, a token is presented only once issued, and a caller takes the step it is at. */
  predicate Enabled(s: State, a: Action) {
    match a
    case Tick(_) => true
    case Login(id, _, _) => id !in s.known
    case RemovePassword(_) => true
    case Revoke(_) => true
    case Lookup(_) => true
    case Rotate(k, sid) =>
      && CallerAt(s, k).Idle?
      && (forall j :: j in s.callers && Proposes(s.callers[j]) ==> s.callers[j].nextId != sid)
    case Select(k) => CallerAt(s, k).Waiting?
    case Tidy(k, candidate) => CallerAt(s, k).Holding? && candidate !in s.known
    case Commit(k) => CallerAt(s, k).Ready?
  }

  /** `createLegacySession`. */
  function LoginStep(s: State, id: Id, did: string, password: nat): (r: State) {
    s.(rows := s.rows[id := Session(did, password, Stored(s.clock), Stored(s.clock + REFRESH_TTL), None)],
       known := s.known + {id})
  }

  /** `getLegacySession`: an expired row is deleted on sight. */
  function LookupStep(s: State, id: Id): (r: State) {
    if id in s.rows && s.rows[id].expiresAt <= s.clock then s.(rows := s.rows - {id}, looked := true) else s
  }

  function Done(s: State, k: nat, outcome: Outcome): (r: State) {
    s.(callers := s.callers[k := Idle], outcomes := s.outcomes + [outcome])
  }

  /** The row joined with its app password. */
  function SelectStep(s: State, k: nat, c: Caller): (r: State)
    requires c.Waiting?
  {
    if c.sid in s.rows && s.rows[c.sid].password in s.passwords
    then s.(callers := s.callers[k := Holding(c.sid, c.attempt, s.rows[c.sid])])
    else Done(s, k, InvalidToken(c.sid))
  }

  /** The expired sessions of one account. */
  function Expired(s: State, did: string): (r: set<Id>) {
    set id | id in s.rows && s.rows[id].did == did && s.rows[id].expiresAt <= s.clock
  }

  /** All sessions of one account, which a password change or a takedown deletes. */
  function Owned(s: State, did: string): (r: set<Id>) {
    set id | id in s.rows && s.rows[id].did == did
  }

  /** Takes the time, deletes the account's expired rows, and refuses an expired token. */
  function TidyStep(s: State, k: nat, c: Caller, candidate: Id): (r: State)
    requires c.Holding?
  {
    var t := s.(rows := s.rows - Expired(s, c.row.did));
    if c.row.expiresAt <= s.clock then Done(t, k, ExpiredToken(c.sid))
    else if c.row.next.Some? then
      t.(callers := t.callers[k := Ready(c.sid, c.attempt, c.row, s.clock, c.row.next.value)])
    else
      t.(callers := t.callers[k := Ready(c.sid, c.attempt, c.row, s.clock, candidate)], known := t.known + {candidate})
  }

  function Shortened(now: int, expiresAt: int): (r: int) {
    Stored(if now + GRACE_TTL < expiresAt then now + GRACE_TTL else expiresAt)
  }

  /** The update's condition: the row is there and not rotated to anything else. */
  predicate Wins(s: State, c: Caller)
    requires c.Ready?
  {
    c.sid in s.rows && (s.rows[c.sid].next.None? || s.rows[c.sid].next == Some(c.nextId))
  }

  /** The transaction, or the decision to start over. */
  function CommitStep(s: State, k: nat, c: Caller): (r: State)
    requires c.Ready?
  {
    if !Wins(s, c) then s.(callers := s.callers[k := Waiting(c.sid, c.attempt + 1)])
    else
      var short := Shortened(c.now, c.row.expiresAt);
      var before := s.rows[c.sid];
      var updated := s.rows[c.sid := before.(next := Some(c.nextId), expiresAt := short)];
      var inserted :=
        if c.nextId in updated then updated
        else updated[c.nextId := Session(c.row.did, c.row.password, Stored(c.now), Stored(c.now + REFRESH_TTL), None)];
      Done(s.(rows := inserted,
              links := if c.sid in s.links then s.links else s.links[c.sid := Link(c.nextId, c.now, short, c.row.did)],
              recreated := s.recreated || (before.next.Some? && c.nextId !in s.rows)),
           k, Rotated(c.sid, c.nextId))
  }

  function Do(s: State, a: Action): (r: State)
    requires Enabled(s, a)
  {
    match a
    case Tick(ms) => s.(clock := s.clock + ms)
    case Login(id, did, password) => LoginStep(s, id, did, password)
    case RemovePassword(p) => s.(passwords := s.passwords - {p})
    case Revoke(did) => s.(rows := s.rows - Owned(s, did))
    case Lookup(id) => LookupStep(s, id)
    case Rotate(k, sid) => s.(callers := s.callers[k := Waiting(sid, 0)], known := s.known + {sid})
    case Select(k) => SelectStep(s, k, CallerAt(s, k))
    case Tidy(k, candidate) => TidyStep(s, k, CallerAt(s, k), candidate)
    case Commit(k) => CommitStep(s, k, CallerAt(s, k))
  }

  predicate AllEnabled(s: State, actions: seq<Action>)
    decreases |actions|
  {
    actions == [] || (Enabled(s, actions[0]) && AllEnabled(Do(s, actions[0]), actions[1..]))
  }

  function Run(s: State, actions: seq<Action>): (r: State)
    requires AllEnabled(s, actions)
    decreases |actions|
  {
    if actions == [] then s else Run(Do(s, actions[0]), actions[1..])
  }
}
