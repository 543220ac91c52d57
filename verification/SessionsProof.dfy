/** What rotation keeps in every interleaving, as long as no successor is inserted twice. */
module SessionsProof {
  import opened Common
  import opened Sessions

  type Rows = map<Id, Session>
  type Links = map<Id, Link>
  type Callers = map<nat, Caller>

  predicate HasRow(c: Caller) {
    c.Holding? || c.Ready?
  }

  /** Every id in the tables has been generated or presented. */
  predicate KnownIds(rows: Rows, links: Links, known: set<Id>) {
    && (forall id :: id in rows ==> id in known)
    && (forall p :: p in links ==> p in known && links[p].next in known)
  }

  predicate KnownToCallers(callers: Callers, known: set<Id>) {
    && (forall k :: k in callers && !callers[k].Idle? ==> callers[k].sid in known)
    && (forall k :: k in callers && callers[k].Ready? ==> callers[k].nextId in known)
  }

  /** An id no table refers to. */
  predicate Unused(rows: Rows, links: Links, x: Id) {
    && x !in rows && x !in links
    && (forall p :: p in links ==> links[p].next != x)
  }

  /** A proposed successor is unused, and the caller's own. */
  predicate Proposals(rows: Rows, links: Links, callers: Callers) {
    && (forall k :: k in callers && Proposes(callers[k]) ==> Unused(rows, links, callers[k].nextId))
    && (forall j, k :: j in callers && k in callers && Proposes(callers[j]) && !callers[k].Idle? ==>
                         callers[k].sid != callers[j].nextId)
    && (forall j, k :: j in callers && k in callers && j != k && Proposes(callers[j]) && Proposes(callers[k]) ==>
                         callers[j].nextId != callers[k].nextId)
  }

  /** A row shows the first rotation of its session, for good. */
  predicate RowShows(links: Links, id: Id, row: Session) {
    && Stored(row.expiresAt) == row.expiresAt
    && row.next == (if id in links then Some(links[id].next) else None)
    && (id in links ==> row.expiresAt == links[id].expiresAt && row.did == links[id].did)
  }

  predicate RowsShowLinks(rows: Rows, links: Links) {
    forall id :: id in rows ==> RowShows(links, id, rows[id])
  }

  predicate LinksSane(links: Links, clock: int) {
    && (forall p :: p in links ==>
          && links[p].at <= clock
          && Stored(links[p].expiresAt) == links[p].expiresAt
          && links[p].expiresAt <= links[p].at + GRACE_TTL)
    && (forall p, q :: p in links && q in links && links[p].next == links[q].next ==> p == q)
  }

  /** A successor never expires before its predecessor, and is there as long as that one is live. */
  predicate Succeeds(rows: Rows, links: Links, p: Id, looked: bool, clock: int)
    requires p in links
  {
    var link := links[p];
    && (link.next in rows ==> rows[link.next].expiresAt >= link.expiresAt && rows[link.next].did == link.did)
    && (link.next in links ==> links[link.next].expiresAt >= link.expiresAt)
    && (p in rows && link.next !in rows ==> looked && link.expiresAt <= clock)
  }

  predicate Successors(rows: Rows, links: Links, looked: bool, clock: int) {
    forall p :: p in links ==> Succeeds(rows, links, p, looked, clock)
  }

  /** What a caller read is still true in the ways that matter. */
  predicate Current(rows: Rows, links: Links, clock: int, c: Caller)
    requires HasRow(c)
  {
    && Stored(c.row.expiresAt) == c.row.expiresAt
    && (c.sid in rows ==> c.row.did == rows[c.sid].did)
    && (c.sid in links ==> c.row.did == links[c.sid].did)
    && (c.row.next.Some? ==>
          c.sid in links && links[c.sid].next == c.row.next.value && c.row.expiresAt == links[c.sid].expiresAt)
    && (forall p :: p in links && links[p].next == c.sid ==> c.row.expiresAt >= links[p].expiresAt)
    && (c.Ready? ==>
          && c.now <= clock
          && (c.row.next.Some? ==> c.nextId == c.row.next.value && c.now >= links[c.sid].at)
          && (forall p :: p in links && links[p].next == c.sid ==> c.now >= links[p].at))
  }

  predicate Snapshots(rows: Rows, links: Links, clock: int, callers: Callers) {
    forall k :: k in callers && HasRow(callers[k]) ==> Current(rows, links, clock, callers[k])
  }

  /** A caller retries because the session was rotated or is gone, and a second time only if it is gone. */
  predicate Retrying(rows: Rows, links: Links, c: Caller)
    requires !c.Idle?
  {
    && c.attempt <= 2
    && (c.attempt >= 1 ==> c.sid in links || c.sid !in rows)
    && (c.attempt >= 1 && HasRow(c) ==> c.row.next.Some?)
    && (c.attempt >= 2 ==> c.Waiting? && c.sid !in rows)
  }

  predicate Retries(rows: Rows, links: Links, callers: Callers) {
    forall k :: k in callers && !callers[k].Idle? ==> Retrying(rows, links, callers[k])
  }

  /** Every token handed out for a session is for its one successor. */
  predicate Agreed(links: Links, outcomes: seq<Outcome>) {
    forall i :: 0 <= i < |outcomes| && outcomes[i].Rotated? ==>
                  outcomes[i].sid in links && links[outcomes[i].sid].next == outcomes[i].nextId
  }

  predicate Tables(rows: Rows, links: Links, looked: bool, clock: int) {
    RowsShowLinks(rows, links) && LinksSane(links, clock) && Successors(rows, links, looked, clock)
  }

  predicate Calls(rows: Rows, links: Links, clock: int, callers: Callers) {
    Proposals(rows, links, callers) && Snapshots(rows, links, clock, callers) && Retries(rows, links, callers)
  }

  predicate Inv(s: State) {
    && !s.recreated && s.clock >= 0
    && KnownIds(s.rows, s.links, s.known) && KnownToCallers(s.callers, s.known)
    && Tables(s.rows, s.links, s.looked, s.clock)
    && Calls(s.rows, s.links, s.clock, s.callers)
    && Agreed(s.links, s.outcomes)
  }

  lemma FreshInv(clock: nat, passwords: set<nat>)
    ensures Inv(Fresh(clock, passwords))
  {
  }

  lemma StoredFacts(a: int, b: int)
    ensures Stored(a) <= a && Stored(Stored(a)) == Stored(a)
    ensures a <= b ==> Stored(a) <= Stored(b)
  {
  }

  // ---------------------------------------------------------------------------------
  // Steps that let time pass or change rows

  lemma TickKeeps(s: State, ms: nat)
    requires Inv(s)
    ensures Inv(Do(s, Tick(ms)))
  {
    hide RowsShowLinks, Agreed, KnownIds, KnownToCallers, Proposals, Retries, RowShows, Retrying, Unused;
  }

  lemma LoginTables(s: State, id: Id, row: Session)
    requires Tables(s.rows, s.links, s.looked, s.clock) && KnownIds(s.rows, s.links, s.known) && id !in s.known
    requires Stored(row.expiresAt) == row.expiresAt && row.next.None?
    ensures Tables(s.rows[id := row], s.links, s.looked, s.clock)
  {
  }

  lemma LoginCalls(s: State, id: Id, row: Session)
    requires Calls(s.rows, s.links, s.clock, s.callers)
    requires KnownToCallers(s.callers, s.known) && id !in s.known
    ensures Calls(s.rows[id := row], s.links, s.clock, s.callers)
  {
  }

  lemma LoginKeeps(s: State, id: Id, did: string, password: nat)
    requires Inv(s) && id !in s.known
    ensures Inv(LoginStep(s, id, did, password))
  {
    hide Tables, Calls, Agreed;
    var row := Session(did, password, Stored(s.clock), Stored(s.clock + REFRESH_TTL), None);
    StoredFacts(s.clock + REFRESH_TTL, 0);
    LoginTables(s, id, row);
    LoginCalls(s, id, row);
  }

  /** Rows may go as long as a live session keeps its successor. */
  lemma RemovalKeepsTables(s: State, gone: set<Id>, looked: bool)
    requires Tables(s.rows, s.links, s.looked, s.clock) && (s.looked ==> looked)
    requires forall p :: p in s.links && p in s.rows && s.links[p].next in s.rows && s.links[p].next in gone ==>
                           p in gone || (looked && s.links[p].expiresAt <= s.clock)
    ensures Tables(s.rows - gone, s.links, looked, s.clock)
  {
    hide LinksSane, RowShows;
    forall p | p in s.links
      ensures Succeeds(s.rows - gone, s.links, p, looked, s.clock)
    {
      assert Succeeds(s.rows, s.links, p, s.looked, s.clock);
    }
  }

  lemma RemovalKeepsCalls(s: State, gone: set<Id>)
    requires Calls(s.rows, s.links, s.clock, s.callers)
    ensures Calls(s.rows - gone, s.links, s.clock, s.callers)
  {
  }

  lemma RemovalKeeps(s: State, gone: set<Id>, looked: bool)
    requires Inv(s) && (s.looked ==> looked)
    requires forall p :: p in s.links && p in s.rows && s.links[p].next in s.rows && s.links[p].next in gone ==>
                           p in gone || (looked && s.links[p].expiresAt <= s.clock)
    ensures Inv(s.(rows := s.rows - gone, looked := looked))
  {
    hide Tables, Calls, Agreed, KnownToCallers;
    RemovalKeepsTables(s, gone, looked);
    RemovalKeepsCalls(s, gone);
  }

  lemma LookupKeeps(s: State, id: Id)
    requires Inv(s)
    ensures Inv(LookupStep(s, id))
  {
    if id in s.rows && s.rows[id].expiresAt <= s.clock {
      forall p | p in s.links && p in s.rows && s.links[p].next in s.rows && s.links[p].next in {id}
        ensures p in {id} || s.links[p].expiresAt <= s.clock
      {
        assert Succeeds(s.rows, s.links, p, s.looked, s.clock);
      }
      hide Inv;
      RemovalKeeps(s, {id}, true);
    }
  }

  /** Tidying an account never takes a successor without its predecessor. */
  lemma TidiedKeeps(s: State, did: string)
    requires Inv(s)
    ensures Inv(s.(rows := s.rows - Expired(s, did)))
  {
    var gone := Expired(s, did);
    forall p | p in s.links && p in s.rows && s.links[p].next in s.rows && s.links[p].next in gone
      ensures p in gone
    {
      assert Succeeds(s.rows, s.links, p, s.looked, s.clock) && RowShows(s.links, p, s.rows[p]);
    }
    hide Inv;
    RemovalKeeps(s, gone, s.looked);
  }

  /** An account's sessions go together, so a successor never goes without its predecessor. */
  lemma RevokeKeeps(s: State, did: string)
    requires Inv(s)
    ensures Inv(Do(s, Revoke(did)))
  {
    var gone := Owned(s, did);
    forall p | p in s.links && p in s.rows && s.links[p].next in s.rows && s.links[p].next in gone
      ensures p in gone
    {
      assert Succeeds(s.rows, s.links, p, s.looked, s.clock) && RowShows(s.links, p, s.rows[p]);
    }
    hide Inv;
    RemovalKeeps(s, gone, s.looked);
  }

  // ---------------------------------------------------------------------------------
  // Steps of a caller

  /** A caller may take up any state that agrees with the tables and proposes nothing. */
  lemma MoveKeepsCalls(rows: Rows, links: Links, clock: int, callers: Callers, k: nat, c: Caller)
    requires Calls(rows, links, clock, callers) && !Proposes(c)
    requires HasRow(c) ==> Current(rows, links, clock, c)
    requires !c.Idle? ==> Retrying(rows, links, c)
    requires !c.Idle? ==> forall j :: j in callers && Proposes(callers[j]) && j != k ==> callers[j].nextId != c.sid
    ensures Calls(rows, links, clock, callers[k := c])
  {
    hide Unused, Current, Retrying;
  }

  lemma MoveKeeps(s: State, k: nat, c: Caller)
    requires Inv(s) && !Proposes(c)
    requires !c.Idle? ==> c.sid in s.known && Retrying(s.rows, s.links, c)
    requires HasRow(c) ==> Current(s.rows, s.links, s.clock, c)
    requires c.Ready? ==> c.nextId in s.known
    requires !c.Idle? ==> forall j :: j in s.callers && Proposes(s.callers[j]) && j != k ==> s.callers[j].nextId != c.sid
    ensures Inv(s.(callers := s.callers[k := c]))
  {
    hide Tables, Agreed, KnownIds, Calls, Current, Retrying;
    MoveKeepsCalls(s.rows, s.links, s.clock, s.callers, k, c);
  }

  lemma RotateKeeps(s: State, k: nat, sid: Id)
    requires Inv(s) && Enabled(s, Rotate(k, sid))
    ensures Inv(Do(s, Rotate(k, sid)))
  {
    hide Tables, Agreed, Calls;
    MoveKeepsCalls(s.rows, s.links, s.clock, s.callers, k, Waiting(sid, 0));
  }

  /** A caller may stop at any time. */
  lemma StopKeeps(s: State, k: nat, outcome: Outcome)
    requires Inv(s)
    requires outcome.Rotated? ==> outcome.sid in s.links && s.links[outcome.sid].next == outcome.nextId
    ensures Inv(Done(s, k, outcome))
  {
    hide Tables, Calls, KnownIds;
    MoveKeepsCalls(s.rows, s.links, s.clock, s.callers, k, Idle);
  }

  lemma SelectKeeps(s: State, k: nat)
    requires Inv(s) && CallerAt(s, k).Waiting?
    ensures Inv(SelectStep(s, k, CallerAt(s, k)))
  {
    var c := CallerAt(s, k);
    if c.sid in s.rows && s.rows[c.sid].password in s.passwords {
      assert RowShows(s.links, c.sid, s.rows[c.sid]) && Retrying(s.rows, s.links, c);
      forall p | p in s.links && s.links[p].next == c.sid
        ensures s.rows[c.sid].expiresAt >= s.links[p].expiresAt
      {
        assert Succeeds(s.rows, s.links, p, s.looked, s.clock);
      }
      MoveKeeps(s, k, Holding(c.sid, c.attempt, s.rows[c.sid]));
    } else {
      hide Inv;
      StopKeeps(s, k, InvalidToken(c.sid));
    }
  }

  /** Proposing a new id. */
  lemma ProposeKeepsCalls(s: State, k: nat, c: Caller)
    requires Calls(s.rows, s.links, s.clock, s.callers) && KnownIds(s.rows, s.links, s.known)
    requires KnownToCallers(s.callers, s.known) && Proposes(c) && c.nextId !in s.known && c.sid in s.known
    requires Current(s.rows, s.links, s.clock, c) && Retrying(s.rows, s.links, c)
    requires forall j :: j in s.callers && Proposes(s.callers[j]) && j != k ==> s.callers[j].nextId != c.sid
    ensures Calls(s.rows, s.links, s.clock, s.callers[k := c])
  {
    hide Current, Retrying;
  }

  /** Taking the time keeps what was read. */
  lemma ReadyIsCurrent(s: State, c: Caller, nextId: Id)
    requires c.Holding? && Current(s.rows, s.links, s.clock, c) && LinksSane(s.links, s.clock)
    requires c.row.next.Some? ==> nextId == c.row.next.value
    ensures Current(s.rows, s.links, s.clock, Ready(c.sid, c.attempt, c.row, s.clock, nextId))
  {
  }

  lemma ReadyKeeps(s: State, k: nat, c: Caller, nextId: Id)
    requires Inv(s) && CallerAt(s, k) == c && c.Holding?
    requires if c.row.next.Some? then nextId == c.row.next.value else nextId !in s.known
    ensures Inv(s.(callers := s.callers[k := Ready(c.sid, c.attempt, c.row, s.clock, nextId)],
                   known := s.known + {nextId}))
  {
    var d := Ready(c.sid, c.attempt, c.row, s.clock, nextId);
    assert Current(s.rows, s.links, s.clock, c) && Retrying(s.rows, s.links, c);
    ReadyIsCurrent(s, c, nextId);
    assert Retrying(s.rows, s.links, d);
    assert c.row.next.Some? ==> nextId in s.known && s.known + {nextId} == s.known;
    assert c.sid in s.known;
    assert forall j :: j in s.callers && Proposes(s.callers[j]) && j != k ==> s.callers[j].nextId != c.sid;
    hide Calls, Tables, Agreed, Current, Retrying;
    if c.row.next.Some? {
      MoveKeepsCalls(s.rows, s.links, s.clock, s.callers, k, d);
    } else {
      ProposeKeepsCalls(s, k, d);
    }
  }

  lemma TidyKeeps(s: State, k: nat, candidate: Id)
    requires Inv(s) && CallerAt(s, k).Holding? && candidate !in s.known
    ensures Inv(TidyStep(s, k, CallerAt(s, k), candidate))
  {
    var c := CallerAt(s, k);
    TidiedKeeps(s, c.row.did);
    var t := s.(rows := s.rows - Expired(s, c.row.did));
    assert c.row.next.Some? ==> c.row.next.value in t.known by {
      assert Current(s.rows, s.links, s.clock, c);
    }
    hide Inv;
    if c.row.expiresAt <= s.clock {
      StopKeeps(t, k, ExpiredToken(c.sid));
    } else if c.row.next.Some? {
      ReadyKeeps(t, k, c, c.row.next.value);
      assert t.known + {c.row.next.value} == t.known;
    } else {
      ReadyKeeps(t, k, c, candidate);
    }
  }

  // ---------------------------------------------------------------------------------
  // The transaction

  lemma LoserKeeps(s: State, k: nat)
    requires Inv(s) && CallerAt(s, k).Ready? && !Wins(s, CallerAt(s, k))
    ensures Inv(CommitStep(s, k, CallerAt(s, k)))
  {
    var c := CallerAt(s, k);
    var d := Waiting(c.sid, c.attempt + 1);
    assert Retrying(s.rows, s.links, c) && Current(s.rows, s.links, s.clock, c);
    assert c.sid in s.rows ==> RowShows(s.links, c.sid, s.rows[c.sid]);
    assert Retrying(s.rows, s.links, d);
    assert forall j :: j in s.callers && Proposes(s.callers[j]) && j != k ==> s.callers[j].nextId != d.sid;
    assert c.sid in s.known;
    hide Inv;
    MoveKeeps(s, k, d);
  }

  /** Presenting a rotated token again changes nothing when the successor is there. */
  lemma RepeatChangesNothing(s: State, k: nat)
    requires Inv(s) && CallerAt(s, k).Ready? && Wins(s, CallerAt(s, k))
    requires s.rows[CallerAt(s, k).sid].next.Some?
    ensures var c := CallerAt(s, k);
            && c.sid in s.links && s.links[c.sid].next == c.nextId
            && (c.nextId in s.rows ==> CommitStep(s, k, c) == Done(s, k, Rotated(c.sid, c.nextId)))
            && (c.nextId !in s.rows ==> s.looked && s.rows[c.sid].expiresAt <= s.clock)
  {
    var c := CallerAt(s, k);
    assert Current(s.rows, s.links, s.clock, c);
    assert RowShows(s.links, c.sid, s.rows[c.sid]);
    assert Proposes(c) ==> Unused(s.rows, s.links, c.nextId);
    assert Succeeds(s.rows, s.links, c.sid, s.looked, s.clock);
    StoredFacts(c.row.expiresAt, 0);
    var row := s.rows[c.sid];
    assert s.links[c.sid].expiresAt <= s.links[c.sid].at + GRACE_TTL;
    assert Shortened(c.now, c.row.expiresAt) == row.expiresAt;
    assert s.rows[c.sid := row.(next := Some(c.nextId), expiresAt := row.expiresAt)] == s.rows;
  }

  lemma RepeatKeeps(s: State, k: nat)
    requires Inv(s) && CallerAt(s, k).Ready? && Wins(s, CallerAt(s, k))
    requires s.rows[CallerAt(s, k).sid].next.Some? && CallerAt(s, k).nextId in s.rows
    ensures Inv(CommitStep(s, k, CallerAt(s, k)))
  {
    hide Inv;
    RepeatChangesNothing(s, k);
    StopKeeps(s, k, Rotated(CallerAt(s, k).sid, CallerAt(s, k).nextId));
  }

  /** The facts a first rotation starts from. */
  predicate FirstRotation(s: State, c: Caller) {
    && Proposes(c) && c.sid in s.rows && s.rows[c.sid].next.None? && c.sid !in s.links
    && Unused(s.rows, s.links, c.nextId) && c.nextId != c.sid
    && c.row.did == s.rows[c.sid].did && Stored(c.row.expiresAt) == c.row.expiresAt && c.now <= s.clock
    && (forall p :: p in s.links && s.links[p].next == c.sid ==>
                      c.row.expiresAt >= s.links[p].expiresAt && c.now >= s.links[p].at)
  }

  lemma WinnerIsFirst(s: State, k: nat)
    requires Inv(s) && CallerAt(s, k).Ready? && Wins(s, CallerAt(s, k))
    requires s.rows[CallerAt(s, k).sid].next.None?
    ensures FirstRotation(s, CallerAt(s, k))
  {
    var c := CallerAt(s, k);
    assert Current(s.rows, s.links, s.clock, c);
    assert RowShows(s.links, c.sid, s.rows[c.sid]);
    assert Proposes(c);
    assert Unused(s.rows, s.links, c.nextId);
  }

  function FirstRows(s: State, c: Caller): (r: Rows)
    requires c.Ready? && c.sid in s.rows
  {
    s.rows[c.sid := s.rows[c.sid].(next := Some(c.nextId), expiresAt := Shortened(c.now, c.row.expiresAt))]
          [c.nextId := Session(c.row.did, c.row.password, Stored(c.now), Stored(c.now + REFRESH_TTL), None)]
  }

  function FirstLinks(s: State, c: Caller): (r: Links)
    requires c.Ready?
  {
    s.links[c.sid := Link(c.nextId, c.now, Shortened(c.now, c.row.expiresAt), c.row.did)]
  }

  lemma ShortenedFacts(c: Caller, earlier: Link)
    requires c.Ready? && Stored(earlier.expiresAt) == earlier.expiresAt
    requires earlier.expiresAt <= earlier.at + GRACE_TTL
    ensures Shortened(c.now, c.row.expiresAt) <= c.now + GRACE_TTL
    ensures Stored(Shortened(c.now, c.row.expiresAt)) == Shortened(c.now, c.row.expiresAt)
    ensures Shortened(c.now, c.row.expiresAt) <= Stored(c.now + REFRESH_TTL)
    ensures c.now >= earlier.at && c.row.expiresAt >= earlier.expiresAt ==>
              Shortened(c.now, c.row.expiresAt) >= earlier.expiresAt
  {
  }

  lemma FirstKeepsRows(s: State, c: Caller)
    requires Tables(s.rows, s.links, s.looked, s.clock) && FirstRotation(s, c)
    ensures RowsShowLinks(FirstRows(s, c), FirstLinks(s, c))
  {
    ShortenedFacts(c, Link(c.nextId, 0, 0, ""));
    StoredFacts(c.now + REFRESH_TTL, 0);
    hide Shortened, Stored;
    assert forall id :: id in s.rows ==> RowShows(s.links, id, s.rows[id]);
  }

  lemma FirstKeepsLinks(s: State, c: Caller)
    requires Tables(s.rows, s.links, s.looked, s.clock) && FirstRotation(s, c)
    ensures LinksSane(FirstLinks(s, c), s.clock)
  {
    ShortenedFacts(c, Link(c.nextId, 0, 0, ""));
    hide Shortened, Stored;
  }

  lemma FirstKeepsSuccessors(s: State, c: Caller)
    requires Tables(s.rows, s.links, s.looked, s.clock) && FirstRotation(s, c)
    ensures Successors(FirstRows(s, c), FirstLinks(s, c), s.looked, s.clock)
  {
    var rows, links := FirstRows(s, c), FirstLinks(s, c);
    forall p | p in links
      ensures Succeeds(rows, links, p, s.looked, s.clock)
    {
      ShortenedFacts(c, Link(c.nextId, 0, 0, ""));
      if p != c.sid {
        assert Succeeds(s.rows, s.links, p, s.looked, s.clock);
        ShortenedFacts(c, s.links[p]);
        hide Shortened, Stored;
        assert links[p] == s.links[p] && links[p].next != c.nextId;
      }
    }
  }

  lemma FirstKeepsCalls(s: State, k: nat)
    requires Calls(s.rows, s.links, s.clock, s.callers) && CallerAt(s, k).Ready?
    requires FirstRotation(s, CallerAt(s, k))
    ensures var c := CallerAt(s, k);
            Calls(FirstRows(s, c), FirstLinks(s, c), s.clock, s.callers[k := Idle])
  {
    FirstKeepsProposals(s, k);
    FirstKeepsSnapshots(s, k);
    FirstKeepsRetries(s, k);
  }

  lemma FirstKeepsProposals(s: State, k: nat)
    requires Proposals(s.rows, s.links, s.callers) && CallerAt(s, k).Ready?
    requires FirstRotation(s, CallerAt(s, k))
    ensures var c := CallerAt(s, k);
            Proposals(FirstRows(s, c), FirstLinks(s, c), s.callers[k := Idle])
  {
    hide Shortened, Stored;
  }

  lemma FirstKeepsSnapshots(s: State, k: nat)
    requires Snapshots(s.rows, s.links, s.clock, s.callers) && Proposals(s.rows, s.links, s.callers)
    requires CallerAt(s, k).Ready? && FirstRotation(s, CallerAt(s, k))
    ensures var c := CallerAt(s, k);
            Snapshots(FirstRows(s, c), FirstLinks(s, c), s.clock, s.callers[k := Idle])
  {
    hide Shortened, Stored;
    var c := CallerAt(s, k);
    forall j | j in s.callers && j != k && HasRow(s.callers[j])
      ensures Current(FirstRows(s, c), FirstLinks(s, c), s.clock, s.callers[j])
    {
      assert Current(s.rows, s.links, s.clock, s.callers[j]);
      assert s.callers[j].sid != c.nextId;
    }
  }

  lemma FirstKeepsRetries(s: State, k: nat)
    requires Retries(s.rows, s.links, s.callers) && Proposals(s.rows, s.links, s.callers)
    requires CallerAt(s, k).Ready? && FirstRotation(s, CallerAt(s, k))
    ensures var c := CallerAt(s, k);
            Retries(FirstRows(s, c), FirstLinks(s, c), s.callers[k := Idle])
  {
    hide Shortened, Stored;
    var c := CallerAt(s, k);
    forall j | j in s.callers && j != k && !s.callers[j].Idle?
      ensures Retrying(FirstRows(s, c), FirstLinks(s, c), s.callers[j])
    {
      assert Retrying(s.rows, s.links, s.callers[j]);
      assert s.callers[j].sid != c.nextId;
    }
  }

  lemma FirstKeepsIds(s: State, k: nat)
    requires KnownIds(s.rows, s.links, s.known) && KnownToCallers(s.callers, s.known) && Agreed(s.links, s.outcomes)
    requires CallerAt(s, k).Ready? && FirstRotation(s, CallerAt(s, k))
    ensures var c := CallerAt(s, k);
            && KnownIds(FirstRows(s, c), FirstLinks(s, c), s.known)
            && KnownToCallers(s.callers[k := Idle], s.known)
            && Agreed(FirstLinks(s, c), s.outcomes + [Rotated(c.sid, c.nextId)])
  {
    hide Shortened, Stored, Unused;
  }

  lemma FirstKeeps(s: State, k: nat)
    requires Inv(s) && CallerAt(s, k).Ready? && Wins(s, CallerAt(s, k))
    requires s.rows[CallerAt(s, k).sid].next.None?
    ensures Inv(CommitStep(s, k, CallerAt(s, k)))
  {
    hide RowsShowLinks, LinksSane, Successors, Calls, Shortened, Stored, KnownIds, KnownToCallers, Agreed, FirstRotation;
    var c := CallerAt(s, k);
    WinnerIsFirst(s, k);
    FirstKeepsRows(s, c);
    FirstKeepsLinks(s, c);
    FirstKeepsSuccessors(s, c);
    FirstKeepsCalls(s, k);
    FirstKeepsIds(s, k);
    assert c.sid !in s.links && c.nextId !in s.rows && c.nextId != c.sid && c.sid in s.rows by {
      FirstIsNew(s, c);
    }
    var t := CommitStep(s, k, c);
    assert t.rows == FirstRows(s, c) && t.links == FirstLinks(s, c);
  }

  lemma FirstIsNew(s: State, c: Caller)
    requires FirstRotation(s, c)
    ensures c.sid !in s.links && c.nextId !in s.rows && c.nextId != c.sid && c.sid in s.rows
  {
  }

  lemma CommitKeeps(s: State, k: nat)
    requires Inv(s) && CallerAt(s, k).Ready? && !CommitStep(s, k, CallerAt(s, k)).recreated
    ensures Inv(CommitStep(s, k, CallerAt(s, k)))
  {
    var c := CallerAt(s, k);
    hide Inv;
    if !Wins(s, c) {
      LoserKeeps(s, k);
    } else if s.rows[c.sid].next.None? {
      FirstKeeps(s, k);
    } else {
      assert c.nextId in s.rows;
      RepeatKeeps(s, k);
    }
  }

  lemma StepKeeps(s: State, a: Action)
    requires Inv(s) && Enabled(s, a) && !Do(s, a).recreated
    ensures Inv(Do(s, a))
  {
    hide Tables, Calls, Agreed, KnownIds, KnownToCallers;
    match a
    case Tick(ms) => TickKeeps(s, ms);
    case Login(id, did, password) => LoginKeeps(s, id, did, password);
    case RemovePassword(_) =>
    case Revoke(did) => RevokeKeeps(s, did);
    case Lookup(id) => LookupKeeps(s, id);
    case Rotate(k, sid) => RotateKeeps(s, k, sid);
    case Select(k) => SelectKeeps(s, k);
    case Tidy(k, candidate) => TidyKeeps(s, k, candidate);
    case Commit(k) => CommitKeeps(s, k);
  }
}
