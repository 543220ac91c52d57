/** What rotation promises the holders of refresh tokens, over every run. */
module SessionsLaws {
  import opened Common
  import opened Sessions
  import opened SessionsProof

  // ---------------------------------------------------------------------------------
  // When a successor is inserted a second time

  /** The transaction runs while the presented session's row has not expired. */
  predicate Punctual(s: State, a: Action) {
    a.Commit? && CallerAt(s, a.caller).Ready? && CallerAt(s, a.caller).sid in s.rows ==>
      s.rows[CallerAt(s, a.caller).sid].expiresAt > s.clock
  }

  /**
   * A transaction inserts a successor again if and only if the caller read a rotated row whose
   * successor has gone since while the row itself is still there.
   */
  lemma RecreationIsExact(s: State, k: nat)
    requires Inv(s) && CallerAt(s, k).Ready?
    ensures var c := CallerAt(s, k);
            Do(s, Commit(k)).recreated <==> c.row.next.Some? && c.sid in s.rows && c.row.next.value !in s.rows
  {
    var c := CallerAt(s, k);
    assert Current(s.rows, s.links, s.clock, c);
    assert c.sid in s.rows ==> RowShows(s.links, c.sid, s.rows[c.sid]);
    assert Proposes(c) ==> Unused(s.rows, s.links, c.nextId);
  }

  /** That takes a lookup that has removed a row, and a transaction that comes too late. */
  lemma RecreationIsLate(s: State, a: Action)
    requires Inv(s) && Enabled(s, a) && Do(s, a).recreated
    ensures s.looked && !Punctual(s, a)
  {
    assert a.Commit?;
    RecreationIsExact(s, a.caller);
    var c := CallerAt(s, a.caller);
    assert Current(s.rows, s.links, s.clock, c);
    assert RowShows(s.links, c.sid, s.rows[c.sid]) && Succeeds(s.rows, s.links, c.sid, s.looked, s.clock);
  }

  /** Runs in which no transaction that follows a lookup comes too late. */
  predicate InTime(s: State, actions: seq<Action>)
    decreases |actions|
  {
    actions != [] ==>
      && Enabled(s, actions[0])
      && (!s.looked || Punctual(s, actions[0]))
      && InTime(Do(s, actions[0]), actions[1..])
  }

  lemma {:induction false} InTimeIsEnabled(s: State, actions: seq<Action>)
    requires InTime(s, actions)
    ensures AllEnabled(s, actions)
    decreases |actions|
  {
    if actions != [] {
      InTimeIsEnabled(Do(s, actions[0]), actions[1..]);
    }
  }

  lemma {:induction false} RunKeeps(s: State, actions: seq<Action>)
    requires Inv(s) && InTime(s, actions)
    ensures AllEnabled(s, actions) && Inv(Run(s, actions))
    decreases |actions|
  {
    InTimeIsEnabled(s, actions);
    if actions != [] {
      hide Inv;
      if Do(s, actions[0]).recreated {
        RecreationIsLate(s, actions[0]);
        assert false;
      }
      StepKeeps(s, actions[0]);
      RunKeeps(Do(s, actions[0]), actions[1..]);
    }
  }

  /** Without `getLegacySession` every run is in time. */
  lemma {:induction false} NoLookupIsInTime(s: State, actions: seq<Action>)
    requires !s.looked && AllEnabled(s, actions)
    requires forall i :: 0 <= i < |actions| ==> !actions[i].Lookup?
    ensures InTime(s, actions)
    decreases |actions|
  {
    if actions != [] {
      assert actions[0] in actions;
      NoLookupIsInTime(Do(s, actions[0]), actions[1..]);
    }
  }

  /** The state a run from empty tables leads to. */
  function Reached(clock: nat, passwords: set<nat>, actions: seq<Action>): (s: State)
    requires InTime(Fresh(clock, passwords), actions)
    ensures Inv(s)
  {
    FreshInv(clock, passwords);
    RunKeeps(Fresh(clock, passwords), actions);
    Run(Fresh(clock, passwords), actions)
  }

  // ---------------------------------------------------------------------------------
  // One successor

  lemma StepKeepsLinks(s: State, a: Action, p: Id)
    requires Enabled(s, a) && p in s.links
    ensures p in Do(s, a).links && Do(s, a).links[p] == s.links[p]
  {
  }

  lemma {:induction false} LinksKept(s: State, actions: seq<Action>, p: Id)
    requires AllEnabled(s, actions) && p in s.links
    ensures p in Run(s, actions).links && Run(s, actions).links[p] == s.links[p]
    decreases |actions|
  {
    if actions != [] {
      StepKeepsLinks(s, actions[0], p);
      LinksKept(Do(s, actions[0]), actions[1..], p);
    }
  }

  /** Once `next_id` is written it never changes, whoever races, for as long as the row is there. */
  lemma RotationIsWrittenOnce(clock: nat, passwords: set<nat>, before: seq<Action>, after: seq<Action>, p: Id)
    requires InTime(Fresh(clock, passwords), before) && InTime(Reached(clock, passwords, before), after)
    requires p in Reached(clock, passwords, before).rows && Reached(clock, passwords, before).rows[p].next.Some?
    ensures AllEnabled(Reached(clock, passwords, before), after)
    ensures var s := Reached(clock, passwords, before);
            var t := Run(s, after);
            p in t.rows ==> t.rows[p].next == s.rows[p].next && t.rows[p].expiresAt == s.rows[p].expiresAt
  {
    var s := Reached(clock, passwords, before);
    RunKeeps(s, after);
    assert RowShows(s.links, p, s.rows[p]);
    LinksKept(s, after, p);
    var t := Run(s, after);
    if p in t.rows {
      assert RowShows(t.links, p, t.rows[p]);
    }
  }

  /**
   * In every run that is in time, whoever races: all tokens for one session are for one successor,
   * no two sessions share a successor, a rotated row names that successor, and it expires within
   * the grace period of its first rotation.
   */
  lemma RotationAgrees(clock: nat, passwords: set<nat>, actions: seq<Action>)
    requires InTime(Fresh(clock, passwords), actions)
    ensures AllEnabled(Fresh(clock, passwords), actions)
    ensures var s := Run(Fresh(clock, passwords), actions);
            && !s.recreated
            && (forall i, j :: 0 <= i < |s.outcomes| && 0 <= j < |s.outcomes| &&
                               s.outcomes[i].Rotated? && s.outcomes[j].Rotated? ==>
                  (s.outcomes[i].sid == s.outcomes[j].sid <==> s.outcomes[i].nextId == s.outcomes[j].nextId))
            && (forall p, q :: p in s.rows && q in s.rows && s.rows[p].next.Some? && s.rows[p].next == s.rows[q].next ==>
                  p == q)
            && (forall p :: p in s.rows && s.rows[p].next.Some? ==>
                  && p in s.links && s.rows[p].next == Some(s.links[p].next)
                  && s.rows[p].expiresAt <= s.links[p].at + GRACE_TTL)
  {
    FreshInv(clock, passwords);
    RunKeeps(Fresh(clock, passwords), actions);
    Readings(Run(Fresh(clock, passwords), actions));
  }

  lemma Readings(s: State)
    requires Inv(s)
    ensures forall i, j :: 0 <= i < |s.outcomes| && 0 <= j < |s.outcomes| &&
                           s.outcomes[i].Rotated? && s.outcomes[j].Rotated? ==>
                             (s.outcomes[i].sid == s.outcomes[j].sid <==> s.outcomes[i].nextId == s.outcomes[j].nextId)
    ensures forall p, q :: p in s.rows && q in s.rows && s.rows[p].next.Some? && s.rows[p].next == s.rows[q].next ==>
                             p == q
    ensures forall p :: p in s.rows && s.rows[p].next.Some? ==>
                          && p in s.links && s.rows[p].next == Some(s.links[p].next)
                          && s.rows[p].expiresAt <= s.links[p].at + GRACE_TTL
  {
    hide KnownIds, KnownToCallers, Calls, Successors;
    assert forall p :: p in s.rows ==> RowShows(s.links, p, s.rows[p]);
  }

  // ---------------------------------------------------------------------------------
  // A rotation needs the session and its app password

  /** What reading the row with its password leads to. */
  lemma SelectIsExact(s: State, k: nat)
    requires CallerAt(s, k).Waiting?
    ensures var c := CallerAt(s, k);
            var t := Do(s, Select(k));
            && t.rows == s.rows
            && (c.sid in s.rows && s.rows[c.sid].password in s.passwords ==>
                  t.outcomes == s.outcomes && CallerAt(t, k) == Holding(c.sid, c.attempt, s.rows[c.sid]))
            && (!(c.sid in s.rows && s.rows[c.sid].password in s.passwords) ==>
                  t.outcomes == s.outcomes + [InvalidToken(c.sid)] && CallerAt(t, k) == Idle)
  {
  }

  lemma {:induction false} RemovedStaysRemoved(s: State, actions: seq<Action>, p: nat)
    requires AllEnabled(s, actions) && p !in s.passwords
    ensures p !in Run(s, actions).passwords
    decreases |actions|
  {
    if actions != [] {
      assert p !in Do(s, actions[0]).passwords;
      RemovedStaysRemoved(Do(s, actions[0]), actions[1..], p);
    }
  }

  /** Once an app password is removed, whatever happens, a caller that reads one of its sessions is turned away. */
  lemma RemovedPasswordRefuses(s: State, p: nat, actions: seq<Action>, k: nat)
    requires AllEnabled(Do(s, RemovePassword(p)), actions)
    requires var t := Run(Do(s, RemovePassword(p)), actions);
             CallerAt(t, k).Waiting? && CallerAt(t, k).sid in t.rows && t.rows[CallerAt(t, k).sid].password == p
    ensures var t := Run(Do(s, RemovePassword(p)), actions);
            Do(t, Select(k)) == Done(t, k, InvalidToken(CallerAt(t, k).sid))
  {
    RemovedStaysRemoved(Do(s, RemovePassword(p)), actions, p);
  }

  // ---------------------------------------------------------------------------------
  // A live rotated session has a live successor

  /** In every run, as long as a rotated session is live its successor is there, and expires no earlier. */
  lemma LiveSuccessor(clock: nat, passwords: set<nat>, actions: seq<Action>, p: Id)
    requires InTime(Fresh(clock, passwords), actions)
    requires var s := Reached(clock, passwords, actions);
             p in s.rows && s.rows[p].next.Some? && s.rows[p].expiresAt > s.clock
    ensures var s := Reached(clock, passwords, actions);
            var n := s.rows[p].next.value;
            n in s.rows && s.rows[n].expiresAt >= s.rows[p].expiresAt && s.rows[n].did == s.rows[p].did
  {
    var s := Reached(clock, passwords, actions);
    assert RowShows(s.links, p, s.rows[p]);
    assert Succeeds(s.rows, s.links, p, s.looked, s.clock);
  }

  /** The sessions `path` lists are each the successor of the one before. */
  predicate Chain(rows: Rows, path: seq<Id>) {
    && (forall i :: 0 <= i < |path| ==> path[i] in rows)
    && forall i :: 0 <= i < |path| - 1 ==> rows[path[i]].next == Some(path[i + 1])
  }

  /** In every run expiries never decrease along a chain of successors, however long. */
  lemma ExpiryGrowsAlongChain(clock: nat, passwords: set<nat>, actions: seq<Action>, path: seq<Id>)
    requires InTime(Fresh(clock, passwords), actions) && Chain(Reached(clock, passwords, actions).rows, path)
    ensures var rows := Reached(clock, passwords, actions).rows;
            forall i, j :: 0 <= i <= j < |path| ==> rows[path[i]].expiresAt <= rows[path[j]].expiresAt
  {
    ChainGrows(Reached(clock, passwords, actions), path);
  }

  lemma SuccessorGrows(s: State, p: Id)
    requires Inv(s) && p in s.rows && s.rows[p].next.Some? && s.rows[p].next.value in s.rows
    ensures s.rows[p].expiresAt <= s.rows[s.rows[p].next.value].expiresAt
  {
    assert RowShows(s.links, p, s.rows[p]);
    assert Succeeds(s.rows, s.links, p, s.looked, s.clock);
  }

  lemma {:induction false} ChainGrows(s: State, path: seq<Id>)
    requires Inv(s) && Chain(s.rows, path)
    ensures forall i, j :: 0 <= i <= j < |path| ==> s.rows[path[i]].expiresAt <= s.rows[path[j]].expiresAt
    decreases |path|
  {
    hide Inv;
    if |path| > 1 {
      var front, n := path[..|path| - 1], |path|;
      ChainGrows(s, front);
      var p := path[n - 2];
      assert s.rows[path[n - 2]].next == Some(path[n - 2 + 1]);
      SuccessorGrows(s, p);
      forall i | 0 <= i < n - 1
        ensures s.rows[path[i]].expiresAt <= s.rows[path[n - 1]].expiresAt
      {
        assert front[i] == path[i] && front[n - 2] == p;
      }
    }
  }

  /**
   * Presenting a rotated token again while it is live, in every run and however the caller's steps
   * are interleaved with others: the read finds the successor, tidying keeps both rows, and the
   * transaction gives a token for that successor without changing a row.
   */
  lemma GraceReturnsSameSuccessor(clock: nat, passwords: set<nat>, actions: seq<Action>, k: nat, candidate: Id)
    requires InTime(Fresh(clock, passwords), actions)
    requires var s := Reached(clock, passwords, actions);
             var c := CallerAt(s, k);
             && !c.Idle? && c.sid in s.rows && s.rows[c.sid].next.Some? && s.rows[c.sid].expiresAt > s.clock
             && s.rows[c.sid].password in s.passwords && candidate !in s.known
    ensures var s := Reached(clock, passwords, actions);
            var c := CallerAt(s, k);
            var n := s.rows[c.sid].next.value;
            && n in s.rows
            && (c.Waiting? ==> Do(s, Select(k)) == s.(callers := s.callers[k := Holding(c.sid, c.attempt, s.rows[c.sid])]))
            && (c.Holding? && c.row.next.Some? ==>
                  var t := Do(s, Tidy(k, candidate));
                  && CallerAt(t, k) == Ready(c.sid, c.attempt, c.row, s.clock, n) && t.outcomes == s.outcomes
                  && c.sid in t.rows && t.rows[c.sid] == s.rows[c.sid] && n in t.rows && t.rows[n] == s.rows[n])
            && (c.Ready? && c.row.next.Some? ==>
                  var t := Do(s, Commit(k));
                  t.rows == s.rows && t.links == s.links && t.outcomes == s.outcomes + [Rotated(c.sid, n)])
            && (c.Ready? && c.row.next.None? ==>
                  Do(s, Commit(k)) == s.(callers := s.callers[k := Waiting(c.sid, c.attempt + 1)]))
  {
    var s := Reached(clock, passwords, actions);
    LiveSuccessor(clock, passwords, actions, CallerAt(s, k).sid);
    hide Inv;
    if CallerAt(s, k).Holding? && CallerAt(s, k).row.next.Some? {
      GraceTidies(s, k, candidate);
    } else if CallerAt(s, k).Ready? {
      GraceCommits(s, k);
    }
  }

  lemma GraceTidies(s: State, k: nat, candidate: Id)
    requires Inv(s) && CallerAt(s, k).Holding? && CallerAt(s, k).row.next.Some? && CallerAt(s, k).sid in s.rows
    requires s.rows[CallerAt(s, k).sid].next.Some? && s.rows[CallerAt(s, k).sid].expiresAt > s.clock
    ensures var c := CallerAt(s, k);
            var n := s.rows[c.sid].next.value;
            var t := TidyStep(s, k, c, candidate);
            && CallerAt(t, k) == Ready(c.sid, c.attempt, c.row, s.clock, n) && t.outcomes == s.outcomes
            && c.sid in t.rows && t.rows[c.sid] == s.rows[c.sid]
            && (n in s.rows ==> n in t.rows && t.rows[n] == s.rows[n])
  {
    var c := CallerAt(s, k);
    assert Current(s.rows, s.links, s.clock, c) && RowShows(s.links, c.sid, s.rows[c.sid]);
    assert Succeeds(s.rows, s.links, c.sid, s.looked, s.clock);
  }

  lemma GraceCommits(s: State, k: nat)
    requires Inv(s) && CallerAt(s, k).Ready? && CallerAt(s, k).sid in s.rows
    requires s.rows[CallerAt(s, k).sid].next.Some? && s.rows[CallerAt(s, k).sid].expiresAt > s.clock
    ensures var c := CallerAt(s, k);
            var t := CommitStep(s, k, c);
            if c.row.next.Some? then
              t.rows == s.rows && t.links == s.links && t.outcomes == s.outcomes + [Rotated(c.sid, s.rows[c.sid].next.value)]
            else t == s.(callers := s.callers[k := Waiting(c.sid, c.attempt + 1)])
  {
    var c := CallerAt(s, k);
    assert Current(s.rows, s.links, s.clock, c);
    assert RowShows(s.links, c.sid, s.rows[c.sid]);
    assert Proposes(c) ==> Unused(s.rows, s.links, c.nextId);
    if c.row.next.Some? {
      RepeatChangesNothing(s, k);
    }
  }

  // ---------------------------------------------------------------------------------
  // Retries

  /** A caller that retries wins exactly if the session's row is there. */
  lemma RetryWins(s: State, k: nat)
    requires Inv(s) && CallerAt(s, k).Ready? && CallerAt(s, k).attempt >= 1
    ensures Wins(s, CallerAt(s, k)) <==> CallerAt(s, k).sid in s.rows
  {
    var c := CallerAt(s, k);
    assert Retrying(s.rows, s.links, c) && Current(s.rows, s.links, s.clock, c);
    assert c.sid in s.rows ==> RowShows(s.links, c.sid, s.rows[c.sid]);
  }

  /**
   * In every run no caller starts over more than twice; it does so a second time exactly if the
   * session's row has gone, and then it only learns that the token is invalid.
   */
  lemma RetriesAreBounded(clock: nat, passwords: set<nat>, actions: seq<Action>, k: nat)
    requires InTime(Fresh(clock, passwords), actions) && !CallerAt(Reached(clock, passwords, actions), k).Idle?
    ensures var s := Reached(clock, passwords, actions);
            var c := CallerAt(s, k);
            && c.attempt <= 2
            && (c.Ready? && c.attempt == 1 ==>
                  (CallerAt(Do(s, Commit(k)), k) == Waiting(c.sid, 2) <==> c.sid !in s.rows))
            && (c.attempt == 2 ==>
                  c.Waiting? && Enabled(s, Select(k)) && Do(s, Select(k)) == Done(s, k, InvalidToken(c.sid)))
  {
    var s := Reached(clock, passwords, actions);
    assert Retrying(s.rows, s.links, CallerAt(s, k));
    if CallerAt(s, k).Ready? && CallerAt(s, k).attempt == 1 {
      hide Inv;
      RetryWins(s, k);
    }
  }

  /** A lost transaction is followed by a win, unless the row went away in between. */
  lemma LostRaceShowsSuccessor(s: State, k: nat)
    requires Inv(s) && CallerAt(s, k).Ready? && !Wins(s, CallerAt(s, k))
    ensures var c := CallerAt(s, k);
            && CommitStep(s, k, c) == s.(callers := s.callers[k := Waiting(c.sid, c.attempt + 1)])
            && (c.sid in s.rows ==> c.attempt == 0 && c.sid in s.links && s.rows[c.sid].next == Some(s.links[c.sid].next))
  {
    var c := CallerAt(s, k);
    if c.sid in s.rows {
      if c.attempt >= 1 {
        RetryWins(s, k);
      }
      assert RowShows(s.links, c.sid, s.rows[c.sid]);
    }
  }

  /** Whatever run came before, the next action inserts a successor again exactly under that condition. */
  lemma FirstRecreation(clock: nat, passwords: set<nat>, actions: seq<Action>, a: Action)
    requires InTime(Fresh(clock, passwords), actions) && Enabled(Reached(clock, passwords, actions), a)
    ensures var s := Reached(clock, passwords, actions);
            && (Do(s, a).recreated <==>
                && a.Commit?
                && var c := CallerAt(s, a.caller); c.row.next.Some? && c.sid in s.rows && c.row.next.value !in s.rows)
            && (Do(s, a).recreated ==> s.looked && !Punctual(s, a))
  {
    var s := Reached(clock, passwords, actions);
    if a.Commit? {
      RecreationIsExact(s, a.caller);
    }
    if Do(s, a).recreated {
      RecreationIsLate(s, a);
    }
  }

  /** In every run, a lookup that removes an expired successor lets a late transaction insert it anew. */
  lemma LateCommitRecreates(clock: nat, passwords: set<nat>, actions: seq<Action>, k: nat)
    requires InTime(Fresh(clock, passwords), actions) && CallerAt(Reached(clock, passwords, actions), k).Ready?
    requires var s := Reached(clock, passwords, actions);
             var c := CallerAt(s, k);
             && c.sid in s.rows && c.row.next.Some? && c.nextId != c.sid
             && c.nextId in s.rows && s.rows[c.nextId].expiresAt <= s.clock
    ensures var s := Reached(clock, passwords, actions);
            var n := CallerAt(s, k).nextId;
            var t := Do(s, Lookup(n));
            && Enabled(t, Commit(k))
            && Do(t, Commit(k)).recreated
            && n in Do(t, Commit(k)).rows && Do(t, Commit(k)).rows[n].next.None?
  {
    var s := Reached(clock, passwords, actions);
    var c := CallerAt(s, k);
    assert Current(s.rows, s.links, s.clock, c);
    LookupKeeps(s, c.nextId);
    RecreationIsExact(Do(s, Lookup(c.nextId)), k);
  }
}
