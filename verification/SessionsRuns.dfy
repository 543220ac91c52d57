/** Two runs from empty tables that show where rotation falls short of what its comments say. */
module SessionsRuns {
  import opened Common
  import opened Sessions

  lemma Peel(s: State, a: Action, rest: seq<Action>)
    requires Enabled(s, a) && AllEnabled(Do(s, a), rest)
    ensures AllEnabled(s, [a] + rest) && Run(s, [a] + rest) == Run(Do(s, a), rest)
  {
    hide Do, Enabled;
    assert ([a] + rest)[1..] == rest;
  }

  /** All of a rotation but its transaction. */
  function Alone(k: nat, sid: Id, candidate: Id, rest: seq<Action>): (r: seq<Action>) {
    [Rotate(k, sid)] + ([Select(k)] + ([Tidy(k, candidate)] + rest))
  }

  lemma NothingLeft(s: State)
    ensures AllEnabled(s, []) && Run(s, []) == s
  {
  }

  /** A caller about to commit after reading the tables with nobody else about. */
  function Poised(s: State, k: nat, sid: Id, candidate: Id): (r: State)
    requires sid in s.rows
  {
    var row := s.rows[sid];
    s.(callers := s.callers[k := Ready(sid, 0, row, s.clock, if row.next.Some? then row.next.value else candidate)],
       known := s.known + {sid} + if row.next.Some? then {} else {candidate})
  }

  predicate Calm(s: State, k: nat, sid: Id, candidate: Id) {
    && CallerAt(s, k).Idle? && (forall j :: j in s.callers && Proposes(s.callers[j]) ==> s.callers[j].nextId != sid)
    && sid in s.rows && s.rows[sid].password in s.passwords && candidate !in s.known && candidate != sid
    && forall id :: id in s.rows ==> s.rows[id].expiresAt > s.clock
  }

  lemma UndisturbedSteps(s: State, k: nat, sid: Id, candidate: Id)
    requires Calm(s, k, sid, candidate)
    ensures Enabled(s, Rotate(k, sid))
    ensures Enabled(Do(s, Rotate(k, sid)), Select(k))
    ensures Enabled(Do(Do(s, Rotate(k, sid)), Select(k)), Tidy(k, candidate))
    ensures Do(Do(Do(s, Rotate(k, sid)), Select(k)), Tidy(k, candidate)) == Poised(s, k, sid, candidate)
  {
    hide Run, AllEnabled, CommitStep, LoginStep, LookupStep;
    var row := s.rows[sid];
    var s1 := s.(callers := s.callers[k := Waiting(sid, 0)], known := s.known + {sid});
    var s2 := s1.(callers := s.callers[k := Holding(sid, 0, row)]);
    assert Do(s, Rotate(k, sid)) == s1;
    assert s1.callers[k := Holding(sid, 0, row)] == s2.callers;
    assert Do(s1, Select(k)) == s2;
    assert Expired(s2, row.did) == {} && s2.rows - {} == s2.rows;
    assert s2.callers[k := Poised(s, k, sid, candidate).callers[k]] == Poised(s, k, sid, candidate).callers;
  }

  lemma Undisturbed(s: State, k: nat, sid: Id, candidate: Id, rest: seq<Action>)
    requires Calm(s, k, sid, candidate) && AllEnabled(Poised(s, k, sid, candidate), rest)
    ensures AllEnabled(s, Alone(k, sid, candidate, rest))
    ensures Run(s, Alone(k, sid, candidate, rest)) == Run(Poised(s, k, sid, candidate), rest)
  {
    hide Do, Enabled, Run, AllEnabled, Poised;
    UndisturbedSteps(s, k, sid, candidate);
    var s1 := Do(s, Rotate(k, sid));
    var s2 := Do(s1, Select(k));
    Peel(s2, Tidy(k, candidate), rest);
    Peel(s1, Select(k), [Tidy(k, candidate)] + rest);
    Peel(s, Rotate(k, sid), [Select(k)] + ([Tidy(k, candidate)] + rest));
  }

  /** The run: two rotations in a row, then a retry that is overtaken by the clock and a lookup. */
  function LateRun(): (r: seq<Action>) {
    [Login("a", "did", 0)] +
    Alone(1, "a", "b", [Commit(1)] +
    Alone(1, "b", "c", [Commit(1)] +
    Alone(2, "a", "d", [Tick(GRACE_TTL)] + ([Lookup("b")] + ([Commit(2)] + [])))))
  }

  function Row(created: int, expires: int, next: Option<Id>): (r: Session) {
    Session("did", 0, created, expires, next)
  }

  function Twice(): (r: State) {
    State(0,
          map["a" := Row(0, GRACE_TTL, Some("b")), "b" := Row(0, GRACE_TTL, Some("c")), "c" := Row(0, REFRESH_TTL, None)],
          {0}, map[1 := Idle], [Rotated("a", "b"), Rotated("b", "c")], {"a", "b", "c"},
          map["a" := Link("b", 0, GRACE_TTL, "did"), "b" := Link("c", 0, GRACE_TTL, "did")], false, false)
  }

  /** The clock overtakes the caller, a lookup removes the successor, and the transaction inserts it anew. */
  lemma LateSteps()
    ensures Calm(Twice(), 2, "a", "d")
    ensures var s3 := Poised(Twice(), 2, "a", "d");
            var s4 := s3.(clock := GRACE_TTL);
            && Do(s3, Tick(GRACE_TTL)) == s4
            && Enabled(Do(s4, Lookup("b")), Commit(2))
            && Do(Do(s4, Lookup("b")), Commit(2)).recreated
  {
    hide Run, AllEnabled, TidyStep, SelectStep, LoginStep;
    var s3 := Poised(Twice(), 2, "a", "d");
    var s4 := s3.(clock := GRACE_TTL);
    var s5 := s4.(rows := s4.rows - {"b"}, looked := true);
    assert Do(s4, Lookup("b")) == s5;
    assert CallerAt(s5, 2) == Ready("a", 0, Twice().rows["a"], 0, "b");
  }

  lemma RunFromTwice()
    ensures var rest := Alone(2, "a", "d", [Tick(GRACE_TTL)] + ([Lookup("b")] + ([Commit(2)] + [])));
            AllEnabled(Twice(), rest) && Run(Twice(), rest).recreated
  {
    hide Run, AllEnabled, Do, Poised, Twice, Alone;
    LateSteps();
    var s3 := Poised(Twice(), 2, "a", "d");
    var s4 := Do(s3, Tick(GRACE_TTL));
    var s5 := Do(s4, Lookup("b"));
    NothingLeft(Do(s5, Commit(2)));
    Peel(s5, Commit(2), []);
    Peel(s4, Lookup("b"), [Commit(2)] + []);
    Peel(s3, Tick(GRACE_TTL), [Lookup("b")] + ([Commit(2)] + []));
    Undisturbed(Twice(), 2, "a", "d", [Tick(GRACE_TTL)] + ([Lookup("b")] + ([Commit(2)] + [])));
  }

  function Once(): (r: State) {
    State(0, map["a" := Row(0, GRACE_TTL, Some("b")), "b" := Row(0, REFRESH_TTL, None)],
          {0}, map[1 := Idle], [Rotated("a", "b")], {"a", "b"}, map["a" := Link("b", 0, GRACE_TTL, "did")], false, false)
  }

  lemma SecondRotation()
    ensures Calm(Once(), 1, "b", "c")
    ensures Enabled(Poised(Once(), 1, "b", "c"), Commit(1)) && Do(Poised(Once(), 1, "b", "c"), Commit(1)) == Twice()
  {
    hide Run, AllEnabled, TidyStep, SelectStep, LoginStep;
    var s := Once();
    var s3 := Poised(s, 1, "b", "c");
    assert CallerAt(s3, 1) == Ready("b", 0, s.rows["b"], 0, "c") && Wins(s3, CallerAt(s3, 1));
  }

  lemma RunFromOnce(rest: seq<Action>)
    requires AllEnabled(Twice(), rest)
    ensures AllEnabled(Once(), Alone(1, "b", "c", [Commit(1)] + rest))
    ensures Run(Once(), Alone(1, "b", "c", [Commit(1)] + rest)) == Run(Twice(), rest)
  {
    hide Run, AllEnabled, Do, Poised, Twice, Once, Alone;
    SecondRotation();
    Peel(Poised(Once(), 1, "b", "c"), Commit(1), rest);
    Undisturbed(Once(), 1, "b", "c", [Commit(1)] + rest);
  }

  function LoggedIn(): (r: State) {
    State(0, map["a" := Row(0, REFRESH_TTL, None)], {0}, map[], [], {"a"}, map[], false, false)
  }

  lemma LoginIsFirst()
    ensures Enabled(Fresh(0, {0}), Login("a", "did", 0)) && Do(Fresh(0, {0}), Login("a", "did", 0)) == LoggedIn()
  {
  }

  lemma FirstRotation()
    ensures Calm(LoggedIn(), 1, "a", "b")
    ensures Enabled(Poised(LoggedIn(), 1, "a", "b"), Commit(1)) && Do(Poised(LoggedIn(), 1, "a", "b"), Commit(1)) == Once()
  {
    hide Run, AllEnabled, TidyStep, SelectStep, LoginStep;
    var s := LoggedIn();
    var s3 := Poised(s, 1, "a", "b");
    assert CallerAt(s3, 1) == Ready("a", 0, s.rows["a"], 0, "b") && Wins(s3, CallerAt(s3, 1));
  }

  lemma RunFromLogin(rest: seq<Action>)
    requires AllEnabled(Once(), rest)
    ensures AllEnabled(Fresh(0, {0}), [Login("a", "did", 0)] + Alone(1, "a", "b", [Commit(1)] + rest))
    ensures Run(Fresh(0, {0}), [Login("a", "did", 0)] + Alone(1, "a", "b", [Commit(1)] + rest)) == Run(Once(), rest)
  {
    hide Run, AllEnabled, Do, Poised, LoggedIn, Once, Alone;
    LoginIsFirst();
    FirstRotation();
    Peel(Poised(LoggedIn(), 1, "a", "b"), Commit(1), rest);
    Undisturbed(LoggedIn(), 1, "a", "b", [Commit(1)] + rest);
    Peel(Fresh(0, {0}), Login("a", "did", 0), Alone(1, "a", "b", [Commit(1)] + rest));
  }

  /** The condition of being in time cannot be dropped: this run, from empty tables, inserts a successor twice. */
  lemma SomeRunRecreates()
    ensures AllEnabled(Fresh(0, {0}), LateRun()) && Run(Fresh(0, {0}), LateRun()).recreated
  {
    RunFromTwice();
    var last := Alone(2, "a", "d", [Tick(GRACE_TTL)] + ([Lookup("b")] + ([Commit(2)] + [])));
    RunFromOnce(last);
    RunFromLogin(Alone(1, "b", "c", [Commit(1)] + last));
  }

  // ---------------------------------------------------------------------------------
  // Starting over twice

  /** What follows the two rotations that both read the session before either has written. */
  function Aftermath(): (r: seq<Action>) {
    [Select(2)] + ([Tidy(2, "d")] + ([Tick(GRACE_TTL)] +
    ([Rotate(3, "b")] + ([Select(3)] + ([Tidy(3, "e")] + ([Commit(2)] + []))))))
  }

  /** Caller 2 loses to caller 1, reads again, and is overtaken by the clock and by caller 3's tidying. */
  function TwoRetriesRun(): (r: seq<Action>) {
    [Login("a", "did", 0)] + Alone(1, "a", "b", Alone(2, "a", "c", [Commit(1)] + ([Commit(2)] + Aftermath())))
  }

  /** Caller 1 has won, caller 2 has lost. */
  function Lost(): (r: State) {
    State(0, map["a" := Row(0, GRACE_TTL, Some("b")), "b" := Row(0, REFRESH_TTL, None)],
          {0}, map[1 := Idle, 2 := Waiting("a", 1)], [Rotated("a", "b")], {"a", "b", "c"},
          map["a" := Link("b", 0, GRACE_TTL, "did")], false, false)
  }

  /** Caller 2 has read again, and the grace period is over. */
  function Overtaken(): (r: State) {
    Lost().(clock := GRACE_TTL, callers := map[1 := Idle, 2 := Ready("a", 1, Row(0, GRACE_TTL, Some("b")), 0, "b")])
  }

  function Tidied(): (r: State) {
    Overtaken().(rows := map["b" := Row(0, REFRESH_TTL, None)],
                 callers := Overtaken().callers[3 := Ready("b", 0, Row(0, REFRESH_TTL, None), GRACE_TTL, "e")],
                 known := {"a", "b", "c", "e"})
  }

  lemma LosingSteps()
    ensures var s0 := LoggedIn();
            && Calm(s0, 1, "a", "b") && Calm(Poised(s0, 1, "a", "b"), 2, "a", "c")
            && var s2 := Poised(Poised(s0, 1, "a", "b"), 2, "a", "c");
            && Enabled(s2, Commit(1)) && Enabled(Do(s2, Commit(1)), Commit(2))
            && Do(Do(s2, Commit(1)), Commit(2)) == Lost()
  {
    hide Run, AllEnabled, TidyStep, SelectStep, LoginStep;
    var s0 := LoggedIn();
    var s1 := Poised(s0, 1, "a", "b");
    var s2 := Poised(s1, 2, "a", "c");
    var s3 := Once().(callers := s2.callers[1 := Idle], known := {"a", "b", "c"});
    assert CallerAt(s2, 1) == Ready("a", 0, s0.rows["a"], 0, "b");
    assert Do(s2, Commit(1)) == s3;
    assert CallerAt(s3, 2) == Ready("a", 0, s0.rows["a"], 0, "c") && !Wins(s3, CallerAt(s3, 2));
  }

  lemma RereadingSteps()
    ensures Enabled(Lost(), Select(2)) && Enabled(Do(Lost(), Select(2)), Tidy(2, "d"))
    ensures Do(Do(Do(Lost(), Select(2)), Tidy(2, "d")), Tick(GRACE_TTL)) == Overtaken()
  {
    hide Run, AllEnabled, CommitStep, LoginStep;
    var s := Lost();
    var s1 := s.(callers := map[1 := Idle, 2 := Holding("a", 1, s.rows["a"])]);
    assert Do(s, Select(2)) == s1;
    assert Expired(s1, "did") == {} && s1.rows - {} == s1.rows;
  }

  /** Caller 3 has read the successor. */
  function Reading(): (r: State) {
    Overtaken().(callers := Overtaken().callers[3 := Holding("b", 0, Row(0, REFRESH_TTL, None))])
  }

  lemma ReadingSteps()
    ensures Enabled(Overtaken(), Rotate(3, "b")) && Enabled(Do(Overtaken(), Rotate(3, "b")), Select(3))
    ensures Do(Do(Overtaken(), Rotate(3, "b")), Select(3)) == Reading()
  {
    hide Run, AllEnabled, LoginStep, TidyStep, CommitStep;
    var s := Overtaken();
    var s1 := s.(callers := s.callers[3 := Waiting("b", 0)]);
    assert Do(s, Rotate(3, "b")) == s1;
    assert s1.callers[3 := Holding("b", 0, s.rows["b"])] == Reading().callers;
  }

  lemma TidyingStep()
    ensures Enabled(Reading(), Tidy(3, "e")) && Do(Reading(), Tidy(3, "e")) == Tidied()
  {
    hide Run, AllEnabled, LoginStep, SelectStep, CommitStep;
    assert Expired(Reading(), "did") == {"a"};
    assert Reading().rows - {"a"} == Tidied().rows;
  }

  lemma LastStep()
    ensures Enabled(Tidied(), Commit(2)) && CallerAt(Do(Tidied(), Commit(2)), 2) == Waiting("a", 2)
  {
    hide Run, AllEnabled, LoginStep, SelectStep, TidyStep;
    assert CallerAt(Tidied(), 2).Ready? && !Wins(Tidied(), CallerAt(Tidied(), 2));
  }

  lemma RunFromLost()
    ensures AllEnabled(Lost(), Aftermath()) && CallerAt(Run(Lost(), Aftermath()), 2) == Waiting("a", 2)
  {
    hide Run, AllEnabled, Do, Lost, Overtaken, Reading, Tidied;
    RereadingSteps();
    ReadingSteps();
    TidyingStep();
    LastStep();
    var s1, o1 := Do(Lost(), Select(2)), Do(Overtaken(), Rotate(3, "b"));
    var last := [Commit(2)] + [];
    NothingLeft(Do(Tidied(), Commit(2)));
    Peel(Tidied(), Commit(2), []);
    Peel(Do(o1, Select(3)), Tidy(3, "e"), last);
    Peel(o1, Select(3), [Tidy(3, "e")] + last);
    Peel(Overtaken(), Rotate(3, "b"), [Select(3)] + ([Tidy(3, "e")] + last));
    var rest := [Rotate(3, "b")] + ([Select(3)] + ([Tidy(3, "e")] + last));
    Peel(Do(s1, Tidy(2, "d")), Tick(GRACE_TTL), rest);
    Peel(s1, Tidy(2, "d"), [Tick(GRACE_TTL)] + rest);
    Peel(Lost(), Select(2), [Tidy(2, "d")] + ([Tick(GRACE_TTL)] + rest));
  }

  /** Starting over twice does happen: this run, from empty tables, brings caller 2 to its third attempt. */
  lemma SomeCallerStartsOverTwice()
    ensures AllEnabled(Fresh(0, {0}), TwoRetriesRun())
    ensures CallerAt(Run(Fresh(0, {0}), TwoRetriesRun()), 2) == Waiting("a", 2)
  {
    hide Run, AllEnabled, Do, Poised, Lost, LoggedIn, Alone, Aftermath;
    LosingSteps();
    RunFromLost();
    LoginIsFirst();
    var s0 := LoggedIn();
    var s1 := Poised(s0, 1, "a", "b");
    var s2 := Poised(s1, 2, "a", "c");
    var rest := [Commit(1)] + ([Commit(2)] + Aftermath());
    Peel(Do(s2, Commit(1)), Commit(2), Aftermath());
    Peel(s2, Commit(1), [Commit(2)] + Aftermath());
    Undisturbed(s1, 2, "a", "c", rest);
    Undisturbed(s0, 1, "a", "b", Alone(2, "a", "c", rest));
    Peel(Fresh(0, {0}), Login("a", "did", 0), Alone(1, "a", "b", Alone(2, "a", "c", rest)));
  }
}
