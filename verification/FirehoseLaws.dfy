/** What the firehose promises its subscribers, over every run. */
module FirehoseLaws {
  import opened Common
  import AsyncBuffers
  import opened Firehose
  import opened FirehoseProof

  /**
   * Exactly-once delivery: whatever the interleaving of appends, consumer steps and an abort, the
   * consumer has been sent a prefix, in order and without gap, of the valid rows after its origin.
   */
  lemma ExactlyOnce(log: Log, cursor: Option<int>, maxSize: nat, actions: seq<Action>)
    requires Ordered(log)
    requires cursor.Some? ==> cursor.value <= LastSeq(log)
    requires AllAllowed(Begin(log, cursor, maxSize), actions)
    ensures var w := Run(Begin(log, cursor, maxSize), actions);
            && w.consumer.sent <= Range(w.log, w.consumer.origin)
            && Increasing(w.consumer.sent)
            && (cursor.Some? ==> w.consumer.origin == cursor.value)
            && (forall row :: row in w.consumer.sent ==> row in w.log && !row.invalidated && row.num > w.consumer.origin)
  {
    var start := Begin(log, cursor, maxSize);
    InitInv(log, cursor, maxSize);
    RunKeeps(start, actions);
    CursorKept(start, actions);
    var w := Run(start, actions);
    assert w.consumer.sent <= Promised(w.consumer);
    RangeSound(w.log, w.consumer.origin);
    PrefixRows(w.log, w.consumer.origin, w.consumer.sent);
  }

  lemma PrefixRows(log: Log, after: int, sent: seq<Row>)
    requires sent <= Range(log, after)
    ensures forall row :: row in sent ==> row in log && !row.invalidated && row.num > after
  {
    forall row | row in sent
      ensures row in log && !row.invalidated && row.num > after
    {
      var i :| 0 <= i < |sent| && sent[i] == row;
      assert Range(log, after)[i] == row;
      RangeIsExact(log, after, row);
    }
  }

  /** The log, cursor and actions of a run the endpoint can start. */
  ghost predicate Served(log: Log, cursor: Option<int>, maxSize: nat, actions: seq<Action>) {
    && Ordered(log)
    && (cursor.Some? ==> cursor.value <= LastSeq(log))
    && AllAllowed(Begin(log, cursor, maxSize), actions)
  }

  /** Where such a run leads. */
  ghost function Reached(log: Log, cursor: Option<int>, maxSize: nat, actions: seq<Action>): (w: World)
    requires Served(log, cursor, maxSize, actions)
    ensures Inv(w)
  {
    InitInv(log, cursor, maxSize);
    RunKeeps(Begin(log, cursor, maxSize), actions);
    Run(Begin(log, cursor, maxSize), actions)
  }

  lemma StepKeepsCursor(log: Log, aborted: bool, c: Consumer)
    ensures Advance(log, aborted, c).cursor == c.cursor
  {
  }

  lemma {:induction false} CursorKept(w: World, actions: seq<Action>)
    ensures Run(w, actions).consumer.cursor == w.consumer.cursor
    decreases |actions|
  {
    if actions != [] {
      StepKeepsCursor(w.log, w.aborted, w.consumer);
      assert Do(w, actions[0]).consumer.cursor == w.consumer.cursor;
      CursorKept(Do(w, actions[0]), actions[1..]);
    }
  }

  /** A live consumer's origin is the end of the log when it subscribes, and stays there. */
  lemma {:induction false} OriginKept(w: World, actions: seq<Action>)
    requires !w.consumer.phase.Subscribe? && w.consumer.cursor.None?
    requires w.consumer.phase.Tail? || w.consumer.phase.Stopped?
    ensures Run(w, actions).consumer.origin == w.consumer.origin
    decreases |actions|
  {
    if actions != [] {
      OriginKept(Do(w, actions[0]), actions[1..]);
    }
  }

  /**
   * Without a cursor nothing is sent before subscribing, and from then on, at every moment, a prefix
   * of the valid rows appended since.
   */
  lemma LiveStartsAtTheEnd(log: Log, maxSize: nat, before: seq<Action>, after: seq<Action>)
    requires Served(log, None, maxSize, before)
    requires var w := Reached(log, None, maxSize, before);
             w.consumer.phase.Subscribe? && !w.aborted && AllAllowed(Do(w, Step), after)
    ensures var w := Reached(log, None, maxSize, before);
            var v := Run(Do(w, Step), after);
            w.consumer.sent == [] && v.consumer.sent <= Range(v.log, LastSeq(w.log))
  {
    var w := Reached(log, None, maxSize, before);
    CursorKept(Begin(log, None, maxSize), before);
    AdvanceKeeps(w);
    OriginKept(Do(w, Step), after);
    RunKeeps(Do(w, Step), after);
    var v := Run(Do(w, Step), after);
    assert v.consumer.sent <= Promised(v.consumer);
  }

  // ---------------------------------------------------------------------------------
  // The cursor guard is exactly what the promise needs

  /** The run in which a consumer with a cursor past the end is sent a row it did not ask for. */
  function EarlyRow(log: Log): (r: Row) {
    Row(LastSeq(log) + 1, false, 0, "")
  }

  function CutoverRun(log: Log): (r: seq<Action>) {
    [Step] + ([Step] + ([Step] + ([Append(EarlyRow(log))] + ([Step] + []))))
  }

  ghost predicate AlwaysPrefix(log: Log, cursor: int, maxSize: nat) {
    forall actions: seq<Action> | AllAllowed(Begin(log, Some(cursor), maxSize), actions) ::
      var w := Run(Begin(log, Some(cursor), maxSize), actions);
      w.consumer.sent <= Range(w.log, cursor)
  }

  /** The empty backfill of a cursor past the end: three steps lead to the tail. */
  lemma EmptyBackfill(log: Log, cursor: int, maxSize: nat)
    requires Ordered(log) && cursor > LastSeq(log)
    ensures var c := Do(Do(Do(Begin(log, Some(cursor), maxSize), Step), Step), Step).consumer;
            && c.phase == Tail && c.listening && !c.caughtUp && c.lastBackfill == -1 && c.sent == []
            && c.buffer == AsyncBuffers.Init(maxSize)
  {
    RangePastEnd(log, cursor);
  }

  lemma TailSends(log: Log, c: Consumer, row: Row)
    requires c.phase == Tail && c.listening && c.lastBackfill == -1 && c.sent == []
    requires c.buffer == AsyncBuffers.Init(c.buffer.maxSize) && c.buffer.maxSize > 0
    ensures Advance(log, false, Notify(c, row)).sent == [row]
  {
    assert Notify(c, row).buffer.queue == [row];
  }

  lemma FutureCursorBreaks(log: Log, cursor: int, maxSize: nat)
    requires Ordered(log) && maxSize > 0 && cursor > LastSeq(log)
    ensures AllAllowed(Begin(log, Some(cursor), maxSize), CutoverRun(log))
    ensures var w := Run(Begin(log, Some(cursor), maxSize), CutoverRun(log));
            w.consumer.sent == [EarlyRow(log)] && Range(w.log, cursor) == []
  {
    hide Run, AllAllowed, Advance, Range;
    var w0 := Begin(log, Some(cursor), maxSize);
    var row := EarlyRow(log);
    var w3 := Do(Do(Do(w0, Step), Step), Step);
    EmptyBackfill(log, cursor, maxSize);
    TailSends(log + [row], w3.consumer, row);
    OrderedAppend(log, row);
    RangePastEnd(log + [row], cursor);
    PeelThree(w0, [Append(row)] + ([Step] + []));
    PeelTwo(w3, row);
  }

  lemma PeelThree(w: World, rest: seq<Action>)
    ensures Run(w, [Step] + ([Step] + ([Step] + rest))) == Run(Do(Do(Do(w, Step), Step), Step), rest)
    ensures AllAllowed(w, [Step] + ([Step] + ([Step] + rest))) <==>
            AllAllowed(Do(Do(Do(w, Step), Step), Step), rest)
  {
    Peel(Do(Do(w, Step), Step), Step, rest);
    Peel(Do(w, Step), Step, [Step] + rest);
    Peel(w, Step, [Step] + ([Step] + rest));
  }

  lemma PeelTwo(w: World, row: Row)
    ensures Run(w, [Append(row)] + ([Step] + [])) == Do(Do(w, Append(row)), Step)
    ensures AllAllowed(w, [Append(row)] + ([Step] + [])) <==> Allowed(w, Append(row))
  {
    Peel(Do(w, Append(row)), Step, []);
    Peel(w, Append(row), [Step] + []);
  }

  lemma Peel(w: World, a: Action, rest: seq<Action>)
    ensures Run(w, [a] + rest) == Run(Do(w, a), rest)
    ensures AllAllowed(w, [a] + rest) <==> Allowed(w, a) && AllAllowed(Do(w, a), rest)
  {
    assert ([a] + rest)[1..] == rest;
  }

  /** The endpoint's `cursor > lastSeq` test shuts out exactly the cursors the protocol cannot serve. */
  lemma CursorGuardIsExact(log: Log, cursor: int, maxSize: nat)
    requires Ordered(log) && maxSize > 0
    ensures AlwaysPrefix(log, cursor, maxSize) <==> cursor <= LastSeq(log)
  {
    if cursor <= LastSeq(log) {
      forall actions: seq<Action> | AllAllowed(Begin(log, Some(cursor), maxSize), actions)
        ensures Run(Begin(log, Some(cursor), maxSize), actions).consumer.sent <=
                Range(Run(Begin(log, Some(cursor), maxSize), actions).log, cursor)
      {
        ExactlyOnce(log, Some(cursor), maxSize, actions);
      }
    } else {
      FutureCursorBreaks(log, cursor, maxSize);
    }
  }

  lemma {:induction false} MemberBelowLast(log: Log, row: Row)
    requires Ordered(log) && row in log
    ensures 0 < row.num <= LastSeq(log)
  {
    var i :| 0 <= i < |log| && log[i] == row;
    assert i == |log| - 1 || log[i].num < log[|log| - 1].num;
  }

  /** Every cursor the endpoint hands over meets the protocol's precondition. */
  lemma EndpointMeetsGuard(log: Log, cursor: Option<int>, cutoff: int)
    requires Ordered(log)
    ensures var r := OutboxCursor(log, cursor, cutoff);
            && (r.Err? <==> cursor.Some? && cursor.value > LastSeq(log))
            && (r.Ok? && r.value.Some? ==> r.value.value <= LastSeq(log))
  {
    var start := EarliestAfterTime(log, cutoff / 1000);
    if start.Some? {
      MemberBelowLast(log, start.value);
    }
  }

  predicate TimesRise(log: Log) {
    forall i, j :: 0 <= i < j < |log| ==> log[i].sequencedAt <= log[j].sequencedAt
  }

  /** With rising times the earliest row at or after a time is the first one. */
  lemma {:induction false} EarliestIsFirst(log: Log, time: int)
    requires Ordered(log) && TimesRise(log) && EarliestAfterTime(log, time).Some?
    ensures forall i :: 0 <= i < |log| && log[i].num < EarliestAfterTime(log, time).value.num ==> log[i].sequencedAt < time
    decreases |log|
  {
    if log[0].sequencedAt < time {
      EarliestIsFirst(log[1..], time);
      forall i | 0 < i < |log| && log[i].num < EarliestAfterTime(log, time).value.num
        ensures log[i].sequencedAt < time
      {
        assert log[i] == log[1..][i - 1];
      }
    }
  }

  /** The next row is the one with the least number after the cursor, if there is any. */
  lemma {:induction false} NextIsAfter(log: Log, cursor: int)
    requires Ordered(log)
    ensures NextRow(log, cursor).Some? ==>
              && NextRow(log, cursor).value in log && NextRow(log, cursor).value.num > cursor
              && forall i :: 0 <= i < |log| && log[i].num > cursor ==> NextRow(log, cursor).value.num <= log[i].num
    ensures NextRow(log, cursor).None? ==> forall i :: 0 <= i < |log| ==> log[i].num <= cursor
    decreases |log|
  {
    if log != [] && log[0].num <= cursor {
      NextIsAfter(log[1..], cursor);
      assert log == [log[0]] + log[1..];
      forall i | 0 < i < |log|
        ensures log[i] == log[1..][i - 1]
      {
      }
    }
  }

  /** The client is behind the limit. */
  predicate Outdated(log: Log, cursor: int, cutoff: int) {
    cursor <= LastSeq(log) && NextRow(log, cursor).Some? && NextRow(log, cursor).value.sequencedAt * 1000 < cutoff
  }

  /**
   * What a client behind the limit is started at, with times rising along the log: no row within the
   * limit is skipped, and no row it has seen is sent again if and only if all of those are older
   * than the whole second of the limit; so always if the limit is a whole second.
   */
  lemma OutdatedStart(log: Log, cursor: int, cutoff: int)
    requires Ordered(log) && TimesRise(log) && Outdated(log, cursor, cutoff)
    ensures OutboxCursor(log, Some(cursor), cutoff).Ok?
    ensures var r := OutboxCursor(log, Some(cursor), cutoff).value;
            && (forall i :: 0 <= i < |log| && log[i].sequencedAt * 1000 >= cutoff ==> r.Some? && log[i].num > r.value)
            && (r.Some? ==>
                  (r.value >= cursor <==>
                   forall i :: 0 <= i < |log| && log[i].num <= cursor ==> log[i].sequencedAt < cutoff / 1000))
            && (r.Some? && cutoff % 1000 == 0 ==> r.value >= cursor)
            && (r.Some? <==> exists i :: 0 <= i < |log| && log[i].sequencedAt >= cutoff / 1000)
            && (r.Some? ==> exists i :: 0 <= i < |log| && log[i].num == r.value + 1 && log[i].sequencedAt >= cutoff / 1000)
  {
    hide NextRow, EarliestAfterTime, LastSeq, Range;
    var start := EarliestAfterTime(log, cutoff / 1000);
    if start.Some? {
      MemberBelowLast(log, start.value);
      EarliestIsFirst(log, cutoff / 1000);
      var k :| 0 <= k < |log| && log[k] == start.value;
      NextIsAfter(log, cursor);
      var n :| 0 <= n < |log| && log[n] == NextRow(log, cursor).value;
      forall i | 0 <= i < |log| && log[i].num <= cursor && cutoff % 1000 == 0
        ensures log[i].sequencedAt < cutoff / 1000
      {
        assert i < n;
        assert log[i].sequencedAt <= log[n].sequencedAt;
      }
    }
  }

  function SameSecond(): (r: Log) {
    [Row(1, false, 1, "a"), Row(2, false, 1, "b")]
  }

  lemma SameSecondQueries()
    ensures NextRow(SameSecond(), 1) == Some(Row(2, false, 1, "b"))
    ensures EarliestAfterTime(SameSecond(), 1) == Some(Row(1, false, 1, "a"))
  {
    var b := Row(2, false, 1, "b");
    assert SameSecond()[1..] == [b] && [b][1..] == [];
    assert NextRow([b], 1) == Some(b);
    assert EarliestAfterTime([b], 1) == Some(b);
  }

  lemma SameSecondRange()
    ensures Range(SameSecond(), 0) == SameSecond()
  {
    var a := Row(1, false, 1, "a");
    assert SameSecond()[..1] == [a] && [a][..0] == [];
    assert Range([a], 0) == [a];
  }

  /** A seen row of the same second is sent again: cursor 1 becomes 0, and both rows are due. */
  lemma SameSecondIsResent()
    ensures Ordered(SameSecond()) && TimesRise(SameSecond()) && Outdated(SameSecond(), 1, 1500)
    ensures OutboxCursor(SameSecond(), Some(1), 1500) == Ok(Some(0))
    ensures Range(SameSecond(), 0) == SameSecond()
  {
    SameSecondQueries();
    SameSecondRange();
    hide NextRow, EarliestAfterTime, Range;
  }

  // ---------------------------------------------------------------------------------
  // Nothing is held back

  lemma WaitingMeansSent(w: World)
    requires Inv(w) && w.consumer.phase.Tail? && w.consumer.buffer.Next().1.Blocked?
    ensures w.consumer.sent == Due(w)
  {
    var c := w.consumer;
    assert c.buffer.delivered + [] == c.buffer.accepted;
    assert c.buffer.delivered == Due(w)[c.joined..];
    assert Due(w)[..|Due(w)|] == Due(w);
  }

  /** In every run, a consumer that waits in its tail has been sent every valid row after its origin. */
  lemma WaitingIsComplete(log: Log, cursor: Option<int>, maxSize: nat, actions: seq<Action>)
    requires Served(log, cursor, maxSize, actions)
    requires var c := Reached(log, cursor, maxSize, actions).consumer; c.phase.Tail? && c.buffer.Next().1.Blocked?
    ensures var w := Reached(log, cursor, maxSize, actions);
            && w.consumer.sent == Range(w.log, w.consumer.origin)
            && (cursor.Some? ==> w.consumer.sent == Range(w.log, cursor.value))
            && (forall row :: row in w.consumer.sent <==>
                                row in w.log && !row.invalidated && row.num > w.consumer.origin)
  {
    ExactlyOnce(log, cursor, maxSize, actions);
    var w := Reached(log, cursor, maxSize, actions);
    WaitingMeansSent(w);
    forall row
      ensures row in w.consumer.sent <==> row in w.log && !row.invalidated && row.num > w.consumer.origin
    {
      RangeIsExact(w.log, w.consumer.origin, row);
    }
  }

  /**
   * What a client behind no limit gets from the endpoint: with a current cursor, at every moment a
   * prefix of the valid rows after that very cursor, and all of them once it waits; without one, a
   * live stream that sends nothing until it has subscribed.
   */
  lemma EndpointServesCursor(log: Log, cursor: Option<int>, cutoff: int, maxSize: nat, actions: seq<Action>)
    requires Ordered(log) && (cursor.Some? ==> cursor.value <= LastSeq(log) && !Outdated(log, cursor.value, cutoff))
    requires AllAllowed(Begin(log, cursor, maxSize), actions)
    ensures OutboxCursor(log, cursor, cutoff) == Ok(cursor)
    ensures var w := Run(Begin(log, OutboxCursor(log, cursor, cutoff).value, maxSize), actions);
            && (cursor.Some? ==> w.consumer.sent <= Range(w.log, cursor.value))
            && (cursor.Some? && w.consumer.phase.Tail? && w.consumer.buffer.Next().1.Blocked? ==>
                  w.consumer.sent == Range(w.log, cursor.value))
            && (cursor.None? && w.consumer.phase.Subscribe? ==> w.consumer.sent == [])
  {
    ExactlyOnce(log, cursor, maxSize, actions);
    var w := Reached(log, cursor, maxSize, actions);
    CursorKept(Begin(log, cursor, maxSize), actions);
    if cursor.Some? && w.consumer.phase.Tail? && w.consumer.buffer.Next().1.Blocked? {
      WaitingIsComplete(log, cursor, maxSize, actions);
    }
  }

  function Steps(w: World, n: nat): (r: World)
    decreases n
  {
    if n == 0 then w else Steps(Do(w, Step), n - 1)
  }

  /** Stopped, or waiting for the next event. */
  predicate Settled(c: Consumer) {
    c.phase.Stopped? || (c.phase.Tail? && c.buffer.Next().1.Blocked?)
  }

  function Rank(c: Consumer): nat {
    match c.phase
    case Fetch => 5
    case Paging(_, _) => 5
    case Subscribe => 4
    case FinalFetch => 3
    case FinalPaging(_, _) => 2
    case Tail => 1
    case Stopped(_) => 0
  }

  /** Within a phase: rows still to be sent, or still queued. */
  function Left(w: World): int {
    var c := w.consumer;
    match c.phase
    case Fetch => |Due(w)| - |c.sent|
    case Paging(_, _) => |Due(w)| - |c.sent|
    case FinalPaging(rest, _) => |rest|
    case Tail => |c.buffer.queue|
    case _ => 0
  }

  function Finer(c: Consumer): nat {
    match c.phase
    case Fetch => 1
    case Paging(rest, _) => if rest == [] then 2 else 0
    case Tail => if c.buffer.resolved then 1 else 0
    case _ => 0
  }

  ghost predicate Closer(v: World, w: World) {
    || Rank(v.consumer) < Rank(w.consumer)
    || (Rank(v.consumer) == Rank(w.consumer) && 0 <= Left(v) < Left(w))
    || (Rank(v.consumer) == Rank(w.consumer) && Left(v) == Left(w) && Finer(v.consumer) < Finer(w.consumer))
  }

  lemma BackfillProgresses(w: World)
    requires Inv(w) && (w.consumer.phase.Fetch? || w.consumer.phase.Paging?)
    ensures Closer(Do(w, Step), w) && 0 <= Left(w)
  {
    var c := w.consumer;
    assert |Promised(c)| <= |Due(w)|;
  }

  lemma TailProgresses(c: Consumer, due: seq<Row>)
    requires AfterJoin(c, due) && c.phase.Tail? && !c.buffer.Next().1.Blocked?
    ensures var d := Tailing(c);
            || d.phase.Stopped?
            || (d.phase.Tail? && |d.buffer.queue| < |c.buffer.queue|)
            || (d.phase.Tail? && d.buffer.queue == c.buffer.queue && c.buffer.resolved && !d.buffer.resolved)
  {
  }

  lemma CutoverProgresses(w: World)
    requires w.consumer.phase.Subscribe? || w.consumer.phase.FinalFetch? || w.consumer.phase.FinalPaging?
    ensures Closer(Do(w, Step), w) && 0 <= Left(w)
  {
  }

  /** Without further appends every step the consumer can take brings it closer to rest. */
  lemma StepProgresses(w: World)
    requires Inv(w) && !Settled(w.consumer)
    ensures Closer(Do(w, Step), w) && 0 <= Left(w)
  {
    if w.consumer.phase.Fetch? || w.consumer.phase.Paging? {
      BackfillProgresses(w);
    } else if w.consumer.phase.Tail? {
      TailProgresses(w.consumer, Due(w));
    } else {
      CutoverProgresses(w);
    }
  }

  /** Stopped as too slow, or waiting with everything sent. */
  predicate AtRest(w: World) {
    w.consumer.phase == Stopped(TooSlow) || (w.consumer.phase.Tail? && w.consumer.sent == Due(w))
  }

  lemma {:induction false} SettlesFrom(w: World, rank: nat, left: int, finer: nat) returns (n: nat)
    requires Inv(w) && !w.aborted
    requires w.consumer.phase.Stopped? ==> w.consumer.phase.reason.TooSlow?
    requires Rank(w.consumer) == rank && Left(w) == left && Finer(w.consumer) == finer
    ensures Steps(w, n).log == w.log && AtRest(Steps(w, n))
    decreases rank, left, finer
  {
    if Settled(w.consumer) {
      n := 0;
      if w.consumer.phase.Tail? {
        WaitingMeansSent(w);
      }
    } else {
      hide Inv, Range, Do, AtRest;
      var v := Do(w, Step);
      StepProgresses(w);
      AdvanceKeeps(w);
      StepStopsWhenSlow(w);
      var m := SettlesFrom(v, Rank(v.consumer), Left(v), Finer(v.consumer));
      n := m + 1;
      assert Steps(w, n) == Steps(v, m);
    }
  }

  lemma OpenNeverEnds(c: Consumer, due: seq<Row>)
    requires AfterJoin(c, due) && c.listening
    ensures Tailing(c).phase.Stopped? && !c.phase.Stopped? ==>
              Tailing(c).phase == Stopped(TooSlow) && c.buffer.Overflowed()
  {
  }

  lemma BackfillNeverStops(log: Log, c: Consumer)
    requires !c.phase.Tail? && !c.phase.Stopped?
    ensures !Advance(log, false, c).phase.Stopped?
  {
  }

  lemma StepStopsWhenSlow(w: World)
    requires Inv(w) && !w.aborted && !w.consumer.phase.Stopped?
    ensures var v := Do(w, Step).consumer;
            v.phase.Stopped? ==> v.phase == Stopped(TooSlow) && w.consumer.phase.Tail? && w.consumer.buffer.Overflowed()
  {
    hide Range, LastNum, Ordered, Page;
    if w.consumer.phase.Tail? {
      OpenNeverEnds(w.consumer, Due(w));
    } else {
      BackfillNeverStops(w.log, w.consumer);
    }
  }

  /** Not stopped, or stopped by an abort or as too slow. */
  predicate StoppedFairly(w: World) {
    w.consumer.phase.Stopped? && !w.aborted ==> w.consumer.phase.reason.TooSlow?
  }

  lemma {:induction false} StopsFairly(w: World, actions: seq<Action>)
    requires Inv(w) && StoppedFairly(w) && AllAllowed(w, actions)
    ensures StoppedFairly(Run(w, actions))
    decreases |actions|
  {
    if actions != [] {
      RunKeeps(w, [actions[0]]);
      assert Run(w, [actions[0]]) == Do(w, actions[0]);
      assert StoppedFairly(Do(w, actions[0])) by {
        if actions[0].Step? && !w.aborted && !w.consumer.phase.Stopped? {
          StepStopsWhenSlow(w);
        }
      }
      hide Inv, StoppedFairly;
      StopsFairly(Do(w, actions[0]), actions[1..]);
    }
  }

  /**
   * In every run, a consumer that is not aborted has stopped only because its buffer overflowed, and
   * takes such a step only in its tail.
   */
  lemma StopsOnlyWhenSlow(log: Log, cursor: Option<int>, maxSize: nat, actions: seq<Action>)
    requires Served(log, cursor, maxSize, actions) && !Reached(log, cursor, maxSize, actions).aborted
    ensures var w := Reached(log, cursor, maxSize, actions);
            var v := Do(w, Step).consumer;
            && (w.consumer.phase.Stopped? ==> w.consumer.phase == Stopped(TooSlow))
            && (v.phase.Stopped? && !w.consumer.phase.Stopped? ==>
                  v.phase == Stopped(TooSlow) && w.consumer.phase.Tail? && w.consumer.buffer.Overflowed())
  {
    var w := Reached(log, cursor, maxSize, actions);
    InitInv(log, cursor, maxSize);
    StopsFairly(Begin(log, cursor, maxSize), actions);
    if !w.consumer.phase.Stopped? {
      StepStopsWhenSlow(w);
    }
  }

  /**
   * From wherever a run has led, if writers pause the consumer comes to rest in finitely many steps;
   * unless stopped as too slow it has then been sent everything.
   */
  lemma Settles(log: Log, cursor: Option<int>, maxSize: nat, actions: seq<Action>) returns (n: nat)
    requires Served(log, cursor, maxSize, actions) && !Reached(log, cursor, maxSize, actions).aborted
    ensures var w := Reached(log, cursor, maxSize, actions);
            Steps(w, n).log == w.log && AtRest(Steps(w, n))
  {
    var w := Reached(log, cursor, maxSize, actions);
    StopsOnlyWhenSlow(log, cursor, maxSize, actions);
    n := SettlesFrom(w, Rank(w.consumer), Left(w), Finer(w.consumer));
  }

  // ---------------------------------------------------------------------------------
  // After an abort

  /** The abort signal has detached the handler. */
  predicate Deaf(w: World) {
    w.aborted ==> !w.consumer.listening
  }

  lemma {:induction false} StaysDeaf(w: World, actions: seq<Action>)
    requires Deaf(w)
    ensures Deaf(Run(w, actions))
    decreases |actions|
  {
    if actions != [] {
      StepStaysDeaf(w, actions[0]);
      StaysDeaf(Do(w, actions[0]), actions[1..]);
    }
  }

  lemma StepStaysDeaf(w: World, a: Action)
    requires Deaf(w)
    ensures Deaf(Do(w, a))
  {
    hide Range, Page, LastSeq;
  }

  /** The row an aborted consumer in its tail can send last is one it was given before the abort. */
  ghost predicate Draining(w: World, limit: nat) {
    && w.aborted && !w.consumer.listening && (w.consumer.phase.Tail? || w.consumer.phase.Stopped?)
    && |w.consumer.sent| <= limit
    && (w.consumer.phase.Tail? ==>
          w.consumer.joined + |w.consumer.buffer.accepted| <= limit && w.consumer.backfilled <= limit)
  }

  lemma DrainingStep(w: World, a: Action, limit: nat)
    requires Inv(w) && Draining(w, limit) && Allowed(w, a)
    ensures Draining(Do(w, a), limit) && Inv(Do(w, a)) && Do(w, a).consumer.origin == w.consumer.origin
  {
    match a {
      case Append(row) =>
        AppendKeeps(w, row);
      case Abort =>
      case Step =>
        AdvanceKeeps(w);
        hide Range, AfterJoin, Holds, Ordered;
        if w.consumer.phase.Tail? {
          RangeSound(w.log, w.consumer.origin);
          TailingIsBounded(w.consumer, Due(w), limit);
        }
    }
  }

  lemma NextKeepsAccepted(s: AsyncBuffers.State<Row>)
    ensures s.Next().0.accepted == s.accepted
  {
  }

  lemma SentIsBounded(c: Consumer, due: seq<Row>, limit: nat)
    requires c.buffer.Good() && InTail(c, due)
    requires c.joined + |c.buffer.accepted| <= limit && c.backfilled <= limit
    ensures |c.sent| <= limit
  {
    assert |c.buffer.delivered| <= |c.buffer.accepted|;
  }

  lemma TailingLeaves(c: Consumer)
    ensures var d := Tailing(c);
            && d.buffer == c.buffer.Next().0 && d.origin == c.origin && d.joined == c.joined && d.backfilled == c.backfilled
            && (!c.listening ==> !d.listening) && (d.phase == c.phase || d.phase.Stopped?)
            && (!c.buffer.Next().1.Yielded? ==> d.sent == c.sent)
  {
  }

  lemma TailingIsBounded(c: Consumer, due: seq<Row>, limit: nat)
    requires Holds(c, due) && c.phase.Tail? && !c.listening && |c.sent| <= limit
    requires Increasing(due) && (forall i :: 0 <= i < |due| ==> due[i].num > 0)
    requires c.joined + |c.buffer.accepted| <= limit && c.backfilled <= limit
    ensures var d := Tailing(c);
            && !d.listening && (d.phase.Tail? || d.phase.Stopped?) && |d.sent| <= limit
            && d.origin == c.origin && d.joined == c.joined && d.backfilled == c.backfilled
            && d.buffer.accepted == c.buffer.accepted
  {
    NextKeepsAccepted(c.buffer);
    TailingLeaves(c);
    if c.buffer.Next().1.Yielded? {
      TakeKeeps(c, due);
      hide Tailing;
      SentIsBounded(Tailing(c), due, limit);
    }
  }

  lemma {:induction false} DrainingRun(w: World, actions: seq<Action>, limit: nat)
    requires Inv(w) && Draining(w, limit) && AllAllowed(w, actions)
    ensures Draining(Run(w, actions), limit) && Inv(Run(w, actions))
    ensures Run(w, actions).consumer.origin == w.consumer.origin
    ensures Due(w) <= Due(Run(w, actions))
    decreases |actions|
  {
    if actions != [] {
      DrainingStep(w, actions[0], limit);
      assert Due(w) <= Due(Do(w, actions[0])) by {
        if actions[0].Append? {
          AppendKeeps(w, actions[0].row);
        }
      }
      hide Inv, Draining, Due;
      DrainingRun(Do(w, actions[0]), actions[1..], limit);
    }
  }

  /** Whatever is appended after a tailing consumer was aborted is never sent to it. */
  lemma AbortStopsDelivery(log: Log, cursor: Option<int>, maxSize: nat, before: seq<Action>, after: seq<Action>)
    requires Served(log, cursor, maxSize, before)
    requires var w := Reached(log, cursor, maxSize, before);
             w.consumer.phase.Tail? && !w.aborted && AllAllowed(Do(w, Abort), after)
    ensures var w := Reached(log, cursor, maxSize, before);
            Run(Do(w, Abort), after).consumer.sent <= Range(w.log, w.consumer.origin)
  {
    var w := Reached(log, cursor, maxSize, before);
    var v := Do(w, Abort);
    AbortKeeps(w);
    assert Draining(v, |Due(w)|);
    DrainingRun(v, after, |Due(w)|);
    var t := Run(v, after);
    assert t.consumer.sent <= Promised(t.consumer);
  }

  /** An aborted stream ends: left alone its consumer stops in finitely many steps. */
  lemma AbortEnds(log: Log, cursor: Option<int>, maxSize: nat, actions: seq<Action>) returns (n: nat)
    requires Served(log, cursor, maxSize, actions) && Reached(log, cursor, maxSize, actions).aborted
    ensures Steps(Reached(log, cursor, maxSize, actions), n).consumer.phase.Stopped?
  {
    var w := Reached(log, cursor, maxSize, actions);
    StaysDeaf(Begin(log, cursor, maxSize), actions);
    n := EndsFrom(w, Rank(w.consumer), Left(w), Finer(w.consumer));
  }

  lemma ClosedNeverWaits(c: Consumer, due: seq<Row>)
    requires c.buffer.Good() && AfterJoin(c, due) && !c.listening
    ensures !c.buffer.Next().1.Blocked?
  {
  }

  lemma {:induction false} EndsFrom(w: World, rank: nat, left: int, finer: nat) returns (n: nat)
    requires Inv(w) && w.aborted && Deaf(w)
    requires Rank(w.consumer) == rank && Left(w) == left && Finer(w.consumer) == finer
    ensures Steps(w, n).consumer.phase.Stopped?
    decreases rank, left, finer
  {
    if w.consumer.phase.Stopped? {
      n := 0;
    } else {
      if w.consumer.phase.Tail? {
        ClosedNeverWaits(w.consumer, Due(w));
      }
      hide Inv, Range, Do;
      var v := Do(w, Step);
      StepProgresses(w);
      AdvanceKeeps(w);
      StepStaysDeaf(w, Step);
      assert v.aborted by {
        StepKeepsAborted(w);
      }
      var m := EndsFrom(v, Rank(v.consumer), Left(v), Finer(v.consumer));
      n := m + 1;
      assert Steps(w, n) == Steps(v, m);
    }
  }

  lemma StepKeepsAborted(w: World)
    ensures Do(w, Step).aborted == w.aborted && Do(w, Step).log == w.log
  {
  }
}
