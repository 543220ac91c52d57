/**
 * Exactly-once delivery: in every interleaving the consumer has been sent a prefix of the valid
 * rows after its cursor, and one left alone ends up with all of them.
 */
module FirehoseProof {
  import opened Common
  import AsyncBuffers
  import opened Firehose

  // ---------------------------------------------------------------------------------
  // Ranges of an ordered log

  ghost predicate Increasing(rows: seq<Row>) {
    forall i, j :: 0 <= i < j < |rows| ==> rows[i].num < rows[j].num
  }

  lemma RangeAppend(log: Log, row: Row, after: int)
    ensures Range(log + [row], after) ==
            Range(log, after) + if !row.invalidated && row.num > after then [row] else []
  {
    assert (log + [row])[..|log|] == log;
  }

  lemma {:induction false} RangeSound(log: Log, after: int)
    requires Ordered(log)
    ensures Increasing(Range(log, after))
    ensures forall i :: 0 <= i < |Range(log, after)| ==> after < Range(log, after)[i].num <= LastSeq(log)
    ensures forall i :: 0 <= i < |Range(log, after)| ==> Range(log, after)[i].num > 0
    decreases |log|
  {
    if log != [] {
      RangeSound(log[..|log| - 1], after);
    }
  }

  /** A range holds exactly the valid rows with a higher number. */
  lemma {:induction false} RangeIsExact(log: Log, after: int, row: Row)
    ensures row in Range(log, after) <==> row in log && !row.invalidated && row.num > after
    decreases |log|
  {
    if log != [] {
      RangeIsExact(log[..|log| - 1], after, row);
      assert log == log[..|log| - 1] + [log[|log| - 1]];
    }
  }

  lemma {:induction false} RangePastEnd(log: Log, after: int)
    requires Ordered(log) && after >= LastSeq(log)
    ensures Range(log, after) == []
    decreases |log|
  {
    if log != [] {
      RangePastEnd(log[..|log| - 1], after);
    }
  }

  /** Querying again after the last row seen gives exactly the rows not seen. */
  lemma {:induction false} RangeResumes(log: Log, after: int, k: nat)
    requires Ordered(log) && 0 < k <= |Range(log, after)|
    ensures Range(log, Range(log, after)[k - 1].num) == Range(log, after)[k..]
    decreases |log|
  {
    var front, last := log[..|log| - 1], log[|log| - 1];
    var rows, all := Range(front, after), Range(log, after);
    RangeSound(front, after);
    if k <= |rows| {
      RangeResumes(front, after, k);
      assert all[k - 1] == rows[k - 1] && last.num > rows[k - 1].num;
      assert all[k..] == rows[k..] + all[|rows|..];
    } else {
      RangePastEnd(front, last.num);
      assert all[k..] == [];
    }
  }

  // ---------------------------------------------------------------------------------
  // The invariant, stated over the rows the consumer is due

  function Max(a: nat, b: nat): nat {
    if a >= b then a else b
  }

  /** What has been sent together with the part of a fetched page that is still to be yielded. */
  function Promised(c: Consumer): (r: seq<Row>) {
    if c.phase.Paging? || c.phase.FinalPaging? then c.sent + c.phase.rest else c.sent
  }

  /** Rows after `origin` that existed at the subscription or have been taken from the buffer. */
  function Seen(c: Consumer): (r: nat) {
    c.joined + |c.buffer.delivered|
  }

  predicate Joined(c: Consumer) {
    c.phase.FinalFetch? || c.phase.FinalPaging? || c.phase.Tail?
  }

  /** Before the subscription nothing is buffered. */
  ghost predicate BeforeJoin(c: Consumer) {
    && !c.listening && c.buffer == AsyncBuffers.Init(c.buffer.maxSize)
    && c.backfilled == 0
    && (c.caughtUp <==> c.cursor.None?)
    && (c.cursor.None? ==> c.phase.Subscribe? && c.sent == [])
  }

  /** After the subscription an open buffer has been given every later row. */
  ghost predicate AfterJoin(c: Consumer, due: seq<Row>) {
    && c.joined <= |due|
    && c.buffer.accepted <= due[c.joined..]
    && (if c.listening then c.buffer.closed ==> c.buffer.Overflowed() else c.buffer.closed)
    && (!c.buffer.closed ==> c.buffer.accepted == due[c.joined..])
    && !c.buffer.finished
  }

  ghost predicate InTail(c: Consumer, due: seq<Row>) {
    && c.joined <= c.backfilled <= |due|
    && Seen(c) <= |due|
    && c.lastBackfill == LastNum(due[..c.backfilled])
    && c.sent == due[..Max(c.backfilled, Seen(c))]
    && (c.caughtUp ==> Seen(c) >= c.backfilled)
  }

  ghost predicate PhaseInv(c: Consumer, due: seq<Row>) {
    match c.phase
    case Fetch => BeforeJoin(c) && c.lastBackfill == LastNum(c.sent)
    case Paging(_, last) => BeforeJoin(c) && Promised(c) != [] && last == LastNum(Promised(c))
    case Subscribe => BeforeJoin(c) && c.lastBackfill == LastNum(c.sent)
    case FinalFetch =>
      && AfterJoin(c, due) && !c.caughtUp && c.buffer.delivered == [] && c.cursor.Some?
      && c.lastBackfill == LastNum(c.sent)
    case FinalPaging(_, last) =>
      && AfterJoin(c, due) && !c.caughtUp && c.buffer.delivered == []
      && Promised(c) != [] && last == LastNum(Promised(c))
      && |Promised(c)| >= c.joined
    case Tail => AfterJoin(c, due) && InTail(c, due)
    case Stopped(_) => !c.listening
  }

  ghost predicate Holds(c: Consumer, due: seq<Row>) {
    && c.buffer.Good()
    && (c.cursor.Some? ==> c.origin == c.cursor.value)
    && Promised(c) <= due
    && PhaseInv(c, due)
  }

  /** The rows the consumer is due. */
  function Due(w: World): (r: seq<Row>) {
    Range(w.log, w.consumer.origin)
  }

  ghost predicate Inv(w: World) {
    && Ordered(w.log)
    && w.consumer.origin <= LastSeq(w.log)
    && (Joined(w.consumer) && !w.aborted ==> w.consumer.listening)
    && Holds(w.consumer, Due(w))
  }

  lemma InitInv(log: Log, cursor: Option<int>, maxSize: nat)
    requires Ordered(log)
    requires cursor.Some? ==> cursor.value <= LastSeq(log)
    ensures Inv(Begin(log, cursor, maxSize))
  {
  }

  // ---------------------------------------------------------------------------------
  // A row is appended

  lemma TakeAppend(rows: seq<Row>, row: Row, k: nat)
    requires k <= |rows|
    ensures (rows + [row])[..k] == rows[..k]
    ensures (rows + [row])[k..] == rows[k..] + [row]
  {
  }

  lemma NotifyLeaves(c: Consumer, row: Row)
    ensures var d := Notify(c, row);
            && d == c.(buffer := d.buffer) && (!c.listening ==> d == c)
            && d.buffer.delivered == c.buffer.delivered && d.buffer.maxSize == c.buffer.maxSize
  {
  }

  /** A buffer that has been given every row so far takes the new one, or overflows on it. */
  lemma NotifyJoined(c: Consumer, due: seq<Row>, row: Row)
    requires c.buffer.Good() && AfterJoin(c, due)
    ensures AfterJoin(Notify(c, row), due + [row])
  {
    TakeAppend(due, row, c.joined);
  }

  lemma NotifyTail(c: Consumer, due: seq<Row>, row: Row)
    requires InTail(c, due)
    ensures InTail(Notify(c, row), due + [row])
  {
    NotifyLeaves(c, row);
    hide Notify;
    TakeAppend(due, row, c.backfilled);
    TakeAppend(due, row, Max(c.backfilled, Seen(c)));
  }

  lemma NotifyKeeps(c: Consumer, due: seq<Row>, row: Row)
    requires Holds(c, due)
    ensures Holds(Notify(c, row), due + [row])
  {
    hide AfterJoin, InTail, LastNum;
    NotifyLeaves(c, row);
    if c.listening {
      AsyncBuffers.KeepsGood(c.buffer, AsyncBuffers.Action.Push(row));
    }
    if Joined(c) {
      NotifyJoined(c, due, row);
      hide Notify;
      if c.phase.Tail? {
        NotifyTail(c, due, row);
      }
    }
  }

  lemma OrderedAppend(log: Log, row: Row)
    requires Ordered(log) && row.num > LastSeq(log)
    ensures Ordered(log + [row])
  {
  }

  lemma AppendKeeps(w: World, row: Row)
    requires Inv(w) && Allowed(w, Append(row))
    ensures Inv(Do(w, Append(row)))
    ensures Due(Do(w, Append(row))) == Due(w) + [row]
  {
    RangeAppend(w.log, row, w.consumer.origin);
    OrderedAppend(w.log, row);
    NotifyKeeps(w.consumer, Due(w), row);
  }

  // ---------------------------------------------------------------------------------
  // The abort signal fires

  lemma AbortKeeps(w: World)
    requires Inv(w)
    ensures Inv(Do(w, Abort))
    ensures Due(Do(w, Abort)) == Due(w)
  {
    AsyncBuffers.KeepsGood(w.consumer.buffer, AsyncBuffers.Action.Close);
  }

  // ---------------------------------------------------------------------------------
  // The consumer takes a step

  lemma LastOfConcat(a: seq<Row>, b: seq<Row>)
    ensures LastNum(a + b) == if b == [] then LastNum(a) else LastNum(b)
  {
    if b == [] {
      assert a + b == a;
    }
  }

  /** A query made after the rows already sent returns exactly the rows still due. */
  lemma QueryIsRest(log: Log, c: Consumer)
    requires Ordered(log) && c.cursor.Some? && c.origin == c.cursor.value
    requires c.sent <= Range(log, c.origin) && c.lastBackfill == LastNum(c.sent)
    ensures Range(log, c.After()) == Range(log, c.origin)[|c.sent|..]
  {
    var k := |c.sent|;
    RangeSound(log, c.origin);
    if k > 0 {
      assert c.sent[k - 1] == Range(log, c.origin)[k - 1];
      RangeResumes(log, c.origin, k);
    }
  }

  lemma FetchedKeeps(c: Consumer, due: seq<Row>, page: seq<Row>)
    requires Holds(c, due) && c.phase.Fetch? && page != [] && c.sent + page <= due
    ensures Holds(c.(phase := Paging(page, LastNum(page))), due)
  {
    LastOfConcat(c.sent, page);
  }

  lemma FetchKeeps(w: World)
    requires Inv(w) && w.consumer.phase.Fetch?
    ensures Inv(Do(w, Step))
  {
    var c := w.consumer;
    QueryIsRest(w.log, c);
    var page := Page(w.log, c.After(), PAGE_SIZE);
    if page != [] {
      assert c.sent + page <= Due(w);
      FetchedKeeps(c, Due(w), page);
    }
  }

  lemma YieldMoves(sent: seq<Row>, rest: seq<Row>)
    requires rest != []
    ensures (sent + [rest[0]]) + rest[1..] == sent + rest
  {
  }

  lemma YieldKeeps(c: Consumer, due: seq<Row>, next: Phase)
    requires Holds(c, due)
    requires (c.phase.Paging? || c.phase.FinalPaging?) && c.phase.rest != []
    requires next == if c.phase.Paging? then Paging(c.phase.rest[1..], c.phase.last)
                     else FinalPaging(c.phase.rest[1..], c.phase.last)
    ensures Holds(c.(sent := c.sent + [c.phase.rest[0]], phase := next), due)
  {
    YieldMoves(c.sent, c.phase.rest);
  }

  lemma PageEndKeeps(log: Log, aborted: bool, c: Consumer, due: seq<Row>)
    requires Holds(c, due) && (c.phase.Paging? || c.phase.FinalPaging?) && c.phase.rest == []
    ensures Holds(Advance(log, aborted, c), due)
  {
    assert c.sent + c.phase.rest == c.sent;
    assert c.sent == due[..|c.sent|];
  }

  lemma PagingKeeps(w: World)
    requires Inv(w) && (w.consumer.phase.Paging? || w.consumer.phase.FinalPaging?)
    ensures Inv(Do(w, Step))
  {
    var c := w.consumer;
    if c.phase.rest == [] {
      PageEndKeeps(w.log, w.aborted, c, Due(w));
    } else {
      YieldKeeps(c, Due(w), Advance(w.log, w.aborted, c).phase);
    }
  }

  lemma SubscribeKeeps(w: World)
    requires Inv(w) && w.consumer.phase.Subscribe?
    ensures Inv(Do(w, Step))
  {
    RangePastEnd(w.log, LastSeq(w.log));
  }

  lemma FinalFetchedKeeps(c: Consumer, due: seq<Row>, rows: seq<Row>)
    requires Holds(c, due) && c.phase.FinalFetch? && c.sent + rows == due
    ensures rows != [] ==> Holds(c.(phase := FinalPaging(rows, LastNum(rows))), due)
    ensures rows == [] ==> Holds(c.(phase := Tail, backfilled := |c.sent|), due)
  {
    LastOfConcat(c.sent, rows);
    assert due[..|due|] == due;
    assert rows == [] ==> c.sent == due;
  }

  lemma FinalFetchKeeps(w: World)
    requires Inv(w) && w.consumer.phase.FinalFetch?
    ensures Inv(Do(w, Step))
  {
    var c := w.consumer;
    QueryIsRest(w.log, c);
    FinalFetchedKeeps(c, Due(w), Range(w.log, c.After()));
  }

  /** The next buffered row is the next one due after those seen. */
  lemma QueuedRow(c: Consumer, due: seq<Row>)
    requires c.buffer.Good() && AfterJoin(c, due) && c.buffer.queue != []
    ensures Seen(c) < |due| && c.buffer.queue[0] == due[Seen(c)]
  {
    var d := |c.buffer.delivered|;
    assert (c.buffer.delivered + c.buffer.queue)[d] == c.buffer.queue[0];
    assert c.buffer.accepted[d] == due[c.joined..][d];
  }

  /** The tail's filter drops exactly the rows the backfill has sent. */
  lemma FilterIsExact(c: Consumer, due: seq<Row>)
    requires Increasing(due) && (forall i :: 0 <= i < |due| ==> due[i].num > 0)
    requires InTail(c, due) && Seen(c) < |due|
    ensures var d := Receive(c, due[Seen(c)]);
            && d.sent == due[..Max(c.backfilled, Seen(c) + 1)]
            && (d.caughtUp ==> Seen(c) + 1 >= c.backfilled)
  {
    var seen := Seen(c);
    if c.backfilled > 0 {
      assert c.lastBackfill == due[c.backfilled - 1].num;
    }
    if seen >= c.backfilled {
      assert due[..seen] + [due[seen]] == due[..seen + 1];
    }
  }

  /** Taking a row from the buffer moves it from the queue to the delivered ones. */
  lemma TakeBuffer(c: Consumer, due: seq<Row>)
    requires c.buffer.Good() && AfterJoin(c, due) && c.buffer.Next().1.Yielded?
    ensures c.buffer.queue != [] && c.buffer.Next().1 == AsyncBuffers.Yielded(c.buffer.queue[0])
    ensures var d := c.(buffer := c.buffer.Next().0);
            d.buffer.Good() && AfterJoin(d, due) && Seen(d) == Seen(c) + 1
  {
    AsyncBuffers.KeepsGood(c.buffer, AsyncBuffers.Action.Next);
  }

  lemma ReceiveLeaves(c: Consumer, row: Row, due: seq<Row>)
    ensures var d := Receive(c, row);
            && d == c.(sent := d.sent, caughtUp := d.caughtUp)
            && (AfterJoin(c, due) ==> AfterJoin(d, due))
  {
  }

  lemma TakeKeeps(c: Consumer, due: seq<Row>)
    requires Increasing(due) && (forall i :: 0 <= i < |due| ==> due[i].num > 0)
    requires c.buffer.Good() && AfterJoin(c, due) && InTail(c, due) && c.buffer.Next().1.Yielded?
    ensures AfterJoin(Tailing(c), due) && InTail(Tailing(c), due)
    ensures Tailing(c).buffer == c.buffer.Next().0 && Tailing(c).phase == c.phase
    ensures Tailing(c).cursor == c.cursor && Tailing(c).origin == c.origin
    ensures Tailing(c).sent <= due && Tailing(c).buffer.Good()
  {
    QueuedRow(c, due);
    FilterIsExact(c, due);
    TakeBuffer(c, due);
    hide AfterJoin;
    var row := c.buffer.queue[0];
    var d := c.(buffer := c.buffer.Next().0);
    ReceiveLeaves(d, row, due);
    assert Tailing(c) == Receive(d, row);
    assert Receive(d, row).sent == Receive(c, row).sent && Receive(d, row).caughtUp == Receive(c, row).caughtUp;
  }

  lemma RestKeeps(c: Consumer, due: seq<Row>)
    requires c.buffer.Good() && AfterJoin(c, due) && InTail(c, due) && !c.buffer.Next().1.Yielded?
    ensures var d := Tailing(c);
            && d.buffer == c.buffer.Next().0 && d.cursor == c.cursor && d.origin == c.origin
            && InTail(d, due) && d.sent <= due && d.buffer.Good()
            && ((d.phase == c.phase && AfterJoin(d, due)) || (d.phase.Stopped? && !d.listening))
  {
    AsyncBuffers.KeepsGood(c.buffer, AsyncBuffers.Action.Next);
  }

  lemma TailKeeps(c: Consumer, due: seq<Row>)
    requires Increasing(due) && (forall i :: 0 <= i < |due| ==> due[i].num > 0)
    requires Holds(c, due) && c.phase.Tail?
    ensures Holds(Tailing(c), due)
  {
    if c.buffer.Next().1.Yielded? {
      TakeKeeps(c, due);
    } else {
      RestKeeps(c, due);
    }
  }

  lemma TailStepKeeps(w: World)
    requires Inv(w) && w.consumer.phase.Tail?
    ensures Inv(Do(w, Step))
  {
    hide Range, Holds, Tailing;
    RangeSound(w.log, w.consumer.origin);
    TailKeeps(w.consumer, Due(w));
    TailStays(w.consumer);
  }

  lemma TailStays(c: Consumer)
    ensures Tailing(c).origin == c.origin && Tailing(c).cursor == c.cursor
    ensures Joined(Tailing(c)) && c.phase.Tail? ==> Tailing(c).listening == c.listening
  {
  }

  lemma QueryKeeps(w: World)
    requires Inv(w) && (w.consumer.phase.Fetch? || w.consumer.phase.FinalFetch? || w.consumer.phase.Subscribe?)
    ensures Inv(Do(w, Step))
  {
    if w.consumer.phase.Fetch? {
      FetchKeeps(w);
    } else if w.consumer.phase.FinalFetch? {
      FinalFetchKeeps(w);
    } else {
      SubscribeKeeps(w);
    }
  }

  lemma AdvanceKeeps(w: World)
    requires Inv(w)
    ensures Inv(Do(w, Step))
  {
    if w.consumer.phase.Tail? {
      TailStepKeeps(w);
    } else if w.consumer.phase.Paging? || w.consumer.phase.FinalPaging? {
      PagingKeeps(w);
    } else if !w.consumer.phase.Stopped? {
      QueryKeeps(w);
    }
  }

  lemma {:induction false} RunKeeps(w: World, actions: seq<Action>)
    requires Inv(w) && AllAllowed(w, actions)
    ensures Inv(Run(w, actions))
    decreases |actions|
  {
    if actions != [] {
      match actions[0] {
        case Append(row) => AppendKeeps(w, row);
        case Abort => AbortKeeps(w);
        case Step => AdvanceKeeps(w);
      }
      RunKeeps(Do(w, actions[0]), actions[1..]);
    }
  }
}
