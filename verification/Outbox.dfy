/**
 * The sequencer and one subscriber's outbox as objects. Every method is tied to a step of the
 * protocol in module Firehose, so what is proved about its runs holds of these objects.
 */
module Outboxes {
  import opened Common
  import AsyncBuffers
  import opened Firehose

  /** Times are in milliseconds; a bound one is compared in whole seconds. */
  datatype SeqRangeOptions = SeqRangeOptions(
    earliestSeq: Option<int>, latestSeq: Option<int>, earliestTime: Option<int>, limit: Option<nat>)
  {
    predicate Selects(row: Row) {
      && !row.invalidated
      && (earliestSeq.Some? ==> row.num > earliestSeq.value)
      && (latestSeq.Some? ==> row.num <= latestSeq.value)
      && (earliestTime.Some? ==> row.sequencedAt >= earliestTime.value / 1000)
    }

    function Limited(rows: seq<Row>): (r: seq<Row>) {
      if limit.Some? && |rows| > limit.value then rows[..limit.value] else rows
    }
  }

  function Selected(log: Log, options: SeqRangeOptions): (r: seq<Row>) {
    if log == [] then []
    else
      var last := log[|log| - 1];
      Selected(log[..|log| - 1], options) + (if options.Selects(last) then [last] else [])
  }

  /** A selection holds exactly the valid rows within the bounds given. */
  lemma {:induction false} SelectedIsExact(log: Log, options: SeqRangeOptions, row: Row)
    ensures row in Selected(log, options) <==>
            && row in log && !row.invalidated
            && (options.earliestSeq.Some? ==> row.num > options.earliestSeq.value)
            && (options.latestSeq.Some? ==> row.num <= options.latestSeq.value)
            && (options.earliestTime.Some? ==> row.sequencedAt >= options.earliestTime.value / 1000)
    decreases |log|
  {
    if log != [] {
      SelectedIsExact(log[..|log| - 1], options, row);
      assert log == log[..|log| - 1] + [log[|log| - 1]];
    }
  }

  /** And in the order of their numbers. */
  lemma {:induction false} SelectedRises(log: Log, options: SeqRangeOptions)
    requires Ordered(log)
    ensures var rows := Selected(log, options); forall i, j :: 0 <= i < j < |rows| ==> rows[i].num < rows[j].num
    decreases |log|
  {
    if log != [] {
      var front, last := log[..|log| - 1], log[|log| - 1];
      SelectedRises(front, options);
      forall i | 0 <= i < |Selected(front, options)|
        ensures Selected(front, options)[i].num < last.num
      {
        SelectedIsExact(front, options, Selected(front, options)[i]);
      }
    }
  }

  /** What the outbox asks for: everything after a number. */
  function Since(after: int, limit: Option<nat>): (r: SeqRangeOptions) {
    SeqRangeOptions(Some(after), None, None, limit)
  }

  lemma {:induction false} SelectedIsRange(log: Log, after: int, limit: Option<nat>)
    ensures Selected(log, Since(after, limit)) == Range(log, after)
    decreases |log|
  {
    if log != [] {
      SelectedIsRange(log[..|log| - 1], after, limit);
    }
  }

  lemma NumOfLast(rows: seq<Row>)
    ensures rows != [] ==> LastNum(rows) == rows[|rows| - 1].num
  {
  }

  class Sequencer {
    var table: Log
    var cached: Option<nat>

    ghost predicate Valid()
      reads this
    {
      && Ordered(table)
      && (cached.Some? ==> cached.value == Firehose.LastSeq(table))
    }

    constructor ()
      ensures Valid() && table == []
    {
      table, cached := [], None;
    }

    /** Reads the last number, filling the cache on first use. */
    method LastSeq() returns (r: nat)
      requires Valid()
      modifies this`cached
      ensures Valid()
      ensures r == Firehose.LastSeq(table)
    {
      if cached.None? {
        cached := Some(if table != [] then table[|table| - 1].num else 0);
      }
      r := cached.value;
    }

    /** Inserts a row under a fresh number; the row is the event the emitter then sends out. */
    method SequenceEvt(event: string, now: int) returns (row: Row)
      requires Valid()
      modifies this
      ensures Valid()
      ensures table == old(table) + [row]
      ensures row.num > Firehose.LastSeq(old(table)) && !row.invalidated
      ensures row.sequencedAt == now && row.event == event
    {
      var num := (if table != [] then table[|table| - 1].num else 0) + 1;
      row := Row(num, false, now, event);
      table := table + [row];
      cached := Some(num);
    }

    /** The selection of `requestSeqRange`, row by row. */
    method RequestSeqRange(options: SeqRangeOptions) returns (rows: seq<Row>)
      ensures rows == options.Limited(Selected(table, options))
    {
      rows := [];
      for i := 0 to |table|
        invariant rows == Selected(table[..i], options)
      {
        assert table[..i + 1][..i] == table[..i];
        if options.Selects(table[i]) {
          rows := rows + [table[i]];
        }
      }
      assert table[..|table|] == table;
      if options.limit.Some? && |rows| > options.limit.value {
        rows := rows[..options.limit.value];
      }
    }
  }

  class Outbox {
    const cursor: Option<int>
    const maxBufferSize: nat
    var phase: Phase
    var lastBackfillSeq: int
    var caughtUp: bool
    var aborted: bool
    var listening: bool
    var tail: AsyncBuffers.AsyncBuffer?<Row>
    ghost var sent: seq<Row>
    ghost var origin: int
    ghost var joined: nat
    ghost var backfilled: nat

    ghost function Repr(): (r: set<object>)
      reads this, tail, if tail != null then {tail.queue} else {}
    {
      {this} + if tail != null then tail.Repr() else {}
    }

    ghost predicate Valid()
      reads Repr()
    {
      tail != null ==> tail.Valid() && this !in tail.Repr()
    }

    /** The consumer of the protocol; before `on` is called its buffer does not exist and counts as empty. */
    ghost function Abs(): (r: Consumer)
      reads this, tail, if tail != null then {tail.queue} else {}
    {
      Consumer(cursor, phase, lastBackfillSeq, caughtUp,
               if tail != null then tail.Abs() else AsyncBuffers.Init(maxBufferSize),
               listening, sent, origin, joined, backfilled)
    }

    constructor (cursor: Option<int>, maxBufferSize: nat)
      ensures Valid() && fresh(Repr()) && !aborted && tail == null
      ensures Abs() == Start(cursor, maxBufferSize)
    {
      this.cursor, this.maxBufferSize := cursor, maxBufferSize;
      lastBackfillSeq := -1;
      caughtUp := cursor.None?;
      phase := if cursor.Some? then Fetch else Subscribe;
      aborted, listening, tail := false, false, null;
      sent, joined, backfilled := [], 0, 0;
      origin := if cursor.Some? then cursor.value else 0;
    }

    /** The handler `on` registers with the emitter. */
    method OnEvent(row: Row)
      requires Valid() && (listening ==> tail != null)
      modifies Repr()
      ensures Valid() && tail == old(tail) && aborted == old(aborted) && fresh(Repr() - old(Repr()))
      ensures Abs() == Notify(old(Abs()), row)
    {
      if listening {
        tail.Push(row);
      }
    }

    /** The abort signal; it fires once. */
    method OnAbort()
      requires Valid() && (listening ==> tail != null)
      modifies Repr()
      ensures Valid() && tail == old(tail) && aborted && Repr() == old(Repr())
      ensures Abs() == Detach(old(Abs()))
    {
      aborted := true;
      if listening {
        listening := false;
        tail.Close();
      }
    }

    method Stop(reason: Reason)
      requires Valid()
      modifies this`phase, this`listening
      ensures Valid() && tail == old(tail) && Repr() == old(Repr())
      ensures Abs() == old(Abs()).Stop(reason)
    {
      phase := Stopped(reason);
      listening := false;
    }

    /** One page query of the backfill. */
    method Fetching(sequencer: Sequencer)
      requires Valid() && phase.Fetch?
      modifies this
      ensures Valid() && tail == old(tail) && aborted == old(aborted)
      ensures Abs() == Advance(sequencer.table, aborted, old(Abs()))
    {
      hide Range, Selected, AfterPage, Join, Firehose.Tailing;
      var after := if lastBackfillSeq > -1 then lastBackfillSeq else if cursor.Some? then cursor.value else -1;
      var events := sequencer.RequestSeqRange(Since(after, Some(PAGE_SIZE)));
      SelectedIsRange(sequencer.table, after, Some(PAGE_SIZE));
      if |events| == 0 {
        if aborted {
          Stop(Aborted);
        } else {
          phase := Subscribe;
        }
      } else {
        phase := Paging(events, events[|events| - 1].num);
      }
    }

    /** One `yield` of a page, or what follows the page. */
    method Yielding(sequencer: Sequencer) returns (out: Option<Row>)
      requires Valid() && phase.Paging? && sequencer.Valid()
      modifies this, sequencer`cached
      ensures Valid() && tail == old(tail) && aborted == old(aborted) && sequencer.Valid()
      ensures Abs() == Advance(sequencer.table, aborted, old(Abs()))
      ensures sent == old(sent) + if out.Some? then [out.value] else []
    {
      hide Range, Page, Join, Firehose.Tailing;
      out := None;
      var rest, last := phase.rest, phase.last;
      if rest != [] {
        out := Some(rest[0]);
        sent := sent + [rest[0]];
        phase := Paging(rest[1..], last);
      } else if aborted {
        Stop(Aborted);
      } else {
        lastBackfillSeq := last;
        var lastSeq := sequencer.LastSeq();
        phase := if lastSeq - lastBackfillSeq < PAGE_SIZE / 2 then Subscribe else Fetch;
      }
    }

    /** One `yield` of the rows fetched after subscribing, or what follows them. */
    method FinalYielding(sequencer: Sequencer) returns (out: Option<Row>)
      requires Valid() && phase.FinalPaging?
      modifies this
      ensures Valid() && tail == old(tail) && aborted == old(aborted)
      ensures Abs() == Advance(sequencer.table, aborted, old(Abs()))
      ensures sent == old(sent) + if out.Some? then [out.value] else []
    {
      hide Range, Page, Join, AfterPage, Firehose.Tailing;
      out := None;
      var rest, last := phase.rest, phase.last;
      if rest != [] {
        out := Some(rest[0]);
        sent := sent + [rest[0]];
        phase := FinalPaging(rest[1..], last);
      } else if aborted {
        Stop(Aborted);
      } else {
        lastBackfillSeq := last;
        phase := Tail;
        backfilled := |sent|;
      }
    }

    /** `on`: registers the handler with a new buffer behind it. */
    method Listen()
      requires Valid() && tail == null
      modifies this`tail, this`listening
      ensures Valid() && tail != null && fresh(tail.Repr())
      ensures Abs() == old(Abs()).(listening := true)
    {
      tail := new AsyncBuffers.AsyncBuffer<Row>(maxBufferSize);
      listening := true;
    }

    /** Starts listening and notes where the live stream begins. */
    method Subscribing(sequencer: Sequencer)
      requires Valid() && phase.Subscribe? && tail == null
      modifies this
      ensures Valid() && aborted == old(aborted) && fresh(Repr() - old(Repr()))
      ensures phase.Stopped? || tail != null
      ensures Abs() == Advance(sequencer.table, aborted, old(Abs()))
    {
      hide Range, Page, AfterPage, Firehose.Tailing;
      if aborted {
        Stop(Aborted);
        return;
      }
      Listen();
      if cursor.None? {
        origin := Firehose.LastSeq(sequencer.table);
      }
      joined := |Range(sequencer.table, origin)|;
      phase := if caughtUp then Tail else FinalFetch;
    }

    /** The unlimited query after subscribing. */
    method FinalFetching(sequencer: Sequencer)
      requires Valid() && phase.FinalFetch?
      modifies this
      ensures Valid() && tail == old(tail) && aborted == old(aborted)
      ensures Abs() == Advance(sequencer.table, aborted, old(Abs()))
    {
      hide Range, Selected, Page, AfterPage, Join, Firehose.Tailing, Firehose.LastSeq, Ordered, LastNum;
      var after := if lastBackfillSeq > -1 then lastBackfillSeq else if cursor.Some? then cursor.value else -1;
      var events := sequencer.RequestSeqRange(Since(after, None));
      SelectedIsRange(sequencer.table, after, None);
      NumOfLast(events);
      if |events| > 0 {
        phase := FinalPaging(events, events[|events| - 1].num);
      } else {
        phase := Tail;
        backfilled := |sent|;
      }
    }

    /** One turn of the tail loop. */
    method Tailing() returns (out: Option<Row>)
      requires Valid() && phase.Tail? && tail != null
      modifies Repr()
      ensures Valid() && tail == old(tail) && aborted == old(aborted) && Repr() <= old(Repr())
      ensures Abs() == Firehose.Tailing(old(Abs()))
      ensures sent == old(sent) + if out.Some? then [out.value] else []
    {
      out := None;
      var turn := tail.Next();
      match turn {
        case Yielded(event) =>
          if !caughtUp {
            if event.num <= lastBackfillSeq {
              return;
            }
            caughtUp := true;
          }
          out := Some(event);
          sent := sent + [event];
        case Raised =>
          Stop(TooSlow);
        case Ended =>
          Stop(Completed);
        case Blocked =>
        case Rearmed =>
      }
    }
  }

  /** What `sequenceEvt` does in all: the row goes into the table and the event to the listening subscriber. */
  method Publish(sequencer: Sequencer, outbox: Outbox, event: string, now: int) returns (row: Row)
    requires sequencer.Valid() && outbox.Valid() && (outbox.listening ==> outbox.tail != null)
    requires sequencer !in outbox.Repr()
    modifies sequencer, outbox.Repr()
    ensures sequencer.Valid() && outbox.Valid() && outbox.tail == old(outbox.tail)
    ensures fresh(outbox.Repr() - old(outbox.Repr()))
    ensures Allowed(old(World(sequencer.table, outbox.aborted, outbox.Abs())), Append(row))
    ensures World(sequencer.table, outbox.aborted, outbox.Abs()) ==
            Do(old(World(sequencer.table, outbox.aborted, outbox.Abs())), Append(row))
  {
    row := sequencer.SequenceEvt(event, now);
    outbox.OnEvent(row);
  }
}
