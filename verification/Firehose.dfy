/**
 * The firehose protocol of sequencer/outbox.ts over an append-only log: writers append rows
 * while one consumer backfills page by page, subscribes, closes the gap and tails its buffer.
 */
module Firehose {
  import opened Common
  import opened AsyncBuffers

  const PAGE_SIZE: nat := 500
  const NEAR: int := 250

  // ---------------------------------------------------------------------------------
  // The log

  /** A row of repo_seq; `sequencedAt` is in whole seconds. A row is also the event sent for it. */
  datatype Row = Row(num: nat, invalidated: bool, sequencedAt: int, event: string)

  type Log = seq<Row>

  ghost predicate Ordered(log: Log) {
    && (forall i :: 0 <= i < |log| ==> log[i].num > 0)
    && (forall i, j :: 0 <= i < j < |log| ==> log[i].num < log[j].num)
  }

  function LastSeq(log: Log): (r: nat) {
    if log == [] then 0 else log[|log| - 1].num
  }

  /** `requestSeqRange` without a limit: the valid rows after `after`, in order. */
  function Range(log: Log, after: int): (r: seq<Row>) {
    if log == [] then []
    else
      var last := log[|log| - 1];
      Range(log[..|log| - 1], after) + (if !last.invalidated && last.num > after then [last] else [])
  }

  /** `requestSeqRange` with a limit. */
  function Page(log: Log, after: int, limit: nat): (r: seq<Row>) {
    var rows := Range(log, after);
    if |rows| <= limit then rows else rows[..limit]
  }

  /** The number of the last row, or -1 before any. */
  function LastNum(rows: seq<Row>): (r: int) {
    if rows == [] then -1 else rows[|rows| - 1].num
  }

  // ---------------------------------------------------------------------------------
  // The consumer

  datatype Reason = Aborted | TooSlow | Completed

  /** Where the generator stands; a page remembers what is left to yield and its last number. */
  datatype Phase =
    | Fetch
    | Paging(rest: seq<Row>, last: int)
    | Subscribe
    | FinalFetch
    | FinalPaging(rest: seq<Row>, last: int)
    | Tail
    | Stopped(reason: Reason)

  /**
   * `origin` is the cursor, or for a live consumer the end of the log when it subscribed.
   * `joined` and `backfilled` are history: how many rows after `origin` existed at the
   * subscription, and how many the backfill sent in all.
   */
  datatype Consumer = Consumer(
    cursor: Option<int>,
    phase: Phase,
    lastBackfill: int,
    caughtUp: bool,
    buffer: State<Row>,
    listening: bool,
    sent: seq<Row>,
    origin: int,
    joined: nat,
    backfilled: nat)
  {
    /** The number the next backfill query starts after. */
    function After(): (r: int) {
      if lastBackfill > -1 then lastBackfill else if cursor.Some? then cursor.value else -1
    }

    function Stop(reason: Reason): (r: Consumer) {
      this.(phase := Stopped(reason), listening := false)
    }
  }

  datatype World = World(log: Log, aborted: bool, consumer: Consumer)

  function Start(cursor: Option<int>, maxSize: nat): (r: Consumer) {
    Consumer(cursor, if cursor.Some? then Fetch else Subscribe, -1, cursor.None?, AsyncBuffers.Init(maxSize),
             false, [], if cursor.Some? then cursor.value else 0, 0, 0)
  }

  // ---------------------------------------------------------------------------------
  // Steps

  /** The emitter's handler: a listening consumer gets the event in its buffer. */
  function Notify(c: Consumer, row: Row): (r: Consumer) {
    if c.listening then c.(buffer := c.buffer.Push(row)) else c
  }

  /** The abort signal detaches the listener and closes the buffer. */
  function Detach(c: Consumer): (r: Consumer) {
    if c.listening then c.(buffer := c.buffer.Close(), listening := false) else c
  }

  function AfterPage(log: Log, aborted: bool, c: Consumer, last: int): (r: Consumer) {
    if aborted then c.Stop(Aborted)
    else c.(lastBackfill := last, phase := if LastSeq(log) - last < NEAR then Subscribe else Fetch)
  }

  function Join(log: Log, aborted: bool, c: Consumer): (r: Consumer) {
    if aborted then c.Stop(Aborted)
    else
      var origin := if c.cursor.Some? then c.origin else LastSeq(log);
      c.(listening := true, origin := origin, joined := |Range(log, origin)|,
         phase := if c.caughtUp then Tail else FinalFetch)
  }

  /** The tail drops what the backfill has already sent until the first event beyond it. */
  function Receive(c: Consumer, row: Row): (r: Consumer) {
    if !c.caughtUp && row.num <= c.lastBackfill then c
    else c.(caughtUp := true, sent := c.sent + [row])
  }

  function Tailing(c: Consumer): (r: Consumer) {
    var (buffer, turn) := c.buffer.Next();
    var d := c.(buffer := buffer);
    match turn
    case Yielded(row) => Receive(d, row)
    case Raised => d.Stop(TooSlow)
    case Ended => d.Stop(Completed)
    case Blocked => d
    case Rearmed => d
  }

  /** One step of the generator. */
  function Advance(log: Log, aborted: bool, c: Consumer): (r: Consumer) {
    match c.phase
    case Fetch =>
      var page := Page(log, c.After(), PAGE_SIZE);
      if page != [] then c.(phase := Paging(page, LastNum(page)))
      else if aborted then c.Stop(Aborted)
      else c.(phase := Subscribe)
    case Paging(rest, last) =>
      if rest != [] then c.(sent := c.sent + [rest[0]], phase := Paging(rest[1..], last))
      else AfterPage(log, aborted, c, last)
    case Subscribe => Join(log, aborted, c)
    case FinalFetch =>
      var rows := Range(log, c.After());
      if rows != [] then c.(phase := FinalPaging(rows, LastNum(rows)))
      else c.(phase := Tail, backfilled := |c.sent|)
    case FinalPaging(rest, last) =>
      if rest != [] then c.(sent := c.sent + [rest[0]], phase := FinalPaging(rest[1..], last))
      else if aborted then c.Stop(Aborted)
      else c.(lastBackfill := last, phase := Tail, backfilled := |c.sent|)
    case Tail => Tailing(c)
    case Stopped(_) => c
  }

  datatype Action = Append(row: Row) | Abort | Step

  /** An insert gets a number past every earlier one and is never invalidated. */
  predicate Allowed(w: World, a: Action) {
    a.Append? ==> a.row.num > LastSeq(w.log) && !a.row.invalidated
  }

  function Do(w: World, a: Action): (r: World) {
    match a
    case Append(row) => World(w.log + [row], w.aborted, Notify(w.consumer, row))
    case Abort => if w.aborted then w else World(w.log, true, Detach(w.consumer))
    case Step => w.(consumer := Advance(w.log, w.aborted, w.consumer))
  }

  predicate AllAllowed(w: World, actions: seq<Action>)
    decreases |actions|
  {
    actions == [] || (Allowed(w, actions[0]) && AllAllowed(Do(w, actions[0]), actions[1..]))
  }

  function Run(w: World, actions: seq<Action>): (r: World)
    decreases |actions|
  {
    if actions == [] then w else Run(Do(w, actions[0]), actions[1..])
  }

  /** A consumer just started on `log`. */
  function Begin(log: Log, cursor: Option<int>, maxSize: nat): (r: World) {
    World(log, false, Start(cursor, maxSize))
  }

  // ---------------------------------------------------------------------------------
  // The cursor the endpoint passes on

  /** The first row after `cursor`, valid or not. */
  function NextRow(log: Log, cursor: int): (r: Option<Row>) {
    if log == [] then None
    else if log[0].num > cursor then Some(log[0])
    else NextRow(log[1..], cursor)
  }

  /** The row with the least time not before `time`; the earlier row on ties. */
  function EarliestAfterTime(log: Log, time: int): (r: Option<Row>)
    ensures r.Some? ==> r.value in log && r.value.sequencedAt >= time
    ensures r.None? ==> forall i :: 0 <= i < |log| ==> log[i].sequencedAt < time
    ensures r.Some? ==> forall i :: 0 <= i < |log| && log[i].sequencedAt >= time ==>
                                      r.value.sequencedAt <= log[i].sequencedAt
  {
    if log == [] then None
    else
      var rest := EarliestAfterTime(log[1..], time);
      if log[0].sequencedAt >= time && (rest.None? || log[0].sequencedAt <= rest.value.sequencedAt)
      then Some(log[0]) else rest
  }

  datatype CursorError = FutureCursor

  /** The endpoint's cursor checks; `cutoff` is in milliseconds. */
  function OutboxCursor(log: Log, cursor: Option<int>, cutoff: int): (r: Result<Option<int>, CursorError>) {
    if cursor.None? then Ok(None)
    else if cursor.value > LastSeq(log) then Err(FutureCursor)
    else
      var next := NextRow(log, cursor.value);
      if next.Some? && next.value.sequencedAt * 1000 < cutoff then
        var start := EarliestAfterTime(log, cutoff / 1000);
        Ok(if start.Some? && start.value.num != 0 then Some(start.value.num - 1) else None)
      else Ok(cursor)
  }
}
