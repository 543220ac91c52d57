/**
 * The bounded hand-over buffer of sequencer/async-buffer.ts.
 * `resolved` says whether the current deferred promise has been resolved; `finished` says
 * whether the consumer's generator has raised or returned.
 */
module AsyncBuffers {
  import opened Common
  import Queues

  /** What one turn of the consumer's loop does. */
  datatype Turn<T> = Blocked | Raised | Yielded(value: T) | Ended | Rearmed

  /** The buffer together with the history of accepted pushes and delivered values. */
  datatype State<T> = State(
    maxSize: nat,
    queue: seq<T>,
    closed: bool,
    resolved: bool,
    finished: bool,
    accepted: seq<T>,
    delivered: seq<T>)
  {
    predicate Overflowed() {
      |queue| > maxSize
    }

    /** What the buffer never breaks: no value lost, no wakeup lost, no silent overflow. */
    ghost predicate Good() {
      && delivered + queue == accepted
      && (queue != [] || closed ==> resolved)
      && (Overflowed() ==> closed)
      && (finished ==> closed && (Overflowed() || queue == []))
    }

    function Push(value: T): (r: State<T>) {
      if closed then this
      else this.(closed := |queue| >= maxSize, queue := queue + [value], resolved := true,
                 accepted := accepted + [value])
    }

    function PushMany(values: seq<T>): (r: State<T>) {
      if closed then this
      else this.(closed := |queue| + |values| > maxSize, queue := queue + values, resolved := true,
                 accepted := accepted + values)
    }

    function Close(): (r: State<T>) {
      if closed then this else this.(closed := true, resolved := true)
    }

    /** One turn of the loop in `events`, resumed after the value it yielded last. */
    function Next(): (r: (State<T>, Turn<T>)) {
      if finished then (this, Ended)
      else if !resolved then (this, Blocked)
      else if Overflowed() then (this.(finished := true), Raised)
      else if queue != [] then (this.(queue := queue[1..], delivered := delivered + [queue[0]]), Yielded(queue[0]))
      else if closed then (this.(finished := true), Ended)
      else (this.(resolved := false), Rearmed)
    }
  }

  function Init<T>(maxSize: nat): (r: State<T>) {
    State(maxSize, [], false, false, false, [], [])
  }

  // ---------------------------------------------------------------------------------
  // Whole runs

  datatype Action<T> = Push(value: T) | PushMany(values: seq<T>) | Close | Next

  function Do<T>(s: State<T>, a: Action<T>): (r: State<T>) {
    match a
    case Push(x) => s.Push(x)
    case PushMany(xs) => s.PushMany(xs)
    case Close => s.Close()
    case Next => s.Next().0
  }

  function Run<T>(s: State<T>, actions: seq<Action<T>>): (r: State<T>)
    decreases |actions|
  {
    if actions == [] then s else Run(Do(s, actions[0]), actions[1..])
  }

  function Turns<T>(actions: seq<Action<T>>): (r: nat) {
    if actions == [] then 0 else (if actions[0].Next? then 1 else 0) + Turns(actions[1..])
  }

  lemma KeepsGood<T>(s: State<T>, a: Action<T>)
    requires s.Good()
    ensures Do(s, a).Good()
    ensures s.accepted <= Do(s, a).accepted && s.delivered <= Do(s, a).delivered
  {
    match a
    case Push(x) => assert s.delivered + (s.queue + [x]) == s.delivered + s.queue + [x];
    case PushMany(xs) => assert s.delivered + (s.queue + xs) == s.delivered + s.queue + xs;
    case Close =>
    case Next => assert s.queue != [] ==> s.delivered + [s.queue[0]] + s.queue[1..] == s.delivered + s.queue;
  }

  /** In every run the values delivered so far followed by the queued ones are the accepted pushes. */
  lemma {:induction false} RunIsGood<T>(s: State<T>, actions: seq<Action<T>>)
    requires s.Good()
    ensures Run(s, actions).Good()
    decreases |actions|
  {
    if actions != [] {
      KeepsGood(s, actions[0]);
      RunIsGood(Do(s, actions[0]), actions[1..]);
    }
  }

  /** A consumer that has to wait has been given everything that was accepted. */
  lemma BlockedMeansCaughtUp<T>(maxSize: nat, actions: seq<Action<T>>)
    ensures var s := Run(Init(maxSize), actions);
            s.Next().1.Blocked? ==> s.delivered == s.accepted && !s.closed
  {
    RunIsGood(Init(maxSize), actions);
  }

  /** An open buffer takes every value, in order; it overflows, and closes, exactly when that passes the limit. */
  lemma PushAtLimitOverflows<T>(s: State<T>, value: T, values: seq<T>)
    requires s.Good() && !s.closed
    ensures s.Push(value).accepted == s.accepted + [value] && s.Push(value).queue == s.queue + [value]
    ensures s.Push(value).Overflowed() <==> |s.queue| >= s.maxSize
    ensures s.Push(value).closed <==> |s.queue| >= s.maxSize
    ensures s.PushMany(values).accepted == s.accepted + values && s.PushMany(values).queue == s.queue + values
    ensures s.PushMany(values).Overflowed() <==> |s.queue| + |values| > s.maxSize
    ensures s.PushMany(values).closed <==> |s.queue| + |values| > s.maxSize
  {
  }

  /** Once overflowed nothing more is delivered, whatever happens, and the first turn raises the error. */
  lemma {:induction false} OverflowRaises<T>(s: State<T>, actions: seq<Action<T>>)
    requires s.Good() && s.Overflowed() && !s.finished
    ensures var t := Run(s, actions);
            && t.Overflowed()
            && t.delivered == s.delivered && t.accepted == s.accepted
            && (Turns(actions) == 0 ==> t.Next().1 == Raised)
            && (t.finished <==> Turns(actions) > 0)
    decreases |actions|
  {
    if actions != [] {
      var t := Do(s, actions[0]);
      KeepsGood(s, actions[0]);
      if t.finished {
        FinishedStays(t, actions[1..]);
      } else {
        OverflowRaises(t, actions[1..]);
      }
    }
  }

  lemma {:induction false} FinishedStays<T>(s: State<T>, actions: seq<Action<T>>)
    requires s.Good() && s.finished
    ensures Run(s, actions) == s
    decreases |actions|
  {
    if actions != [] {
      FinishedStays(Do(s, actions[0]), actions[1..]);
    }
  }

  /** After a plain close the consumer gets exactly the queued values, in order, and then the end. */
  lemma {:induction false} CloseDrainsThenEnds<T>(s: State<T>, actions: seq<Action<T>>)
    requires s.Good() && s.closed && !s.Overflowed() && !s.finished
    ensures var t := Run(s, actions);
            && t.accepted == s.accepted
            && (Turns(actions) <= |s.queue| ==>
                  !t.finished && t.delivered == s.delivered + s.queue[..Turns(actions)])
            && (Turns(actions) > |s.queue| ==> t.finished && t.delivered == s.accepted)
    decreases |actions|
  {
    if actions != [] {
      var t := Do(s, actions[0]);
      KeepsGood(s, actions[0]);
      if t.finished {
        FinishedStays(t, actions[1..]);
      } else {
        CloseDrainsThenEnds(t, actions[1..]);
        var n := Turns(actions[1..]);
        if actions[0].Next? && n < |s.queue| {
          assert s.delivered + [s.queue[0]] + s.queue[1..][..n] == s.delivered + s.queue[..n + 1];
        }
      }
    }
  }

  // ---------------------------------------------------------------------------------
  // The class

  method EnqueueAll<T>(queue: Queues.Queue<T>, values: seq<T>)
    requires queue.Valid()
    modifies queue.Repr()
    ensures queue.Valid() && fresh(queue.Repr() - old(queue.Repr()))
    ensures queue.Contents() == old(queue.Contents()) + values
  {
    hide Queues.Values, Queues.Nth;
    ghost var start := queue.Contents();
    for i := 0 to |values|
      invariant queue.Valid() && fresh(queue.Repr() - old(queue.Repr()))
      invariant queue.Contents() == start + values[..i]
    {
      assert start + values[..i] + [values[i]] == start + values[..i + 1];
      queue.Enqueue(values[i]);
    }
    assert values[..|values|] == values;
  }

  class AsyncBuffer<T> {
    const maxSize: nat
    const queue: Queues.Queue<T>
    var closed: bool
    var resolved: bool
    var finished: bool
    ghost var accepted: seq<T>
    ghost var delivered: seq<T>

    ghost function Repr(): (r: set<object>)
      reads this, queue
    {
      {this} + queue.Repr()
    }

    ghost predicate Valid()
      reads Repr()
    {
      queue.Valid() && Abs().Good()
    }

    ghost function Abs(): (r: State<T>)
      reads this, queue
    {
      State(maxSize, queue.Contents(), closed, resolved, finished, accepted, delivered)
    }

    constructor (maxSize: nat)
      ensures Valid() && fresh(Repr()) && Abs() == Init(maxSize)
    {
      this.maxSize := maxSize;
      queue := new Queues.Queue();
      closed, resolved, finished := false, false, false;
      accepted, delivered := [], [];
    }

    method Push(value: T)
      requires Valid()
      modifies Repr()
      ensures Valid() && fresh(Repr() - old(Repr()))
      ensures Abs() == old(Abs()).Push(value)
    {
      ghost var was := Abs();
      if closed {
        return;
      }
      if queue.size >= maxSize {
        closed := true;
      }
      queue.Enqueue(value);
      resolved := true;
      accepted := accepted + [value];
      KeepsGood(was, Action.Push(value));
    }

    method PushMany(values: seq<T>)
      requires Valid()
      modifies Repr()
      ensures Valid() && fresh(Repr() - old(Repr()))
      ensures Abs() == old(Abs()).PushMany(values)
    {
      ghost var was := Abs();
      if closed {
        return;
      }
      if queue.size + |values| > maxSize {
        closed := true;
      }
      EnqueueAll(queue, values);
      resolved := true;
      accepted := accepted + values;
      KeepsGood(was, Action.PushMany(values));
    }

    method Close()
      requires Valid()
      modifies Repr()
      ensures Valid() && Repr() == old(Repr())
      ensures Abs() == old(Abs()).Close()
    {
      if closed {
        return;
      }
      closed := true;
      resolved := true;
    }

    /** One turn of the consumer's loop. */
    method Next() returns (turn: Turn<T>)
      requires Valid()
      modifies Repr()
      ensures Valid() && Repr() <= old(Repr())
      ensures (Abs(), turn) == old(Abs()).Next()
    {
      ghost var was := Abs();
      KeepsGood(was, Action.Next);
      if finished {
        return Ended;
      }
      if !resolved {
        return Blocked;
      }
      if queue.size > maxSize {
        finished := true;
        return Raised;
      }
      var value := queue.Dequeue();
      if value.Some? {
        delivered := delivered + [value.value];
        return Yielded(value.value);
      } else if closed {
        finished := true;
        return Ended;
      } else {
        resolved := false;
        return Rearmed;
      }
    }
  }
}
