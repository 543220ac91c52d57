/**
 * Whole runs of one repository: batches and uploads in any order. A batch is one transaction, so
 * one that is refused leaves the database as it was.
 */
module RepoRuns {
  import opened Common
  import opened RepoTypes
  import opened RepoBatch
  import opened RepoIndex
  import opened RepoBlobs
  import opened RepoRequests
  import BlobRefs

  /** What a batch announces: the new commit, and the rev and data root it follows. */
  datatype CommitEvent = CommitEvent(
    cid: Cid,
    rev: nat,
    data: Cid,
    since: Option<nat>,
    prevData: Option<Cid>,
    ops: seq<Op>)

  /** The repository's tables, and the events of its successful batches. */
  datatype State = State(
    root: Option<Cid>,
    blocks: set<Cid>,
    index: Index,
    blobs: Blobs,
    events: seq<CommitEvent>)

  datatype Options = Options(create: bool, swapCommit: Option<Cid>, validateBlobs: bool)

  /** A repository before `createRepo`. */
  function Fresh(): (r: State) {
    State(None, {}, map[], Blobs({}, map[], map[], map[]), [])
  }

  predicate WellRooted(s: State) {
    s.root.Some? ==> s.root.value.CommitCid? && s.root.value.data.NodeCid?
  }

  /** The tree of the current commit. */
  function CurrentTree(s: State): (r: Option<Tree>)
    requires WellRooted(s)
  {
    if s.root.None? then None else Some(s.root.value.data.entries)
  }

  /** The checks before the loop, in order. */
  function Refusal(s: State, writes: seq<Write>, options: Options): (r: Option<Error>) {
    if |writes| == 0 && !options.create then Some(NoWrites)
    else if |writes| > MAX_WRITES then Some(TooManyWrites)
    else if s.root.None? && !options.create then Some(RepoNotFound)
    else if s.root.Some? && options.create then Some(RepoAlreadyExists)
    else if options.swapCommit.Some? && s.root.Some? && s.root != options.swapCommit then Some(InvalidSwap)
    else None
  }

  /** The tables after a batch whose writes succeeded. */
  function Commit(mst: Mst, s: State, p: Progress, blobs: Blobs, rev: nat): (r: State)
    requires WellRooted(s) && p.root.Some?
  {
    var data := mst.Root(p.root.value);
    var cid := CommitCid(data, rev);
    State(
      Some(cid),
      BulkBlocks(mst, s.blocks, CurrentTree(s), p),
      BulkIndex(s.index, p.ops, rev),
      blobs,
      s.events + [CommitEvent(cid, rev, data,
                              if s.root.Some? then Some(s.root.value.rev) else None,
                              if s.root.Some? then Some(s.root.value.data) else None,
                              p.ops)])
  }

  /** The whole of `applyWritesInternal`. */
  function ApplyWrites(mst: Mst, s: State, writes: seq<Write>, options: Options, rev: nat, generated: nat -> string)
    : (r: Result<State, Error>)
    requires WellRooted(s)
  {
    var refusal := Refusal(s, writes, options);
    if refusal.Some? then Err(refusal.value)
    else
      match ApplyAll(mst, CurrentTree(s), writes, generated)
      case Err(e) => Err(e)
      case Ok(p) =>
        RootIsSome(mst, CurrentTree(s), writes, generated);
        match ApplyBlobs(s.blobs, p.ops, options.validateBlobs)
        case Err(e) => Err(e)
        case Ok(blobs) => Ok(Commit(mst, s, p, blobs, rev))
  }

  lemma RootIsSome(mst: Mst, root: Option<Tree>, writes: seq<Write>, generated: nat -> string)
    ensures ApplyAll(mst, root, writes, generated).Ok? ==> ApplyAll(mst, root, writes, generated).value.root.Some?
  {
  }

  // ---------------------------------------------------------------------------------
  // Runs

  datatype Action =
    | Batch(writes: seq<Write>, options: Options, rev: nat, generated: nat -> string)
    | UploadBlob(key: string, content: string)

  function Do(mst: Mst, s: State, a: Action): (r: State)
    requires WellRooted(s)
    ensures WellRooted(r)
  {
    match a
    case Batch(writes, options, rev, generated) =>
      (match ApplyWrites(mst, s, writes, options, rev, generated)
       case Err(_) => s
       case Ok(next) => next)
    case UploadBlob(key, content) => s.(blobs := Upload(s.blobs, key, content))
  }

  function Run(mst: Mst, s: State, actions: seq<Action>): (r: State)
    requires WellRooted(s)
    ensures WellRooted(r)
    decreases |actions|
  {
    if actions == [] then s else Run(mst, Do(mst, s, actions[0]), actions[1..])
  }

  /** The ops of a batch that goes through, else none. */
  function OpsOf(mst: Mst, s: State, a: Action): (r: seq<Op>)
    requires WellRooted(s)
  {
    if a.Batch? && ApplyWrites(mst, s, a.writes, a.options, a.rev, a.generated).Ok?
    then ApplyAll(mst, CurrentTree(s), a.writes, a.generated).value.ops
    else []
  }

  predicate GoesThrough(mst: Mst, s: State, a: Action)
    requires WellRooted(s)
  {
    a.Batch? && ApplyWrites(mst, s, a.writes, a.options, a.rev, a.generated).Ok?
  }

  // The condition each table puts on a batch that goes through, read off its request.

  /** The index: every deleted path is last touched by a delete. */
  predicate KeepsIndex(mst: Mst, s: State, a: Action)
    requires WellRooted(s)
  {
    GoesThrough(mst, s, a) ==> DeletesAreFinal(Requested(a.writes, a.generated))
  }

  /** The links: no superseded write mentions a blob that the last write of its path does not. */
  ghost predicate KeepsLinks(mst: Mst, s: State, a: Action)
    requires WellRooted(s)
  {
    GoesThrough(mst, s, a) ==> SupersededCovered(Requested(a.writes, a.generated))
  }

  /** The blocks: no record CID the batch drops is still held at some path. */
  predicate KeepsBlocks(mst: Mst, s: State, a: Action)
    requires WellRooted(s)
  {
    GoesThrough(mst, s, a) && s.root.Some? ==>
      var next := Effects(CurrentTree(s).value, Requested(a.writes, a.generated));
      Dropped(CurrentTree(s).value, next) !! next.Values
  }

  /** The blobs: every blob the batch mentions has a row; a validated batch does not go through otherwise. */
  ghost predicate KeepsBacking(mst: Mst, s: State, a: Action)
    requires WellRooted(s)
  {
    GoesThrough(mst, s, a) ==> forall c :: c in BatchRefs(Requested(a.writes, a.generated)) ==> c in s.blobs.rows
  }

  /** Temporary keys are fresh. */
  predicate FreshKey(s: State, a: Action) {
    a.UploadBlob? ==> a.key !in s.blobs.temp
  }

  // ---------------------------------------------------------------------------------
  // What each part of the state promises

  /** The record index is the tree. */
  predicate IndexIsTree(s: State)
    requires WellRooted(s)
  {
    Cids(s.index) == Entries(CurrentTree(s))
  }

  /** Everything reachable from the current root is stored. */
  predicate NothingDangles(mst: Mst, s: State)
    requires WellRooted(s)
  {
    s.root.Some? ==> Reachable(mst, CurrentTree(s).value) <= s.blocks
  }

  /** Links are the mentions of live records. */
  ghost predicate LinksMatch(s: State)
    requires WellRooted(s)
  {
    LinksExact(s.blobs.links, Entries(CurrentTree(s)))
  }

  /** The tree holds records and its root is canonical. */
  predicate TreeSane(mst: Mst, s: State)
    requires WellRooted(s)
  {
    HoldsRecords(Entries(CurrentTree(s))) &&
    (s.root.Some? ==> s.root.value.data == mst.Root(CurrentTree(s).value))
  }

  lemma BatchShape(mst: Mst, s: State, a: Action)
    requires mst.Lawful() && WellRooted(s) && a.Batch?
    requires ApplyWrites(mst, s, a.writes, a.options, a.rev, a.generated).Ok?
    ensures var p := ApplyAll(mst, CurrentTree(s), a.writes, a.generated).value;
            var next := Do(mst, s, a);
            && ApplyAll(mst, CurrentTree(s), a.writes, a.generated).Ok?
            && Sound(mst, CurrentTree(s), p) && p.root.Some? && p.ops == OpsOf(mst, s, a)
            && CurrentTree(next) == p.root
            && p.root.value == Effects(Entries(CurrentTree(s)), p.ops)
            && ApplyBlobs(s.blobs, p.ops, a.options.validateBlobs).Ok?
            && next == Commit(mst, s, p, ApplyBlobs(s.blobs, p.ops, a.options.validateBlobs).value, a.rev)
  {
    BatchIsSound(mst, CurrentTree(s), a.writes, a.generated);
  }

  lemma StepKeepsTree(mst: Mst, s: State, a: Action)
    requires mst.Lawful() && WellRooted(s) && TreeSane(mst, s)
    ensures TreeSane(mst, Do(mst, s, a))
  {
    if a.Batch? && ApplyWrites(mst, s, a.writes, a.options, a.rev, a.generated).Ok? {
      BatchShape(mst, s, a);
      EffectsHoldRecords(Entries(CurrentTree(s)), OpsOf(mst, s, a));
    }
  }

  /** One action keeps the index equal to the tree if and only if its deletes are final. */
  lemma StepKeepsIndex(mst: Mst, s: State, a: Action)
    requires mst.Lawful() && WellRooted(s) && IndexIsTree(s)
    ensures IndexIsTree(Do(mst, s, a)) <==> KeepsIndex(mst, s, a)
  {
    if GoesThrough(mst, s, a) {
      BatchShape(mst, s, a);
      ConditionsAreOfTheRequest(mst, CurrentTree(s), a.writes, a.generated, map[]);
      BulkIndexRefinesWrites(s.index, Entries(CurrentTree(s)), OpsOf(mst, s, a), a.rev);
    }
  }

  /** One action leaves no reachable block missing if and only if it drops no record that is still held. */
  lemma StepKeepsBlocks(mst: Mst, s: State, a: Action)
    requires mst.Lawful() && WellRooted(s) && TreeSane(mst, s) && NothingDangles(mst, s)
    ensures NothingDangles(mst, Do(mst, s, a)) <==> KeepsBlocks(mst, s, a)
  {
    if GoesThrough(mst, s, a) {
      BatchShape(mst, s, a);
      var p := ApplyAll(mst, CurrentTree(s), a.writes, a.generated).value;
      ConditionsAreOfTheRequest(mst, CurrentTree(s), a.writes, a.generated, Entries(CurrentTree(s)));
      NoDanglingBlocks(mst, s.blocks, CurrentTree(s), p);
    }
  }

  /** One action keeps the links equal to the live mentions if and only if its superseded writes are covered. */
  lemma StepKeepsLinks(mst: Mst, s: State, a: Action)
    requires mst.Lawful() && WellRooted(s) && LinksMatch(s)
    ensures LinksMatch(Do(mst, s, a)) <==> KeepsLinks(mst, s, a)
  {
    hide LinksExact, SupersededCovered, ApplyBlobs, Effects, BulkLinks;
    if GoesThrough(mst, s, a) {
      var ops := OpsOf(mst, s, a);
      BatchShape(mst, s, a);
      ConditionsAreOfTheRequest(mst, CurrentTree(s), a.writes, a.generated, map[]);
      BlobLinksExact(s.blobs.links, Entries(CurrentTree(s)), ops);
      LinksAfter(s.blobs, ops, a.options.validateBlobs);
    }
  }

  lemma LinksAfter(s: Blobs, ops: seq<Op>, validate: bool)
    requires ApplyBlobs(s, ops, validate).Ok?
    ensures ApplyBlobs(s, ops, validate).value.links == BulkLinks(s.links, ops)
  {
  }

  /** No action leaves a row without its content. */
  lemma StepKeepsRows(mst: Mst, s: State, a: Action)
    requires mst.Lawful() && WellRooted(s) && RowsBacked(s.blobs) && FreshKey(s, a)
    ensures RowsBacked(Do(mst, s, a).blobs)
  {
    hide RowsBacked, ApplyBlobs, Upload;
    if a.UploadBlob? {
      UploadKeepsBlobsBacked(s.blobs, a.key, a.content);
    } else if GoesThrough(mst, s, a) {
      BatchShape(mst, s, a);
      BatchKeepsRows(s.blobs, OpsOf(mst, s, a), a.options.validateBlobs);
    }
  }

  /** One action keeps every linked blob there if and only if it mentions no blob without a row. */
  lemma StepKeepsBlobs(mst: Mst, s: State, a: Action)
    requires mst.Lawful() && WellRooted(s) && RowsBacked(s.blobs) && LinksBacked(s.blobs) && FreshKey(s, a)
    ensures LinksBacked(Do(mst, s, a).blobs) <==> KeepsBacking(mst, s, a)
    ensures a.Batch? && a.options.validateBlobs ==> KeepsBacking(mst, s, a)
  {
    hide RowsBacked, LinksBacked, ApplyBlobs, Upload, BatchRefs;
    if a.UploadBlob? {
      UploadKeepsBlobsBacked(s.blobs, a.key, a.content);
    } else if GoesThrough(mst, s, a) {
      BatchShape(mst, s, a);
      ConditionsAreOfTheRequest(mst, CurrentTree(s), a.writes, a.generated, map[]);
      BatchKeepsBlobsBacked(s.blobs, OpsOf(mst, s, a), a.options.validateBlobs);
    }
  }

  // ---------------------------------------------------------------------------------
  // Over any run: each table under its own condition

  /** The state after the first `i` actions. */
  function At(mst: Mst, s: State, actions: seq<Action>, i: nat): (r: State)
    requires WellRooted(s) && i <= |actions|
    ensures WellRooted(r)
  {
    Run(mst, s, actions[..i])
  }

  lemma {:induction false} RunSnoc(mst: Mst, s: State, actions: seq<Action>, a: Action)
    requires WellRooted(s)
    ensures Run(mst, s, actions + [a]) == Do(mst, Run(mst, s, actions), a)
    decreases |actions|
  {
    hide Do;
    if actions == [] {
      assert actions + [a] == [a];
    } else {
      assert (actions + [a])[1..] == actions[1..] + [a];
      RunSnoc(mst, Do(mst, s, actions[0]), actions[1..], a);
    }
  }

  lemma NextAt(mst: Mst, s: State, actions: seq<Action>, i: nat)
    requires WellRooted(s) && i < |actions|
    ensures At(mst, s, actions, i + 1) == Do(mst, At(mst, s, actions, i), actions[i])
    ensures At(mst, s, actions, 0) == s && At(mst, s, actions, |actions|) == Run(mst, s, actions)
  {
    hide Do;
    assert actions[..i + 1] == actions[..i] + [actions[i]] && actions[..|actions|] == actions;
    RunSnoc(mst, s, actions[..i], actions[i]);
  }

  /** The index is the tree throughout a run if and only if the deletes of every batch are final. */
  lemma {:induction false} RunKeepsIndex(mst: Mst, s: State, actions: seq<Action>, n: nat)
    requires mst.Lawful() && WellRooted(s) && IndexIsTree(s) && n <= |actions|
    ensures (forall i: nat :: i <= n ==> IndexIsTree(At(mst, s, actions, i))) <==>
            (forall i: nat :: i < n ==> KeepsIndex(mst, At(mst, s, actions, i), actions[i]))
    decreases n
  {
    hide Run, Do, KeepsIndex, IndexIsTree;
    if n == 0 {
      assert At(mst, s, actions, 0) == s by {
        StartsAt(mst, s, actions);
      }
    } else {
      RunKeepsIndex(mst, s, actions, n - 1);
      NextAt(mst, s, actions, n - 1);
      if IndexIsTree(At(mst, s, actions, n - 1)) {
        StepKeepsIndex(mst, At(mst, s, actions, n - 1), actions[n - 1]);
      }
    }
  }

  lemma StartsAt(mst: Mst, s: State, actions: seq<Action>)
    requires WellRooted(s)
    ensures At(mst, s, actions, 0) == s
  {
  }

  lemma {:induction false} RunKeepsTree(mst: Mst, s: State, actions: seq<Action>, n: nat)
    requires mst.Lawful() && WellRooted(s) && TreeSane(mst, s) && n <= |actions|
    ensures TreeSane(mst, At(mst, s, actions, n))
    decreases n
  {
    hide Run, Do, TreeSane;
    StartsAt(mst, s, actions);
    if n > 0 {
      RunKeepsTree(mst, s, actions, n - 1);
      NextAt(mst, s, actions, n - 1);
      StepKeepsTree(mst, At(mst, s, actions, n - 1), actions[n - 1]);
    }
  }

  /** Nothing dangles throughout a run if and only if no batch drops a record that is still held. */
  lemma {:induction false} RunKeepsBlocks(mst: Mst, s: State, actions: seq<Action>, n: nat)
    requires mst.Lawful() && WellRooted(s) && TreeSane(mst, s) && NothingDangles(mst, s) && n <= |actions|
    ensures (forall i: nat :: i <= n ==> NothingDangles(mst, At(mst, s, actions, i))) <==>
            (forall i: nat :: i < n ==> KeepsBlocks(mst, At(mst, s, actions, i), actions[i]))
    decreases n
  {
    hide Run, Do, KeepsBlocks, NothingDangles, TreeSane;
    StartsAt(mst, s, actions);
    if n > 0 {
      RunKeepsBlocks(mst, s, actions, n - 1);
      NextAt(mst, s, actions, n - 1);
      RunKeepsTree(mst, s, actions, n - 1);
      if NothingDangles(mst, At(mst, s, actions, n - 1)) {
        StepKeepsBlocks(mst, At(mst, s, actions, n - 1), actions[n - 1]);
      }
    }
  }

  /** Links are the live mentions throughout a run if and only if every batch's superseded writes are covered. */
  lemma {:induction false} RunKeepsLinks(mst: Mst, s: State, actions: seq<Action>, n: nat)
    requires mst.Lawful() && WellRooted(s) && LinksMatch(s) && n <= |actions|
    ensures (forall i: nat :: i <= n ==> LinksMatch(At(mst, s, actions, i))) <==>
            (forall i: nat :: i < n ==> KeepsLinks(mst, At(mst, s, actions, i), actions[i]))
    decreases n
  {
    hide Run, Do, KeepsLinks, LinksMatch;
    StartsAt(mst, s, actions);
    if n > 0 {
      RunKeepsLinks(mst, s, actions, n - 1);
      NextAt(mst, s, actions, n - 1);
      if LinksMatch(At(mst, s, actions, n - 1)) {
        StepKeepsLinks(mst, At(mst, s, actions, n - 1), actions[n - 1]);
      }
    }
  }

  lemma {:induction false} RunKeepsRows(mst: Mst, s: State, actions: seq<Action>, n: nat)
    requires mst.Lawful() && WellRooted(s) && RowsBacked(s.blobs) && n <= |actions|
    requires forall i: nat :: i < n ==> FreshKey(At(mst, s, actions, i), actions[i])
    ensures RowsBacked(At(mst, s, actions, n).blobs)
    decreases n
  {
    hide Run, Do, RowsBacked, FreshKey;
    StartsAt(mst, s, actions);
    if n > 0 {
      RunKeepsRows(mst, s, actions, n - 1);
      NextAt(mst, s, actions, n - 1);
      StepKeepsRows(mst, At(mst, s, actions, n - 1), actions[n - 1]);
    }
  }

  /** Every linked blob is there throughout a run if and only if no batch mentions a blob without a row. */
  lemma {:induction false} RunKeepsBlobs(mst: Mst, s: State, actions: seq<Action>, n: nat)
    requires mst.Lawful() && WellRooted(s) && RowsBacked(s.blobs) && LinksBacked(s.blobs) && n <= |actions|
    requires forall i: nat :: i < n ==> FreshKey(At(mst, s, actions, i), actions[i])
    ensures (forall i: nat :: i <= n ==> LinksBacked(At(mst, s, actions, i).blobs)) <==>
            (forall i: nat :: i < n ==> KeepsBacking(mst, At(mst, s, actions, i), actions[i]))
    decreases n
  {
    hide Run, Do, RowsBacked, LinksBacked, FreshKey, KeepsBacking;
    StartsAt(mst, s, actions);
    if n > 0 {
      RunKeepsBlobs(mst, s, actions, n - 1);
      NextAt(mst, s, actions, n - 1);
      RunKeepsRows(mst, s, actions, n - 1);
      if LinksBacked(At(mst, s, actions, n - 1).blobs) {
        StepKeepsBlobs(mst, At(mst, s, actions, n - 1), actions[n - 1]);
      }
    }
  }

  lemma FreshIsExact(mst: Mst)
    ensures WellRooted(Fresh()) && TreeSane(mst, Fresh()) && IndexIsTree(Fresh()) && NothingDangles(mst, Fresh())
    ensures LinksMatch(Fresh()) && RowsBacked(Fresh().blobs) && LinksBacked(Fresh().blobs) && Chained(Fresh())
  {
  }

  /**
   * In every run of a new repository, index, blocks, links and blobs are each exact throughout if
   * and only if every batch meets that table's own condition.
   */
  lemma RunStaysExact(mst: Mst, actions: seq<Action>)
    requires mst.Lawful()
    ensures (forall i: nat :: i <= |actions| ==> IndexIsTree(At(mst, Fresh(), actions, i))) <==>
            (forall i: nat :: i < |actions| ==> KeepsIndex(mst, At(mst, Fresh(), actions, i), actions[i]))
    ensures (forall i: nat :: i <= |actions| ==> NothingDangles(mst, At(mst, Fresh(), actions, i))) <==>
            (forall i: nat :: i < |actions| ==> KeepsBlocks(mst, At(mst, Fresh(), actions, i), actions[i]))
    ensures (forall i: nat :: i <= |actions| ==> LinksMatch(At(mst, Fresh(), actions, i))) <==>
            (forall i: nat :: i < |actions| ==> KeepsLinks(mst, At(mst, Fresh(), actions, i), actions[i]))
    ensures (forall i: nat :: i < |actions| ==> FreshKey(At(mst, Fresh(), actions, i), actions[i])) ==>
              ((forall i: nat :: i <= |actions| ==> LinksBacked(At(mst, Fresh(), actions, i).blobs)) <==>
               (forall i: nat :: i < |actions| ==> KeepsBacking(mst, At(mst, Fresh(), actions, i), actions[i])))
  {
    hide Run, Do, Fresh, IndexIsTree, NothingDangles, LinksMatch, LinksBacked, RowsBacked, TreeSane, WellRooted;
    hide KeepsIndex, KeepsBlocks, KeepsLinks, KeepsBacking, FreshKey, Chained;
    FreshIsExact(mst);
    RunKeepsIndex(mst, Fresh(), actions, |actions|);
    RunKeepsBlocks(mst, Fresh(), actions, |actions|);
    RunKeepsLinks(mst, Fresh(), actions, |actions|);
    if forall i: nat :: i < |actions| ==> FreshKey(At(mst, Fresh(), actions, i), actions[i]) {
      RunKeepsBlobs(mst, Fresh(), actions, |actions|);
    }
  }

  /** A batch with blob validation on and at most one write per record. */
  predicate Ordinary(a: Action) {
    a.Batch? ==> a.options.validateBlobs && DistinctPaths(a.writes, a.generated)
  }

  /**
   * In every run of a new repository in which every batch is validated and writes no record twice,
   * the index is the tree, the links are the live mentions, and every linked blob has its row and
   * permanent content.
   */
  lemma OrdinaryRunsStayExact(mst: Mst, actions: seq<Action>)
    requires mst.Lawful()
    requires forall i: nat :: i < |actions| ==> Ordinary(actions[i]) && FreshKey(At(mst, Fresh(), actions, i), actions[i])
    ensures var s := Run(mst, Fresh(), actions);
            IndexIsTree(s) && LinksMatch(s) && RowsBacked(s.blobs) && LinksBacked(s.blobs)
    ensures var s := Run(mst, Fresh(), actions);
            var tree := Entries(CurrentTree(s));
            forall p, c :: (p, c) in s.blobs.links <==>
                             p in tree && tree[p].RecordCid? && BlobRefs.Mentions(tree[p].value, c, BlobRefs.MAX_LAYER)
  {
    LinksSay(Run(mst, Fresh(), actions));
    hide Run, Do, Fresh, IndexIsTree, NothingDangles, LinksMatch, LinksBacked, RowsBacked, TreeSane, WellRooted;
    hide KeepsBacking, FreshKey, Chained, GoesThrough, DeletesAreFinal, SupersededCovered, Requested, DistinctPaths;
    FreshIsExact(mst);
    RunEndsAt(mst, Fresh(), actions);
    OrdinaryKeepsBacking(mst, Fresh(), actions, |actions|);
    forall i: nat | i < |actions|
      ensures KeepsIndex(mst, At(mst, Fresh(), actions, i), actions[i])
      ensures KeepsLinks(mst, At(mst, Fresh(), actions, i), actions[i])
    {
      if GoesThrough(mst, At(mst, Fresh(), actions, i), actions[i]) {
        ThroughIsBatch(mst, At(mst, Fresh(), actions, i), actions[i]);
        DistinctRequestsQualify(actions[i].writes, actions[i].generated);
      }
    }
    hide KeepsIndex, KeepsLinks;
    RunKeepsIndex(mst, Fresh(), actions, |actions|);
    RunKeepsLinks(mst, Fresh(), actions, |actions|);
    RunKeepsRows(mst, Fresh(), actions, |actions|);
  }

  lemma LinksSay(s: State)
    requires WellRooted(s)
    ensures var tree := Entries(CurrentTree(s));
            LinksMatch(s) ==>
              forall p, c :: (p, c) in s.blobs.links <==>
                               p in tree && tree[p].RecordCid? && BlobRefs.Mentions(tree[p].value, c, BlobRefs.MAX_LAYER)
  {
    hide BlobRefs.Mentions, LinksExact;
    if LinksMatch(s) {
      forall p, c
        ensures (p, c) in s.blobs.links <==>
                && p in Entries(CurrentTree(s)) && Entries(CurrentTree(s))[p].RecordCid?
                && BlobRefs.Mentions(Entries(CurrentTree(s))[p].value, c, BlobRefs.MAX_LAYER)
      {
        LinksAreMentions(s.blobs.links, Entries(CurrentTree(s)), p, c);
      }
    }
  }

  lemma ThroughIsBatch(mst: Mst, s: State, a: Action)
    requires WellRooted(s) && GoesThrough(mst, s, a)
    ensures a.Batch?
  {
  }

  lemma RunEndsAt(mst: Mst, s: State, actions: seq<Action>)
    requires WellRooted(s)
    ensures At(mst, s, actions, |actions|) == Run(mst, s, actions)
  {
    assert actions[..|actions|] == actions;
  }

  lemma {:induction false} OrdinaryKeepsBacking(mst: Mst, s: State, actions: seq<Action>, n: nat)
    requires mst.Lawful() && WellRooted(s) && RowsBacked(s.blobs) && LinksBacked(s.blobs) && n <= |actions|
    requires forall i: nat :: i < n ==> Ordinary(actions[i]) && FreshKey(At(mst, s, actions, i), actions[i])
    ensures LinksBacked(At(mst, s, actions, n).blobs)
    decreases n
  {
    hide Run, Do, RowsBacked, LinksBacked, FreshKey, KeepsBacking;
    StartsAt(mst, s, actions);
    if n > 0 {
      var before := At(mst, s, actions, n - 1);
      OrdinaryKeepsBacking(mst, s, actions, n - 1);
      NextAt(mst, s, actions, n - 1);
      RunKeepsRows(mst, s, actions, n - 1);
      StepKeepsBlobs(mst, before, actions[n - 1]);
      UploadsKeepBacking(mst, before, actions[n - 1]);
    }
  }

  lemma UploadsKeepBacking(mst: Mst, s: State, a: Action)
    requires WellRooted(s)
    ensures a.UploadBlob? ==> KeepsBacking(mst, s, a)
  {
  }

  /** In an exact state a batch collects a blob if and only if it took away the blob's last live mention. */
  lemma CollectionFollowsRecords(mst: Mst, s: State, a: Action, c: Cid)
    requires mst.Lawful() && WellRooted(s) && LinksMatch(s) && KeepsLinks(mst, s, a)
    requires a.Batch? && ApplyWrites(mst, s, a.writes, a.options, a.rev, a.generated).Ok?
    requires c in s.blobs.rows
    ensures var next := Do(mst, s, a);
            && (c !in next.blobs.rows <==>
                Mentioned(Entries(CurrentTree(s)), c) && !Mentioned(Entries(CurrentTree(next)), c))
            && (c in s.blobs.permanent ==>
                  (c !in next.blobs.permanent <==> c !in next.blobs.rows))
  {
    var next := Do(mst, s, a);
    BatchShape(mst, s, a);
    ConditionsAreOfTheRequest(mst, CurrentTree(s), a.writes, a.generated, map[]);
    BlobLinksExact(s.blobs.links, Entries(CurrentTree(s)), OpsOf(mst, s, a));
    CollectionIsExact(s.blobs, OpsOf(mst, s, a), a.options.validateBlobs, c);
    LinkedIsMentioned(s.blobs.links, Entries(CurrentTree(s)), c);
    LinkedIsMentioned(next.blobs.links, Entries(CurrentTree(next)), c);
  }

  /** Some live record mentions the blob. */
  predicate Mentioned(t: Tree, c: Cid) {
    exists p :: p in t && c in RecordRefs(t[p])
  }

  lemma LinkedIsMentioned(links: set<(Path, Cid)>, t: Tree, c: Cid)
    requires LinksExact(links, t)
    ensures Linked(links, c) <==> Mentioned(t, c)
  {
    if Linked(links, c) {
      var l :| l in links && l.1 == c;
      assert (l.0, c) in links;
    }
    if Mentioned(t, c) {
      var p :| p in t && c in RecordRefs(t[p]);
      assert (p, c) in links;
    }
  }

  // ---------------------------------------------------------------------------------
  // When a batch goes through

  /** The tests on a batch as a whole, then those on its writes, then the one on the blobs they mention. */
  ghost predicate Admitted(s: State, writes: seq<Write>, options: Options, generated: nat -> string)
    requires WellRooted(s)
  {
    && (|writes| > 0 || options.create) && |writes| <= 200
    && (options.create <==> s.root.None?)
    && (options.swapCommit.Some? && s.root.Some? ==> s.root.value == options.swapCommit.value)
    && AllPass(Entries(CurrentTree(s)), writes, generated, 0, |writes|)
    && (options.validateBlobs ==> forall c :: RequestMentions(writes, c) ==> c in s.blobs.rows)
  }

  /** What a refusal says, in the order of the tests. */
  ghost predicate RefusedWith(s: State, writes: seq<Write>, options: Options, generated: nat -> string, e: Error)
    requires WellRooted(s)
  {
    if |writes| == 0 && !options.create then e == NoWrites
    else if |writes| > 200 then e == TooManyWrites
    else if s.root.None? && !options.create then e == RepoNotFound
    else if s.root.Some? && options.create then e == RepoAlreadyExists
    else if options.swapCommit.Some? && s.root.Some? && s.root.value != options.swapCommit.value then e == InvalidSwap
    else if !AllPass(Entries(CurrentTree(s)), writes, generated, 0, |writes|) then
      FailsFirst(Entries(CurrentTree(s)), writes, generated, 0, e)
    else e == BlobNotFound
  }

  /**
   * A batch goes through if and only if it passes every test, stated on the request and the tables;
   * a refusal names the first that fails. Then the new root is the commit of the tree the writes ask for.
   */
  lemma BatchIsJudged(mst: Mst, s: State, writes: seq<Write>, options: Options, rev: nat, generated: nat -> string)
    requires mst.Lawful() && WellRooted(s) && RowsBacked(s.blobs)
    ensures var r := ApplyWrites(mst, s, writes, options, rev, generated);
            && (r.Ok? <==> Admitted(s, writes, options, generated))
            && (r.Err? ==> RefusedWith(s, writes, options, generated, r.error))
            && (r.Ok? ==>
                  var next := Effects(Entries(CurrentTree(s)), Requested(writes, generated));
                  r.value.root == Some(CommitCid(mst.Root(next), rev)))
  {
    hide AllPass, FailsFirst, RequestMentions, BatchRefs, ApplyBlobs, RowsBacked, Requested, Effects;
    hide BulkBlocks, BulkIndex, AllFit, OpsHoldRecords, DeletesAreFinal, SupersededCovered;
    var start := CurrentTree(s);
    WritesAreJudged(mst, start, writes, generated);
    if ApplyAll(mst, start, writes, generated).Ok? {
      var ops := ApplyAll(mst, start, writes, generated).value.ops;
      ConditionsAreOfTheRequest(mst, start, writes, generated, Entries(start));
      BatchIsSound(mst, start, writes, generated);
      BatchKeepsRows(s.blobs, ops, options.validateBlobs);
      hide ApplyAll;
      forall c
        ensures c in BatchRefs(ops) <==> RequestMentions(writes, c)
      {
        RefsAreMentions(writes, generated, c);
      }
    }
  }

  /** In an exact state `putRecord` never hears that its record exists already or does not exist. */
  lemma PutRecordNeverMisjudges(
    mst: Mst, s: State, collection: string, rkey: string, swap: Option<Option<Cid>>, record: Json,
    options: Options, rev: nat, generated: nat -> string)
    requires WellRooted(s) && IndexIsTree(s) && rkey != ""
    ensures var r := ApplyWrites(mst, s, [PutWrite(s.index, collection, rkey, swap, record)], options, rev, generated);
            r.Err? ==> r.error != RecordAlreadyExists && r.error != RecordNotFound && r.error != MissingRecordKey
  {
    var w := PutWrite(s.index, collection, rkey, swap, record);
    var t := Entries(CurrentTree(s));
    assert PathOf(w, rkey) in s.index <==> PathOf(w, rkey) in Cids(s.index);
    PutRecordChoosesRight(s.index, t, collection, rkey, swap, record, generated(0));
    OneWriteFails(mst, CurrentTree(s), w, generated);
  }

  lemma OneWriteFails(mst: Mst, root: Option<Tree>, w: Write, generated: nat -> string)
    ensures ApplyAll(mst, root, [w], generated).Err? <==> WriteOp(Entries(root), w, generated(0)).Err?
    ensures ApplyAll(mst, root, [w], generated).Err? ==>
              ApplyAll(mst, root, [w], generated).error == WriteOp(Entries(root), w, generated(0)).error
  {
    var p := Progress(root, [], {});
    var op := WriteOp(Entries(root), w, generated(0));
    if op.Ok? {
      assert ApplyFrom(mst, Apply(mst, p, op.value), [w], 1, generated).Ok?;
    }
  }

  // ---------------------------------------------------------------------------------
  // The commit chain

  /** The tree an event's data root stands for. */
  function TreeOf(data: Option<Cid>): (r: Tree) {
    if data.Some? && data.value.NodeCid? then data.value.entries else map[]
  }

  /** Event `i` follows the event before it, and its ops lead from that one's tree to its own and back. */
  predicate Follows(events: seq<CommitEvent>, i: nat)
    requires i < |events|
  {
    var e := events[i];
    && e.cid == CommitCid(e.data, e.rev)
    && e.since == (if i == 0 then None else Some(events[i - 1].rev))
    && e.prevData == (if i == 0 then None else Some(events[i - 1].data))
    && Replay(TreeOf(e.prevData), e.ops) == Some(TreeOf(Some(e.data)))
    && Unwind(TreeOf(Some(e.data)), e.ops) == Some(TreeOf(e.prevData))
  }

  /** Every event follows the one before it, and the root is the last one's commit. */
  predicate Chained(s: State) {
    && (forall i: nat :: i < |s.events| ==> Follows(s.events, i))
    && s.root == (if s.events == [] then None else Some(s.events[|s.events| - 1].cid))
  }

  lemma ChainAppend(events: seq<CommitEvent>, e: CommitEvent)
    requires forall i: nat :: i < |events| ==> Follows(events, i)
    requires Follows(events + [e], |events|)
    ensures forall i: nat :: i < |events + [e]| ==> Follows(events + [e], i)
  {
    hide Replay, Unwind;
    forall i: nat | i < |events|
      ensures Follows(events + [e], i)
    {
      assert Follows(events, i);
    }
  }

  /** The event a batch adds. */
  lemma NewEventFollows(mst: Mst, s: State, a: Action, e: CommitEvent)
    requires mst.Lawful() && WellRooted(s) && a.Batch?
    requires s.root == (if s.events == [] then None else Some(s.events[|s.events| - 1].cid))
    requires s.events != [] ==>
               s.events[|s.events| - 1].cid == CommitCid(s.events[|s.events| - 1].data, s.events[|s.events| - 1].rev)
    requires ApplyWrites(mst, s, a.writes, a.options, a.rev, a.generated).Ok?
    requires Do(mst, s, a).events == s.events + [e]
    ensures Follows(s.events + [e], |s.events|)
  {
    hide Replay, Unwind, Effects, AllFit, BulkBlocks, BulkIndex, ApplyBlobs;
    var p := ApplyAll(mst, CurrentTree(s), a.writes, a.generated).value;
    BatchShape(mst, s, a);
    OperationInversion(mst, CurrentTree(s), a.writes, a.generated);
    assert Do(mst, s, a).events[|s.events|] == e;
    assert TreeOf(e.prevData) == Entries(CurrentTree(s));
    assert TreeOf(Some(e.data)) == p.root.value;
  }

  lemma StepKeepsChain(mst: Mst, s: State, a: Action)
    requires mst.Lawful() && WellRooted(s) && Chained(s)
    ensures Chained(Do(mst, s, a))
  {
    hide Replay, Unwind, Effects, AllFit, BulkBlocks, BulkIndex, ApplyBlobs, Refusal, ApplyAll;
    if a.Batch? && ApplyWrites(mst, s, a.writes, a.options, a.rev, a.generated).Ok? {
      var next := Do(mst, s, a);
      var e := next.events[|s.events|];
      assert s.events != [] ==> Follows(s.events, |s.events| - 1);
      NewEventFollows(mst, s, a, e);
      ChainAppend(s.events, e);
    }
  }

  lemma {:induction false} ChainKept(mst: Mst, s: State, actions: seq<Action>)
    requires mst.Lawful() && WellRooted(s) && Chained(s)
    ensures Chained(Run(mst, s, actions))
    decreases |actions|
  {
    if actions != [] {
      StepKeepsChain(mst, s, actions[0]);
      ChainKept(mst, Do(mst, s, actions[0]), actions[1..]);
    }
  }

  /**
   * In every run of a new repository each commit event names the rev and data root of the commit
   * before it, and its ops lead from that commit's tree to its own and back.
   */
  lemma RunStaysChained(mst: Mst, actions: seq<Action>)
    requires mst.Lawful()
    ensures var events := Run(mst, Fresh(), actions).events;
            forall i: nat :: i < |events| ==> Follows(events, i)
    ensures Chained(Run(mst, Fresh(), actions))
  {
    ChainKept(mst, Fresh(), actions);
  }

  // ---------------------------------------------------------------------------------
  // Compare and swap

  function CurrentRev(s: State): (r: int)
    requires WellRooted(s)
  {
    if s.root.None? then -1 else s.root.value.rev
  }

  /** TIDs only grow: every batch gets a rev beyond the current one. */
  predicate RevsRise(mst: Mst, s: State, actions: seq<Action>)
    requires WellRooted(s)
    decreases |actions|
  {
    actions != [] ==>
      && (actions[0].Batch? ==> actions[0].rev > CurrentRev(s))
      && RevsRise(mst, Do(mst, s, actions[0]), actions[1..])
  }

  lemma StepRaisesRev(mst: Mst, s: State, a: Action)
    requires WellRooted(s) && (a.Batch? ==> a.rev > CurrentRev(s))
    ensures CurrentRev(s) <= CurrentRev(Do(mst, s, a))
    ensures a.Batch? && ApplyWrites(mst, s, a.writes, a.options, a.rev, a.generated).Ok? ==>
              CurrentRev(s) < CurrentRev(Do(mst, s, a))
  {
  }

  lemma {:induction false} RunRaisesRev(mst: Mst, s: State, actions: seq<Action>)
    requires WellRooted(s) && RevsRise(mst, s, actions)
    ensures CurrentRev(s) <= CurrentRev(Run(mst, s, actions))
    decreases |actions|
  {
    if actions != [] {
      StepRaisesRev(mst, s, actions[0]);
      RunRaisesRev(mst, Do(mst, s, actions[0]), actions[1..]);
    }
  }

  /** Of two batches naming the same swapCommit the second is refused, whatever ran in between. */
  lemma SwapSucceedsOnce(mst: Mst, s: State, first: Action, between: seq<Action>, second: Action, head: Cid)
    requires WellRooted(s) && s.root.Some? && first.Batch? && second.Batch?
    requires first.options.swapCommit == Some(head) && second.options.swapCommit == Some(head)
    requires RevsRise(mst, s, [first] + between)
    requires ApplyWrites(mst, s, first.writes, first.options, first.rev, first.generated).Ok?
    ensures var t := Run(mst, Do(mst, s, first), between);
            var r := ApplyWrites(mst, t, second.writes, second.options, second.rev, second.generated);
            s.root == Some(head) && t.root != Some(head) && r.Err?
  {
    assert ([first] + between)[1..] == between;
    StepRaisesRev(mst, s, first);
    RunRaisesRev(mst, Do(mst, s, first), between);
  }
}
