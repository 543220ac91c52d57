/**
 * The meaning of a batch of writes (actors/repo/transactor.ts): the writes are applied to the
 * tree one at a time, leaving one commit op each. Everything the transactor then updates in bulk
 * is a function of those ops.
 */
module RepoBatch {
  import opened Common
  import opened RepoTypes

  datatype Action = Create | Update | Delete

  /** `swap` is absent, or the CID (`None` for null) the caller expects at the path. */
  datatype Write = Write(
    action: Action,
    collection: string,
    rkey: Option<string>,
    swap: Option<Option<Cid>>,
    record: Json)

  datatype Error =
    | NoWrites
    | TooManyWrites
    | RepoNotFound
    | RepoAlreadyExists
    | InvalidSwap
    | MissingRecordKey
    | RecordAlreadyExists
    | RecordNotFound
    | BlobNotFound
    | MissingTempBlob

  const MAX_WRITES: nat := 200

  /** An op of the commit event: `cid` is null for a delete, `prev` is null for a create. */
  datatype Op = Op(action: Action, path: Path, cid: Option<Cid>, prev: Option<Cid>)

  /** `rkey` if given, else a generated key for a create; an empty key counts as missing. */
  function RecordKey(w: Write, generated: string): (r: Option<string>) {
    var key := if w.rkey.Some? then w.rkey else if w.action.Create? then Some(generated) else None;
    if key.Some? && key.value == "" then None else key
  }

  function PathOf(w: Write, key: string): (r: Path) {
    w.collection + "/" + key
  }

  function Lookup(t: Tree, p: Path): (r: Option<Cid>) {
    if p in t then Some(t[p]) else None
  }

  /** The op one write leaves, or why it is refused. */
  function WriteOp(t: Tree, w: Write, generated: string): (r: Result<Op, Error>) {
    var key := RecordKey(w, generated);
    if key.None? then Err(MissingRecordKey)
    else
      var path := PathOf(w, key.value);
      var prev := Lookup(t, path);
      if w.swap.Some? && w.swap.value != prev then Err(InvalidSwap)
      else if w.action.Create? && prev.Some? then Err(RecordAlreadyExists)
      else if !w.action.Create? && prev.None? then Err(RecordNotFound)
      else
        Ok(Op(w.action, path,
              if w.action.Delete? then None else Some(RecordCid(w.record)),
              if w.action.Create? then None else prev))
  }

  /** What an op does to the tree. */
  function Effect(t: Tree, op: Op): (r: Tree) {
    if op.cid.Some? then t[op.path := op.cid.value] else t - {op.path}
  }

  function Effects(t: Tree, ops: seq<Op>): (r: Tree) {
    if ops == [] then t else Effect(Effects(t, ops[..|ops| - 1]), ops[|ops| - 1])
  }

  /** The root after a put or delete: the wrangler gives null for a tree it empties. */
  function Rooted(t: Tree, op: Op): (r: Option<Tree>) {
    if op.cid.None? && t == map[] then None else Some(t)
  }

  function Entries(root: Option<Tree>): (r: Tree) {
    if root.Some? then root.value else map[]
  }

  /** The loop's state: the current root, the ops so far and the blocks put so far. */
  datatype Progress = Progress(root: Option<Tree>, ops: seq<Op>, stored: set<Cid>)

  function Apply(mst: Mst, p: Progress, op: Op): (r: Progress) {
    var root := Rooted(Effect(Entries(p.root), op), op);
    Progress(root, p.ops + [op], p.stored + mst.stored(p.root, root))
  }

  /** The loop over the writes; `generated(i)` is the key generated for write `i`. */
  function ApplyFrom(mst: Mst, p: Progress, writes: seq<Write>, i: nat, generated: nat -> string)
    : (r: Result<Progress, Error>)
    requires i <= |writes|
    decreases |writes| - i
  {
    if i == |writes| then Ok(p)
    else
      match WriteOp(Entries(p.root), writes[i], generated(i))
      case Err(e) => Err(e)
      case Ok(op) => ApplyFrom(mst, Apply(mst, p, op), writes, i + 1, generated)
  }

  /** An empty repository still gets a root node. */
  function Finish(mst: Mst, p: Progress): (r: Progress) {
    if p.root.None? then p.(root := Some(map[]), stored := p.stored + mst.nodes(map[])) else p
  }

  /** Applies all writes to `root`. */
  function ApplyAll(mst: Mst, root: Option<Tree>, writes: seq<Write>, generated: nat -> string)
    : (r: Result<Progress, Error>)
  {
    match ApplyFrom(mst, Progress(root, [], {}), writes, 0, generated)
    case Err(e) => Err(e)
    case Ok(p) => Ok(Finish(mst, p))
  }

  // ---------------------------------------------------------------------------------
  // What a successful batch's ops say about its trees

  /** An op as the loop leaves it when applied to `t`. */
  predicate Fits(t: Tree, op: Op) {
    match op.action
    case Create => op.path !in t && op.cid.Some? && op.prev.None?
    case Update => op.path in t && op.cid.Some? && op.prev == Some(t[op.path])
    case Delete => op.path in t && op.cid.None? && op.prev == Some(t[op.path])
  }

  predicate AllFit(t: Tree, ops: seq<Op>) {
    ops == [] || (AllFit(t, ops[..|ops| - 1]) && Fits(Effects(t, ops[..|ops| - 1]), ops[|ops| - 1]))
  }

  predicate HoldsRecords(t: Tree) {
    forall p :: p in t ==> t[p].RecordCid?
  }

  predicate OpsHoldRecords(ops: seq<Op>) {
    forall i :: 0 <= i < |ops| && ops[i].cid.Some? ==> ops[i].cid.value.RecordCid?
  }

  ghost predicate Sound(mst: Mst, start: Option<Tree>, p: Progress) {
    && AllFit(Entries(start), p.ops)
    && Entries(p.root) == Effects(Entries(start), p.ops)
    && OpsHoldRecords(p.ops)
    && mst.Nodes(p.root) <= mst.Nodes(start) + p.stored
    && (forall c :: c in p.stored ==> c.NodeCid?)
  }

  lemma OpFits(t: Tree, w: Write, generated: string)
    requires WriteOp(t, w, generated).Ok?
    ensures var op := WriteOp(t, w, generated).value;
            Fits(t, op) && (op.cid.Some? ==> op.cid.value.RecordCid?)
  {
  }

  lemma ApplyKeepsSound(mst: Mst, start: Option<Tree>, p: Progress, op: Op)
    requires mst.Lawful() && Sound(mst, start, p)
    requires Fits(Entries(p.root), op) && (op.cid.Some? ==> op.cid.value.RecordCid?)
    ensures Sound(mst, start, Apply(mst, p, op))
  {
    assert (p.ops + [op])[..|p.ops|] == p.ops;
    var root := Rooted(Effect(Entries(p.root), op), op);
    assert mst.Nodes(root) <= mst.Nodes(p.root) + mst.stored(p.root, root);
  }

  lemma {:induction false} LoopIsSound(
    mst: Mst, start: Option<Tree>, p: Progress, writes: seq<Write>, i: nat, generated: nat -> string)
    requires mst.Lawful() && i <= |writes| && Sound(mst, start, p)
    requires ApplyFrom(mst, p, writes, i, generated).Ok?
    ensures Sound(mst, start, ApplyFrom(mst, p, writes, i, generated).value)
    decreases |writes| - i
  {
    if i < |writes| {
      OpFits(Entries(p.root), writes[i], generated(i));
      var op := WriteOp(Entries(p.root), writes[i], generated(i)).value;
      ApplyKeepsSound(mst, start, p, op);
      LoopIsSound(mst, start, Apply(mst, p, op), writes, i + 1, generated);
    }
  }

  /** A batch that succeeds ends with a root, and its ops lead there from the old tree. */
  lemma BatchIsSound(mst: Mst, start: Option<Tree>, writes: seq<Write>, generated: nat -> string)
    requires mst.Lawful() && ApplyAll(mst, start, writes, generated).Ok?
    ensures var p := ApplyAll(mst, start, writes, generated).value;
            Sound(mst, start, p) && p.root.Some?
  {
    var p := Progress(start, [], {});
    LoopIsSound(mst, start, p, writes, 0, generated);
  }

  // ---------------------------------------------------------------------------------
  // Operation inversion

  /** What a validator does with an op going forward; `None` when the op does not fit the tree. */
  function Forward(t: Tree, op: Op): (r: Option<Tree>) {
    match op.action
    case Create => if op.path !in t && op.cid.Some? then Some(t[op.path := op.cid.value]) else None
    case Update => if op.cid.Some? && Lookup(t, op.path) == op.prev && op.prev.Some?
                   then Some(t[op.path := op.cid.value]) else None
    case Delete => if Lookup(t, op.path) == op.prev && op.prev.Some? then Some(t - {op.path}) else None
  }

  /** Undoing an op: a create is removed, an update or delete gets its `prev` back. */
  function Invert(t: Tree, op: Op): (r: Option<Tree>) {
    match op.action
    case Create => if op.cid.Some? && Lookup(t, op.path) == op.cid then Some(t - {op.path}) else None
    case Update => if op.cid.Some? && Lookup(t, op.path) == op.cid && op.prev.Some?
                   then Some(t[op.path := op.prev.value]) else None
    case Delete => if op.path !in t && op.prev.Some? then Some(t[op.path := op.prev.value]) else None
  }

  /** The ops replayed in order. */
  function Replay(t: Tree, ops: seq<Op>): (r: Option<Tree>)
    decreases |ops|
  {
    if ops == [] then Some(t)
    else
      var next := Forward(t, ops[0]);
      if next.None? then None else Replay(next.value, ops[1..])
  }

  /** The ops undone from the last to the first. */
  function Unwind(t: Tree, ops: seq<Op>): (r: Option<Tree>)
    decreases |ops|
  {
    if ops == [] then Some(t)
    else
      var next := Invert(t, ops[|ops| - 1]);
      if next.None? then None else Unwind(next.value, ops[..|ops| - 1])
  }

  lemma FitsForward(t: Tree, op: Op)
    requires Fits(t, op)
    ensures Forward(t, op) == Some(Effect(t, op))
    ensures Invert(Effect(t, op), op) == Some(t)
  {
    match op.action
    case Create => assert t[op.path := op.cid.value] - {op.path} == t;
    case Update => assert t[op.path := op.cid.value][op.path := t[op.path]] == t;
    case Delete => assert (t - {op.path})[op.path := t[op.path]] == t;
  }

  lemma {:induction false} ReplaySnoc(t: Tree, ops: seq<Op>, op: Op)
    ensures Replay(t, ops + [op]) ==
            if Replay(t, ops).None? then None else Forward(Replay(t, ops).value, op)
    decreases |ops|
  {
    if ops == [] {
      assert ops + [op] == [op];
    } else {
      assert (ops + [op])[1..] == ops[1..] + [op];
      var next := Forward(t, ops[0]);
      if next.Some? {
        ReplaySnoc(next.value, ops[1..], op);
      }
    }
  }

  lemma {:induction false} InversionOfFittingOps(t: Tree, ops: seq<Op>)
    requires AllFit(t, ops)
    ensures Replay(t, ops) == Some(Effects(t, ops))
    ensures Unwind(Effects(t, ops), ops) == Some(t)
    decreases |ops|
  {
    if ops != [] {
      var front, last := ops[..|ops| - 1], ops[|ops| - 1];
      InversionOfFittingOps(t, front);
      FitsForward(Effects(t, front), last);
      ReplaySnoc(t, front, last);
      assert front + [last] == ops;
    }
  }

  /** Op `i` is for write `i`: same action, the path of its key, and the record's CID. */
  ghost predicate Mirrors(ops: seq<Op>, writes: seq<Write>, n: nat, generated: nat -> string)
  {
    && n <= |writes| && |ops| == n
    && forall i: nat :: i < n ==>
        && RecordKey(writes[i], generated(i)).Some?
        && ops[i].action == writes[i].action
        && ops[i].path == PathOf(writes[i], RecordKey(writes[i], generated(i)).value)
        && ops[i].cid == (if writes[i].action.Delete? then None else Some(RecordCid(writes[i].record)))
  }

  lemma {:induction false} LoopMirrors(mst: Mst, p: Progress, writes: seq<Write>, i: nat, generated: nat -> string)
    requires i <= |writes| && Mirrors(p.ops, writes, i, generated)
    requires ApplyFrom(mst, p, writes, i, generated).Ok?
    ensures Mirrors(ApplyFrom(mst, p, writes, i, generated).value.ops, writes, |writes|, generated)
    decreases |writes| - i
  {
    if i < |writes| {
      var op := WriteOp(Entries(p.root), writes[i], generated(i)).value;
      LoopMirrors(mst, Apply(mst, p, op), writes, i + 1, generated);
    }
  }

  /**
   * Every successful batch can be validated from its ops alone: there is one per write, replayed
   * on the tree of `prevData` they give the new tree, and undone on the new tree they give the old
   * one and so its root.
   */
  lemma OperationInversion(mst: Mst, start: Option<Tree>, writes: seq<Write>, generated: nat -> string)
    requires mst.Lawful() && ApplyAll(mst, start, writes, generated).Ok?
    ensures var p := ApplyAll(mst, start, writes, generated).value;
            && p.root.Some? && Mirrors(p.ops, writes, |writes|, generated)
            && Replay(Entries(start), p.ops) == p.root
            && Unwind(p.root.value, p.ops) == Some(Entries(start))
            && (start.Some? ==> mst.Root(Unwind(p.root.value, p.ops).value) == mst.Root(start.value))
  {
    BatchIsSound(mst, start, writes, generated);
    var p := ApplyAll(mst, start, writes, generated).value;
    InversionOfFittingOps(Entries(start), p.ops);
    LoopMirrors(mst, Progress(start, [], {}), writes, 0, generated);
  }
}
