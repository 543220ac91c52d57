/**
 * What a request alone says about a batch: action, path and CID of every op can be read off the
 * writes before they are applied, and so can the conditions for the bulk updates.
 */
module RepoRequests {
  import opened Common
  import opened RepoTypes
  import opened RepoBatch
  import opened RepoIndex
  import opened RepoBlobs
  import BlobRefs

  function PathAt(w: Write, generated: string): (r: Path) {
    var key := RecordKey(w, generated);
    PathOf(w, if key.Some? then key.value else "")
  }

  /** The op a write asks for; only `prev` is not known yet. */
  function RequestedOp(w: Write, generated: string): (r: Op) {
    Op(w.action, PathAt(w, generated), if w.action.Delete? then None else Some(RecordCid(w.record)), None)
  }

  function Requested(writes: seq<Write>, generated: nat -> string): (r: seq<Op>)
    ensures |r| == |writes|
    ensures forall i: nat :: i < |writes| ==> r[i] == RequestedOp(writes[i], generated(i))
  {
    seq(|writes|, (i: nat) requires i < |writes| => RequestedOp(writes[i], generated(i)))
  }

  /** No two writes of the batch are for the same record. */
  predicate DistinctPaths(writes: seq<Write>, generated: nat -> string) {
    forall i: nat, j: nat :: i < j < |writes| ==> PathAt(writes[i], generated(i)) != PathAt(writes[j], generated(j))
  }

  /** Two lists of ops that differ in `prev` only. */
  predicate Alike(a: seq<Op>, b: seq<Op>) {
    |a| == |b| && forall i :: 0 <= i < |a| ==> a[i].action == b[i].action && a[i].path == b[i].path && a[i].cid == b[i].cid
  }

  lemma MirroredIsRequested(ops: seq<Op>, writes: seq<Write>, generated: nat -> string)
    requires Mirrors(ops, writes, |writes|, generated)
    ensures Alike(ops, Requested(writes, generated))
  {
    var asked := Requested(writes, generated);
    forall i: nat | i < |ops|
      ensures ops[i].action == asked[i].action && ops[i].path == asked[i].path && ops[i].cid == asked[i].cid
    {
      assert RecordKey(writes[i], generated(i)).Some?;
    }
  }

  lemma {:induction false} AlikeLast(a: seq<Op>, b: seq<Op>, p: Path)
    requires Alike(a, b)
    ensures LastOp(a, p).Some? <==> LastOp(b, p).Some?
    ensures LastOp(a, p).Some? ==>
              LastOp(a, p).value.action == LastOp(b, p).value.action && LastOp(a, p).value.cid == LastOp(b, p).value.cid
    decreases |a|
  {
    if a != [] {
      AlikeLast(a[..|a| - 1], b[..|b| - 1], p);
    }
  }

  lemma {:induction false} AlikeEffects(t: Tree, a: seq<Op>, b: seq<Op>)
    requires Alike(a, b)
    ensures Effects(t, a) == Effects(t, b)
    decreases |a|
  {
    if a != [] {
      AlikeEffects(t, a[..|a| - 1], b[..|b| - 1]);
    }
  }

  lemma AlikeFinal(a: seq<Op>, b: seq<Op>)
    requires Alike(a, b) && DeletesAreFinal(a)
    ensures DeletesAreFinal(b)
  {
    forall p | p in DeletedPaths(b)
      ensures LastOp(b, p).Some? && LastOp(b, p).value.action.Delete?
    {
      var i :| 0 <= i < |b| && b[i].action.Delete? && b[i].path == p;
      assert a[i].action.Delete? && a[i].path == p;
      assert p in DeletedPaths(a);
      AlikeLast(a, b, p);
    }
  }

  lemma AlikeCovered(a: seq<Op>, b: seq<Op>)
    requires Alike(a, b) && SupersededCovered(a)
    ensures SupersededCovered(b)
  {
    forall i, c | 0 <= i < |b| && c in OpRefs(b[i])
      ensures LastOp(b, b[i].path).Some? && c in OpRefs(LastOp(b, b[i].path).value)
    {
      assert c in OpRefs(a[i]);
      AlikeLast(a, b, b[i].path);
    }
  }

  lemma AlikeRefs(a: seq<Op>, b: seq<Op>)
    requires Alike(a, b)
    ensures BatchRefs(a) == BatchRefs(b)
  {
    hide BatchRefs, RecordRefs;
    assert forall i :: 0 <= i < |a| ==> OpRefs(a[i]) == OpRefs(b[i]);
    assert forall c :: c in BatchRefs(a) <==> c in BatchRefs(b);
  }

  /** Every condition on a batch's ops is a condition on its request. */
  lemma ConditionsAreOfTheRequest(mst: Mst, start: Option<Tree>, writes: seq<Write>, generated: nat -> string, t: Tree)
    requires mst.Lawful() && ApplyAll(mst, start, writes, generated).Ok?
    ensures var ops, asked := ApplyAll(mst, start, writes, generated).value.ops, Requested(writes, generated);
            && (DeletesAreFinal(ops) <==> DeletesAreFinal(asked))
            && (SupersededCovered(ops) <==> SupersededCovered(asked))
            && Effects(t, ops) == Effects(t, asked)
            && BatchRefs(ops) == BatchRefs(asked)
  {
    hide ApplyAll, DeletesAreFinal, SupersededCovered, Effects, BatchRefs, Requested;
    var ops, asked := ApplyAll(mst, start, writes, generated).value.ops, Requested(writes, generated);
    OperationInversion(mst, start, writes, generated);
    MirroredIsRequested(ops, writes, generated);
    AlikeEffects(t, ops, asked);
    AlikeRefs(ops, asked);
    if DeletesAreFinal(ops) {
      AlikeFinal(ops, asked);
    } else if DeletesAreFinal(asked) {
      AlikeFinal(asked, ops);
    }
    if SupersededCovered(ops) {
      AlikeCovered(ops, asked);
    } else if SupersededCovered(asked) {
      AlikeCovered(asked, ops);
    }
  }

  /** A request with one write per record meets the conditions for the index and for the links. */
  lemma DistinctRequestsQualify(writes: seq<Write>, generated: nat -> string)
    requires DistinctPaths(writes, generated)
    ensures DeletesAreFinal(Requested(writes, generated)) && SupersededCovered(Requested(writes, generated))
  {
    var asked := Requested(writes, generated);
    forall i, j | 0 <= i < j < |asked|
      ensures asked[i].path != asked[j].path
    {
      assert asked[i] == RequestedOp(writes[i], generated(i)) && asked[j] == RequestedOp(writes[j], generated(j));
    }
    DistinctPathsAreFinal(asked);
    DistinctPathsAreCovered(asked);
  }

  // ---------------------------------------------------------------------------------
  // When a batch of writes is accepted, from the request and the tree alone

  /** The tree as it stands when write `i` has its turn. */
  function TreeBefore(t: Tree, writes: seq<Write>, generated: nat -> string, i: nat): (r: Tree)
    requires i <= |writes|
  {
    Effects(t, Requested(writes, generated)[..i])
  }

  /** A key is given, or generated for a create, and it is not empty. */
  predicate HasKey(w: Write, generated: string) {
    if w.rkey.Some? then w.rkey.value != "" else w.action.Create? && generated != ""
  }

  function TargetOf(w: Write, generated: string): (r: Path) {
    w.collection + "/" + if w.rkey.Some? then w.rkey.value else generated
  }

  /** A given swapRecord names what is at the path, null for nothing. */
  predicate SwapMatches(t: Tree, w: Write, p: Path) {
    match w.swap
    case None => true
    case Some(None) => p !in t
    case Some(Some(c)) => p in t && t[p] == c
  }

  /** A create needs a free path; an update or delete needs a record there. */
  predicate Passes(t: Tree, w: Write, generated: string) {
    && HasKey(w, generated)
    && SwapMatches(t, w, TargetOf(w, generated))
    && (w.action.Create? <==> TargetOf(w, generated) !in t)
  }

  /** The first test, in order, that the write does not pass. */
  predicate FailsWith(t: Tree, w: Write, generated: string, e: Error) {
    var p := TargetOf(w, generated);
    if !HasKey(w, generated) then e == MissingRecordKey
    else if !SwapMatches(t, w, p) then e == InvalidSwap
    else if w.action.Create? then p in t && e == RecordAlreadyExists
    else p !in t && e == RecordNotFound
  }

  lemma WriteIsJudged(t: Tree, w: Write, generated: string)
    ensures WriteOp(t, w, generated).Ok? <==> Passes(t, w, generated)
    ensures WriteOp(t, w, generated).Err? ==> FailsWith(t, w, generated, WriteOp(t, w, generated).error)
    ensures WriteOp(t, w, generated).Ok? ==>
              Effect(t, WriteOp(t, w, generated).value) == Effect(t, RequestedOp(w, generated))
  {
  }

  lemma TreeAdvances(t: Tree, writes: seq<Write>, generated: nat -> string, i: nat)
    requires i < |writes|
    ensures TreeBefore(t, writes, generated, i + 1) ==
            Effect(TreeBefore(t, writes, generated, i), RequestedOp(writes[i], generated(i)))
  {
    var asked := Requested(writes, generated);
    assert asked[..i + 1][..i] == asked[..i] && asked[..i + 1][i] == RequestedOp(writes[i], generated(i));
  }

  /** The writes from `i` up to `n` pass, each on the tree the ones before it lead to. */
  predicate AllPass(t: Tree, writes: seq<Write>, generated: nat -> string, i: nat, n: nat)
    requires n <= |writes|
  {
    forall k: nat :: i <= k < n ==> Passes(TreeBefore(t, writes, generated, k), writes[k], generated(k))
  }

  /** `e` is what the first write from `i` on that does not pass fails with. */
  ghost predicate FailsFirst(t: Tree, writes: seq<Write>, generated: nat -> string, i: nat, e: Error) {
    exists k: nat {:trigger TreeBefore(t, writes, generated, k)} | i <= k < |writes| ::
      AllPass(t, writes, generated, i, k) && FailsWith(TreeBefore(t, writes, generated, k), writes[k], generated(k), e)
  }

  /** The loop from write `i` on. */
  lemma {:induction false} LoopIsJudged(
    mst: Mst, t: Tree, p: Progress, writes: seq<Write>, i: nat, generated: nat -> string)
    requires i <= |writes| && Entries(p.root) == TreeBefore(t, writes, generated, i)
    ensures ApplyFrom(mst, p, writes, i, generated).Ok? <==> AllPass(t, writes, generated, i, |writes|)
    ensures ApplyFrom(mst, p, writes, i, generated).Err? ==>
              FailsFirst(t, writes, generated, i, ApplyFrom(mst, p, writes, i, generated).error)
    decreases |writes| - i
  {
    hide WriteOp, Passes, FailsWith, TreeBefore, Effect, RequestedOp;
    if i < |writes| {
      var now := TreeBefore(t, writes, generated, i);
      WriteIsJudged(now, writes[i], generated(i));
      if WriteOp(now, writes[i], generated(i)).Ok? {
        var op := WriteOp(now, writes[i], generated(i)).value;
        TreeAdvances(t, writes, generated, i);
        LoopIsJudged(mst, t, Apply(mst, p, op), writes, i + 1, generated);
        if ApplyFrom(mst, Apply(mst, p, op), writes, i + 1, generated).Err? {
          var e := ApplyFrom(mst, Apply(mst, p, op), writes, i + 1, generated).error;
          var k: nat :| i + 1 <= k < |writes| && AllPass(t, writes, generated, i + 1, k)
                        && FailsWith(TreeBefore(t, writes, generated, k), writes[k], generated(k), e);
          assert AllPass(t, writes, generated, i, k);
        }
      } else {
        assert AllPass(t, writes, generated, i, i);
      }
    }
  }

  /**
   * A batch of writes is accepted if and only if every write passes its tests on the tree the writes
   * before it lead to; otherwise the error is that of the first failing test of the first failing write.
   */
  lemma WritesAreJudged(mst: Mst, start: Option<Tree>, writes: seq<Write>, generated: nat -> string)
    ensures ApplyAll(mst, start, writes, generated).Ok? <==> AllPass(Entries(start), writes, generated, 0, |writes|)
    ensures ApplyAll(mst, start, writes, generated).Err? ==>
              FailsFirst(Entries(start), writes, generated, 0, ApplyAll(mst, start, writes, generated).error)
  {
    hide Passes, FailsWith, ApplyFrom;
    assert Requested(writes, generated)[..0] == [];
    LoopIsJudged(mst, Entries(start), Progress(start, [], {}), writes, 0, generated);
  }

  /** Some record the request writes mentions the blob. */
  ghost predicate RequestMentions(writes: seq<Write>, c: Cid) {
    exists i :: 0 <= i < |writes| && !writes[i].action.Delete? && BlobRefs.Mentions(writes[i].record, c, BlobRefs.MAX_LAYER)
  }

  lemma RefsAreMentions(writes: seq<Write>, generated: nat -> string, c: Cid)
    ensures c in BatchRefs(Requested(writes, generated)) <==> RequestMentions(writes, c)
  {
    hide BlobRefs.Mentions, BatchRefs;
    var asked := Requested(writes, generated);
    forall i: nat | i < |writes|
      ensures c in OpRefs(asked[i]) <==>
              !writes[i].action.Delete? && BlobRefs.Mentions(writes[i].record, c, BlobRefs.MAX_LAYER)
    {
      assert asked[i] == RequestedOp(writes[i], generated(i));
      BlobRefs.WalkIsMention(writes[i].record, c, 0);
    }
  }
}
