/**
 * The record index and the block table after a batch: both are updated in bulk, and both are
 * compared with the tree the writes lead to one at a time.
 */
module RepoIndex {
  import opened Common
  import opened RepoTypes
  import opened RepoBatch

  /** A row of the record table. */
  datatype Entry = Entry(cid: Cid, rev: nat, takedown: Option<string>)

  type Index = map<Path, Entry>

  /** An upsert sets every column but the takedown reference. */
  function Upsert(index: Index, path: Path, cid: Cid, rev: nat): (r: Index) {
    index[path := Entry(cid, rev, if path in index then index[path].takedown else None)]
  }

  /** The upserts of a batch, in order. */
  function UpsertAll(index: Index, ops: seq<Op>, rev: nat): (r: Index) {
    if ops == [] then index
    else
      var front, last := UpsertAll(index, ops[..|ops| - 1], rev), ops[|ops| - 1];
      if last.cid.Some? then Upsert(front, last.path, last.cid.value, rev) else front
  }

  function DeletedPaths(ops: seq<Op>): (r: set<Path>) {
    set i | 0 <= i < |ops| && ops[i].action.Delete? :: ops[i].path
  }

  /** All upserts, then all deletes. */
  function BulkIndex(index: Index, ops: seq<Op>, rev: nat): (r: Index) {
    UpsertAll(index, ops, rev) - DeletedPaths(ops)
  }

  /** The path→CID map an index stands for. */
  function Cids(index: Index): (r: Tree) {
    map p | p in index :: index[p].cid
  }

  // ---------------------------------------------------------------------------------
  // Both sides, path by path

  /** The last op on a path. */
  function LastOp(ops: seq<Op>, p: Path): (r: Option<Op>)
    ensures r.Some? ==> r.value in ops && r.value.path == p
    ensures r.None? ==> forall i :: 0 <= i < |ops| ==> ops[i].path != p
  {
    if ops == [] then None
    else if ops[|ops| - 1].path == p then Some(ops[|ops| - 1])
    else LastOp(ops[..|ops| - 1], p)
  }

  /** A delete is an op without a CID. */
  predicate Shaped(ops: seq<Op>) {
    forall i :: 0 <= i < |ops| ==> (ops[i].action.Delete? <==> ops[i].cid.None?)
  }

  lemma {:induction false} FittingIsShaped(t: Tree, ops: seq<Op>)
    requires AllFit(t, ops)
    ensures Shaped(ops)
    decreases |ops|
  {
    if ops != [] {
      FittingIsShaped(t, ops[..|ops| - 1]);
    }
  }

  /** The new tree holds at each path what the last op on it left. */
  lemma {:induction false} TreeAt(t: Tree, ops: seq<Op>, p: Path)
    ensures Lookup(Effects(t, ops), p) == match LastOp(ops, p)
                                          case None => Lookup(t, p)
                                          case Some(op) => op.cid
    decreases |ops|
  {
    if ops != [] {
      TreeAt(t, ops[..|ops| - 1], p);
    }
  }

  /** An upsert pass leaves at a path that is never deleted what the last op on it left. */
  lemma {:induction false} UpsertedAt(index: Index, ops: seq<Op>, rev: nat, p: Path)
    requires Shaped(ops) && p !in DeletedPaths(ops)
    ensures Lookup(Cids(UpsertAll(index, ops, rev)), p) == match LastOp(ops, p)
                                                           case None => Lookup(Cids(index), p)
                                                           case Some(op) => op.cid
    decreases |ops|
  {
    if ops != [] {
      var front := ops[..|ops| - 1];
      assert forall i :: 0 <= i < |front| ==> front[i] == ops[i];
      UpsertedAt(index, front, rev, p);
    }
  }

  // ---------------------------------------------------------------------------------
  // When the index follows the tree

  /** Every path the batch deletes is last touched by a delete. */
  predicate DeletesAreFinal(ops: seq<Op>) {
    forall p :: p in DeletedPaths(ops) ==> LastOp(ops, p).Some? && LastOp(ops, p).value.action.Delete?
  }

  lemma BulkAt(index: Index, t: Tree, ops: seq<Op>, rev: nat, p: Path)
    requires Cids(index) == t && AllFit(t, ops)
    ensures p !in DeletedPaths(ops) ==>
              Lookup(Cids(BulkIndex(index, ops, rev)), p) == Lookup(Effects(t, ops), p)
    ensures p in DeletedPaths(ops) ==>
              && Lookup(Cids(BulkIndex(index, ops, rev)), p) == None
              && LastOp(ops, p).Some?
              && (Lookup(Effects(t, ops), p) == None <==> LastOp(ops, p).value.action.Delete?)
  {
    FittingIsShaped(t, ops);
    TreeAt(t, ops, p);
    if p !in DeletedPaths(ops) {
      UpsertedAt(index, ops, rev, p);
    }
  }

  lemma SameLookups(a: Tree, b: Tree)
    requires forall p :: Lookup(a, p) == Lookup(b, p)
    ensures a == b
  {
    assert forall p :: (p in a <==> p in b) && (p in a ==> a[p] == b[p]) by {
      forall p
        ensures (p in a <==> p in b) && (p in a ==> a[p] == b[p])
      {
        assert Lookup(a, p) == Lookup(b, p);
      }
    }
  }

  /**
   * The bulk update leaves the index equal to the new tree if and only if every path the batch
   * deletes is last touched by a delete.
   */
  lemma BulkIndexRefinesWrites(index: Index, t: Tree, ops: seq<Op>, rev: nat)
    requires Cids(index) == t && AllFit(t, ops)
    ensures Cids(BulkIndex(index, ops, rev)) == Effects(t, ops) <==> DeletesAreFinal(ops)
  {
    var bulk, next := Cids(BulkIndex(index, ops, rev)), Effects(t, ops);
    forall p
      ensures Lookup(bulk, p) == Lookup(next, p) <==>
              (p in DeletedPaths(ops) ==> LastOp(ops, p).Some? && LastOp(ops, p).value.action.Delete?)
    {
      BulkAt(index, t, ops, rev, p);
    }
    if DeletesAreFinal(ops) {
      SameLookups(bulk, next);
    }
  }

  /** A batch whose paths are all different always qualifies. */
  lemma DistinctPathsAreFinal(ops: seq<Op>)
    requires forall i, j :: 0 <= i < j < |ops| ==> ops[i].path != ops[j].path
    ensures DeletesAreFinal(ops)
  {
    forall p | p in DeletedPaths(ops)
      ensures LastOp(ops, p).Some? && LastOp(ops, p).value.action.Delete?
    {
      var i :| 0 <= i < |ops| && ops[i].action.Delete? && ops[i].path == p;
      var op := LastOp(ops, p).value;
      var j :| 0 <= j < |ops| && ops[j] == op;
      assert i == j;
    }
  }

  /** An entry that is kept or updated keeps its takedown; a created one has none. */
  lemma {:induction false} TakedownSurvivesUpdates(index: Index, ops: seq<Op>, rev: nat, p: Path)
    ensures p in UpsertAll(index, ops, rev) ==>
              UpsertAll(index, ops, rev)[p].takedown == if p in index then index[p].takedown else None
    ensures p in index ==> p in UpsertAll(index, ops, rev)
    decreases |ops|
  {
    if ops != [] {
      TakedownSurvivesUpdates(index, ops[..|ops| - 1], rev, p);
    }
  }

  /** What the upserts leave at a path that some op writes: this batch's rev. */
  lemma {:induction false} UpsertedRev(index: Index, ops: seq<Op>, rev: nat, p: Path)
    ensures (exists i :: 0 <= i < |ops| && ops[i].path == p && ops[i].cid.Some?) ==>
              p in UpsertAll(index, ops, rev) && UpsertAll(index, ops, rev)[p].rev == rev
    ensures !(exists i :: 0 <= i < |ops| && ops[i].path == p && ops[i].cid.Some?) ==>
              && (p in UpsertAll(index, ops, rev) <==> p in index)
              && (p in index ==> UpsertAll(index, ops, rev)[p] == index[p])
    decreases |ops|
  {
    if ops != [] {
      var front := ops[..|ops| - 1];
      UpsertedRev(index, front, rev, p);
      assert forall i :: 0 <= i < |front| ==> front[i] == ops[i];
    }
  }

  /**
   * The index entry by entry: a deleted path has none, a path only written carries this batch's rev and
   * its last CID, and a path the batch does not touch keeps its entry as it was.
   */
  lemma EntriesAfterBatch(index: Index, ops: seq<Op>, rev: nat, p: Path)
    requires Shaped(ops)
    ensures var r := BulkIndex(index, ops, rev);
            && ((exists i :: 0 <= i < |ops| && ops[i].path == p && ops[i].action.Delete?) ==> p !in r)
            && ((forall i :: 0 <= i < |ops| && ops[i].path == p ==> !ops[i].action.Delete?) &&
                (exists i :: 0 <= i < |ops| && ops[i].path == p) ==>
                  p in r && r[p].rev == rev && Some(r[p].cid) == LastOp(ops, p).value.cid)
            && ((forall i :: 0 <= i < |ops| ==> ops[i].path != p) ==>
                  (p in r <==> p in index) && (p in index ==> r[p] == index[p]))
  {
    UpsertedRev(index, ops, rev, p);
    if forall i :: 0 <= i < |ops| && ops[i].path == p ==> !ops[i].action.Delete? {
      assert p !in DeletedPaths(ops);
      if i :| 0 <= i < |ops| && ops[i].path == p {
        UpsertedAt(index, ops, rev, p);
        assert LastOp(ops, p).Some?;
        assert ops[i].cid.Some?;
        assert LastOp(ops, p).value in ops;
      }
    }
  }

  /** Deleting a record and creating it again in one batch: the tree has it, the index has not. */
  lemma RecreatedRecordIsLost(p: Path, a: Cid, b: Cid, rev: nat)
    ensures var t: Tree := map[p := a];
            var index: Index := map[p := Entry(a, 0, None)];
            var ops := [Op(Delete, p, None, Some(a)), Op(Create, p, Some(b), None)];
            && Cids(index) == t && AllFit(t, ops)
            && Effects(t, ops) == map[p := b]
            && p !in BulkIndex(index, ops, rev)
  {
    var t: Tree := map[p := a];
    var first, second := Op(Delete, p, None, Some(a)), Op(Create, p, Some(b), None);
    var ops := [first, second];
    assert ops[..1] == [first] && [first][..0] == [];
    assert Effects(t, [first]) == map[];
    assert ops[0].action.Delete? && ops[0].path == p;
  }

  // ---------------------------------------------------------------------------------
  // putRecord chooses its action by the index

  function PutWrite(index: Index, collection: string, rkey: string, swap: Option<Option<Cid>>, record: Json)
    : (r: Write)
  {
    Write(if PathOf(Write(Create, collection, Some(rkey), swap, record), rkey) in index then Update else Create,
          collection, Some(rkey), swap, record)
  }

  /** The chosen action is accepted by the tree if and only if index and tree agree about the path. */
  lemma PutRecordChoosesRight(
    index: Index, t: Tree, collection: string, rkey: string, swap: Option<Option<Cid>>, record: Json, key: string)
    requires rkey != ""
    ensures var w := PutWrite(index, collection, rkey, swap, record);
            var path := PathOf(w, rkey);
            var r := WriteOp(t, w, key);
            && ((path in index <==> path in t) ==>
                  if swap.Some? && swap.value != (if path in t then Some(t[path]) else None) then r == Err(InvalidSwap)
                  else r.Ok? && Effect(t, r.value) == t[collection + "/" + rkey := RecordCid(record)])
            && ((path in index) != (path in t) ==> r.Err?)
            && ((path in index) != (path in t) && swap.None? ==>
                  r.error == if path in t then RecordAlreadyExists else RecordNotFound)
  {
  }

  // ---------------------------------------------------------------------------------
  // Blocks

  /** The record blocks a batch inserts. */
  function RecordBlocks(ops: seq<Op>): (r: set<Cid>) {
    set i | 0 <= i < |ops| && ops[i].cid.Some? :: ops[i].cid.value
  }

  /** The prior values of the records that changed or went. */
  function Dropped(prev: Tree, next: Tree): (r: set<Cid>) {
    set p | p in prev && Lookup(next, p) != Some(prev[p]) :: prev[p]
  }

  function Pruned(mst: Mst, prev: Option<Tree>, next: Tree): (r: set<Cid>) {
    if prev.None? then {} else (mst.nodes(prev.value) - mst.nodes(next)) + Dropped(prev.value, next)
  }

  /** Insert the new nodes and records, then prune. */
  function BulkBlocks(mst: Mst, blocks: set<Cid>, prev: Option<Tree>, p: Progress): (r: set<Cid>)
    requires p.root.Some?
  {
    blocks + p.stored + RecordBlocks(p.ops) - Pruned(mst, prev, p.root.value)
  }

  /** Every node and record block a reader of the tree needs. */
  function Reachable(mst: Mst, t: Tree): (r: set<Cid>) {
    mst.nodes(t) + t.Values
  }

  lemma ValuesAreOldOrNew(t: Tree, ops: seq<Op>)
    ensures Effects(t, ops).Values <= t.Values + RecordBlocks(ops)
  {
    var next := Effects(t, ops);
    forall c | c in next.Values
      ensures c in t.Values + RecordBlocks(ops)
    {
      var p :| p in next && next[p] == c;
      TreeAt(t, ops, p);
      match LastOp(ops, p)
      case None => assert p in t && t[p] == c;
      case Some(op) =>
        var i :| 0 <= i < |ops| && ops[i] == op;
        assert ops[i].cid == Some(c);
    }
  }

  lemma {:induction false} EffectsHoldRecords(t: Tree, ops: seq<Op>)
    requires HoldsRecords(t) && OpsHoldRecords(ops)
    ensures HoldsRecords(Effects(t, ops))
    decreases |ops|
  {
    if ops != [] {
      EffectsHoldRecords(t, ops[..|ops| - 1]);
    }
  }

  /** Before pruning nothing the new tree needs is missing. */
  lemma PersistedCoversTree(mst: Mst, blocks: set<Cid>, prev: Option<Tree>, p: Progress)
    requires mst.Lawful() && Sound(mst, prev, p) && p.root.Some?
    requires prev.Some? ==> Reachable(mst, prev.value) <= blocks
    ensures Reachable(mst, p.root.value) <= blocks + p.stored + RecordBlocks(p.ops)
  {
    ValuesAreOldOrNew(Entries(prev), p.ops);
    assert mst.nodes(p.root.value) == mst.Nodes(p.root);
    assert mst.Nodes(prev) <= blocks;
    assert Entries(prev).Values <= blocks;
  }

  /**
   * After a batch every node and record of the new tree has its block if and only if no record CID
   * the batch drops is still held at some path of the new tree.
   */
  lemma NoDanglingBlocks(mst: Mst, blocks: set<Cid>, prev: Option<Tree>, p: Progress)
    requires mst.Lawful() && Sound(mst, prev, p) && p.root.Some? && HoldsRecords(Entries(prev))
    requires prev.Some? ==> Reachable(mst, prev.value) <= blocks
    ensures Reachable(mst, p.root.value) <= BulkBlocks(mst, blocks, prev, p) <==>
            (prev.Some? ==> Dropped(prev.value, p.root.value) !! p.root.value.Values)
  {
    var t := p.root.value;
    PersistedCoversTree(mst, blocks, prev, p);
    EffectsHoldRecords(Entries(prev), p.ops);
    if prev.Some? {
      var dropped := Dropped(prev.value, t);
      assert forall c :: c in t.Values ==> c.RecordCid?;
      assert forall c :: c in dropped ==> c.RecordCid?;
      assert forall c :: c in mst.nodes(t) ==> c.NodeCid?;
      assert forall c :: c in mst.nodes(prev.value) ==> c.NodeCid?;
      if !(dropped !! t.Values) {
        var c :| c in dropped && c in t.Values;
        assert c in Reachable(mst, t) && c !in BulkBlocks(mst, blocks, prev, p);
      }
    }
  }

  /**
   * The block table block by block: what was there, put or written stays, except the nodes only the
   * old tree has and the records the old tree holds at a path the new one changes or lacks.
   */
  lemma BlocksAfterBatch(mst: Mst, blocks: set<Cid>, prev: Option<Tree>, p: Progress, c: Cid)
    requires p.root.Some?
    ensures c in BulkBlocks(mst, blocks, prev, p) <==>
            && (c in blocks || c in p.stored || exists i :: 0 <= i < |p.ops| && p.ops[i].cid == Some(c))
            && (prev.Some? ==>
                  && !(c in mst.nodes(prev.value) && c !in mst.nodes(p.root.value))
                  && forall q :: q in prev.value && prev.value[q] == c ==> q in p.root.value && p.root.value[q] == c)
  {
    if i :| 0 <= i < |p.ops| && p.ops[i].cid == Some(c) {
      assert c in RecordBlocks(p.ops);
    }
    if prev.Some? {
      if q :| q in prev.value && prev.value[q] == c && !(q in p.root.value && p.root.value[q] == c) {
        assert Lookup(p.root.value, q) != Some(prev.value[q]);
        assert c in Dropped(prev.value, p.root.value);
      }
    }
  }

  /** Two paths holding equal records: deleting one takes the block away from the other. */
  lemma EqualRecordsDangle(mst: Mst, p: Path, q: Path, record: Json)
    requires p != q
    ensures var c := RecordCid(record);
            var before: Tree := map[p := c, q := c];
            var ops := [Op(Delete, p, None, Some(c))];
            && AllFit(before, ops) && Effects(before, ops) == map[q := c]
            && c in Reachable(mst, map[q := c])
            && forall blocks, stored :: c !in BulkBlocks(mst, blocks, Some(before),
                                                         Progress(Some(map[q := c]), ops, stored))
  {
    var c := RecordCid(record);
    var before: Tree := map[p := c, q := c];
    var op := Op(Delete, p, None, Some(c));
    var ops := [op];
    assert ops[..|ops| - 1] == [];
    assert Effects(before, []) == before && Fits(before, op);
    assert before - {p} == map[q := c];
    assert p in before && Lookup(map[q := c], p) != Some(before[p]);
    assert c in Dropped(before, map[q := c]);
    var next: Tree := map[q := c];
    assert q in next && next[q] == c;
  }
}
