/**
 * The write path as the program runs it: one loop over the writes filling six lists, then bulk
 * statements over the tables. Each method is tied to its meaning in the Repo modules.
 */
module ActorStores {
  import opened Common
  import opened RepoTypes
  import opened RepoBatch
  import opened RepoIndex
  import opened RepoBlobs
  import opened RepoRuns
  import opened Chunks
  import BlobRefs

  datatype RecordIndexUpsert = RecordIndexUpsert(path: Path, cid: Cid, rev: nat)

  datatype RecordWrite = RecordWrite(action: RepoBatch.Action, path: Path, cid: Cid)

  // ---------------------------------------------------------------------------------
  // The lists the loop fills, as functions of the commit ops

  function Upserts(ops: seq<Op>, rev: nat): (r: seq<RecordIndexUpsert>) {
    if ops == [] then []
    else
      var last := ops[|ops| - 1];
      Upserts(ops[..|ops| - 1], rev) +
      if last.cid.Some? then [RecordIndexUpsert(last.path, last.cid.value, rev)] else []
  }

  function Puts(ops: seq<Op>): (r: seq<RecordWrite>) {
    if ops == [] then []
    else
      var last := ops[|ops| - 1];
      Puts(ops[..|ops| - 1]) + if last.cid.Some? then [RecordWrite(last.action, last.path, last.cid.value)] else []
  }

  function Deletes(ops: seq<Op>): (r: seq<Path>) {
    if ops == [] then []
    else Deletes(ops[..|ops| - 1]) + if ops[|ops| - 1].cid.None? then [ops[|ops| - 1].path] else []
  }

  function UpsertRows(index: Index, rows: seq<RecordIndexUpsert>): (r: Index) {
    if rows == [] then index
    else
      var last := rows[|rows| - 1];
      Upsert(UpsertRows(index, rows[..|rows| - 1]), last.path, last.cid, last.rev)
  }

  lemma UpsertRowsSnoc(index: Index, rows: seq<RecordIndexUpsert>, row: RecordIndexUpsert)
    ensures UpsertRows(index, rows + [row]) == Upsert(UpsertRows(index, rows), row.path, row.cid, row.rev)
  {
    assert (rows + [row])[..|rows|] == rows;
  }

  lemma {:induction false} UpsertsMatch(index: Index, ops: seq<Op>, rev: nat)
    ensures UpsertRows(index, Upserts(ops, rev)) == UpsertAll(index, ops, rev)
    decreases |ops|
  {
    if ops != [] {
      var front, last := ops[..|ops| - 1], ops[|ops| - 1];
      UpsertsMatch(index, front, rev);
      hide UpsertRows, Upsert;
      if last.cid.Some? {
        UpsertRowsSnoc(index, Upserts(front, rev), RecordIndexUpsert(last.path, last.cid.value, rev));
      } else {
        assert Upserts(ops, rev) == Upserts(front, rev);
      }
    }
  }

  lemma {:induction false} DeletesMatch(ops: seq<Op>)
    requires Shaped(ops)
    ensures Elements(Deletes(ops)) == DeletedPaths(ops)
    decreases |ops|
  {
    if ops != [] {
      var front, last := ops[..|ops| - 1], ops[|ops| - 1];
      DeletesMatch(front);
      assert forall i :: 0 <= i < |front| ==> front[i] == ops[i];
      assert DeletedPaths(ops) == DeletedPaths(front) + if last.cid.None? then {last.path} else {};
    }
  }

  function Updated(writes: seq<RecordWrite>): (r: set<Path>) {
    if writes == [] then {}
    else
      var last := writes[|writes| - 1];
      Updated(writes[..|writes| - 1]) + if last.action.Update? then {last.path} else {}
  }

  lemma AffectedSnoc(front: seq<Op>, last: Op)
    ensures Affected(front + [last]) == Affected(front) + if last.action.Create? then {} else {last.path}
  {
    var ops := front + [last];
    assert forall i :: 0 <= i < |front| ==> front[i] == ops[i];
    assert ops[|front|] == last;
  }

  lemma {:induction false} AffectedMatch(ops: seq<Op>)
    requires Shaped(ops)
    ensures Elements(Deletes(ops)) + Updated(Puts(ops)) == Affected(ops)
    decreases |ops|
  {
    if ops != [] {
      hide Affected, Updated, Elements;
      var front, last := ops[..|ops| - 1], ops[|ops| - 1];
      assert front + [last] == ops;
      AffectedMatch(front);
      AffectedSnoc(front, last);
      UpdatedSnoc(Puts(front), last);
      ElementsSnoc(Deletes(front), last.path);
      assert Puts(ops) == Puts(front) + LastPut(last);
      assert Deletes(ops) == Deletes(front) + if last.cid.None? then [last.path] else [];
    }
  }

  function LastPut(last: Op): (r: seq<RecordWrite>) {
    if last.cid.Some? then [RecordWrite(last.action, last.path, last.cid.value)] else []
  }

  lemma UpdatedSnoc(puts: seq<RecordWrite>, last: Op)
    ensures Updated(puts + LastPut(last)) ==
            Updated(puts) + if last.cid.Some? && last.action.Update? then {last.path} else {}
  {
    if last.cid.Some? {
      assert (puts + LastPut(last))[..|puts|] == puts;
    } else {
      assert puts + LastPut(last) == puts;
    }
  }

  lemma ElementsSnoc(paths: seq<Path>, p: Path)
    ensures Elements(paths + [p]) == Elements(paths) + {p}
    ensures Elements(paths + []) == Elements(paths)
  {
    assert paths + [] == paths;
  }

  /** The links and references of a list of writes. */
  function PutRefs(writes: seq<RecordWrite>): (r: set<Cid>) {
    if writes == [] then {}
    else PutRefs(writes[..|writes| - 1]) + RecordRefs(writes[|writes| - 1].cid)
  }

  function PutLinks(writes: seq<RecordWrite>): (r: set<(Path, Cid)>) {
    if writes == [] then {}
    else
      var last := writes[|writes| - 1];
      PutLinks(writes[..|writes| - 1]) + LinksOf(last.path, RecordRefs(last.cid))
  }

  lemma {:induction false} PutsMatch(ops: seq<Op>)
    ensures PutRefs(Puts(ops)) == BatchRefs(ops) && PutLinks(Puts(ops)) == BatchLinks(ops)
    decreases |ops|
  {
    if ops != [] {
      var front, last := ops[..|ops| - 1], ops[|ops| - 1];
      PutsMatch(front);
      var puts := Puts(ops);
      if last.cid.Some? {
        assert puts[..|puts| - 1] == Puts(front);
      } else {
        assert puts == Puts(front) && OpRefs(last) == {};
      }
    }
  }

  // ---------------------------------------------------------------------------------
  // The loop over the writes

  datatype Lists = Lists(
    progress: Progress,
    upserts: seq<RecordIndexUpsert>,
    writes: seq<RecordWrite>,
    deletes: seq<Path>,
    recordBlocks: set<Cid>)

  /** The lists are what the ops make them. */
  predicate Consistent(l: Lists, rev: nat) {
    && l.upserts == Upserts(l.progress.ops, rev)
    && l.writes == Puts(l.progress.ops)
    && l.deletes == Deletes(l.progress.ops)
    && l.recordBlocks == RecordBlocks(l.progress.ops)
  }

  lemma Extend(ops: seq<Op>, op: Op, rev: nat)
    ensures Upserts(ops + [op], rev) ==
            Upserts(ops, rev) + if op.cid.Some? then [RecordIndexUpsert(op.path, op.cid.value, rev)] else []
    ensures Puts(ops + [op]) ==
            Puts(ops) + if op.cid.Some? then [RecordWrite(op.action, op.path, op.cid.value)] else []
    ensures Deletes(ops + [op]) == Deletes(ops) + if op.cid.None? then [op.path] else []
    ensures RecordBlocks(ops + [op]) == RecordBlocks(ops) + if op.cid.Some? then {op.cid.value} else {}
  {
    var all := ops + [op];
    assert all[..|all| - 1] == ops;
    assert forall i :: 0 <= i < |ops| ==> all[i] == ops[i];
    assert op == all[|ops|];
  }

  method LoopOverWrites(mst: Mst, root: Option<Tree>, writes: seq<Write>, rev: nat, generated: nat -> string)
    returns (r: Result<Lists, Error>)
    ensures r.Ok? ==> Ok(r.value.progress) == ApplyFrom(mst, Progress(root, [], {}), writes, 0, generated)
    ensures r.Ok? ==> Consistent(r.value, rev)
    ensures r.Err? ==> ApplyFrom(mst, Progress(root, [], {}), writes, 0, generated) == Err(r.error)
  {
    var rootCid := root;
    var memoryStore: set<Cid>, recordBlocks: set<Cid> := {}, {};
    var upserts: seq<RecordIndexUpsert>, recordWrites: seq<RecordWrite> := [], [];
    var recordDeletes: seq<Path>, commitOps: seq<Op> := [], [];
    for i := 0 to |writes|
      invariant ApplyFrom(mst, Progress(root, [], {}), writes, 0, generated) ==
                ApplyFrom(mst, Progress(rootCid, commitOps, memoryStore), writes, i, generated)
      invariant Consistent(Lists(Progress(rootCid, commitOps, memoryStore), upserts, recordWrites,
                                 recordDeletes, recordBlocks), rev)
    {
      var write := writes[i];
      var rkey := if write.rkey.Some? then write.rkey else if write.action.Create? then Some(generated(i)) else None;
      if rkey.None? || rkey.value == "" {
        return Err(MissingRecordKey);
      }
      var path := PathOf(write, rkey.value);
      var prevCid := Lookup(Entries(rootCid), path);
      if write.swap.Some? && write.swap.value != prevCid {
        return Err(InvalidSwap);
      }
      match write.action {
        case Create =>
          if prevCid.Some? {
            return Err(RecordAlreadyExists);
          }
        case Update =>
          if prevCid.None? {
            return Err(RecordNotFound);
          }
        case Delete =>
          if prevCid.None? {
            return Err(RecordNotFound);
          }
      }
      ghost var was := Progress(rootCid, commitOps, memoryStore);
      var op := Op(write.action, path,
                   if write.action.Delete? then None else Some(RecordCid(write.record)),
                   if write.action.Create? then None else prevCid);
      assert WriteOp(Entries(rootCid), write, generated(i)) == Ok(op);
      Extend(commitOps, op, rev);
      var next := Rooted(Effect(Entries(rootCid), op), op);
      memoryStore := memoryStore + mst.stored(rootCid, next);
      rootCid := next;
      commitOps := commitOps + [op];
      assert Progress(rootCid, commitOps, memoryStore) == Apply(mst, was, op);
      if write.action.Delete? {
        recordDeletes := recordDeletes + [path];
        continue;
      }
      recordBlocks := recordBlocks + {op.cid.value};
      upserts := upserts + [RecordIndexUpsert(path, op.cid.value, rev)];
      recordWrites := recordWrites + [RecordWrite(write.action, path, op.cid.value)];
    }
    r := Ok(Lists(Progress(rootCid, commitOps, memoryStore), upserts, recordWrites, recordDeletes, recordBlocks));
  }

  /** The loop and the empty root node after it. */
  method RunWrites(mst: Mst, root: Option<Tree>, writes: seq<Write>, rev: nat, generated: nat -> string)
    returns (r: Result<Lists, Error>)
    requires mst.Lawful()
    ensures r.Ok? ==> ApplyAll(mst, root, writes, generated) == Ok(r.value.progress)
    ensures r.Ok? ==> r.value.progress.root.Some? && Shaped(r.value.progress.ops) && Consistent(r.value, rev)
    ensures r.Ok? ==> r.value.writes == Puts(r.value.progress.ops) && r.value.deletes == Deletes(r.value.progress.ops)
    ensures r.Err? ==> ApplyAll(mst, root, writes, generated) == Err(r.error)
  {
    r := LoopOverWrites(mst, root, writes, rev, generated);
    if r.Ok? {
      var progress := r.value.progress;
      if progress.root.None? {
        progress := progress.(root := Some(map[]), stored := progress.stored + mst.nodes(map[]));
      }
      r := Ok(r.value.(progress := progress));
      BatchIsSound(mst, root, writes, generated);
      FittingIsShaped(Entries(root), progress.ops);
    }
  }

  // ---------------------------------------------------------------------------------
  // The tables

  class ActorStore {
    var root: Option<Cid>
    var blocks: set<Cid>
    var index: Index
    var links: set<(Path, Cid)>
    var rows: map<Cid, BlobRow>
    var temp: map<string, string>
    var permanent: map<Cid, string>
    var events: seq<CommitEvent>

    function BlobState(): (r: Blobs)
      reads this`links, this`rows, this`temp, this`permanent
    {
      Blobs(links, rows, temp, permanent)
    }

    function State(): (r: RepoRuns.State)
      reads this
    {
      RepoRuns.State(root, blocks, index, BlobState(), events)
    }

    constructor ()
      ensures State() == RepoRuns.Fresh()
    {
      root, blocks, index := None, {}, map[];
      links, rows, temp, permanent := {}, map[], map[], map[];
      events := [];
    }

    /** Inserts blocks in batches of 50; a block that is there stays. */
    method PersistRepoBlocks(cids: set<Cid>)
      modifies this`blocks
      ensures blocks == old(blocks) + cids
    {
      var list := Listed(cids);
      var batches := Chunked(list, 50);
      FlattenCovers(batches);
      for i := 0 to |batches|
        invariant old(blocks) <= blocks <= old(blocks) + cids
        invariant forall k :: 0 <= k < i ==> Elements(batches[k]) <= blocks
      {
        forall c | c in batches[i]
          ensures c in cids
        {
          assert c in Flatten(batches);
        }
        blocks := blocks + Elements(batches[i]);
      }
      forall c | c in cids
        ensures c in blocks
      {
        assert c in list;
        var k :| 0 <= k < |batches| && c in batches[k];
        assert c in Elements(batches[k]);
      }
    }

    /** Deletes in batches of 200 the nodes and records only the old tree has. */
    method PruneRepoBlocks(mst: Mst, prevRoot: Option<Tree>, nextRoot: Tree)
      modifies this`blocks
      ensures blocks == old(blocks) - Pruned(mst, prevRoot, nextRoot)
    {
      if prevRoot.None? {
        return;
      }
      var deleteCids := (mst.nodes(prevRoot.value) - mst.nodes(nextRoot)) + Dropped(prevRoot.value, nextRoot);
      var list := Listed(deleteCids);
      var batches := Chunked(list, 200);
      FlattenCovers(batches);
      for i := 0 to |batches|
        invariant old(blocks) - deleteCids <= blocks <= old(blocks)
        invariant forall k, c :: 0 <= k < i && c in batches[k] ==> c !in blocks
      {
        forall c | c in batches[i]
          ensures c in deleteCids
        {
          assert c in Flatten(batches);
        }
        blocks := blocks - Elements(batches[i]);
      }
      forall c | c in deleteCids
        ensures c !in blocks
      {
        assert c in list;
      }
    }

    method UpsertRecords(records: seq<RecordIndexUpsert>)
      modifies this`index
      ensures index == UpsertRows(old(index), records)
    {
      for i := 0 to |records|
        invariant index == UpsertRows(old(index), records[..i])
      {
        UpsertRowsSnoc(old(index), records[..i], records[i]);
        assert records[..i] + [records[i]] == records[..i + 1];
        index := Upsert(index, records[i].path, records[i].cid, records[i].rev);
      }
      assert records[..|records|] == records;
    }

    /** Exactly the named entries go; every other entry stays as it was, takedown included. */
    method DeleteRecords(paths: seq<Path>)
      modifies this`index
      ensures forall p :: p in index <==> p in old(index) && p !in paths
      ensures forall p :: p in index ==> index[p] == old(index)[p]
    {
      if |paths| == 0 {
        return;
      }
      index := index - Elements(paths);
    }

    /** Collects what the writes mention, record by record. */
    method CollectWriteBlobRefs(writes: seq<RecordWrite>) returns (refs: set<Cid>, recordBlobs: seq<(Path, Cid)>)
      ensures refs == PutRefs(writes)
      ensures Elements(recordBlobs) == PutLinks(writes)
    {
      refs, recordBlobs := {}, [];
      for i := 0 to |writes|
        invariant refs == PutRefs(writes[..i])
        invariant Elements(recordBlobs) == PutLinks(writes[..i])
      {
        var found := new BlobRefs.RefMap();
        if writes[i].cid.RecordCid? {
          BlobRefs.FindBlobReferences(writes[i].cid.value, found, 0);
        }
        var list := Listed(LinksOf(writes[i].path, found.refs));
        refs := refs + found.refs;
        ElementsConcat(recordBlobs, list);
        recordBlobs := recordBlobs + list;
        assert writes[..i + 1][..i] == writes[..i];
      }
      assert writes[..|writes|] == writes;
    }

    /** Every mentioned blob must have a row. */
    method AssertValidBlobReferences(refs: set<Cid>) returns (ok: bool)
      ensures ok <==> forall c :: c in refs ==> c in rows
    {
      var rest := refs;
      while rest != {}
        invariant rest <= refs
        invariant forall c :: c in refs - rest ==> c in rows
        decreases rest
      {
        var cid :| cid in rest;
        if cid !in rows {
          return false;
        }
        rest := rest - {cid};
      }
      ok := true;
    }

    /** No named record keeps a link, no other record loses one, and every blob that lost a link is returned. */
    method RemoveRecordBlobLinks(paths: set<Path>) returns (cids: set<Cid>)
      modifies this`links
      ensures forall l :: l in links <==> l in old(links) && l.0 !in paths
      ensures forall c :: c in cids <==> exists l :: l in old(links) && l !in links && l.1 == c
    {
      if paths == {} {
        return {};
      }
      forall l | l in links
        ensures l in Unlink(links, paths) <==> l.0 !in paths
      {
      }
      cids := Unlinked(links, paths);
      links := Unlink(links, paths);
    }

    method InsertRecordBlobLinks(recordBlobs: seq<(Path, Cid)>)
      modifies this`links
      ensures links == old(links) + Elements(recordBlobs)
    {
      var batches := Chunked(recordBlobs, 200);
      FlattenCovers(batches);
      for i := 0 to |batches|
        invariant old(links) <= links <= old(links) + Elements(recordBlobs)
        invariant forall k :: 0 <= k < i ==> Elements(batches[k]) <= links
      {
        forall l | l in batches[i]
          ensures l in recordBlobs
        {
          assert l in Flatten(batches);
        }
        links := links + Elements(batches[i]);
      }
      forall l | l in recordBlobs
        ensures l in links
      {
        var k :| 0 <= k < |batches| && l in batches[k];
        assert l in Elements(batches[k]);
      }
    }

    /** The blob store's `makePermanent`: an existing file wins, else the temporary one is moved, if there is one. */
    method MakePermanent(key: string, cid: Cid) returns (ok: bool)
      modifies this`temp, this`permanent
      ensures ok <==> cid in old(permanent) || key in old(temp)
      ensures !ok ==> permanent == old(permanent) && temp == old(temp)
      ensures ok ==>
                permanent == if cid in old(permanent) then old(permanent) else old(permanent)[cid := old(temp)[key]]
      ensures ok ==> temp == old(temp) - {key}
    {
      if cid !in permanent {
        if key !in temp {
          return false;
        }
        permanent := permanent[cid := temp[key]];
      }
      temp := temp - {key};
      ok := true;
    }

    /** Promotes the waiting blobs one by one; fails exactly if some blob's file is in neither place. */
    method MakeBlobsPermanent(refs: set<Cid>) returns (ok: bool)
      requires KeysDiffer(rows)
      modifies this`rows, this`temp, this`permanent
      ensures ok <==> Movable(old(BlobState()), Waiting(old(BlobState()), refs))
      ensures ok ==> BlobState() == Promote(old(BlobState()), refs)
    {
      hide Promote, KeysDiffer, Movable, Waiting;
      ghost var start := BlobState();
      var rest := refs;
      ghost var done := {};
      PromoteNone(start);
      while rest != {}
        invariant refs == done + rest && done !! rest
        invariant Movable(start, Waiting(start, done))
        invariant BlobState() == Promote(start, done)
        decreases rest
      {
        var cid :| cid in rest;
        PromoteOneMore(start, done, cid);
        rest := rest - {cid};
        if cid in rows && rows[cid].tempKey.Some? {
          var moved := MakePermanent(rows[cid].tempKey.value, cid);
          if !moved {
            MovableShrinks(start, done + {cid}, refs);
            return false;
          }
          rows := rows[cid := rows[cid].(tempKey := None)];
        }
        done := done + {cid};
      }
      assert done == refs;
      ok := true;
    }

    /** Deletes the rows and files of those blobs that are linked by nothing any more. */
    method DeleteOrphanedBlobs(cids: set<Cid>)
      modifies this`rows, this`permanent
      ensures BlobState() == DropBlobs(old(BlobState()), Unreferenced(links, cids))
    {
      var referenced := set l | l in links && l.1 in cids :: l.1;
      var deleteCids := cids - referenced;
      assert deleteCids == Unreferenced(links, cids);
      var list := Listed(deleteCids);
      var batches := Chunked(list, 200);
      FlattenCovers(batches);
      for i := 0 to |batches|
        invariant permanent == old(permanent)
        invariant rows.Keys <= old(rows).Keys && old(rows).Keys - deleteCids <= rows.Keys
        invariant forall c :: c in rows ==> rows[c] == old(rows)[c]
        invariant forall k, c :: 0 <= k < i && c in batches[k] ==> c !in rows
      {
        forall c | c in batches[i]
          ensures c in deleteCids
        {
          assert c in Flatten(batches);
        }
        rows := rows - Elements(batches[i]);
      }
      forall c | c in deleteCids
        ensures c !in rows
      {
        assert c in list;
      }
      assert rows == old(rows) - deleteCids;
      permanent := permanent - deleteCids;
    }

    /** The blob side of a batch. */
    method ApplyBlobWrites(writes: seq<RecordWrite>, deletes: seq<Path>, validate: bool, ghost ops: seq<Op>)
      returns (r: Option<Error>)
      requires KeysDiffer(rows) && Shaped(ops) && writes == Puts(ops) && deletes == Deletes(ops)
      modifies this`links, this`rows, this`temp, this`permanent
      ensures r.None? ==> ApplyBlobs(old(BlobState()), ops, validate) == Ok(BlobState())
      ensures r.Some? ==> ApplyBlobs(old(BlobState()), ops, validate) == Err(r.value)
    {
      hide KeysDiffer, Puts, Deletes, Shaped, Promote, Movable;
      ghost var was := BlobState();
      PutsMatch(ops);
      AffectedMatch(ops);
      var refs, recordBlobs := CollectWriteBlobRefs(writes);
      if validate {
        var valid := AssertValidBlobReferences(refs);
        if !valid {
          return Some(BlobNotFound);
        }
      }
      var affectedUris := Elements(deletes) + Updated(writes);
      var deletedBlobCids := RemoveRecordBlobLinks(affectedUris);
      assert links == Unlink(was.links, affectedUris);
      assert deletedBlobCids == Unlinked(was.links, affectedUris);
      InsertRecordBlobLinks(recordBlobs);
      ghost var linked := was.(links := BulkLinks(was.links, ops));
      assert BlobState() == linked;
      MovableIgnoresLinks(was, linked, refs);
      var moved := MakeBlobsPermanent(refs);
      if !moved {
        return Some(MissingTempBlob);
      }
      assert links == BulkLinks(was.links, ops);
      DeleteOrphanedBlobs(deletedBlobCids);
      r := None;
    }

    // -------------------------------------------------------------------------------
    // The batch

    method PersistRepoRoot(cid: Cid)
      modifies this`root
      ensures root == Some(cid)
    {
      root := Some(cid);
    }

    /** The checks before the loop. */
    method CheckRequest(writes: seq<Write>, options: Options) returns (r: Option<Error>)
      ensures r == Refusal(State(), writes, options)
    {
      if |writes| == 0 && !options.create {
        return Some(NoWrites);
      }
      if |writes| > MAX_WRITES {
        return Some(TooManyWrites);
      }
      if root.None? && !options.create {
        return Some(RepoNotFound);
      }
      if root.Some? && options.create {
        return Some(RepoAlreadyExists);
      }
      if options.swapCommit.Some? && root.Some? && root != options.swapCommit {
        return Some(InvalidSwap);
      }
      r := None;
    }

    /** Root, blocks and index after the loop. */
    method Persist(mst: Mst, prevRoot: Option<Tree>, lists: Lists, cid: Cid, rev: nat)
      requires Consistent(lists, rev) && Shaped(lists.progress.ops) && lists.progress.root.Some?
      modifies this`root, this`blocks, this`index
      ensures root == Some(cid)
      ensures blocks == BulkBlocks(mst, old(blocks), prevRoot, lists.progress)
      ensures index == BulkIndex(old(index), lists.progress.ops, rev)
    {
      DeletesMatch(lists.progress.ops);
      UpsertsMatch(index, lists.progress.ops, rev);
      PersistRepoRoot(cid);
      PersistRepoBlocks(lists.progress.stored);
      PersistRepoBlocks(lists.recordBlocks);
      PruneRepoBlocks(mst, prevRoot, lists.progress.root.value);
      UpsertRecords(lists.upserts);
      ghost var upserted := index;
      DeleteRecords(lists.deletes);
      assert index == upserted - Elements(lists.deletes);
    }

    /**
     * `applyWritesInternal`. When it is refused the tables may be half changed; `Transact` puts
     * them back.
     */
    method ApplyWritesInternal(
      mst: Mst, writes: seq<Write>, options: Options, rev: nat, generated: nat -> string)
      returns (r: Result<CommitEvent, Error>)
      requires mst.Lawful() && WellRooted(State()) && KeysDiffer(rows)
      modifies this
      ensures r.Ok? ==> ApplyWrites(mst, old(State()), writes, options, rev, generated) == Ok(State())
      ensures r.Ok? ==> events == old(events) + [r.value]
      ensures r.Err? ==> ApplyWrites(mst, old(State()), writes, options, rev, generated) == Err(r.error)
    {
      hide ApplyAll, ApplyBlobs, BulkBlocks, BulkIndex, Shaped, KeysDiffer, Refusal, Consistent;
      ghost var was := State();
      var refusal := CheckRequest(writes, options);
      if refusal.Some? {
        return Err(refusal.value);
      }
      var prevRoot := if root.Some? then Some(root.value.data.entries) else None;
      var looped := RunWrites(mst, prevRoot, writes, rev, generated);
      if looped.Err? {
        return Err(looped.error);
      }
      var lists := looped.value;
      var data := mst.Root(lists.progress.root.value);
      var cid := CommitCid(data, rev);
      var event := CommitEvent(cid, rev, data,
                               if root.Some? then Some(root.value.rev) else None,
                               if root.Some? then Some(root.value.data) else None,
                               lists.progress.ops);
      Persist(mst, prevRoot, lists, cid, rev);
      assert BlobState() == was.blobs;
      var failed := ApplyBlobWrites(lists.writes, lists.deletes, options.validateBlobs, lists.progress.ops);
      if failed.Some? {
        return Err(failed.value);
      }
      events := events + [event];
      r := Ok(event);
      assert State() == Commit(mst, was, lists.progress, BlobState(), rev);
    }

    /** A batch in a transaction: a refusal leaves every table as it was. */
    method Transact(mst: Mst, writes: seq<Write>, options: Options, rev: nat, generated: nat -> string)
      returns (r: Result<CommitEvent, Error>)
      requires mst.Lawful() && WellRooted(State()) && KeysDiffer(rows)
      modifies this
      ensures State() == RepoRuns.Do(mst, old(State()), Batch(writes, options, rev, generated))
      ensures r.Ok? <==> ApplyWrites(mst, old(State()), writes, options, rev, generated).Ok?
      ensures r.Ok? ==> events == old(events) + [r.value]
      ensures r.Err? ==> State() == old(State())
      ensures RowsBacked(old(BlobState())) ==>
                && (r.Ok? <==> Admitted(old(State()), writes, options, generated))
                && (r.Err? ==> RefusedWith(old(State()), writes, options, generated, r.error))
    {
      hide Admitted, RefusedWith, KeysDiffer, RowsBacked, ApplyWrites;
      ghost var was := State();
      if RowsBacked(was.blobs) {
        BatchIsJudged(mst, was, writes, options, rev, generated);
      }
      var savedRoot, savedBlocks, savedIndex, savedEvents := root, blocks, index, events;
      var savedLinks, savedRows, savedTemp, savedPermanent := links, rows, temp, permanent;
      r := ApplyWritesInternal(mst, writes, options, rev, generated);
      if r.Err? {
        root, blocks, index, events := savedRoot, savedBlocks, savedIndex, savedEvents;
        links, rows, temp, permanent := savedLinks, savedRows, savedTemp, savedPermanent;
      }
    }

    /** `uploadBlob`: stores the content, then writes the blob's row unless it is taken down. */
    method UploadBlob(tempKey: string, content: string) returns (ok: bool)
      modifies this`temp, this`rows
      ensures BlobState() == Upload(old(BlobState()), tempKey, content)
      ensures ok <==> !(RawCid(content) in old(rows) && old(rows)[RawCid(content)].takedown.Some?)
      ensures ok ==> RawCid(content) in rows && rows[RawCid(content)] == BlobRow(Some(tempKey), None)
    {
      temp := temp[tempKey := content];
      var cid := RawCid(content);
      if cid in rows && rows[cid].takedown.Some? {
        return false;
      }
      rows := rows[cid := if cid in rows then rows[cid].(tempKey := Some(tempKey)) else BlobRow(Some(tempKey), None)];
      ok := true;
    }
  }

  lemma ElementsConcat<T>(a: seq<T>, b: seq<T>)
    ensures Elements(a + b) == Elements(a) + Elements(b)
  {
  }

  /** Temporary keys are random, so no two rows share one. */
  predicate KeysDiffer(rows: map<Cid, BlobRow>) {
    forall c, d :: c in rows && d in rows && c != d && rows[c].tempKey.Some? ==> rows[c].tempKey != rows[d].tempKey
  }

  /** In every run with fresh keys that is so, since a temporary file has one hash. */
  lemma BackedKeysDiffer(s: Blobs)
    requires RowsBacked(s)
    ensures KeysDiffer(s.rows)
  {
  }

  lemma MovableShrinks(s: Blobs, part: set<Cid>, all: set<Cid>)
    requires part <= all
    ensures Movable(s, Waiting(s, all)) ==> Movable(s, Waiting(s, part))
  {
  }

  lemma MovableIgnoresLinks(s: Blobs, t: Blobs, refs: set<Cid>)
    requires t == s.(links := t.links)
    ensures Waiting(s, refs) == Waiting(t, refs) && (Movable(s, Waiting(s, refs)) <==> Movable(t, Waiting(t, refs)))
  {
  }

  lemma PromoteNone(s: Blobs)
    ensures Movable(s, Waiting(s, {})) && Promote(s, {}) == s
  {
    assert Waiting(s, {}) == {};
    assert Moved(s, {}) == s.permanent && s.temp - Keys(s, {}) == s.temp && Cleared(s.rows, {}) == s.rows;
  }

  /** What one `makePermanent` and the row update after it do. */
  function PromoteAlone(s: Blobs, c: Cid): (r: Blobs)
    requires c in s.rows && s.rows[c].tempKey.Some? && (c in s.permanent || Key(s, c) in s.temp)
  {
    s.(permanent := if c in s.permanent then s.permanent else s.permanent[c := s.temp[Key(s, c)]],
       temp := s.temp - {Key(s, c)},
       rows := s.rows[c := s.rows[c].(tempKey := None)])
  }

  /** One more blob: it can be moved now if and only if it could be moved at the start. */
  lemma PromoteOneMore(s: Blobs, done: set<Cid>, c: Cid)
    requires KeysDiffer(s.rows) && Movable(s, Waiting(s, done)) && c !in done
    ensures var r := Promote(s, done);
            if c in r.rows && r.rows[c].tempKey.Some? then
              && ((c in r.permanent || Key(r, c) in r.temp) <==> Movable(s, Waiting(s, done + {c})))
              && (Movable(s, Waiting(s, done + {c})) ==> Promote(s, done + {c}) == PromoteAlone(r, c))
            else Movable(s, Waiting(s, done + {c})) && Promote(s, done + {c}) == r
  {
    var waiting := Waiting(s, done);
    if c in s.rows && s.rows[c].tempKey.Some? {
      assert Waiting(s, done + {c}) == waiting + {c};
      OthersKeys(s, waiting, c);
      MovableOneMore(s, waiting, c);
      if Movable(s, waiting + {c}) {
        AddOne(s, waiting, c);
      }
    } else {
      assert Waiting(s, done + {c}) == waiting;
    }
  }

  lemma OthersKeys(s: Blobs, waiting: set<Cid>, c: Cid)
    requires KeysDiffer(s.rows) && Movable(s, waiting) && c !in waiting && c in s.rows && s.rows[c].tempKey.Some?
    ensures Key(s, c) !in Keys(s, waiting) && (c in Moved(s, waiting) <==> c in s.permanent)
  {
  }

  lemma MovableOneMore(s: Blobs, waiting: set<Cid>, c: Cid)
    requires Movable(s, waiting) && c in s.rows && s.rows[c].tempKey.Some?
    ensures Movable(s, waiting + {c}) <==> c in s.permanent || Key(s, c) in s.temp
  {
  }

  lemma AddOne(s: Blobs, waiting: set<Cid>, c: Cid)
    requires Movable(s, waiting) && Movable(s, waiting + {c}) && c !in waiting && Key(s, c) !in Keys(s, waiting)
    ensures Cleared(s.rows, waiting + {c}) == Cleared(s.rows, waiting)[c := s.rows[c].(tempKey := None)]
    ensures Keys(s, waiting + {c}) == Keys(s, waiting) + {Key(s, c)}
    ensures s.temp - Keys(s, waiting + {c}) == (s.temp - Keys(s, waiting)) - {Key(s, c)}
    ensures Moved(s, waiting + {c}) ==
            if c in s.permanent then Moved(s, waiting) else Moved(s, waiting)[c := s.temp[Key(s, c)]]
  {
    AddKey(s, waiting, c);
    AddMoved(s, waiting, c);
  }

  lemma AddKey(s: Blobs, waiting: set<Cid>, c: Cid)
    requires Movable(s, waiting) && Movable(s, waiting + {c})
    ensures Keys(s, waiting + {c}) == Keys(s, waiting) + {Key(s, c)}
  {
  }

  lemma AddMoved(s: Blobs, waiting: set<Cid>, c: Cid)
    requires Movable(s, waiting) && Movable(s, waiting + {c}) && c !in waiting
    ensures Moved(s, waiting + {c}) ==
            if c in s.permanent then Moved(s, waiting) else Moved(s, waiting)[c := s.temp[Key(s, c)]]
  {
  }
}
