/**
 * What a batch does to blobs (actors/blobs/transactor.ts): record links, blob rows and the two
 * halves of the blob store, and when they stay exact.
 */
module RepoBlobs {
  import opened Common
  import opened RepoTypes
  import opened RepoBatch
  import opened RepoIndex
  import BlobRefs

  datatype BlobRow = BlobRow(tempKey: Option<string>, takedown: Option<string>)

  /** Links (record, blob), blob rows by CID, and the blob store's temporary and permanent files. */
  datatype Blobs = Blobs(
    links: set<(Path, Cid)>,
    rows: map<Cid, BlobRow>,
    temp: map<string, string>,
    permanent: map<Cid, string>)

  /** The blobs a record mentions. */
  function RecordRefs(c: Cid): (r: set<Cid>) {
    if c.RecordCid? then BlobRefs.Refs(c.value, 0) else {}
  }

  function OpRefs(op: Op): (r: set<Cid>) {
    if op.cid.Some? then RecordRefs(op.cid.value) else {}
  }

  /** Every blob the writes of a batch mention. */
  function BatchRefs(ops: seq<Op>): (r: set<Cid>)
    ensures forall c :: c in r <==> exists i :: 0 <= i < |ops| && c in OpRefs(ops[i])
  {
    if ops == [] then {}
    else
      var front, last := ops[..|ops| - 1], ops[|ops| - 1];
      assert forall i :: 0 <= i < |front| ==> front[i] == ops[i];
      BatchRefs(front) + OpRefs(last)
  }

  function LinksOf(p: Path, refs: set<Cid>): (r: set<(Path, Cid)>) {
    set c | c in refs :: (p, c)
  }

  /** The links the writes of a batch add. */
  function BatchLinks(ops: seq<Op>): (r: set<(Path, Cid)>)
    ensures forall p, c :: (p, c) in r <==> exists i :: 0 <= i < |ops| && ops[i].path == p && c in OpRefs(ops[i])
  {
    if ops == [] then {}
    else
      var front, last := ops[..|ops| - 1], ops[|ops| - 1];
      assert forall i :: 0 <= i < |front| ==> front[i] == ops[i];
      BatchLinks(front) + LinksOf(last.path, OpRefs(last))
  }

  /** The records whose old links go: deleted or updated ones. */
  function Affected(ops: seq<Op>): (r: set<Path>) {
    set i | 0 <= i < |ops| && !ops[i].action.Create? :: ops[i].path
  }

  function Unlink(links: set<(Path, Cid)>, paths: set<Path>): (r: set<(Path, Cid)>) {
    set l | l in links && l.0 !in paths
  }

  function Unlinked(links: set<(Path, Cid)>, paths: set<Path>): (r: set<Cid>) {
    set l | l in links && l.0 in paths :: l.1
  }

  predicate Linked(links: set<(Path, Cid)>, c: Cid) {
    exists l :: l in links && l.1 == c
  }

  /** The rows among `refs` whose content still waits in temporary storage. */
  function Waiting(s: Blobs, refs: set<Cid>): (r: set<Cid>) {
    set c | c in refs && c in s.rows && s.rows[c].tempKey.Some?
  }

  function Key(s: Blobs, c: Cid): (r: string)
    requires c in s.rows && s.rows[c].tempKey.Some?
  {
    s.rows[c].tempKey.value
  }

  /** `waiting` are blobs whose content is in temporary storage, or also in permanent storage. */
  predicate Movable(s: Blobs, waiting: set<Cid>) {
    forall c :: c in waiting ==> c in s.rows && s.rows[c].tempKey.Some? && (c in s.permanent || Key(s, c) in s.temp)
  }

  function Moved(s: Blobs, waiting: set<Cid>): (r: map<Cid, string>)
    requires Movable(s, waiting)
  {
    s.permanent + map c | c in waiting && c !in s.permanent :: s.temp[Key(s, c)]
  }

  function Keys(s: Blobs, waiting: set<Cid>): (r: set<string>)
    requires Movable(s, waiting)
  {
    set c | c in waiting :: Key(s, c)
  }

  function Cleared(rows: map<Cid, BlobRow>, waiting: set<Cid>): (r: map<Cid, BlobRow>) {
    map c | c in rows :: if c in waiting then rows[c].(tempKey := None) else rows[c]
  }

  /** Moves every waiting blob of `refs` to permanent storage, unless its content is already there. */
  function Promote(s: Blobs, refs: set<Cid>): (r: Blobs)
    requires Movable(s, Waiting(s, refs))
  {
    var waiting := Waiting(s, refs);
    s.(permanent := Moved(s, waiting), temp := s.temp - Keys(s, waiting), rows := Cleared(s.rows, waiting))
  }

  function DropBlobs(s: Blobs, gone: set<Cid>): (r: Blobs) {
    s.(rows := s.rows - gone, permanent := s.permanent - gone)
  }

  /** The links after a batch. */
  function BulkLinks(links: set<(Path, Cid)>, ops: seq<Op>): (r: set<(Path, Cid)>) {
    Unlink(links, Affected(ops)) + BatchLinks(ops)
  }

  /** The blobs among `cids` that no record links. */
  function Unreferenced(links: set<(Path, Cid)>, cids: set<Cid>): (r: set<Cid>) {
    set c | c in cids && !Linked(links, c)
  }

  /** The blobs that lost a link and have none left. */
  function Orphans(links: set<(Path, Cid)>, ops: seq<Op>): (r: set<Cid>) {
    Unreferenced(BulkLinks(links, ops), Unlinked(links, Affected(ops)))
  }

  /** The blob side of a batch. */
  function ApplyBlobs(s: Blobs, ops: seq<Op>, validate: bool): (r: Result<Blobs, Error>) {
    var refs := BatchRefs(ops);
    if validate && exists c :: c in refs && c !in s.rows then Err(BlobNotFound)
    else if !Movable(s, Waiting(s, refs)) then Err(MissingTempBlob)
    else
      var linked := s.(links := BulkLinks(s.links, ops));
      assert Waiting(linked, refs) == Waiting(s, refs);
      Ok(DropBlobs(Promote(linked, refs), Orphans(s.links, ops)))
  }

  /** An upload: the content goes to temporary storage under a fresh key, then its row is written. */
  function Upload(s: Blobs, key: string, content: string): (r: Blobs) {
    var stored := s.(temp := s.temp[key := content]);
    var c := RawCid(content);
    if c in s.rows && s.rows[c].takedown.Some? then stored
    else if c in s.rows then stored.(rows := s.rows[c := s.rows[c].(tempKey := Some(key))])
    else stored.(rows := s.rows[c := BlobRow(Some(key), None)])
  }

  // ---------------------------------------------------------------------------------
  // Links are exact

  /** A link for each blob each live record mentions, and no other. */
  ghost predicate LinksExact(links: set<(Path, Cid)>, t: Tree) {
    forall p, c :: (p, c) in links <==> p in t && c in RecordRefs(t[p])
  }

  /** A write that is superseded in its batch mentions no blob that the last write of its path does not. */
  ghost predicate SupersededCovered(ops: seq<Op>) {
    forall i, c :: 0 <= i < |ops| && c in OpRefs(ops[i]) ==>
                     LastOp(ops, ops[i].path).Some? && c in OpRefs(LastOp(ops, ops[i].path).value)
  }

  /** A path the batch only creates was not in the tree. */
  lemma {:induction false} CreatedWasAbsent(t: Tree, ops: seq<Op>, p: Path)
    requires AllFit(t, ops) && p !in Affected(ops) && LastOp(ops, p).Some?
    ensures p !in t
    decreases |ops|
  {
    var front, last := ops[..|ops| - 1], ops[|ops| - 1];
    assert forall i :: 0 <= i < |front| ==> front[i] == ops[i];
    if LastOp(front, p).Some? {
      CreatedWasAbsent(t, front, p);
    } else {
      TreeAt(t, front, p);
      assert last.action.Create?;
      assert Lookup(Effects(t, front), p) == None;
    }
  }

  lemma AffectedIsTouched(ops: seq<Op>, p: Path)
    requires p in Affected(ops)
    ensures LastOp(ops, p).Some?
  {
  }

  /** The links of one record after a batch. */
  lemma LinkAt(links: set<(Path, Cid)>, t: Tree, ops: seq<Op>, p: Path, c: Cid)
    requires LinksExact(links, t) && AllFit(t, ops)
    ensures LastOp(ops, p).None? ==> ((p, c) in BulkLinks(links, ops) <==> p in t && c in RecordRefs(t[p]))
    ensures LastOp(ops, p).Some? ==>
              ((p, c) in BulkLinks(links, ops) <==>
               exists i :: 0 <= i < |ops| && ops[i].path == p && c in OpRefs(ops[i]))
  {
    if p in Affected(ops) {
      AffectedIsTouched(ops, p);
    } else if LastOp(ops, p).Some? {
      CreatedWasAbsent(t, ops, p);
    }
  }

  lemma TargetAt(t: Tree, ops: seq<Op>, p: Path, c: Cid)
    ensures var next := Effects(t, ops);
            (p in next && c in RecordRefs(next[p])) <==>
            (match LastOp(ops, p)
             case None => p in t && c in RecordRefs(t[p])
             case Some(op) => c in OpRefs(op))
  {
    TreeAt(t, ops, p);
  }

  /**
   * After a batch the links are again exactly the mentions of the live records, if and only if no
   * superseded write mentions a blob that the last write of its path does not.
   */
  lemma BlobLinksExact(links: set<(Path, Cid)>, t: Tree, ops: seq<Op>)
    requires LinksExact(links, t) && AllFit(t, ops)
    ensures LinksExact(BulkLinks(links, ops), Effects(t, ops)) <==> SupersededCovered(ops)
  {
    if SupersededCovered(ops) {
      CoveredIsExact(links, t, ops);
    }
    if LinksExact(BulkLinks(links, ops), Effects(t, ops)) {
      ExactIsCovered(links, t, ops);
    }
  }

  lemma CoveredIsExact(links: set<(Path, Cid)>, t: Tree, ops: seq<Op>)
    requires LinksExact(links, t) && AllFit(t, ops) && SupersededCovered(ops)
    ensures LinksExact(BulkLinks(links, ops), Effects(t, ops))
  {
    forall p, c
      ensures (p, c) in BulkLinks(links, ops) <==> p in Effects(t, ops) && c in RecordRefs(Effects(t, ops)[p])
    {
      LinkAt(links, t, ops, p, c);
      TargetAt(t, ops, p, c);
      if LastOp(ops, p).Some? && c in OpRefs(LastOp(ops, p).value) {
        var i :| 0 <= i < |ops| && ops[i] == LastOp(ops, p).value;
        assert ops[i].path == p && c in OpRefs(ops[i]);
      }
    }
  }

  lemma ExactIsCovered(links: set<(Path, Cid)>, t: Tree, ops: seq<Op>)
    requires LinksExact(links, t) && AllFit(t, ops) && LinksExact(BulkLinks(links, ops), Effects(t, ops))
    ensures SupersededCovered(ops)
  {
    forall i, c | 0 <= i < |ops| && c in OpRefs(ops[i])
      ensures LastOp(ops, ops[i].path).Some? && c in OpRefs(LastOp(ops, ops[i].path).value)
    {
      var p := ops[i].path;
      assert LastOp(ops, p).Some?;
      LinkAt(links, t, ops, p, c);
      TargetAt(t, ops, p, c);
      assert (p, c) in BulkLinks(links, ops);
    }
  }

  /** With at most one write per record the condition always holds. */
  lemma DistinctPathsAreCovered(ops: seq<Op>)
    requires forall i, j :: 0 <= i < j < |ops| ==> ops[i].path != ops[j].path
    ensures SupersededCovered(ops)
  {
    forall i, c | 0 <= i < |ops| && c in OpRefs(ops[i])
      ensures LastOp(ops, ops[i].path).Some? && c in OpRefs(LastOp(ops, ops[i].path).value)
    {
      var op := LastOp(ops, ops[i].path).value;
      var j :| 0 <= j < |ops| && ops[j] == op;
      assert i == j;
    }
  }

  /** Creating a record with a blob and deleting it in the same batch leaves a link to a record that is gone. */
  lemma CreateThenDeleteLeavesLink(p: Path, blob: Cid, links: set<(Path, Cid)>)
    ensures var c := RecordCid(Blob(blob));
            var ops := [Op(Create, p, Some(c), None), Op(Delete, p, None, Some(c))];
            && AllFit(map[], ops) && Effects(map[], ops) == map[]
            && (p, blob) in BulkLinks(links, ops)
  {
    var c := RecordCid(Blob(blob));
    var first, second := Op(Create, p, Some(c), None), Op(Delete, p, None, Some(c));
    var ops := [first, second];
    var empty: Tree, created: Tree := map[], map[p := c];
    assert [first][..0] == [] && AllFit(empty, []) && Effects(empty, []) == empty;
    assert AllFit(empty, [first]) && Effects(empty, [first]) == created;
    assert ops[..1] == [first] && Fits(created, second) && Effect(created, second) == empty;
    assert ops[0].path == p && blob in OpRefs(ops[0]);
  }

  // ---------------------------------------------------------------------------------
  // Collection is exact

  /**
   * A batch removes a blob's row and its permanent content if and only if the blob had a link and
   * has none left; whatever is shared, linked again or was never linked stays.
   */
  lemma CollectionIsExact(s: Blobs, ops: seq<Op>, validate: bool, c: Cid)
    requires ApplyBlobs(s, ops, validate).Ok?
    ensures var s' := ApplyBlobs(s, ops, validate).value;
            && s'.links == BulkLinks(s.links, ops)
            && (c in s.rows ==> (c !in s'.rows <==> Linked(s.links, c) && !Linked(s'.links, c)))
            && (c in s.permanent ==> (c !in s'.permanent <==> Linked(s.links, c) && !Linked(s'.links, c)))
            && (c !in s.rows ==> c !in s'.rows)
            && (c in s'.permanent && c !in s.permanent ==> c in BatchRefs(ops))
  {
    if Linked(s.links, c) && !Linked(BulkLinks(s.links, ops), c) {
      var l :| l in s.links && l.1 == c;
      assert l !in BulkLinks(s.links, ops);
      assert l.0 in Affected(ops);
      assert c in Unlinked(s.links, Affected(ops));
    }
  }

  // ---------------------------------------------------------------------------------
  // Every linked blob is there

  ghost predicate RowsBacked(s: Blobs) {
    && (forall c :: c in s.rows && s.rows[c].tempKey.None? ==> c in s.permanent)
    && (forall c :: c in s.rows && s.rows[c].tempKey.Some? ==>
                      Key(s, c) in s.temp && RawCid(s.temp[Key(s, c)]) == c)
    && (forall c :: c in s.permanent ==> RawCid(s.permanent[c]) == c)
  }

  /** Every linked blob has a row and permanent content with its hash. */
  ghost predicate LinksBacked(s: Blobs) {
    forall l :: l in s.links ==> l.1 in s.rows && l.1 in s.permanent
  }

  lemma PromoteKeepsBacked(s: Blobs, refs: set<Cid>)
    requires RowsBacked(s) && Movable(s, Waiting(s, refs))
    ensures RowsBacked(Promote(s, refs))
    ensures forall c :: c in refs && c in s.rows ==> c in Promote(s, refs).permanent
    ensures forall c :: c in s.permanent ==> c in Promote(s, refs).permanent
    ensures Promote(s, refs).rows.Keys == s.rows.Keys
  {
  }

  /** What `ApplyBlobs` comes to when rows are backed. */
  lemma BatchPromotes(s: Blobs, ops: seq<Op>, validate: bool)
    requires RowsBacked(s) && (validate ==> forall c :: c in BatchRefs(ops) ==> c in s.rows)
    ensures var linked := s.(links := BulkLinks(s.links, ops));
            && RowsBacked(linked)
            && Movable(linked, Waiting(linked, BatchRefs(ops)))
            && ApplyBlobs(s, ops, validate) == Ok(DropBlobs(Promote(linked, BatchRefs(ops)), Orphans(s.links, ops)))
  {
    hide BulkLinks, BatchRefs, Orphans, Promote, DropBlobs, Unlinked;
    var linked := s.(links := BulkLinks(s.links, ops));
    assert Waiting(linked, BatchRefs(ops)) == Waiting(s, BatchRefs(ops));
  }

  lemma DropKeepsBacked(s: Blobs, gone: set<Cid>)
    requires RowsBacked(s)
    ensures RowsBacked(DropBlobs(s, gone))
  {
  }

  /** A batch keeps every row backed; it fails only on a validated mention of a blob without a row. */
  lemma BatchKeepsRows(s: Blobs, ops: seq<Op>, validate: bool)
    requires RowsBacked(s)
    ensures ApplyBlobs(s, ops, validate).Err? <==> validate && exists c :: c in BatchRefs(ops) && c !in s.rows
    ensures ApplyBlobs(s, ops, validate).Err? ==> ApplyBlobs(s, ops, validate).error == BlobNotFound
    ensures ApplyBlobs(s, ops, validate).Ok? ==>
              && RowsBacked(ApplyBlobs(s, ops, validate).value)
              && ApplyBlobs(s, ops, validate).value.links == BulkLinks(s.links, ops)
  {
    hide RowsBacked, Movable, Waiting, BulkLinks, Orphans, BatchRefs, Cleared, Moved, Keys, Promote, DropBlobs;
    if !validate || forall c :: c in BatchRefs(ops) ==> c in s.rows {
      var linked := s.(links := BulkLinks(s.links, ops));
      BatchPromotes(s, ops, validate);
      hide ApplyBlobs;
      PromoteKeepsBacked(linked, BatchRefs(ops));
      DropKeepsBacked(Promote(linked, BatchRefs(ops)), Orphans(s.links, ops));
      DropKeepsLinks(Promote(linked, BatchRefs(ops)), Orphans(s.links, ops));
      PromoteKeepsLinks(linked, BatchRefs(ops));
    }
  }

  lemma DropKeepsLinks(s: Blobs, gone: set<Cid>)
    ensures DropBlobs(s, gone).links == s.links
  {
  }

  lemma PromoteKeepsLinks(s: Blobs, refs: set<Cid>)
    requires Movable(s, Waiting(s, refs))
    ensures Promote(s, refs).links == s.links
  {
  }

  /**
   * Every linked blob has its row and content after a batch if and only if every blob the batch
   * mentions had a row before it; validation refuses the batch otherwise.
   */
  lemma BatchKeepsBlobsBacked(s: Blobs, ops: seq<Op>, validate: bool)
    requires RowsBacked(s) && LinksBacked(s) && ApplyBlobs(s, ops, validate).Ok?
    ensures LinksBacked(ApplyBlobs(s, ops, validate).value) <==> forall c :: c in BatchRefs(ops) ==> c in s.rows
    ensures validate ==> LinksBacked(ApplyBlobs(s, ops, validate).value)
  {
    hide RowsBacked, Movable, Waiting, BulkLinks, Orphans, ApplyBlobs, BatchRefs, Cleared, Moved, Keys;
    BatchKeepsRows(s, ops, validate);
    var linked := s.(links := BulkLinks(s.links, ops));
    BatchPromotes(s, ops, validate);
    PromoteKeepsBacked(linked, BatchRefs(ops));
    if forall c :: c in BatchRefs(ops) ==> c in s.rows {
      LinkedAfterBatch(s, ops);
    } else {
      var c :| c in BatchRefs(ops) && c !in s.rows;
      var p := MentionIsLinked(s.links, ops, c);
      assert (p, c) in ApplyBlobs(s, ops, validate).value.links;
    }
  }

  lemma MentionIsLinked(links: set<(Path, Cid)>, ops: seq<Op>, c: Cid) returns (p: Path)
    requires c in BatchRefs(ops)
    ensures (p, c) in BulkLinks(links, ops)
  {
    var i :| 0 <= i < |ops| && c in OpRefs(ops[i]);
    p := ops[i].path;
    assert (p, c) in BatchLinks(ops);
  }

  lemma LinkedAfterBatch(s: Blobs, ops: seq<Op>)
    requires LinksBacked(s) && forall c :: c in BatchRefs(ops) ==> c in s.rows
    ensures forall l :: l in BulkLinks(s.links, ops) ==>
                          && l.1 in s.rows && (l.1 in s.permanent || l.1 in BatchRefs(ops))
                          && l.1 !in Orphans(s.links, ops)
  {
    forall l | l in BulkLinks(s.links, ops)
      ensures l.1 in s.rows && (l.1 in s.permanent || l.1 in BatchRefs(ops)) && l.1 !in Orphans(s.links, ops)
    {
      assert Linked(BulkLinks(s.links, ops), l.1);
      if l in BatchLinks(ops) {
        assert (l.0, l.1) in BatchLinks(ops);
      }
    }
  }

  lemma UploadKeepsBlobsBacked(s: Blobs, key: string, content: string)
    requires RowsBacked(s) && key !in s.temp
    ensures RowsBacked(Upload(s, key, content))
    ensures LinksBacked(s) ==> LinksBacked(Upload(s, key, content))
    ensures Upload(s, key, content).links == s.links
  {
  }

  /**
   * An upload leaves its content in temporary storage and, unless the blob is taken down, a row that
   * waits for it under its key; nothing else changes.
   */
  lemma UploadIsRecorded(s: Blobs, key: string, content: string, c: Cid)
    ensures var r, up := Upload(s, key, content), RawCid(content);
            && r.temp == s.temp[key := content] && r.permanent == s.permanent && r.links == s.links
            && (c != up || (c in s.rows && s.rows[c].takedown.Some?) ==>
                  (c in r.rows <==> c in s.rows) && (c in s.rows ==> r.rows[c] == s.rows[c]))
            && (c == up && !(c in s.rows && s.rows[c].takedown.Some?) ==>
                  c in r.rows && r.rows[c] == BlobRow(Some(key), None))
  {
  }

  /** So a validated batch is never refused on account of a blob that was just uploaded. */
  lemma UploadedIsAccepted(s: Blobs, key: string, content: string, ops: seq<Op>)
    requires RowsBacked(s) && key !in s.temp
    ensures ApplyBlobs(Upload(s, key, content), ops, true).Err? ==>
              exists c :: c in BatchRefs(ops) && c != RawCid(content) && c !in s.rows
  {
    hide RowsBacked, ApplyBlobs, BatchRefs;
    var up := Upload(s, key, content);
    UploadKeepsBlobsBacked(s, key, content);
    BatchKeepsRows(up, ops, true);
    if ApplyBlobs(up, ops, true).Err? {
      var c :| c in BatchRefs(ops) && c !in up.rows;
      UploadIsRecorded(s, key, content, c);
    }
  }

  /**
   * A blob that stays: mentioned by the batch, it ends in permanent storage with its own content and
   * no temporary file; otherwise its row and its file are as before. Takedowns are left alone.
   */
  lemma BlobAfterBatch(s: Blobs, ops: seq<Op>, validate: bool, c: Cid)
    requires RowsBacked(s) && ApplyBlobs(s, ops, validate).Ok? && c in ApplyBlobs(s, ops, validate).value.rows
    ensures var r := ApplyBlobs(s, ops, validate).value;
            && c in s.rows && r.rows[c].takedown == s.rows[c].takedown
            && (c in BatchRefs(ops) ==>
                  && r.rows[c].tempKey == None && c in r.permanent && RawCid(r.permanent[c]) == c
                  && (s.rows[c].tempKey.Some? ==> Key(s, c) !in r.temp))
            && (c !in BatchRefs(ops) ==>
                  && r.rows[c] == s.rows[c]
                  && (s.rows[c].tempKey.Some? ==> Key(s, c) in r.temp && r.temp[Key(s, c)] == s.temp[Key(s, c)]))
  {
    hide BatchRefs, BulkLinks, Orphans;
    BatchKeepsRows(s, ops, validate);
    BatchPromotes(s, ops, validate);
    hide ApplyBlobs;
    var linked := s.(links := BulkLinks(s.links, ops));
    PromoteKeepsBacked(linked, BatchRefs(ops));
    PromotedBlob(linked, BatchRefs(ops), c);
  }

  lemma PromotedBlob(s: Blobs, refs: set<Cid>, c: Cid)
    requires RowsBacked(s) && Movable(s, Waiting(s, refs)) && c in s.rows
    ensures var r := Promote(s, refs);
            && c in r.rows && r.rows[c].takedown == s.rows[c].takedown
            && (c in refs ==> r.rows[c].tempKey == None && (s.rows[c].tempKey.Some? ==> Key(s, c) !in r.temp))
            && (c !in refs ==>
                  && r.rows[c] == s.rows[c]
                  && (s.rows[c].tempKey.Some? ==> Key(s, c) in r.temp && r.temp[Key(s, c)] == s.temp[Key(s, c)]))
  {
  }

  /** Links in terms of what the records say. */
  lemma LinksAreMentions(links: set<(Path, Cid)>, t: Tree, p: Path, c: Cid)
    requires LinksExact(links, t)
    ensures (p, c) in links <==>
            p in t && t[p].RecordCid? && BlobRefs.Mentions(t[p].value, c, BlobRefs.MAX_LAYER)
  {
    if p in t && t[p].RecordCid? {
      BlobRefs.WalkIsMention(t[p].value, c, 0);
    }
  }
}
