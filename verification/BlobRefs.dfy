/** The depth-limited walk of actors/blobs/utils.ts that collects the blobs a record mentions. */
module BlobRefs {
  import opened Common
  import opened RepoTypes

  /** Objects and arrays deeper than this are not looked at. */
  const MAX_LAYER: nat := 32

  function Children(j: Json): (r: seq<Json>)
    ensures forall i :: 0 <= i < |r| ==> r[i] < j
  {
    match j
    case Arr(items) => items
    case Obj(fields) =>
      assert forall i :: 0 <= i < |fields| ==> fields[i] in fields;
      seq(|fields|, i requires 0 <= i < |fields| => fields[i].1)
    case _ => []
  }

  /** The blobs the walk finds from `j` at depth `layer`. */
  function Refs(j: Json, layer: nat): (r: set<Cid>)
    decreases j, |Children(j)| + 1
  {
    if j.Scalar? || layer > MAX_LAYER then {}
    else if j.Blob? then {j.ref}
    else RefsBelow(j, |Children(j)|, layer)
  }

  /** The blobs found below the first `n` children of `j`. */
  function RefsBelow(j: Json, n: nat, layer: nat): (r: set<Cid>)
    requires n <= |Children(j)|
    decreases j, n
  {
    if n == 0 then {} else RefsBelow(j, n - 1, layer) + Refs(Children(j)[n - 1], layer + 1)
  }

  // ---------------------------------------------------------------------------------
  // What the walk finds, without the walk

  /** One step down: from an array to an item, or from an object to the value of a field. */
  predicate Inside(j: Json, k: Json) {
    || (j.Arr? && exists i :: 0 <= i < |j.items| && j.items[i] == k)
    || (j.Obj? && exists i :: 0 <= i < |j.fields| && j.fields[i].1 == k)
  }

  /** Values each inside the one before. */
  predicate Descends(path: seq<Json>) {
    forall i :: 0 <= i < |path| - 1 ==> Inside(path[i], path[i + 1])
  }

  ghost predicate Mentions(j: Json, c: Cid, depth: int) {
    exists path :: 0 < |path| <= depth + 1 && path[0] == j && path[|path| - 1] == Blob(c) && Descends(path)
  }

  /** From depth `layer` on, the walk finds exactly the blobs that the steps left lead to: 32 from the start. */
  lemma WalkIsMention(j: Json, c: Cid, layer: nat)
    ensures c in Refs(j, layer) <==> Mentions(j, c, MAX_LAYER - layer)
    ensures layer == 0 ==> (c in Refs(j, layer) <==> Mentions(j, c, 32))
  {
    if c in Refs(j, layer) {
      var path := PathTo(j, layer, c);
    }
    if Mentions(j, c, MAX_LAYER - layer) {
      var path :| 0 < |path| <= MAX_LAYER - layer + 1 && path[0] == j && path[|path| - 1] == Blob(c) && Descends(path);
      PathFound(path, layer, c);
    }
  }

  lemma ChildrenAreInside(j: Json, k: Json)
    ensures Inside(j, k) <==> exists i :: 0 <= i < |Children(j)| && Children(j)[i] == k
  {
    var children := Children(j);
    assert |children| == if j.Arr? then |j.items| else if j.Obj? then |j.fields| else 0;
    assert forall i :: 0 <= i < |children| ==> children[i] == if j.Arr? then j.items[i] else j.fields[i].1;
    if j.Obj? && Inside(j, k) {
      var i :| 0 <= i < |j.fields| && j.fields[i].1 == k;
      assert children[i] == k;
    }
    if i :| 0 <= i < |children| && children[i] == k {
      assert (if j.Arr? then j.items[i] else j.fields[i].1) == k;
    }
  }

  lemma {:induction false} ChildWith(j: Json, n: nat, layer: nat, c: Cid) returns (i: nat)
    requires n <= |Children(j)| && c in RefsBelow(j, n, layer)
    ensures i < n && c in Refs(Children(j)[i], layer + 1)
    decreases n
  {
    if c in Refs(Children(j)[n - 1], layer + 1) {
      i := n - 1;
    } else {
      i := ChildWith(j, n - 1, layer, c);
    }
  }

  lemma {:induction false} BelowHas(j: Json, n: nat, layer: nat, c: Cid, i: nat)
    requires i < n <= |Children(j)| && c in Refs(Children(j)[i], layer + 1)
    ensures c in RefsBelow(j, n, layer)
    decreases n
  {
    if i < n - 1 {
      BelowHas(j, n - 1, layer, c, i);
    }
  }

  lemma {:induction false} PathTo(j: Json, layer: nat, c: Cid) returns (path: seq<Json>)
    requires c in Refs(j, layer)
    ensures 0 < |path| <= MAX_LAYER - layer + 1 && path[0] == j && path[|path| - 1] == Blob(c) && Descends(path)
    decreases j
  {
    hide Inside;
    if j.Blob? {
      path := [j];
    } else {
      var i := ChildWith(j, |Children(j)|, layer, c);
      var rest := PathTo(Children(j)[i], layer + 1, c);
      ChildrenAreInside(j, rest[0]);
      path := [j] + rest;
    }
  }

  lemma {:induction false} PathFound(path: seq<Json>, layer: nat, c: Cid)
    requires 0 < |path| <= MAX_LAYER - layer + 1 && path[|path| - 1] == Blob(c) && Descends(path)
    ensures c in Refs(path[0], layer)
    decreases |path|
  {
    if |path| > 1 {
      var j := path[0];
      assert Inside(path[0], path[0 + 1]);
      ChildrenAreInside(j, path[1]);
      var i :| 0 <= i < |Children(j)| && Children(j)[i] == path[1];
      PathFound(path[1..], layer + 1, c);
      BelowHas(j, |Children(j)|, layer, c, i);
    }
  }

  /** `n` containers around a value: arrays, or objects whose one field has the name given. */
  function Nest(j: Json, names: seq<Option<string>>): (r: Json) {
    if names == [] then j
    else if names[0].Some? then Obj([(names[0].value, Nest(j, names[1..]))])
    else Arr([Nest(j, names[1..])])
  }

  /** A blob inside arrays and objects, in any order, is found exactly up to the depth limit. */
  lemma {:induction false} DeepBlobFound(c: Cid, names: seq<Option<string>>, layer: nat)
    ensures Refs(Nest(Blob(c), names), layer) == if layer + |names| <= 32 then {c} else {}
    decreases |names|
  {
    if names != [] {
      DeepBlobFound(c, names[1..], layer + 1);
      var j := Nest(Blob(c), names);
      assert Children(j) == [Nest(Blob(c), names[1..])];
      assert RefsBelow(j, 1, layer) == RefsBelow(j, 0, layer) + Refs(Children(j)[0], layer + 1);
    }
  }

  // ---------------------------------------------------------------------------------
  // The walk with its shared accumulator

  class RefMap {
    var refs: set<Cid>

    constructor ()
      ensures refs == {}
    {
      refs := {};
    }
  }

  /** Adds to the accumulator exactly the blobs the record mentions within the depth left. */
  method FindBlobReferences(record: Json, found: RefMap, layer: nat)
    modifies found
    ensures found.refs == old(found.refs) + Refs(record, layer)
    ensures forall c :: c in found.refs <==> c in old(found.refs) || Mentions(record, c, MAX_LAYER - layer)
    decreases record
  {
    forall c
      ensures c in Refs(record, layer) <==> Mentions(record, c, MAX_LAYER - layer)
    {
      WalkIsMention(record, c, layer);
    }
    hide Mentions;
    if record.Scalar? {
      return;
    }
    if layer > MAX_LAYER {
      return;
    }
    match record {
      case Arr(items) =>
        for idx := 0 to |items|
          invariant found.refs == old(found.refs) + RefsBelow(record, idx, layer)
        {
          FindBlobReferences(items[idx], found, layer + 1);
        }
      case Blob(ref) =>
        found.refs := found.refs + {ref};
      case LegacyBlob(_) =>
      case Bytes(_) =>
      case CidLink(_) =>
      case Obj(fields) =>
        for idx := 0 to |fields|
          invariant found.refs == old(found.refs) + RefsBelow(record, idx, layer)
        {
          assert fields[idx] in fields;
          FindBlobReferences(fields[idx].1, found, layer + 1);
        }
    }
  }
}
