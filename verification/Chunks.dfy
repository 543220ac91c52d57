/** `chunked` of utils/misc.ts, which every bulk insert and delete goes through. */
module Chunks {
  import opened Common


  function Flatten<T>(chunks: seq<seq<T>>): (r: seq<T>) {
    if chunks == [] then [] else Flatten(chunks[..|chunks| - 1]) + chunks[|chunks| - 1]
  }

  /** Cuts an array into full chunks and at most one shorter one at the end; nothing is lost or reordered. */
  method Chunked<T>(rows: seq<T>, size: nat) returns (chunks: seq<seq<T>>)
    requires size > 0
    ensures Flatten(chunks) == rows
    ensures forall i :: 0 <= i < |chunks| ==> 0 < |chunks[i]| <= size
    ensures forall i :: 0 <= i < |chunks| - 1 ==> |chunks[i]| == size
  {
    chunks := [];
    var i := 0;
    while i < |rows|
      invariant Flatten(chunks) == rows[..Min(i, |rows|)]
      invariant forall k :: 0 <= k < |chunks| ==> 0 < |chunks[k]| <= size
      invariant forall k :: 0 <= k < |chunks| && (k < |chunks| - 1 || i <= |rows|) ==> |chunks[k]| == size
      decreases |rows| - i
    {
      var next := Min(i + size, |rows|);
      var chunk := rows[i..next];
      assert rows[..i] + chunk == rows[..next];
      assert (chunks + [chunk])[..|chunks|] == chunks;
      chunks := chunks + [chunk];
      i := i + size;
    }
    assert rows[..|rows|] == rows;
  }

  function Elements<T>(s: seq<T>): (r: set<T>) {
    set x | x in s
  }

  /** Every chunk holds only elements of the whole, and together they hold all of them. */
  lemma {:induction false} FlattenCovers<T>(chunks: seq<seq<T>>)
    ensures forall x :: x in Flatten(chunks) <==> exists k :: 0 <= k < |chunks| && x in chunks[k]
    decreases |chunks|
  {
    if chunks != [] {
      var front := chunks[..|chunks| - 1];
      FlattenCovers(front);
      assert forall k :: 0 <= k < |front| ==> front[k] == chunks[k];
    }
  }

  /** The entries of a set in some order, as iterating over a Map or Set gives them. */
  method Listed<T(==)>(s: set<T>) returns (r: seq<T>)
    ensures Elements(r) == s
    ensures forall i, j :: 0 <= i < j < |r| ==> r[i] != r[j]
  {
    r := [];
    var rest := s;
    while rest != {}
      invariant Elements(r) + rest == s && Elements(r) !! rest
      invariant forall i, j :: 0 <= i < j < |r| ==> r[i] != r[j]
      decreases rest
    {
      var x :| x in rest;
      rest := rest - {x};
      r := r + [x];
    }
  }
}
