/** A credential table of the account database: rows in id order, ids handed out once. */
module Credentials {

  datatype Row<D> = Row(id: nat, did: string, name: string, detail: D)

  /** `next` is the AUTOINCREMENT counter, so an id never comes back after its row is deleted. */
  datatype Table<D> = Table(rows: seq<Row<D>>, next: nat)

  /** WHERE did = ?, in table order. */
  function OfDid<D>(rows: seq<Row<D>>, did: string): (r: seq<Row<D>>) {
    if rows == [] then []
    else (if rows[0].did == did then [rows[0]] else []) + OfDid(rows[1..], did)
  }

  function Insert<D>(t: Table<D>, did: string, name: string, detail: D): (r: Table<D>) {
    Table(t.rows + [Row(t.next, did, name, detail)], t.next + 1)
  }

  /** DELETE WHERE did = ? AND id = ?. */
  function Without<D>(rows: seq<Row<D>>, did: string, id: nat): (r: seq<Row<D>>) {
    if rows == [] then []
    else (if rows[0].did == did && rows[0].id == id then [] else [rows[0]]) + Without(rows[1..], did, id)
  }

  function Delete<D>(t: Table<D>, did: string, id: nat): (r: Table<D>) {
    t.(rows := Without(t.rows, did, id))
  }

  predicate NameTaken<D>(rows: seq<Row<D>>, did: string, name: string) {
    exists i :: 0 <= i < |rows| && rows[i].did == did && rows[i].name == name
  }

  predicate IdsRise<D>(t: Table<D>) {
    && (forall i, j :: 0 <= i < j < |t.rows| ==> t.rows[i].id < t.rows[j].id)
    && (forall i :: 0 <= i < |t.rows| ==> t.rows[i].id < t.next)
  }

  predicate NamesDiffer<D>(t: Table<D>) {
    forall i, j :: 0 <= i < j < |t.rows| && t.rows[i].did == t.rows[j].did ==> t.rows[i].name != t.rows[j].name
  }

  ghost predicate Capped<D>(t: Table<D>, cap: nat) {
    forall did :: |OfDid(t.rows, did)| <= cap
  }

  // ---------------------------------------------------------------------------------
  // Selections

  lemma {:induction false} OfDidMembers<D>(rows: seq<Row<D>>, did: string)
    ensures forall r :: r in OfDid(rows, did) <==> r in rows && r.did == did
    decreases |rows|
  {
    if rows != [] {
      OfDidMembers(rows[1..], did);
      assert rows == [rows[0]] + rows[1..];
    }
  }

  /** A selection has the account's rows, each as often as the table has it. */
  lemma {:induction false} OfDidCounts<D>(rows: seq<Row<D>>, did: string, r: Row<D>)
    ensures multiset(OfDid(rows, did))[r] == if r.did == did then multiset(rows)[r] else 0
    decreases |rows|
  {
    if rows != [] {
      OfDidCounts(rows[1..], did, r);
      assert rows == [rows[0]] + rows[1..];
    }
  }

  /** And in table order. */
  lemma {:induction false} OfDidKeepsOrder<D>(rows: seq<Row<D>>, did: string)
    requires Wellformed(rows)
    ensures Wellformed(OfDid(rows, did))
    decreases |rows|
  {
    if rows != [] {
      var rest := OfDid(rows[1..], did);
      OfDidKeepsOrder(rows[1..], did);
      hide OfDid;
      forall j | 0 <= j < |rest|
        ensures rows[0].id < rest[j].id && (rows[0].did == rest[j].did ==> rows[0].name != rest[j].name)
      {
        OfDidMember(rows[1..], did, rest[j]);
        var k :| 0 <= k < |rows[1..]| && rows[1..][k] == rest[j];
        assert rows[k + 1] == rest[j];
      }
      OfDidHead(rows, did);
    }
  }

  lemma OfDidHead<D>(rows: seq<Row<D>>, did: string)
    requires rows != []
    ensures OfDid(rows, did) == if rows[0].did == did then [rows[0]] + OfDid(rows[1..], did) else OfDid(rows[1..], did)
  {
  }

  lemma OfDidMember<D>(rows: seq<Row<D>>, did: string, r: Row<D>)
    ensures r in OfDid(rows, did) <==> r in rows && r.did == did
  {
    OfDidMembers(rows, did);
  }

  lemma OfDidNone<D>(rows: seq<Row<D>>, did: string)
    requires rows == []
    ensures OfDid(rows, did) == []
  {
  }

  lemma Regroup<D>(r: Row<D>, a: seq<Row<D>>, b: seq<Row<D>>)
    ensures [r] + (a + b) == ([r] + a) + b
  {
  }

  lemma {:induction false} OfDidSplits<D>(a: seq<Row<D>>, b: seq<Row<D>>, did: string)
    ensures OfDid(a + b, did) == OfDid(a, did) + OfDid(b, did)
    decreases |a|
  {
    hide OfDid;
    if a == [] {
      assert a + b == b;
      OfDidNone(a, did);
    } else {
      assert (a + b)[0] == a[0] && (a + b)[1..] == a[1..] + b;
      OfDidSplits(a[1..], b, did);
      OfDidHead(a, did);
      OfDidHead(a + b, did);
      Regroup(a[0], OfDid(a[1..], did), OfDid(b, did));
    }
  }

  lemma OfDidInserted<D>(t: Table<D>, did: string, name: string, detail: D, other: string)
    ensures OfDid(Insert(t, did, name, detail).rows, other) ==
            OfDid(t.rows, other) + if other == did then [Row(t.next, did, name, detail)] else []
  {
    var row := Row(t.next, did, name, detail);
    OfDidSplits(t.rows, [row], other);
    assert [row][1..] == [];
    assert OfDid([row], other) == if other == did then [row] else [];
  }

  /** A deletion commutes with the selection, and touches no other account. */
  lemma {:induction false} OfDidDeleted<D>(rows: seq<Row<D>>, did: string, id: nat, other: string)
    ensures OfDid(Without(rows, did, id), other) == Without(OfDid(rows, other), did, id)
    ensures |Without(rows, did, id)| <= |rows|
    ensures other != did ==> OfDid(Without(rows, did, id), other) == OfDid(rows, other)
    decreases |rows|
  {
    if rows != [] {
      OfDidDeleted(rows[1..], did, id, other);
      var rest, selected := Without(rows[1..], did, id), OfDid(rows[1..], other);
      if rows[0].did == did && rows[0].id == id {
        assert Without(rows, did, id) == rest;
      } else {
        assert Without(rows, did, id)[1..] == rest;
      }
      if rows[0].did == other {
        assert OfDid(rows, other)[0] == rows[0] && OfDid(rows, other)[1..] == selected;
      } else {
        assert OfDid(rows, other) == selected;
      }
    }
  }

  lemma {:induction false} WithoutMember<D>(rows: seq<Row<D>>, did: string, id: nat, r: Row<D>)
    ensures r in Without(rows, did, id) <==> r in rows && !(r.did == did && r.id == id)
    decreases |rows|
  {
    if rows != [] {
      WithoutMember(rows[1..], did, id, r);
      assert rows == [rows[0]] + rows[1..];
    }
  }

  lemma {:induction false} WithoutShrinks<D>(rows: seq<Row<D>>, did: string, id: nat)
    ensures |Without(rows, did, id)| <= |rows|
    decreases |rows|
  {
    if rows != [] {
      WithoutShrinks(rows[1..], did, id);
    }
  }

  // ---------------------------------------------------------------------------------
  // What insertions and deletions keep

  predicate Wellformed<D>(rows: seq<Row<D>>) {
    forall i, j :: 0 <= i < j < |rows| ==>
                     rows[i].id < rows[j].id && (rows[i].did == rows[j].did ==> rows[i].name != rows[j].name)
  }

  lemma {:induction false} WithoutKeepsOrder<D>(rows: seq<Row<D>>, did: string, id: nat)
    requires Wellformed(rows)
    ensures Wellformed(Without(rows, did, id))
    decreases |rows|
  {
    if rows != [] {
      WithoutKeepsOrder(rows[1..], did, id);
      var rest := Without(rows[1..], did, id);
      forall j | 0 <= j < |rest|
        ensures rows[0].id < rest[j].id && (rows[0].did == rest[j].did ==> rows[0].name != rest[j].name)
      {
        WithoutMember(rows[1..], did, id, rest[j]);
        var k :| 0 <= k < |rows[1..]| && rows[1..][k] == rest[j];
        assert rows[k + 1] == rest[j];
      }
    }
  }

  lemma DeleteKeeps<D>(t: Table<D>, did: string, id: nat, cap: nat)
    requires IdsRise(t) && NamesDiffer(t) && Capped(t, cap)
    ensures IdsRise(Delete(t, did, id)) && NamesDiffer(Delete(t, did, id)) && Capped(Delete(t, did, id), cap)
  {
    WithoutKeepsOrder(t.rows, did, id);
    var rows := Delete(t, did, id).rows;
    forall i | 0 <= i < |rows|
      ensures rows[i].id < t.next
    {
      WithoutMember(t.rows, did, id, rows[i]);
    }
    forall d
      ensures |OfDid(rows, d)| <= cap
    {
      OfDidDeleted(t.rows, did, id, d);
      WithoutShrinks(OfDid(t.rows, d), did, id);
    }
  }

  lemma InsertKeeps<D>(t: Table<D>, did: string, name: string, detail: D, cap: nat)
    requires IdsRise(t) && NamesDiffer(t) && Capped(t, cap)
    requires |OfDid(t.rows, did)| < cap && !NameTaken(t.rows, did, name)
    ensures var t' := Insert(t, did, name, detail); IdsRise(t') && NamesDiffer(t') && Capped(t', cap)
  {
    forall d
      ensures |OfDid(Insert(t, did, name, detail).rows, d)| <= cap
    {
      OfDidInserted(t, did, name, detail, d);
    }
  }
}
