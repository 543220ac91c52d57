/** Keyset paging over the account table (accounts/manager.ts, listAccounts). */
module Paging {
  import opened Common
  import opened Keyset

  /** A row; `createdAt` is in whole seconds, as the database keeps it. */
  datatype Account = Account(did: string, createdAt: nat, handle: string, email: string, deactivated: bool, takenDown: bool)

  // ---------------------------------------------------------------------------------
  // Order

  function Before(a: string, b: string): (r: bool)
    decreases |a|
  {
    if b == "" then false
    else if a == "" then true
    else a[0] < b[0] || (a[0] == b[0] && Before(a[1..], b[1..]))
  }

  lemma {:induction false} BeforeIsTotal(a: string, b: string)
    ensures !(Before(a, b) && Before(b, a)) && !Before(a, a)
    ensures a != b ==> Before(a, b) || Before(b, a)
    decreases |a|
  {
    if a != "" {
      BeforeIsTotal(a[1..], if b != "" then b[1..] else "");
      if b != "" && a[0] == b[0] && a[1..] == b[1..] {
        assert a == [a[0]] + a[1..] && b == [b[0]] + b[1..];
      }
    }
  }

  lemma {:induction false} BeforeIsTransitive(a: string, b: string, c: string)
    requires Before(a, b) && Before(b, c)
    ensures Before(a, c)
    decreases |a|
  {
    if a != "" && a[0] == b[0] == c[0] {
      BeforeIsTransitive(a[1..], b[1..], c[1..]);
    }
  }

  /** The order of the listing: by creation time, then by DID. */
  predicate Precedes(a: Account, b: Account) {
    a.createdAt < b.createdAt || (a.createdAt == b.createdAt && Before(a.did, b.did))
  }

  lemma PrecedesTransitive(a: Account, b: Account, c: Account)
    requires Precedes(a, b) && Precedes(b, c)
    ensures Precedes(a, c)
  {
    if a.createdAt == b.createdAt == c.createdAt {
      BeforeIsTransitive(a.did, b.did, c.did);
    }
  }

  predicate Ascending(rows: seq<Account>) {
    forall i, j :: 0 <= i < j < |rows| ==> Precedes(rows[i], rows[j])
  }

  function Insert(row: Account, rows: seq<Account>): (r: seq<Account>) {
    if rows == [] || Precedes(row, rows[0]) then [row] + rows
    else [rows[0]] + Insert(row, rows[1..])
  }

  /** ORDER BY created_at, did. */
  function Ordered(table: seq<Account>): (r: seq<Account>) {
    if table == [] then [] else Insert(table[0], Ordered(table[1..]))
  }

  lemma {:induction false} InsertMembers(row: Account, rows: seq<Account>)
    ensures multiset(Insert(row, rows)) == multiset{row} + multiset(rows)
    decreases |rows|
  {
    if rows == [] || Precedes(row, rows[0]) {
    } else {
      InsertMembers(row, rows[1..]);
      assert rows == [rows[0]] + rows[1..];
    }
  }

  lemma {:induction false} OrderedMembers(table: seq<Account>)
    ensures multiset(Ordered(table)) == multiset(table)
    decreases |table|
  {
    if table != [] {
      OrderedMembers(table[1..]);
      InsertMembers(table[0], Ordered(table[1..]));
      assert table == [table[0]] + table[1..];
    }
  }

  lemma {:induction false} InsertAscends(row: Account, rows: seq<Account>)
    requires Ascending(rows) && forall i :: 0 <= i < |rows| ==> rows[i].did != row.did
    ensures Ascending(Insert(row, rows))
    decreases |rows|
  {
    if rows == [] {
    } else if Precedes(row, rows[0]) {
      forall j | 0 < j < |rows|
        ensures Precedes(row, rows[j])
      {
        PrecedesTransitive(row, rows[0], rows[j]);
      }
    } else {
      var rest := Insert(row, rows[1..]);
      InsertAscends(row, rows[1..]);
      BeforeIsTotal(row.did, rows[0].did);
      InsertMembers(row, rows[1..]);
      forall j | 0 <= j < |rest|
        ensures Precedes(rows[0], rest[j])
      {
        assert rest[j] in multiset(rest);
        if rest[j] != row {
          assert rest[j] in rows[1..];
          var k :| 0 <= k < |rows[1..]| && rows[1..][k] == rest[j];
          assert rows[k + 1] == rest[j];
        }
      }
    }
  }

  /** DIDs are the primary key. */
  predicate UniqueDids(table: seq<Account>) {
    forall i, j :: 0 <= i < j < |table| ==> table[i].did != table[j].did
  }

  lemma {:induction false} OrderedAscends(table: seq<Account>)
    requires UniqueDids(table)
    ensures Ascending(Ordered(table))
    decreases |table|
  {
    if table != [] {
      var rest := Ordered(table[1..]);
      OrderedAscends(table[1..]);
      OrderedMembers(table[1..]);
      forall i | 0 <= i < |rest|
        ensures rest[i].did != table[0].did
      {
        assert rest[i] in multiset(rest);
        var k :| 0 <= k < |table[1..]| && table[1..][k] == rest[i];
        assert table[k + 1] == rest[i];
      }
      InsertAscends(table[0], rest);
    }
  }

  // ---------------------------------------------------------------------------------
  // Selection

  /** The row filters; `hits` stands for the search pattern. */
  datatype Query = Query(includeDeactivated: bool, includeTakenDown: bool, hits: Account -> bool)
  {
    predicate Matches(a: Account) {
      (includeDeactivated || !a.deactivated) && (includeTakenDown || !a.takenDown) && hits(a)
    }
  }

  /** The same read off the request: hidden states only if asked for, and the search pattern. */
  predicate Shown(query: Query, a: Account) {
    && query.hits(a)
    && (a.deactivated ==> query.includeDeactivated)
    && (a.takenDown ==> query.includeTakenDown)
  }

  /** Strictly after a cursor's position; a bound time is compared in whole seconds, and no row is after an invalid one. */
  predicate After(p: Option<Position>, a: Account) {
    p.None? ||
    (p.value.time.Some? &&
     (a.createdAt > p.value.time.value / 1000 ||
      (a.createdAt == p.value.time.value / 1000 && Before(p.value.key, a.did))))
  }

  /** The conditions a select can put on a row. */
  datatype Condition = Matching(query: Query) | Later(position: Option<Position>) | Both(first: Condition, second: Condition)

  predicate Holds(c: Condition, a: Account) {
    match c
    case Matching(query) => query.Matches(a)
    case Later(position) => After(position, a)
    case Both(first, second) => Holds(first, a) && Holds(second, a)
  }

  function Filter(rows: seq<Account>, c: Condition): (r: seq<Account>) {
    if rows == [] then [] else (if Holds(c, rows[0]) then [rows[0]] else []) + Filter(rows[1..], c)
  }

  datatype Page = Page(accounts: seq<Account>, cursor: Option<string>)

  function Take(rows: seq<Account>, n: nat): (r: seq<Account>) {
    if |rows| <= n then rows else rows[..n]
  }

  function CursorOf(a: Account): (r: string) {
    Pack(a.createdAt * 1000, a.did)
  }

  function ListAccounts(rules: Rules, table: seq<Account>, query: Query, limit: nat, cursor: Option<string>)
    : (r: Result<Page, CursorError>)
  {
    match UnpackOptional(rules, cursor)
    case Err(e) => Err(e)
    case Ok(parsed) =>
      var rows := Take(Filter(Ordered(table), Both(Matching(query), Later(parsed))), limit + 1);
      var hasMore := |rows| > limit;
      var accounts := if hasMore then rows[..limit] else rows;
      Ok(Page(accounts, if hasMore && accounts != [] then Some(CursorOf(accounts[|accounts| - 1])) else None))
  }

  // ---------------------------------------------------------------------------------
  // Pages fit together

  lemma {:induction false} FilterMembers(rows: seq<Account>, c: Condition)
    ensures forall a :: a in Filter(rows, c) <==> a in rows && Holds(c, a)
    decreases |rows|
  {
    if rows != [] {
      FilterMembers(rows[1..], c);
      assert rows == [rows[0]] + rows[1..];
    }
  }

  lemma {:induction false} FilterAscends(rows: seq<Account>, c: Condition)
    requires Ascending(rows)
    ensures Ascending(Filter(rows, c))
    decreases |rows|
  {
    hide Holds, Precedes;
    if rows != [] {
      FilterAscends(rows[1..], c);
      var rest := Filter(rows[1..], c);
      FilterMembers(rows[1..], c);
      forall j | 0 <= j < |rest|
        ensures Precedes(rows[0], rest[j])
      {
        assert rest[j] in rest;
        var k :| 0 <= k < |rows[1..]| && rows[1..][k] == rest[j];
        assert rows[k + 1] == rest[j];
      }
    }
  }

  lemma {:induction false} FilterTwice(rows: seq<Account>, first: Condition, second: Condition)
    ensures Filter(rows, Both(first, second)) == Filter(Filter(rows, first), second)
    decreases |rows|
  {
    if rows != [] {
      var rest := Filter(rows[1..], first);
      FilterTwice(rows[1..], first, second);
      if Holds(first, rows[0]) {
        assert Filter(rows, first) == [rows[0]] + rest;
        assert ([rows[0]] + rest)[1..] == rest;
      } else {
        assert Filter(rows, first) == rest;
      }
    }
  }

  lemma {:induction false} FilterNone(rows: seq<Account>, c: Condition)
    requires forall a :: a in rows ==> !Holds(c, a)
    ensures Filter(rows, c) == []
    decreases |rows|
  {
    if rows != [] {
      assert rows[0] in rows;
      FilterNone(rows[1..], c);
    }
  }

  lemma {:induction false} FilterAll(rows: seq<Account>, c: Condition)
    requires forall a :: a in rows ==> Holds(c, a)
    ensures Filter(rows, c) == rows
    decreases |rows|
  {
    if rows != [] {
      assert rows[0] in rows;
      FilterAll(rows[1..], c);
    }
  }

  lemma {:induction false} FilterConcat(a: seq<Account>, b: seq<Account>, c: Condition)
    ensures Filter(a + b, c) == Filter(a, c) + Filter(b, c)
    decreases |a|
  {
    hide Holds;
    if a == [] {
      assert a + b == b;
    } else {
      assert (a + b)[0] == a[0] && (a + b)[1..] == a[1..] + b;
      FilterConcat(a[1..], b, c);
      var head := if Holds(c, a[0]) then [a[0]] else [];
      assert Filter(a, c) == head + Filter(a[1..], c);
      assert Filter(a + b, c) == head + Filter(a[1..] + b, c);
    }
  }

  /** The position a row's cursor stands for. */
  function PositionOf(a: Account): (r: Position) {
    Position(Some(a.createdAt * 1000), a.did)
  }

  /** In an ascending list the rows after the position of row `k` are the ones that follow it. */
  lemma RowsAfter(rows: seq<Account>, k: nat)
    requires Ascending(rows) && k < |rows|
    ensures Filter(rows, Later(Some(PositionOf(rows[k])))) == rows[k + 1..]
  {
    hide Filter, Before;
    var c := Later(Some(PositionOf(rows[k])));
    var front, back := rows[..k + 1], rows[k + 1..];
    assert rows == front + back;
    forall a | a in front
      ensures !Holds(c, a)
    {
      var i :| 0 <= i <= k && rows[i] == a;
      BeforeIsTotal(rows[i].did, rows[k].did);
    }
    forall a | a in back
      ensures Holds(c, a)
    {
      var i :| k < i < |rows| && rows[i] == a;
    }
    FilterNone(front, c);
    FilterAll(back, c);
    FilterConcat(front, back, c);
  }

  /** Rows whose cursors can be read back. */
  predicate Addressable(rules: Rules, table: seq<Account>) {
    forall a :: a in table ==> rules.valid(a.did) && IsDate(a.createdAt * 1000)
  }

  /** What the listing is a listing of: the matching accounts in order. */
  function Listing(table: seq<Account>, query: Query): (r: seq<Account>) {
    Filter(Ordered(table), Matching(query))
  }

  lemma ListingFacts(table: seq<Account>, query: Query)
    requires UniqueDids(table)
    ensures Ascending(Listing(table, query))
    ensures forall a :: a in Listing(table, query) <==> a in table && Shown(query, a)
  {
    OrderedAscends(table);
    OrderedMembers(table);
    FilterAscends(Ordered(table), Matching(query));
    FilterMembers(Ordered(table), Matching(query));
    assert forall a :: a in Ordered(table) <==> a in multiset(Ordered(table));
    assert forall a :: a in table <==> a in multiset(table);
  }

  lemma NoCursorKeepsAll(rows: seq<Account>)
    ensures Filter(rows, Later(None)) == rows
  {
    hide Filter;
    FilterAll(rows, Later(None));
  }

  /** The rows a page is cut from. */
  lemma RowsAt(table: seq<Account>, query: Query, k: nat)
    requires UniqueDids(table) && k <= |Listing(table, query)|
    ensures var all := Listing(table, query);
            var position := if k == 0 then None else Some(PositionOf(all[k - 1]));
            Filter(Ordered(table), Both(Matching(query), Later(position))) == all[k..]
  {
    hide Filter, Ordered, Holds, Ascending, UniqueDids;
    var all := Listing(table, query);
    var position := if k == 0 then None else Some(PositionOf(all[k - 1]));
    ListingFacts(table, query);
    FilterTwice(Ordered(table), Matching(query), Later(position));
    if k > 0 {
      RowsAfter(all, k - 1);
    } else {
      NoCursorKeepsAll(all);
    }
  }

  /** The page that follows the first `k` accounts. */
  lemma PageAt(rules: Rules, table: seq<Account>, query: Query, limit: nat, k: nat)
    requires UniqueDids(table) && Addressable(rules, table) && limit >= 1 && k <= |Listing(table, query)|
    ensures var all := Listing(table, query);
            var cursor := if k == 0 then None else Some(CursorOf(all[k - 1]));
            var r := ListAccounts(rules, table, query, limit, cursor);
            && r.Ok?
            && r.value.accounts == Take(all[k..], limit)
            && r.value.cursor == (if k + limit < |all| then Some(CursorOf(all[k + limit - 1])) else None)
  {
    hide Filter, Ordered, Unpack, Pack, Holds, Ascending, UniqueDids, Before;
    var all := Listing(table, query);
    RowsAt(table, query, k);
    ListingFacts(table, query);
    if k > 0 {
      assert all[k - 1] in all;
      UnpackInvertsPack(rules, all[k - 1].createdAt * 1000, all[k - 1].did);
    }
  }

  lemma TakeExtends(all: seq<Account>, k: nat, limit: nat)
    requires k <= |all|
    ensures var n := if k + limit < |all| then k + limit else |all|;
            all[..k] + Take(all[k..], limit) == all[..n]
  {
  }

  /**
   * A client that follows the cursors from the start is given every matching account exactly once,
   * in order, and comes to an end, for every limit of at least one.
   */
  method FollowCursors(rules: Rules, table: seq<Account>, query: Query, limit: nat) returns (seen: seq<Account>)
    requires UniqueDids(table) && Addressable(rules, table) && limit >= 1
    ensures seen == Listing(table, query)
    ensures Ascending(seen)
    ensures forall a :: a in seen <==> a in table && Shown(query, a)
  {
    hide Filter, Ordered, ListAccounts, CursorOf, Take, Listing, UniqueDids, Addressable, Ascending;
    ListingFacts(table, query);
    ghost var all := Listing(table, query);
    seen := [];
    var cursor: Option<string> := None;
    while true
      invariant |seen| <= |all| && seen == all[..|seen|]
      invariant cursor == if seen == [] then None else Some(CursorOf(all[|seen| - 1]))
      decreases |all| - |seen|
    {
      PageAt(rules, table, query, limit, |seen|);
      TakeExtends(all, |seen|, limit);
      var page := ListAccounts(rules, table, query, limit, cursor).value;
      seen := seen + page.accounts;
      cursor := page.cursor;
      if cursor.None? {
        break;
      }
    }
  }

  /** With a limit of zero the first page ends the listing, whatever there is to list. */
  lemma LimitZeroListsNothing(rules: Rules, table: seq<Account>, query: Query)
    ensures ListAccounts(rules, table, query, 0, None) == Ok(Page([], None))
  {
  }
}
