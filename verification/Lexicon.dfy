/** The crawl of lexicon/cache.ts over the schemas a record type refers to. */
module Lexicon {
  import opened Common

  const MAX_CRAWL_DEPTH: nat := 10
  const MAX_CRAWL_SCHEMAS: nat := 50

  datatype Doc = Doc(text: string)

  /** A resolver that answers consistently, and the references a definition of a schema makes. */
  datatype Schemas = Schemas(resolve: string -> Option<Doc>, references: (Doc, string) -> seq<string>)

  /** The position of the first '#', or the length. */
  function HashIndex(ref: string): (r: nat)
    ensures r <= |ref|
    ensures r < |ref| ==> ref[r] == '#'
    ensures '#' !in ref[..r]
  {
    if ref == "" || ref[0] == '#' then 0
    else
      var i := HashIndex(ref[1..]);
      assert ref[..i + 1] == [ref[0]] + ref[1..][..i];
      i + 1
  }

  function Normalize(ref: string): (r: string) {
    if '#' in ref then ref else ref + "#main"
  }

  function Nsid(ref: string): (r: string) {
    ref[..HashIndex(ref)]
  }

  function DefId(ref: string): (r: string) {
    if HashIndex(ref) < |ref| then ref[HashIndex(ref) + 1..] else ""
  }

  predicate Resolves(x: Schemas, ref: string) {
    x.resolve(Nsid(ref)).Some?
  }

  /** The references a resolved reference makes, as written. */
  function References(x: Schemas, ref: string): (r: seq<string>) {
    if Resolves(x, ref) then x.references(x.resolve(Nsid(ref)).value, DefId(ref)) else []
  }

  // ---------------------------------------------------------------------------------
  // The crawl

  datatype Crawl = Crawl(visited: set<string>, docs: map<string, Doc>, count: nat)

  /** What the consumer does with a schema: `None` when there are too many. */
  function Collect(s: Crawl, nsid: string, doc: Doc): (r: Option<Crawl>) {
    if s.count >= MAX_CRAWL_SCHEMAS then None
    else Some(s.(docs := s.docs[nsid := doc], count := s.count + 1))
  }

  /** `None` stands for the null that makes `getRecordDocs` give up. */
  function CrawlRef(x: Schemas, written: string, s: Crawl, depth: nat): (r: Option<Crawl>)
    requires depth <= MAX_CRAWL_DEPTH + 1
    decreases MAX_CRAWL_DEPTH + 1 - depth, 0
  {
    if depth > MAX_CRAWL_DEPTH then None
    else
      var ref := Normalize(written);
      if ref in s.visited then Some(s)
      else if !Resolves(x, ref) then None
      else
        match Collect(s.(visited := s.visited + {ref}), Nsid(ref), x.resolve(Nsid(ref)).value)
        case None => None
        case Some(t) => CrawlRefs(x, References(x, ref), t, depth + 1)
  }

  function CrawlRefs(x: Schemas, refs: seq<string>, s: Crawl, depth: nat): (r: Option<Crawl>)
    requires depth <= MAX_CRAWL_DEPTH + 1
    decreases MAX_CRAWL_DEPTH + 1 - depth, |refs| + 1
  {
    if refs == [] then Some(s)
    else
      match CrawlRef(x, refs[0], s, depth)
      case None => None
      case Some(t) => CrawlRefs(x, refs[1..], t, depth)
  }

  function RecordDocs(x: Schemas, nsid: string): (r: Option<map<string, Doc>>) {
    match CrawlRef(x, nsid + "#main", Crawl({}, map[], 0), 0)
    case None => None
    case Some(s) => Some(s.docs)
  }

  // ---------------------------------------------------------------------------------
  // Reachability

  /** `b` is one of the references `a` makes. */
  predicate Edge(x: Schemas, a: string, b: string) {
    exists i :: 0 <= i < |References(x, a)| && Normalize(References(x, a)[i]) == b
  }

  predicate IsWalk(x: Schemas, walk: seq<string>) {
    |walk| > 0 && forall i :: 0 <= i < |walk| - 1 ==> Edge(x, walk[i], walk[i + 1])
  }

  ghost predicate Reachable(x: Schemas, a: string, b: string) {
    exists walk :: IsWalk(x, walk) && walk[0] == a && walk[|walk| - 1] == b
  }

  lemma ReachableSelf(x: Schemas, a: string)
    ensures Reachable(x, a, a)
  {
    assert IsWalk(x, [a]) && [a][0] == a && [a][|[a]| - 1] == a;
  }

  lemma ReachableEdge(x: Schemas, a: string, b: string, c: string)
    requires Reachable(x, a, b) && Edge(x, b, c)
    ensures Reachable(x, a, c)
  {
    hide Edge;
    var walk :| IsWalk(x, walk) && walk[0] == a && walk[|walk| - 1] == b;
    var longer := walk + [c];
    assert forall i :: 0 <= i < |longer| - 1 ==> Edge(x, longer[i], longer[i + 1]);
    assert IsWalk(x, longer) && longer[0] == a && longer[|longer| - 1] == c;
  }

  /** A set that holds `a` and all references its members make holds everything reachable from `a`. */
  lemma {:induction false} ClosedHoldsWalk(x: Schemas, closed: set<string>, walk: seq<string>)
    requires IsWalk(x, walk) && walk[0] in closed
    requires forall v, w :: v in closed && Edge(x, v, w) ==> w in closed
    ensures walk[|walk| - 1] in closed
    decreases |walk|
  {
    if |walk| > 1 {
      var front := walk[..|walk| - 1];
      assert forall i :: 0 <= i < |front| - 1 ==> Edge(x, front[i], front[i + 1]);
      ClosedHoldsWalk(x, closed, front);
      assert Edge(x, walk[|walk| - 2], walk[|walk| - 1]);
    }
  }

  // ---------------------------------------------------------------------------------
  // What a crawl that succeeds has done

  function NsidsOf(refs: set<string>): (r: set<string>) {
    set v | v in refs :: Nsid(v)
  }

  /** The references visited on the way from `s` to `t` were all resolved, collected once and counted once. */
  predicate Grown(x: Schemas, s: Crawl, t: Crawl) {
    var more := t.visited - s.visited;
    && s.visited <= t.visited
    && (forall v :: v in more ==> Resolves(x, v))
    && t.docs.Keys == s.docs.Keys + NsidsOf(more)
    && (forall n :: n in t.docs ==> x.resolve(n) == Some(t.docs[n]) || (n in s.docs && t.docs[n] == s.docs[n]))
    && t.count == s.count + |more|
  }

  /** Every reference visited on the way has had its own references visited. */
  ghost predicate ClosedSince(x: Schemas, s: Crawl, t: Crawl) {
    forall v, w :: v in t.visited - s.visited && Edge(x, v, w) ==> w in t.visited
  }

  ghost predicate AllFrom(x: Schemas, start: string, refs: set<string>) {
    forall v :: v in refs ==> Reachable(x, start, v)
  }

  lemma GrownTransitive(x: Schemas, s: Crawl, t: Crawl, u: Crawl)
    requires Grown(x, s, t) && Grown(x, t, u)
    ensures Grown(x, s, u)
    ensures u.visited - s.visited == (t.visited - s.visited) + (u.visited - t.visited)
  {
    var first, second := t.visited - s.visited, u.visited - t.visited;
    assert u.visited - s.visited == first + second;
    assert |first + second| == |first| + |second|;
    assert NsidsOf(first + second) == NsidsOf(first) + NsidsOf(second);
  }

  lemma CollectGrows(x: Schemas, s: Crawl, ref: string)
    requires ref !in s.visited && Resolves(x, ref)
    requires Collect(s.(visited := s.visited + {ref}), Nsid(ref), x.resolve(Nsid(ref)).value).Some?
    ensures var t := Collect(s.(visited := s.visited + {ref}), Nsid(ref), x.resolve(Nsid(ref)).value).value;
            Grown(x, s, t) && t.visited == s.visited + {ref} && t.visited - s.visited == {ref}
  {
    var t := Collect(s.(visited := s.visited + {ref}), Nsid(ref), x.resolve(Nsid(ref)).value).value;
    assert t.visited - s.visited == {ref};
    assert NsidsOf({ref}) == {Nsid(ref)};
  }

  ghost predicate Explored(x: Schemas, start: string, s: Crawl, t: Crawl) {
    Grown(x, s, t) && ClosedSince(x, s, t) && AllFrom(x, start, t.visited)
  }

  lemma NothingExplored(x: Schemas, start: string, s: Crawl)
    requires AllFrom(x, start, s.visited)
    ensures Explored(x, start, s, s)
  {
    assert s.visited - s.visited == {} && NsidsOf({}) == {};
  }

  lemma ExploredTransitive(x: Schemas, start: string, s: Crawl, t: Crawl, u: Crawl)
    requires Explored(x, start, s, t) && Explored(x, start, t, u)
    ensures Explored(x, start, s, u)
  {
    hide Edge, NsidsOf, Reachable;
    GrownTransitive(x, s, t, u);
  }

  /** A reference is explored once all the references it makes are. */
  lemma ExploredNode(x: Schemas, start: string, s: Crawl, ref: string, u: Crawl)
    requires ref !in s.visited && Resolves(x, ref) && AllFrom(x, start, s.visited) && Reachable(x, start, ref)
    requires Collect(s.(visited := s.visited + {ref}), Nsid(ref), x.resolve(Nsid(ref)).value).Some?
    requires var t := Collect(s.(visited := s.visited + {ref}), Nsid(ref), x.resolve(Nsid(ref)).value).value;
             Explored(x, start, t, u)
    requires forall i :: 0 <= i < |References(x, ref)| ==> Normalize(References(x, ref)[i]) in u.visited
    ensures Explored(x, start, s, u) && ref in u.visited
  {
    var t := Collect(s.(visited := s.visited + {ref}), Nsid(ref), x.resolve(Nsid(ref)).value).value;
    CollectGrows(x, s, ref);
    GrownTransitive(x, s, t, u);
  }

  lemma TargetsReachable(x: Schemas, start: string, ref: string)
    requires Reachable(x, start, ref)
    ensures forall i :: 0 <= i < |References(x, ref)| ==> Reachable(x, start, Normalize(References(x, ref)[i]))
  {
    forall i | 0 <= i < |References(x, ref)|
      ensures Reachable(x, start, Normalize(References(x, ref)[i]))
    {
      ReachableEdge(x, start, ref, Normalize(References(x, ref)[i]));
    }
  }

  lemma {:induction false} CrawlRefSound(x: Schemas, written: string, s: Crawl, depth: nat, start: string)
    requires depth <= MAX_CRAWL_DEPTH + 1 && CrawlRef(x, written, s, depth).Some?
    requires Reachable(x, start, Normalize(written)) && AllFrom(x, start, s.visited)
    ensures var t := CrawlRef(x, written, s, depth).value;
            Explored(x, start, s, t) && Normalize(written) in t.visited
    decreases MAX_CRAWL_DEPTH + 1 - depth, 0
  {
    hide Explored, Reachable, References, Normalize, Nsid;
    var ref := Normalize(written);
    if ref in s.visited {
      NothingExplored(x, start, s);
    } else {
      var t := Collect(s.(visited := s.visited + {ref}), Nsid(ref), x.resolve(Nsid(ref)).value).value;
      TargetsReachable(x, start, ref);
      CrawlRefsSound(x, References(x, ref), t, depth + 1, start);
      ExploredNode(x, start, s, ref, CrawlRefs(x, References(x, ref), t, depth + 1).value);
    }
  }

  lemma {:induction false} CrawlRefsSound(x: Schemas, refs: seq<string>, s: Crawl, depth: nat, start: string)
    requires depth <= MAX_CRAWL_DEPTH + 1 && CrawlRefs(x, refs, s, depth).Some?
    requires AllFrom(x, start, s.visited)
    requires forall i :: 0 <= i < |refs| ==> Reachable(x, start, Normalize(refs[i]))
    ensures var t := CrawlRefs(x, refs, s, depth).value;
            && Explored(x, start, s, t)
            && (forall i :: 0 <= i < |refs| ==> Normalize(refs[i]) in t.visited)
    decreases MAX_CRAWL_DEPTH + 1 - depth, |refs| + 1
  {
    hide Explored, Reachable, Normalize, AllFrom;
    if refs == [] {
      NothingExplored(x, start, s);
    } else {
      CrawlRefSound(x, refs[0], s, depth, start);
      var t := CrawlRef(x, refs[0], s, depth).value;
      ExploredParts(x, start, s, t);
      assert forall i :: 0 <= i < |refs[1..]| ==> refs[1..][i] == refs[i + 1];
      CrawlRefsSound(x, refs[1..], t, depth, start);
      var u := CrawlRefs(x, refs[1..], t, depth).value;
      ExploredParts(x, start, t, u);
      ExploredTransitive(x, start, s, t, u);
      assert forall i :: 1 <= i < |refs| ==> refs[i] == refs[1..][i - 1];
    }
  }

  lemma ExploredParts(x: Schemas, start: string, s: Crawl, t: Crawl)
    requires Explored(x, start, s, t)
    ensures AllFrom(x, start, t.visited) && s.visited <= t.visited
  {
  }

  lemma {:induction false} CountStaysBounded(x: Schemas, written: string, s: Crawl, depth: nat)
    requires depth <= MAX_CRAWL_DEPTH + 1 && CrawlRef(x, written, s, depth).Some? && s.count <= MAX_CRAWL_SCHEMAS
    ensures CrawlRef(x, written, s, depth).value.count <= MAX_CRAWL_SCHEMAS
    decreases MAX_CRAWL_DEPTH + 1 - depth, 0
  {
    var ref := Normalize(written);
    if ref !in s.visited {
      var t := Collect(s.(visited := s.visited + {ref}), Nsid(ref), x.resolve(Nsid(ref)).value).value;
      CountsStayBounded(x, References(x, ref), t, depth + 1);
    }
  }

  lemma {:induction false} CountsStayBounded(x: Schemas, refs: seq<string>, s: Crawl, depth: nat)
    requires depth <= MAX_CRAWL_DEPTH + 1 && CrawlRefs(x, refs, s, depth).Some? && s.count <= MAX_CRAWL_SCHEMAS
    ensures CrawlRefs(x, refs, s, depth).value.count <= MAX_CRAWL_SCHEMAS
    decreases MAX_CRAWL_DEPTH + 1 - depth, |refs| + 1
  {
    if refs != [] {
      CountStaysBounded(x, refs[0], s, depth);
      CountsStayBounded(x, refs[1..], CrawlRef(x, refs[0], s, depth).value, depth);
    }
  }

  lemma StartIsNormal(nsid: string)
    ensures Normalize(nsid + "#main") == nsid + "#main"
  {
    assert (nsid + "#main")[|nsid|] == '#';
  }

  /** `all` are the references reachable from `start`. */
  ghost predicate AllReached(x: Schemas, start: string, all: set<string>) {
    forall v :: v in all <==> Reachable(x, start, v)
  }

  /**
   * If documents are returned, they are for exactly the NSIDs of the references reachable from
   * `nsid#main`, each as resolved, and at most 50 distinct references were reachable.
   */
  lemma CrawlIsClosed(x: Schemas, nsid: string)
    requires RecordDocs(x, nsid).Some?
    ensures var docs := RecordDocs(x, nsid).value;
            && (forall n :: n in docs <==> exists v :: Reachable(x, nsid + "#main", v) && Nsid(v) == n)
            && (forall n :: n in docs ==> x.resolve(n) == Some(docs[n]))
            && exists all: set<string> :: |all| <= MAX_CRAWL_SCHEMAS && AllReached(x, nsid + "#main", all)
  {
    var start := nsid + "#main";
    var s := Crawl({}, map[], 0);
    StartIsNormal(nsid);
    ReachableSelf(x, start);
    CrawlRefSound(x, start, s, 0, start);
    CountStaysBounded(x, start, s, 0);
    var t := CrawlRef(x, start, s, 0).value;
    assert t.visited - s.visited == t.visited;
    forall v | Reachable(x, start, v)
      ensures v in t.visited
    {
      var walk :| IsWalk(x, walk) && walk[0] == start && walk[|walk| - 1] == v;
      ClosedHoldsWalk(x, t.visited, walk);
    }
    assert forall n :: n in t.docs <==> n in NsidsOf(t.visited);
    assert AllReached(x, start, t.visited);
  }

  // ---------------------------------------------------------------------------------
  // When the crawl cannot give up

  /** `all` holds whatever its members refer to, and all of it resolves. */
  ghost predicate Whole(x: Schemas, all: set<string>) {
    && (forall v :: v in all ==> Resolves(x, v))
    && (forall v, w :: v in all && Edge(x, v, w) ==> w in all)
  }

  lemma SubsetSize<T>(a: set<T>, b: set<T>)
    requires a <= b
    ensures |a| <= |b|
  {
    assert b == a + (b - a);
  }

  lemma TargetsInside(x: Schemas, all: set<string>, ref: string)
    requires Whole(x, all) && ref in all
    ensures forall i :: 0 <= i < |References(x, ref)| ==> Normalize(References(x, ref)[i]) in all
  {
    forall i | 0 <= i < |References(x, ref)|
      ensures Normalize(References(x, ref)[i]) in all
    {
      assert Edge(x, ref, Normalize(References(x, ref)[i]));
    }
  }

  /**
   * The references on the way down are distinct, so the depth never exceeds the number of
   * references there are.
   */
  lemma {:induction false} CrawlRefSucceeds(
    x: Schemas, written: string, s: Crawl, depth: nat, all: set<string>, above: set<string>)
    requires Whole(x, all) && |all| <= MAX_CRAWL_DEPTH && Normalize(written) in all
    requires above <= s.visited <= all && |above| == depth <= MAX_CRAWL_DEPTH + 1 && s.count == |s.visited|
    ensures CrawlRef(x, written, s, depth).Some?
    ensures var t := CrawlRef(x, written, s, depth).value; s.visited <= t.visited <= all && t.count == |t.visited|
    decreases MAX_CRAWL_DEPTH + 1 - depth, 0
  {
    hide Nsid, Normalize, References, Edge;
    SubsetSize(above, all);
    SubsetSize(s.visited, all);
    var ref := Normalize(written);
    if ref !in s.visited {
      var t := Collect(s.(visited := s.visited + {ref}), Nsid(ref), x.resolve(Nsid(ref)).value).value;
      TargetsInside(x, all, ref);
      assert |above + {ref}| == depth + 1 && |s.visited + {ref}| == |s.visited| + 1;
      CrawlRefsSucceed(x, References(x, ref), t, depth + 1, all, above + {ref});
    }
  }

  lemma {:induction false} CrawlRefsSucceed(
    x: Schemas, refs: seq<string>, s: Crawl, depth: nat, all: set<string>, above: set<string>)
    requires Whole(x, all) && |all| <= MAX_CRAWL_DEPTH
    requires forall i :: 0 <= i < |refs| ==> Normalize(refs[i]) in all
    requires above <= s.visited <= all && |above| == depth <= MAX_CRAWL_DEPTH + 1 && s.count == |s.visited|
    ensures CrawlRefs(x, refs, s, depth).Some?
    ensures var t := CrawlRefs(x, refs, s, depth).value; s.visited <= t.visited <= all && t.count == |t.visited|
    decreases MAX_CRAWL_DEPTH + 1 - depth, |refs| + 1
  {
    if refs != [] {
      CrawlRefSucceeds(x, refs[0], s, depth, all, above);
      var t := CrawlRef(x, refs[0], s, depth).value;
      assert forall i :: 0 <= i < |refs[1..]| ==> refs[1..][i] == refs[i + 1];
      CrawlRefsSucceed(x, refs[1..], t, depth, all, above);
    }
  }

  /** If at most 10 references can be reached and all of them resolve, documents are returned. */
  lemma CrawlIsComplete(x: Schemas, nsid: string, all: set<string>)
    requires Whole(x, all) && nsid + "#main" in all && |all| <= MAX_CRAWL_DEPTH
    ensures RecordDocs(x, nsid).Some?
  {
    StartIsNormal(nsid);
    CrawlRefSucceeds(x, nsid + "#main", Crawl({}, map[], 0), 0, all, {});
  }

  // ---------------------------------------------------------------------------------
  // Why the crawl gives up

  predicate Distinct(refs: seq<string>) {
    forall i, j :: 0 <= i < j < |refs| ==> refs[i] != refs[j]
  }

  ghost predicate SomeUnresolved(x: Schemas, start: string) {
    exists v :: Reachable(x, start, v) && !Resolves(x, v)
  }

  ghost predicate TooManyReachable(x: Schemas, start: string) {
    exists refs: set<string> :: |refs| > MAX_CRAWL_SCHEMAS && AllFrom(x, start, refs)
  }

  /** A walk of 11 distinct references and one more step. */
  ghost predicate TooDeep(x: Schemas, start: string) {
    exists walk ::
      |walk| == MAX_CRAWL_DEPTH + 2 && IsWalk(x, walk) && walk[0] == start && Distinct(walk[..MAX_CRAWL_DEPTH + 1])
  }

  ghost predicate Excused(x: Schemas, start: string) {
    SomeUnresolved(x, start) || TooManyReachable(x, start) || TooDeep(x, start)
  }

  /** `walk` leads from `start` through distinct visited references to the one about to be crawled. */
  ghost predicate Leads(x: Schemas, start: string, walk: seq<string>, visited: set<string>, ref: string) {
    && IsWalk(x, walk + [ref]) && (walk + [ref])[0] == start
    && Distinct(walk) && (forall v :: v in walk ==> v in visited)
  }

  lemma LeadsOn(x: Schemas, start: string, walk: seq<string>, visited: set<string>, ref: string, next: string)
    requires Leads(x, start, walk, visited, ref) && ref !in visited && Edge(x, ref, next)
    ensures Leads(x, start, walk + [ref], visited + {ref}, next)
  {
    var longer := walk + [ref] + [next];
    forall i | 0 <= i < |longer| - 1
      ensures Edge(x, longer[i], longer[i + 1])
    {
      assert i < |walk| ==> longer[i] == (walk + [ref])[i] && longer[i + 1] == (walk + [ref])[i + 1];
    }
  }

  lemma LeadsReaches(x: Schemas, start: string, walk: seq<string>, visited: set<string>, ref: string)
    requires Leads(x, start, walk, visited, ref)
    ensures Reachable(x, start, ref)
  {
    var longer := walk + [ref];
    assert longer[|longer| - 1] == ref;
  }

  lemma {:induction false} CrawlRefExcused(
    x: Schemas, written: string, s: Crawl, depth: nat, start: string, walk: seq<string>)
    requires depth <= MAX_CRAWL_DEPTH + 1 && CrawlRef(x, written, s, depth).None?
    requires |walk| == depth && Leads(x, start, walk, s.visited, Normalize(written))
    requires AllFrom(x, start, s.visited) && s.count == |s.visited|
    ensures Excused(x, start)
    decreases MAX_CRAWL_DEPTH + 1 - depth, 0
  {
    var ref := Normalize(written);
    LeadsReaches(x, start, walk, s.visited, ref);
    if depth > MAX_CRAWL_DEPTH {
      var longer := walk + [ref];
      assert longer[..MAX_CRAWL_DEPTH + 1] == walk;
      assert TooDeep(x, start);
    } else if !Resolves(x, ref) {
      assert SomeUnresolved(x, start);
    } else if s.count >= MAX_CRAWL_SCHEMAS {
      var refs := s.visited + {ref};
      assert |refs| == |s.visited| + 1 && AllFrom(x, start, refs);
      assert TooManyReachable(x, start);
    } else {
      var t := Collect(s.(visited := s.visited + {ref}), Nsid(ref), x.resolve(Nsid(ref)).value).value;
      var refs := References(x, ref);
      forall i | 0 <= i < |refs|
        ensures Leads(x, start, walk + [ref], t.visited, Normalize(refs[i]))
      {
        LeadsOn(x, start, walk, s.visited, ref, Normalize(refs[i]));
      }
      CrawlRefsExcused(x, refs, t, depth + 1, start, walk + [ref]);
    }
  }

  lemma {:induction false} CrawlRefsExcused(
    x: Schemas, refs: seq<string>, s: Crawl, depth: nat, start: string, walk: seq<string>)
    requires depth <= MAX_CRAWL_DEPTH + 1 && CrawlRefs(x, refs, s, depth).None?
    requires |walk| == depth
    requires forall i :: 0 <= i < |refs| ==> Leads(x, start, walk, s.visited, Normalize(refs[i]))
    requires AllFrom(x, start, s.visited) && s.count == |s.visited|
    ensures Excused(x, start)
    decreases MAX_CRAWL_DEPTH + 1 - depth, |refs| + 1
  {
    hide Excused, Reachable, Normalize, IsWalk;
    if CrawlRef(x, refs[0], s, depth).None? {
      CrawlRefExcused(x, refs[0], s, depth, start, walk);
    } else {
      LeadsReaches(x, start, walk, s.visited, Normalize(refs[0]));
      CrawlRefSound(x, refs[0], s, depth, start);
      var t := CrawlRef(x, refs[0], s, depth).value;
      GrownCounts(x, start, s, t);
      assert forall i :: 0 <= i < |refs[1..]| ==> refs[1..][i] == refs[i + 1];
      CrawlRefsExcused(x, refs[1..], t, depth, start, walk);
    }
  }

  lemma GrownCounts(x: Schemas, start: string, s: Crawl, t: Crawl)
    requires Explored(x, start, s, t) && s.count == |s.visited|
    ensures t.count == |t.visited| && s.visited <= t.visited && AllFrom(x, start, t.visited)
  {
    assert t.visited == s.visited + (t.visited - s.visited);
  }

  /**
   * Null is returned only if a reachable reference does not resolve, or more than 50 are reachable,
   * or one is 11 steps away along distinct references.
   */
  lemma NullIsExcused(x: Schemas, nsid: string)
    requires RecordDocs(x, nsid).None?
    ensures Excused(x, nsid + "#main")
  {
    var start := nsid + "#main";
    StartIsNormal(nsid);
    assert [] + [start] == [start];
    CrawlRefExcused(x, start, Crawl({}, map[], 0), 0, start, []);
  }

  // ---------------------------------------------------------------------------------
  // Eleven references can be too many

  function Letters(n: nat): (r: string)
    ensures |r| == n && '#' !in r
  {
    if n == 0 then "" else Letters(n - 1) + "a"
  }

  /** Schemas a, aa, aaa, ..., each referring to the next one, and the eleventh to itself. */
  function Chain(): (r: Schemas) {
    Schemas((nsid: string) => Some(Doc(nsid)),
            (doc: Doc, def: string) => if |doc.text| <= MAX_CRAWL_DEPTH then [doc.text + "a"] else [doc.text])
  }

  /** The `n`th reference of the chain. */
  function Link(n: nat): (r: string)
    ensures |r| == n + 5
  {
    Letters(n) + "#main"
  }

  lemma ChainNames(n: nat)
    ensures Normalize(Letters(n)) == Link(n) && Normalize(Link(n)) == Link(n) && Nsid(Link(n)) == Letters(n)
    ensures References(Chain(), Link(n)) == [Letters(if n <= MAX_CRAWL_DEPTH then n + 1 else n)]
  {
    HashAfter(Letters(n), "main");
    assert Letters(n) + "#" + "main" == Link(n);
    assert Link(n)[n] == '#';
  }

  lemma {:induction false} HashAfter(front: string, back: string)
    requires '#' !in front
    ensures HashIndex(front + "#" + back) == |front|
    decreases |front|
  {
    var ref := front + "#" + back;
    if front != "" {
      assert ref[1..] == front[1..] + "#" + back;
      HashAfter(front[1..], back);
    }
  }

  lemma {:induction false} ChainFails(n: nat, s: Crawl)
    requires 1 <= n <= MAX_CRAWL_DEPTH + 1
    requires forall m: nat :: n <= m ==> Link(m) !in s.visited
    ensures CrawlRef(Chain(), Letters(n), s, n - 1).None?
    decreases MAX_CRAWL_DEPTH + 1 - n
  {
    ChainNames(n);
    var collected := Collect(s.(visited := s.visited + {Link(n)}), Letters(n), Doc(Letters(n)));
    if collected.Some? {
      var t := collected.value;
      if n <= MAX_CRAWL_DEPTH {
        forall m: nat | n + 1 <= m
          ensures Link(m) !in t.visited
        {
          assert |Link(m)| != |Link(n)|;
        }
        ChainFails(n + 1, t);
        OneRef(Letters(n + 1), t, n);
      } else {
        OneRef(Letters(n), t, n);
      }
    }
  }

  lemma OneRef(written: string, s: Crawl, depth: nat)
    requires depth <= MAX_CRAWL_DEPTH + 1 && CrawlRef(Chain(), written, s, depth).None?
    ensures CrawlRefs(Chain(), [written], s, depth).None?
  {
  }

  function ChainRefs(n: nat): (r: set<string>) {
    if n == 0 then {} else ChainRefs(n - 1) + {Link(n)}
  }

  lemma LinksDiffer(n: nat)
    ensures forall m: nat :: m != n ==> Link(m) != Link(n)
  {
    forall m: nat | m != n
      ensures Link(m) != Link(n)
    {
      assert |Link(m)| != |Link(n)|;
    }
  }

  predicate IsLinkUpTo(v: string, n: nat) {
    exists m: nat :: 1 <= m <= n && v == Link(m)
  }

  lemma {:induction false} ChainRefsAre(n: nat)
    ensures |ChainRefs(n)| == n
    ensures forall v :: v in ChainRefs(n) ==> IsLinkUpTo(v, n)
    ensures forall m: nat :: 1 <= m <= n ==> Link(m) in ChainRefs(n)
    decreases n
  {
    if n > 0 {
      LinksDiffer(n);
      hide Link, Letters;
      ChainRefsAre(n - 1);
      forall v | v in ChainRefs(n)
        ensures IsLinkUpTo(v, n)
      {
        if v in ChainRefs(n - 1) {
          var m: nat :| 1 <= m <= n - 1 && v == Link(m);
        }
      }
      assert Link(n) !in ChainRefs(n - 1);
    }
  }

  lemma ChainEdge(m: nat, w: string)
    requires Edge(Chain(), Link(m), w)
    ensures w == Link(if m <= MAX_CRAWL_DEPTH then m + 1 else m)
  {
    ChainNames(m);
    ChainNames(if m <= MAX_CRAWL_DEPTH then m + 1 else m);
  }

  lemma ChainResolves()
    ensures forall v :: Resolves(Chain(), v)
  {
  }

  lemma ChainIsWhole()
    ensures Whole(Chain(), ChainRefs(11))
  {
    hide Edge, ChainRefs, Link, Letters, Chain;
    ChainRefsAre(11);
    ChainResolves();
    forall v, w | v in ChainRefs(11) && Edge(Chain(), v, w)
      ensures w in ChainRefs(11)
    {
      var m: nat :| 1 <= m <= 11 && v == Link(m);
      ChainEdge(m, w);
    }
  }

  /** With eleven references, all resolving, the crawl can give up: the bound of ten is the best there is. */
  lemma ElevenReferencesCanFail()
    ensures |ChainRefs(11)| == 11 && Letters(1) + "#main" in ChainRefs(11)
    ensures Whole(Chain(), ChainRefs(11))
    ensures RecordDocs(Chain(), Letters(1)).None?
  {
    hide ChainRefs, Whole, CrawlRef;
    ChainRefsAre(11);
    ChainIsWhole();
    ChainNames(1);
    assert Link(1) in ChainRefs(11);
    ChainFails(1, Crawl({}, map[], 0));
    SameNormal(Chain(), Letters(1), Link(1), Crawl({}, map[], 0), 0);
  }

  lemma SameNormal(x: Schemas, a: string, b: string, s: Crawl, depth: nat)
    requires depth <= MAX_CRAWL_DEPTH + 1 && Normalize(a) == Normalize(b)
    ensures CrawlRef(x, a, s, depth) == CrawlRef(x, b, s, depth)
  {
  }
}
