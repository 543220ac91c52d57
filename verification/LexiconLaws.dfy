/**
 * The crawl in terms of definitions: an NSID and a name in its schema. References are read as a
 * schema author means them, without the string handling of the crawl.
 */
module LexiconLaws {
  import opened Common
  import opened Lexicon

  datatype Definition = Definition(nsid: string, name: string)

  /** An NSID has no '#'. */
  predicate Proper(d: Definition) {
    '#' !in d.nsid
  }

  /** `nsid#name` means that definition, and a bare `nsid` its main one. */
  predicate Means(written: string, d: Definition) {
    Proper(d) && (written == d.nsid + "#" + d.name || (written == d.nsid && d.name == "main"))
  }

  /** The references the definition makes, if its schema resolves. */
  function Written(x: Schemas, d: Definition): (r: seq<string>) {
    if x.resolve(d.nsid).Some? then x.references(x.resolve(d.nsid).value, d.name) else []
  }

  predicate RefersTo(x: Schemas, a: Definition, b: Definition) {
    exists i :: 0 <= i < |Written(x, a)| && Means(Written(x, a)[i], b)
  }

  predicate Trail(x: Schemas, trail: seq<Definition>) {
    |trail| > 0 && forall i :: 0 <= i < |trail| - 1 ==> RefersTo(x, trail[i], trail[i + 1])
  }

  ghost predicate Needs(x: Schemas, a: Definition, b: Definition) {
    exists trail :: Trail(x, trail) && trail[0] == a && trail[|trail| - 1] == b
  }

  // ---------------------------------------------------------------------------------
  // Definitions and normalised references are the same thing

  function Name(d: Definition): (r: string) {
    d.nsid + "#" + d.name
  }

  function Parse(ref: string): (r: Definition) {
    Definition(Nsid(ref), DefId(ref))
  }

  lemma NameIsParsed(d: Definition)
    requires Proper(d)
    ensures Nsid(Name(d)) == d.nsid && DefId(Name(d)) == d.name && Normalize(Name(d)) == Name(d)
  {
    HashAfter(d.nsid, d.name);
    assert Name(d)[..|d.nsid|] == d.nsid && Name(d)[|d.nsid| + 1..] == d.name;
    assert Name(d)[|d.nsid|] == '#';
  }

  lemma ParsedIsNamed(ref: string)
    requires '#' in ref
    ensures Proper(Parse(ref)) && Name(Parse(ref)) == ref
  {
    var i :| 0 <= i < |ref| && ref[i] == '#';
    assert ref[..|ref|] == ref;
    if HashIndex(ref) == |ref| {
      assert false;
    }
    assert ref == ref[..HashIndex(ref)] + "#" + ref[HashIndex(ref) + 1..];
  }

  lemma NormalHasHash(written: string)
    ensures '#' in Normalize(written)
  {
    assert '#' !in written ==> Normalize(written)[|written|] == '#';
  }

  lemma NamesDiffer(a: Definition, b: Definition)
    requires Proper(a) && Proper(b) && Name(a) == Name(b)
    ensures a == b
  {
    NameIsParsed(a);
    NameIsParsed(b);
  }

  lemma MeansIsNormal(written: string, d: Definition)
    requires Proper(d)
    ensures Means(written, d) <==> Normalize(written) == Name(d)
  {
    NameIsParsed(d);
    hide Nsid, DefId;
    assert Name(d)[|d.nsid|] == '#';
    if '#' !in written {
      var main := Definition(written, "main");
      assert Normalize(written) == Name(main);
      assert written != Name(d);
      if Name(main) == Name(d) {
        NamesDiffer(main, d);
      }
    } else {
      assert Normalize(written) == written && written != d.nsid;
    }
  }

  lemma EdgeIsReference(x: Schemas, a: Definition, b: Definition)
    requires Proper(a) && Proper(b)
    ensures Edge(x, Name(a), Name(b)) <==> RefersTo(x, a, b)
  {
    NameIsParsed(a);
    assert References(x, Name(a)) == Written(x, a);
    forall i | 0 <= i < |Written(x, a)|
      ensures Means(Written(x, a)[i], b) <==> Normalize(References(x, Name(a))[i]) == Name(b)
    {
      MeansIsNormal(Written(x, a)[i], b);
    }
  }

  lemma EdgeLeadsToName(x: Schemas, v: string, w: string)
    requires Edge(x, v, w)
    ensures '#' in w && Proper(Parse(w)) && Name(Parse(w)) == w
  {
    var i :| 0 <= i < |References(x, v)| && Normalize(References(x, v)[i]) == w;
    NormalHasHash(References(x, v)[i]);
    ParsedIsNamed(w);
  }

  function Names(trail: seq<Definition>): (r: seq<string>)
    ensures |r| == |trail|
    ensures forall i :: 0 <= i < |trail| ==> r[i] == Name(trail[i])
  {
    seq(|trail|, i requires 0 <= i < |trail| => Name(trail[i]))
  }

  function Parses(walk: seq<string>): (r: seq<Definition>)
    ensures |r| == |walk|
    ensures forall i :: 0 <= i < |walk| ==> r[i] == Parse(walk[i])
  {
    seq(|walk|, i requires 0 <= i < |walk| => Parse(walk[i]))
  }

  lemma TrailIsWalk(x: Schemas, trail: seq<Definition>)
    requires Trail(x, trail) && Proper(trail[0])
    ensures IsWalk(x, Names(trail))
    ensures forall i :: 0 <= i < |trail| ==> Proper(trail[i])
  {
    hide Edge;
    forall i | 0 <= i < |trail|
      ensures Proper(trail[i])
    {
      if i > 0 {
        assert RefersTo(x, trail[i - 1], trail[i - 1 + 1]);
      }
    }
    forall i | 0 <= i < |trail| - 1
      ensures Edge(x, Names(trail)[i], Names(trail)[i + 1])
    {
      assert Proper(trail[i]);
      EdgeIsReference(x, trail[i], trail[i + 1]);
    }
  }

  lemma WalkIsTrail(x: Schemas, walk: seq<string>)
    requires IsWalk(x, walk) && '#' in walk[0]
    ensures Trail(x, Parses(walk))
    ensures forall i :: 0 <= i < |walk| ==> Proper(Parse(walk[i])) && Name(Parse(walk[i])) == walk[i]
  {
    hide Edge, RefersTo;
    forall i | 0 <= i < |walk|
      ensures Proper(Parse(walk[i])) && Name(Parse(walk[i])) == walk[i]
    {
      if i == 0 {
        ParsedIsNamed(walk[0]);
      } else {
        assert Edge(x, walk[i - 1], walk[i - 1 + 1]);
        EdgeLeadsToName(x, walk[i - 1], walk[i]);
      }
    }
    forall i | 0 <= i < |walk| - 1
      ensures RefersTo(x, Parses(walk)[i], Parses(walk)[i + 1])
    {
      assert Edge(x, walk[i], walk[i + 1]);
      EdgeIsReference(x, Parse(walk[i]), Parse(walk[i + 1]));
    }
  }

  lemma ReachableIsNeeded(x: Schemas, a: Definition, ref: string)
    requires Proper(a) && Reachable(x, Name(a), ref)
    ensures Proper(Parse(ref)) && Name(Parse(ref)) == ref && Needs(x, a, Parse(ref))
  {
    var walk :| IsWalk(x, walk) && walk[0] == Name(a) && walk[|walk| - 1] == ref;
    NameIsParsed(a);
    assert Name(a)[|a.nsid|] == '#';
    WalkIsTrail(x, walk);
    var trail := Parses(walk);
    assert trail[0] == a && trail[|trail| - 1] == Parse(ref);
  }

  lemma NeededIsReachable(x: Schemas, a: Definition, b: Definition)
    requires Proper(a) && Needs(x, a, b)
    ensures Proper(b) && Reachable(x, Name(a), Name(b))
  {
    var trail :| Trail(x, trail) && trail[0] == a && trail[|trail| - 1] == b;
    TrailIsWalk(x, trail);
    var walk := Names(trail);
    assert walk[0] == Name(a) && walk[|walk| - 1] == Name(b);
  }

  function ParsedSet(refs: set<string>): (r: set<Definition>)
    ensures forall v :: v in refs ==> Parse(v) in r
    ensures forall d :: d in r ==> exists v :: v in refs && Parse(v) == d
  {
    set v | v in refs :: Parse(v)
  }

  function NameSet(all: set<Definition>): (r: set<string>)
    ensures forall d :: d in all ==> Name(d) in r
    ensures forall v :: v in r ==> exists d :: d in all && Name(d) == v
  {
    set d | d in all :: Name(d)
  }

  // ---------------------------------------------------------------------------------
  // The crawl, restated

  function Main(nsid: string): (r: Definition) {
    Definition(nsid, "main")
  }

  ghost predicate ReachesNsid(x: Schemas, start: string, n: string) {
    exists v :: Reachable(x, start, v) && Nsid(v) == n
  }

  lemma NeededNsids(x: Schemas, nsid: string, n: string)
    requires '#' !in nsid
    ensures ReachesNsid(x, nsid + "#main", n) <==> NeedsFrom(x, Main(nsid), n)
  {
    assert Name(Main(nsid)) == nsid + "#main";
    if ReachesNsid(x, nsid + "#main", n) {
      var v :| Reachable(x, nsid + "#main", v) && Nsid(v) == n;
      ReachableIsNeeded(x, Main(nsid), v);
      assert Parse(v).nsid == n;
    }
    if NeedsFrom(x, Main(nsid), n) {
      var d :| Needs(x, Main(nsid), d) && d.nsid == n;
      NeededIsReachable(x, Main(nsid), d);
      NameIsParsed(d);
    }
  }

  /** Some definition of the schema `n` is needed. */
  ghost predicate NeedsFrom(x: Schemas, a: Definition, n: string) {
    exists d :: Needs(x, a, d) && d.nsid == n
  }

  /**
   * If documents are returned, they are for exactly the NSIDs of the definitions the main one needs,
   * directly or not, each as resolved, and no more than 50 definitions are needed.
   */
  lemma DocumentsAreThoseNeeded(x: Schemas, nsid: string)
    requires '#' !in nsid && RecordDocs(x, nsid).Some?
    ensures var docs := RecordDocs(x, nsid).value;
            && (forall n :: n in docs <==> NeedsFrom(x, Main(nsid), n))
            && (forall n :: n in docs ==> x.resolve(n) == Some(docs[n]))
            && exists all: set<Definition> :: |all| <= 50 && forall d :: d in all <==> Needs(x, Main(nsid), d)
  {
    hide Reachable, Needs, Nsid, RecordDocs;
    CrawlIsClosed(x, nsid);
    forall n
      ensures n in RecordDocs(x, nsid).value <==> NeedsFrom(x, Main(nsid), n)
    {
      NeededNsids(x, nsid, n);
    }
    var refs: set<string> :| |refs| <= MAX_CRAWL_SCHEMAS && AllReached(x, nsid + "#main", refs);
    var all := ParsedSet(refs);
    ImageIsNoLarger(refs);
    assert Name(Main(nsid)) == nsid + "#main";
    forall d
      ensures d in all <==> Needs(x, Main(nsid), d)
    {
      if d in all {
        var v :| v in refs && Parse(v) == d;
        ReachableIsNeeded(x, Main(nsid), v);
      }
      if Needs(x, Main(nsid), d) {
        NeededIsReachable(x, Main(nsid), d);
        NameIsParsed(d);
        assert Name(d) in refs && Parse(Name(d)) == d;
      }
    }
  }

  lemma {:induction false} ImageIsNoLarger(refs: set<string>)
    ensures |ParsedSet(refs)| <= |refs|
    decreases |refs|
  {
    if refs != {} {
      var v :| v in refs;
      ImageIsNoLarger(refs - {v});
      assert ParsedSet(refs) == ParsedSet(refs - {v}) + {Parse(v)};
    }
  }

  lemma {:induction false} NamesAreNoMore(all: set<Definition>)
    ensures |NameSet(all)| <= |all|
    decreases |all|
  {
    if all != {} {
      var d :| d in all;
      NamesAreNoMore(all - {d});
      assert NameSet(all) == NameSet(all - {d}) + {Name(d)};
    }
  }

  /** `all` holds whatever its members refer to, and all of it resolves. */
  ghost predicate SelfContained(x: Schemas, all: set<Definition>) {
    && (forall d :: d in all ==> Proper(d) && x.resolve(d.nsid).Some?)
    && (forall d, e :: d in all && RefersTo(x, d, e) ==> e in all)
  }

  /** If at most 10 definitions are needed and all their schemas resolve, documents are returned. */
  lemma TenDefinitionsSuffice(x: Schemas, nsid: string, all: set<Definition>)
    requires SelfContained(x, all) && Main(nsid) in all && |all| <= 10
    ensures RecordDocs(x, nsid).Some?
  {
    hide RefersTo, Edge, RecordDocs;
    var names := NameSet(all);
    NamesAreNoMore(all);
    forall v | v in names
      ensures Resolves(x, v)
    {
      var d :| d in all && Name(d) == v;
      NameIsParsed(d);
    }
    forall v, w | v in names && Edge(x, v, w)
      ensures w in names
    {
      var d :| d in all && Name(d) == v;
      EdgeLeadsToName(x, v, w);
      EdgeIsReference(x, d, Parse(w));
    }
    assert Name(Main(nsid)) == nsid + "#main";
    CrawlIsComplete(x, nsid, names);
  }

  predicate AllDifferent(trail: seq<Definition>) {
    forall i, j :: 0 <= i < j < |trail| ==> trail[i] != trail[j]
  }

  /** The three reasons to give up. */
  ghost predicate Unresolvable(x: Schemas, a: Definition) {
    exists d :: Needs(x, a, d) && x.resolve(d.nsid).None?
  }

  ghost predicate NeedsTooMany(x: Schemas, a: Definition) {
    exists all: set<Definition> :: |all| > 50 && forall d :: d in all ==> Needs(x, a, d)
  }

  ghost predicate NeedsTooDeep(x: Schemas, a: Definition) {
    exists trail :: |trail| == 12 && Trail(x, trail) && trail[0] == a && AllDifferent(trail[..11])
  }

  /** Null while enabled means a needed schema does not resolve, or more than 50 or too deep definitions are needed. */
  lemma NullHasAReason(x: Schemas, nsid: string)
    requires '#' !in nsid && RecordDocs(x, nsid).None?
    ensures Unresolvable(x, Main(nsid)) || NeedsTooMany(x, Main(nsid)) || NeedsTooDeep(x, Main(nsid))
  {
    hide RecordDocs, Reachable, Needs, IsWalk, Trail;
    var a := Main(nsid);
    assert Name(a) == nsid + "#main";
    NullIsExcused(x, nsid);
    if SomeUnresolved(x, Name(a)) {
      var v :| Reachable(x, Name(a), v) && !Resolves(x, v);
      ReachableIsNeeded(x, a, v);
      assert x.resolve(Parse(v).nsid).None?;
    } else if TooManyReachable(x, Name(a)) {
      ManyNeeded(x, a);
    } else {
      DeepNeeded(x, a);
    }
  }

  lemma ManyNeeded(x: Schemas, a: Definition)
    requires Proper(a) && TooManyReachable(x, Name(a))
    ensures NeedsTooMany(x, a)
  {
    hide Reachable, Needs;
    var refs: set<string> :| |refs| > MAX_CRAWL_SCHEMAS && AllFrom(x, Name(a), refs);
    var all := ParsedSet(refs);
    forall v | v in refs
      ensures Needs(x, a, Parse(v)) && Name(Parse(v)) == v
    {
      ReachableIsNeeded(x, a, v);
    }
    var names := NameSet(all);
    NamesAreNoMore(all);
    forall v | v in refs
      ensures v in names
    {
      assert Parse(v) in all && Name(Parse(v)) == v;
    }
    SubsetSize(refs, names);
  }

  lemma DeepNeeded(x: Schemas, a: Definition)
    requires Proper(a) && TooDeep(x, Name(a))
    ensures NeedsTooDeep(x, a)
  {
    hide Edge, RefersTo;
    var walk :| |walk| == MAX_CRAWL_DEPTH + 2 && IsWalk(x, walk) && walk[0] == Name(a)
                && Distinct(walk[..MAX_CRAWL_DEPTH + 1]);
    NameIsParsed(a);
    assert Name(a)[|a.nsid|] == '#';
    WalkIsTrail(x, walk);
    var trail := Parses(walk);
    forall i, j | 0 <= i < j < 11
      ensures trail[i] != trail[j]
    {
      assert walk[..11][i] != walk[..11][j];
      assert Name(trail[i]) == walk[i] && Name(trail[j]) == walk[j];
    }
    assert trail[0] == a;
  }
}
