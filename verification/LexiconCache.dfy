/** The crawl as the cache runs it, over a visited set and a document table it fills in place. */
module LexiconCaches {
  import opened Common
  import opened Lexicon
  import opened LexiconLaws

  class Crawler {
    var visited: set<string>
    var docs: map<string, Doc>
    var count: nat

    function Abs(): (r: Crawl)
      reads this
    {
      Crawl(visited, docs, count)
    }

    constructor ()
      ensures Abs() == Crawl({}, map[], 0)
    {
      visited, docs, count := {}, map[], 0;
    }

    /** Crawls one reference; false is the null that ends the whole crawl. */
    method CrawlReferences(x: Schemas, written: string, depth: nat) returns (ok: bool)
      requires depth <= MAX_CRAWL_DEPTH + 1
      modifies this
      ensures ok <==> CrawlRef(x, written, old(Abs()), depth).Some?
      ensures ok ==> CrawlRef(x, written, old(Abs()), depth) == Some(Abs())
      decreases MAX_CRAWL_DEPTH + 1 - depth, 0
    {
      hide HashIndex, CrawlRefs;
      if depth > MAX_CRAWL_DEPTH {
        return false;
      }
      var ref := if '#' in written then written else written + "#main";
      if ref in visited {
        return true;
      }
      visited := visited + {ref};
      var nsid := Nsid(ref);
      var schema := x.resolve(nsid);
      if schema.None? {
        return false;
      }
      if count >= MAX_CRAWL_SCHEMAS {
        return false;
      }
      docs := docs[nsid := schema.value];
      count := count + 1;
      ok := CrawlEach(x, x.references(schema.value, DefId(ref)), depth + 1);
    }

    /** The loop over the references of one definition. */
    method CrawlEach(x: Schemas, externalRefs: seq<string>, depth: nat) returns (ok: bool)
      requires depth <= MAX_CRAWL_DEPTH + 1
      modifies this
      ensures ok <==> CrawlRefs(x, externalRefs, old(Abs()), depth).Some?
      ensures ok ==> CrawlRefs(x, externalRefs, old(Abs()), depth) == Some(Abs())
      decreases MAX_CRAWL_DEPTH + 1 - depth, 1
    {
      hide CrawlRef;
      for i := 0 to |externalRefs|
        invariant CrawlRefs(x, externalRefs, old(Abs()), depth) == CrawlRefs(x, externalRefs[i..], Abs(), depth)
      {
        assert externalRefs[i..][1..] == externalRefs[i + 1..];
        ok := CrawlReferences(x, externalRefs[i], depth);
        if !ok {
          return;
        }
      }
      ok := true;
    }
  }

  /**
   * While resolution is enabled: documents for exactly the schemas of the definitions the main one
   * needs, or null for one of three reasons; never null when at most ten definitions, all resolving,
   * are needed.
   */
  method GetRecordDocs(x: Schemas, enabled: bool, nsid: string) returns (r: Option<map<string, Doc>>)
    ensures r == if enabled then RecordDocs(x, nsid) else None
    ensures r.Some? && '#' !in nsid ==> forall n :: n in r.value <==> NeedsFrom(x, Main(nsid), n)
    ensures r.Some? && '#' !in nsid ==> forall n :: n in r.value ==> x.resolve(n) == Some(r.value[n])
    ensures enabled && r.None? && '#' !in nsid ==>
              Unresolvable(x, Main(nsid)) || NeedsTooMany(x, Main(nsid)) || NeedsTooDeep(x, Main(nsid))
    ensures enabled && r.None? ==>
              forall all: set<Definition> :: SelfContained(x, all) && Main(nsid) in all ==> |all| > 10
  {
    if !enabled {
      return None;
    }
    var crawler := new Crawler();
    var ok := crawler.CrawlReferences(x, nsid + "#main", 0);
    r := if ok then Some(crawler.docs) else None;
    assert r == RecordDocs(x, nsid);
    hide RecordDocs, CrawlRef, NeedsFrom, Unresolvable, NeedsTooMany, NeedsTooDeep, SelfContained;
    if '#' !in nsid {
      if ok {
        DocumentsAreThoseNeeded(x, nsid);
      } else {
        NullHasAReason(x, nsid);
      }
    }
    if !ok {
      forall all: set<Definition> | SelfContained(x, all) && Main(nsid) in all
        ensures |all| > 10
      {
        if |all| <= 10 {
          TenDefinitionsSuffice(x, nsid, all);
          assert false;
        }
      }
    }
  }
}
