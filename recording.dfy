/**
 * The recording of source chunks as the repair needs it. The handler
 * records a scanned chunk only under the bucket its last moved module went
 * to (index.js:87-92), so a bucket whose modules all came from chunks that
 * ended on another bucket has no recorded source, and the repair throws at
 * index.js:104. Here a scanned chunk is recorded under every bucket it fed,
 * in scan order, and the pass run with that record never lacks a source.
 */
module Recording {
  import opened Wrappers
  import opened BucketConfig
  import opened ChunkGraph
  import opened Scanning
  import opened Repair

  /** The bucket names the modules of `ms` are routed to, each once, in the order of first use. */
  function Destinations(buckets: seq<Bucket>, chunkName: string, ms: seq<Module>): (r: seq<string>)
    ensures NoDup(r)
  {
    if ms == [] then []
    else
      var before := Destinations(buckets, chunkName, ms[..|ms| - 1]);
      match RouteName(buckets, chunkName, ms[|ms| - 1])
      case None => before
      case Some(n) => if n in before then before else before + [n]
  }

  /** A name is a destination exactly when some module of `ms` is routed to it. */
  lemma {:induction false} DestinationsMembers(buckets: seq<Bucket>, chunkName: string, ms: seq<Module>, n: string)
    ensures n in Destinations(buckets, chunkName, ms) <==> exists m :: m in ms && RouteName(buckets, chunkName, m) == Some(n)
  {
    if ms != [] {
      var prefix := ms[..|ms| - 1];
      var last := ms[|ms| - 1];
      assert ms == prefix + [last];
      DestinationsMembers(buckets, chunkName, prefix, n);
      var before := Destinations(buckets, chunkName, prefix);
      if n in Destinations(buckets, chunkName, ms) {
        if n in before {
          var m :| m in prefix && RouteName(buckets, chunkName, m) == Some(n);
          assert m in ms;
        } else {
          assert RouteName(buckets, chunkName, last) == Some(n);
        }
      }
      if exists m :: m in ms && RouteName(buckets, chunkName, m) == Some(n) {
        var m :| m in ms && RouteName(buckets, chunkName, m) == Some(n);
        if m != last {
          assert m in prefix;
        }
      }
    }
  }

  /** `c` appended to the list of each name of `ns`. */
  function RecordAll(sources: map<string, seq<ChunkId>>, ns: seq<string>, c: ChunkId): (r: map<string, seq<ChunkId>>)
  {
    if ns == [] then sources
    else Record(RecordAll(sources, ns[..|ns| - 1], c), ns[|ns| - 1], c)
  }

  /** Recording under the distinct names `ns` adds `c` once to each of their lists and touches no other list. */
  lemma {:induction false} RecordAllEffect(sources: map<string, seq<ChunkId>>, ns: seq<string>, c: ChunkId)
    requires NoDup(ns)
    ensures var r := RecordAll(sources, ns, c);
      && r.Keys == sources.Keys + (set n | n in ns)
      && (forall n | n in r && n !in ns :: r[n] == sources[n])
      && (forall n | n in ns :: r[n] == (if n in sources then sources[n] else []) + [c])
  {
    if ns != [] {
      var prefix := ns[..|ns| - 1];
      var last := ns[|ns| - 1];
      assert ns == prefix + [last];
      assert NoDup(prefix) by {
        forall i, j | 0 <= i < j < |prefix|
          ensures prefix[i] != prefix[j]
        {
          assert prefix[i] == ns[i] && prefix[j] == ns[j];
        }
      }
      assert last !in prefix by {
        forall i | 0 <= i < |prefix|
          ensures prefix[i] != last
        {
          assert prefix[i] == ns[i];
        }
      }
      RecordAllEffect(sources, prefix, c);
    }
  }

  /** Every scanned chunk of `order`, recorded under every bucket it fed. */
  function AllSources(buckets: seq<Bucket>, cs: seq<Chunk>, order: seq<ChunkId>): (r: map<string, seq<ChunkId>>)
    requires forall k | 0 <= k < |order| :: order[k] < |cs|
  {
    if order == [] then map[]
    else
      var c := order[|order| - 1];
      RecordAll(AllSources(buckets, cs, order[..|order| - 1]), Destinations(buckets, NameOf(cs[c]), cs[c].modules), c)
  }

  /** Chunk `c` fed the bucket named `n`: some module of it is routed there. */
  ghost predicate Fed(buckets: seq<Bucket>, cs: seq<Chunk>, c: ChunkId, n: string)
    requires c < |cs|
  {
    exists m :: m in cs[c].modules && RouteName(buckets, NameOf(cs[c]), m) == Some(n)
  }

  /**
   * A name is recorded exactly when a chunk of `order` fed it; its list is
   * not empty and holds exactly the chunks of `order` that fed it.
   */
  lemma {:induction false} AllSourcesMembers(buckets: seq<Bucket>, cs: seq<Chunk>, order: seq<ChunkId>, n: string)
    requires forall k | 0 <= k < |order| :: order[k] < |cs|
    ensures var r := AllSources(buckets, cs, order);
      && (n in r <==> exists c :: c in order && Fed(buckets, cs, c, n))
      && (n in r ==> r[n] != [] && forall c :: c in r[n] <==> c in order && Fed(buckets, cs, c, n))
  {
    if order != [] {
      var prefix := order[..|order| - 1];
      var c := order[|order| - 1];
      assert order == prefix + [c];
      AllSourcesMembers(buckets, cs, prefix, n);
      var ns := Destinations(buckets, NameOf(cs[c]), cs[c].modules);
      RecordAllEffect(AllSources(buckets, cs, prefix), ns, c);
      DestinationsMembers(buckets, NameOf(cs[c]), cs[c].modules, n);
      assert n in ns <==> Fed(buckets, cs, c, n);
    }
  }

  /** The whole record after the scan: every bucket name that received modules has a non-empty list of the chunks that fed it. */
  lemma ScanFedEveryName(buckets: seq<Bucket>, g: Graph)
    ensures var st := Scan(buckets, g.chunks);
      var sources := AllSources(buckets, g.chunks, ScanOrder(g.chunks));
      && (forall n | n in sources, k | 0 <= k < |sources[n]| :: sources[n][k] < |g.chunks|)
      && (forall n | n in st.extra :: n in sources && sources[n] != [])
  {
    var cs := g.chunks;
    var order := ScanOrder(cs);
    var st := Scan(buckets, cs);
    var sources := AllSources(buckets, cs, order);
    forall n | n in sources
      ensures sources[n] != [] && forall k | 0 <= k < |sources[n]| :: sources[n][k] < |cs|
    {
      AllSourcesMembers(buckets, cs, order, n);
      forall k | 0 <= k < |sources[n]|
        ensures sources[n][k] < |cs|
      {
        assert sources[n][k] in sources[n];
      }
    }
    ScanBookkeeping(buckets, cs);
    forall n | n in st.extra
      ensures n in sources
    {
      NamesMembers(Pairs(buckets, cs, order), n);
      var m :| (n, m) in Pairs(buckets, cs, order);
      PairsMembers(buckets, cs, order, n, m);
      var c :| c in order && m in cs[c].modules && RouteName(buckets, NameOf(cs[c]), m) == Some(n);
      assert Fed(buckets, cs, c, n);
      AllSourcesMembers(buckets, cs, order, n);
    }
  }

  /** The scanned arena, the full record and the chunks to repair are what the repair loop needs. */
  lemma AllSourcesReady(buckets: seq<Bucket>, g: Graph)
    requires EntriesInRange(g)
    ensures var st := Scan(buckets, g.chunks);
      RepairReady(Graph(st.chunks, g.entrypoints), AllSources(buckets, g.chunks, ScanOrder(g.chunks)), ToRepair(buckets, st.extra))
  {
    var st := Scan(buckets, g.chunks);
    var todo := ToRepair(buckets, st.extra);
    var sources := AllSources(buckets, g.chunks, ScanOrder(g.chunks));
    ScanReady(buckets, g);
    ScanFedEveryName(buckets, g);
    forall p | 0 <= p < |todo|
      ensures NotASource(sources, todo[p])
    {
      assert todo[p] in todo;
      var i :| 0 <= i < |buckets| && buckets[i].name in st.extra && st.extra[buckets[i].name] == todo[p];
      forall n | n in sources
        ensures todo[p] !in sources[n]
      {
        forall k | 0 <= k < |sources[n]|
          ensures sources[n][k] != todo[p]
        {
        }
      }
    }
  }

  /** The pass with every scanned chunk recorded under every bucket it fed. */
  function OptimizeAllSources(buckets: seq<Bucket>, g: Graph): (r: Result<Graph, PassError>)
    requires EntriesInRange(g)
    ensures r.Ok? ==> EntriesInRange(r.value)
  {
    var st := Scan(buckets, g.chunks);
    AllSourcesReady(buckets, g);
    RepairEach(Graph(st.chunks, g.entrypoints), AllSources(buckets, g.chunks, ScanOrder(g.chunks)), ToRepair(buckets, st.extra))
  }

  /**
   * With the full record the pass never throws for want of a recorded source:
   * the only TypeError left is a first source chunk without an entrypoint.
   */
  lemma OptimizeAllSourcesHasSources(buckets: seq<Bucket>, g: Graph)
    requires EntriesInRange(g)
    ensures OptimizeAllSources(buckets, g).Err? ==> OptimizeAllSources(buckets, g).error.NoManifestEntrypoint?
  {
    var st := Scan(buckets, g.chunks);
    var h := Graph(st.chunks, g.entrypoints);
    var todo := ToRepair(buckets, st.extra);
    var sources := AllSources(buckets, g.chunks, ScanOrder(g.chunks));
    AllSourcesReady(buckets, g);
    RepairEachOutcome(h, sources, todo);
    var r := OptimizeAllSources(buckets, g);
    if r.Err? {
      var p :| FirstFailure(h, sources, todo, p, r.error);
      assert todo[p] in todo;
      var i :| 0 <= i < |buckets| && buckets[i].name in st.extra && st.extra[buckets[i].name] == todo[p];
      var n := buckets[i].name;
      ScanCreatesOnePerName(buckets, g.chunks);
      assert NameOf(h.chunks[todo[p]]) == n;
      ScanFedEveryName(buckets, g);
    }
  }
}
