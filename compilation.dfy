/**
 * The `optimize-chunks` handler as the code runs it: nested loops over a
 * compilation whose chunk list and entrypoints are updated in place by the
 * host primitives (`addChunk`, `moveModule`, `new Entrypoint`, `unshift`,
 * `push`, the `parents` assignment). Each loop is proved to compute the
 * corresponding fold of the Scanning and Repair modules.
 */
module Compilation {
  import opened Wrappers
  import opened BucketConfig
  import opened Matching
  import opened ChunkGraph
  import opened Scanning
  import opened Repair

  /** The loop that picks the initial, named chunks, as chunk ids. */
  method FilterScanned(cs: seq<Chunk>) returns (order: seq<ChunkId>)
    ensures order == ScanOrder(cs)
  {
    order := [];
    for i := 0 to |cs|
      invariant order == ScanOrder(cs[..i])
    {
      assert cs[..i + 1][..i] == cs[..i];
      if cs[i].initial && cs[i].name.Some? && cs[i].name.value != "" {
        order := order + [i];
      }
    }
    assert cs[..|cs|] == cs;
  }

  /** The loop that looks up the chunk of each bucket and keeps the ones that exist. */
  method BucketChunks(buckets: seq<Bucket>, extra: map<string, ChunkId>) returns (todo: seq<ChunkId>)
    ensures todo == ToRepair(buckets, extra)
    ensures forall d :: d in todo <==> exists i | 0 <= i < |buckets| :: buckets[i].name in extra && extra[buckets[i].name] == d
  {
    todo := [];
    for b := 0 to |buckets|
      invariant todo == ToRepair(buckets[..b], extra)
    {
      assert buckets[..b + 1][..b] == buckets[..b];
      if buckets[b].name in extra {
        todo := todo + [extra[buckets[b].name]];
      }
    }
    assert buckets[..|buckets|] == buckets;
  }

  /** The commonParents loop of index.js:112-118 over the recorded sources `srcs`. */
  method GatherParents(cs: seq<Chunk>, srcs: seq<ChunkId>) returns (common: seq<ChunkId>)
    requires forall k | 0 <= k < |srcs| :: srcs[k] < |cs|
    ensures common == CommonParents(cs, srcs)
  {
    common := [];
    for k := 0 to |srcs|
      invariant common == CommonParents(cs, srcs[..k])
    {
      assert srcs[..k + 1][..k] == srcs[..k];
      var s := srcs[k];
      common := DropChunk(common, s);
      common := common + NewParents(cs[s].parents, common);
    }
    assert srcs[..|srcs|] == srcs;
  }

  /** Every chunk of `extraChunks` exists and carries its key as its name. */
  predicate ExtraNamed(cs: seq<Chunk>, extra: map<string, ChunkId>) {
    forall n | n in extra :: extra[n] < |cs| && cs[extra[n]].name == Some(n)
  }

  /**
   * After visiting the modules `done` of chunk `c` from `st0`: the state is
   * the fold's, `extraChunks` stays named, and `newChunk` is the chunk of the
   * last module moved.
   */
  ghost predicate Visited(buckets: seq<Bucket>, st0: ScanState, c: ChunkId, chunkName: string, done: seq<Module>,
                          st: ScanState, newChunk: Option<ChunkId>)
  {
    && c < |st0.chunks| && Above(st0, c)
    && st == VisitModules(buckets, st0, c, chunkName, done)
    && ExtraNamed(st.chunks, st.extra)
    && (newChunk.None? <==> LastRouted(buckets, chunkName, done).None?)
    && (newChunk.Some? ==> newChunk.value < |st.chunks| && st.chunks[newChunk.value].name == LastRouted(buckets, chunkName, done))
  }

  /** One more module of the snapshot keeps `Visited`. */
  lemma VisitedStep(buckets: seq<Bucket>, st0: ScanState, c: ChunkId, chunkName: string, done: seq<Module>, m: Module,
                    st: ScanState, st': ScanState, dest: Option<ChunkId>, newChunk: Option<ChunkId>)
    requires Visited(buckets, st0, c, chunkName, done, st, newChunk)
    requires st' == Scanning.VisitModule(buckets, st, c, chunkName, m) && ExtraNamed(st'.chunks, st'.extra)
    requires dest.None? <==> RouteName(buckets, chunkName, m).None?
    requires dest.Some? ==> dest.value < |st'.chunks| && st'.chunks[dest.value].name == RouteName(buckets, chunkName, m)
    ensures Visited(buckets, st0, c, chunkName, done + [m], st', if dest.Some? then dest else newChunk)
  {
  }

  /** Visiting modules never reads `chunksWithExtractedModules`. */
  lemma {:induction false} VisitIgnoresSources(buckets: seq<Bucket>, st: ScanState, c: ChunkId, chunkName: string, ms: seq<Module>)
    requires c < |st.chunks| && Above(st, c)
    ensures VisitModules(buckets, st, c, chunkName, ms)
         == VisitModules(buckets, st.(sources := map[]), c, chunkName, ms).(sources := st.sources)
  {
    if ms != [] {
      VisitIgnoresSources(buckets, st, c, chunkName, ms[..|ms| - 1]);
    }
  }

  /**
   * The arena the three in-place edits of a successful repair of `nc` leave
   * is `RepairChunk`'s: `g1` after the chunk's own entrypoint is added, `g2`
   * after the manifest entrypoint is, `h` after the parents are replaced.
   */
  lemma RepairChunkPasses(g: Graph, sources: map<string, seq<ChunkId>>, nc: ChunkId, g1: Graph, g2: Graph, h: Graph)
    requires nc < |g.chunks| && g.chunks[nc].name.Some?
    requires EntriesInRange(g) && SourcesInRange(g, sources) && NotASource(sources, nc)
    requires Repairable(g, sources, g.chunks[nc].name.value)
    requires g1.entrypoints == g.entrypoints + [Entrypoint(g.chunks[nc].name, [nc])]
    requires g1.chunks == g.chunks[nc := g.chunks[nc].(entrypoints := [|g.entrypoints|] + g.chunks[nc].entrypoints)]
    requires var manifest := g.chunks[sources[g.chunks[nc].name.value][0]].entrypoints[0];
      && manifest < |g1.entrypoints|
      && g2.chunks == g1.chunks[nc := g1.chunks[nc].(entrypoints := [manifest] + g1.chunks[nc].entrypoints)]
      && g2.entrypoints == g1.entrypoints[manifest := g1.entrypoints[manifest].(chunks := g1.entrypoints[manifest].chunks + [nc])]
    requires h.chunks == g2.chunks[nc := g2.chunks[nc].(parents := CommonParents(g.chunks, sources[g.chunks[nc].name.value]))]
    requires h.entrypoints == g2.entrypoints
    ensures RepairChunk(g, sources, nc) == Ok(h)
  {
    var self := |g.entrypoints|;
    var manifest := g.chunks[sources[g.chunks[nc].name.value][0]].entrypoints[0];
    assert [manifest] + ([self] + g.chunks[nc].entrypoints) == [manifest, self] + g.chunks[nc].entrypoints;
    assert h.chunks == g.chunks[nc := g.chunks[nc].(entrypoints := [manifest, self] + g.chunks[nc].entrypoints,
                                                    parents := CommonParents(g.chunks, sources[g.chunks[nc].name.value]))];
  }

  /** The scan loop has visited the first `t` scanned chunks, and `extraChunks` stays named. */
  ghost predicate ScannedUpTo(buckets: seq<Bucket>, cs: seq<Chunk>, order: seq<ChunkId>, t: nat, st: ScanState) {
    && order == ScanOrder(cs) && t <= |order|
    && st == ScanChunks(buckets, cs, order[..t])
    && ExtraNamed(st.chunks, st.extra)
  }

  /** The next scanned chunk exists, is named, and lies below every chunk of `extraChunks`. */
  lemma ScanNext(buckets: seq<Bucket>, cs: seq<Chunk>, order: seq<ChunkId>, t: nat, st: ScanState)
    requires ScannedUpTo(buckets, cs, order, t, st) && t < |order|
    ensures order[t] < |st.chunks| && st.chunks[order[t]].name.Some? && Above(st, order[t])
  {
  }

  lemma ScannedStep(buckets: seq<Bucket>, cs: seq<Chunk>, order: seq<ChunkId>, t: nat, st: ScanState, st': ScanState)
    requires ScannedUpTo(buckets, cs, order, t, st) && t < |order|
    requires order[t] < |st.chunks| && st.chunks[order[t]].name.Some? && Above(st, order[t])
    requires st' == Scanning.ScanChunk(buckets, st, order[t]) && ExtraNamed(st'.chunks, st'.extra)
    ensures ScannedUpTo(buckets, cs, order, t + 1, st')
  {
    var done := order[..t + 1];
    assert done[..|done| - 1] == order[..t] && done[|done| - 1] == order[t];
    assert ScanChunks(buckets, cs, done) == st';
  }

  /** The repair loop has repaired `todo[..k]` without a TypeError, reaching `cur`. */
  ghost predicate RepairedPrefix(h: Graph, sources: map<string, seq<ChunkId>>, todo: seq<ChunkId>, k: nat, cur: Graph) {
    && RepairReady(h, sources, todo) && k <= |todo|
    && RepairReady(h, sources, todo[..k])
    && RepairEach(h, sources, todo[..k]) == Ok(cur)
  }

  /**
   * The next chunk can be repaired in `cur`; a success extends the prefix,
   * and a TypeError is the whole loop's.
   */
  lemma RepairNext(h: Graph, sources: map<string, seq<ChunkId>>, todo: seq<ChunkId>, k: nat, cur: Graph)
    requires RepairedPrefix(h, sources, todo, k, cur) && k < |todo|
    ensures todo[k] < |cur.chunks| && cur.chunks[todo[k]].name.Some?
    ensures EntriesInRange(cur) && SourcesInRange(cur, sources) && NotASource(sources, todo[k])
    ensures RepairChunk(cur, sources, todo[k]).Ok? ==>
      RepairedPrefix(h, sources, todo, k + 1, RepairChunk(cur, sources, todo[k]).value)
    ensures RepairChunk(cur, sources, todo[k]).Err? ==>
      RepairEach(h, sources, todo) == RepairChunk(cur, sources, todo[k])
  {
    assert todo[..k + 1][..k] == todo[..k];
    assert RepairReady(h, sources, todo[..k + 1]);
    if RepairChunk(cur, sources, todo[k]).Err? {
      RepairEachStops(h, sources, todo, k + 1);
    }
  }

  /** The chunk graph of one compilation, updated in place. */
  class Compilation {
    var chunks: seq<Chunk>
    var entrypoints: seq<Entrypoint>

    /** The arena as a value. */
    function State(): Graph
      reads this
    {
      Graph(chunks, entrypoints)
    }

    constructor (g: Graph)
      ensures State() == g
    {
      chunks := g.chunks;
      entrypoints := g.entrypoints;
    }

    /** `compilation.addChunk(name)`: a new, empty, named chunk at the end of the list. */
    method AddChunk(name: string) returns (d: ChunkId)
      modifies this
      ensures d == old(|chunks|)
      ensures chunks == old(chunks) + [NewChunk(name)] && entrypoints == old(entrypoints)
    {
      d := |chunks|;
      chunks := chunks + [NewChunk(name)];
    }

    /** `chunks[from].moveModule(m, chunks[to])`. */
    method MoveModule(from: ChunkId, m: Module, to: ChunkId)
      requires from < |chunks| && to < |chunks| && from != to
      modifies this
      ensures chunks == ChunkGraph.MoveModule(old(chunks), from, m, to) && entrypoints == old(entrypoints)
    {
      chunks := ChunkGraph.MoveModule(chunks, from, m, to);
    }

    /** `new Entrypoint(name)`: a new entrypoint with no chunks. */
    method NewEntrypoint(name: Option<string>) returns (e: EntryId)
      modifies this
      ensures e == old(|entrypoints|)
      ensures entrypoints == old(entrypoints) + [Entrypoint(name, [])] && chunks == old(chunks)
    {
      e := |entrypoints|;
      entrypoints := entrypoints + [Entrypoint(name, [])];
    }

    /** `chunks[c].entrypoints.unshift(e)`. */
    method UnshiftEntrypoint(c: ChunkId, e: EntryId)
      requires c < |chunks|
      modifies this
      ensures chunks == old(chunks)[c := old(chunks)[c].(entrypoints := [e] + old(chunks)[c].entrypoints)]
      ensures entrypoints == old(entrypoints)
    {
      chunks := chunks[c := chunks[c].(entrypoints := [e] + chunks[c].entrypoints)];
    }

    /** `entrypoints[e].chunks.push(c)`. */
    method PushChunk(e: EntryId, c: ChunkId)
      requires e < |entrypoints|
      modifies this
      ensures entrypoints == old(entrypoints)[e := old(entrypoints)[e].(chunks := old(entrypoints)[e].chunks + [c])]
      ensures chunks == old(chunks)
    {
      entrypoints := entrypoints[e := entrypoints[e].(chunks := entrypoints[e].chunks + [c])];
    }

    /** `chunks[c].parents = ps`. */
    method SetParents(c: ChunkId, ps: seq<ChunkId>)
      requires c < |chunks|
      modifies this
      ensures chunks == old(chunks)[c := old(chunks)[c].(parents := ps)] && entrypoints == old(entrypoints)
    {
      chunks := chunks[c := chunks[c].(parents := ps)];
    }

    /**
     * The body of the module `forEach` (index.js:74-84) for module `m` of the
     * scanned chunk `c`: route it, create the bucket's chunk on first use,
     * move the module there. Returns the updated `extraChunks` and the chunk
     * the module went to, if any.
     */
    method VisitModule(buckets: seq<Bucket>, extra: map<string, ChunkId>, c: ChunkId, chunkName: string, m: Module)
      returns (extra': map<string, ChunkId>, dest: Option<ChunkId>)
      requires c < |chunks| && Above(ScanState(chunks, extra, map[]), c) && ExtraNamed(chunks, extra)
      modifies this
      ensures ScanState(chunks, extra', map[]) == Scanning.VisitModule(buckets, ScanState(old(chunks), extra, map[]), c, chunkName, m)
      ensures ExtraNamed(chunks, extra')
      ensures dest.None? <==> RouteName(buckets, chunkName, m).None?
      ensures dest.Some? ==> dest.value < |chunks| && chunks[dest.value].name == RouteName(buckets, chunkName, m)
      ensures entrypoints == old(entrypoints)
    {
      extra' := extra;
      dest := None;
      var found := FindMatchingBucket(buckets, ResourceText(m));
      if found.Some? {
        var bucket := buckets[found.value];
        if !IsChunkIgnored(chunkName, bucket) && !IsChunkExcluded(chunkName, bucket) {
          var d: ChunkId;
          if bucket.name in extra {
            d := extra[bucket.name];
          } else {
            d := AddChunk(bucket.name);
            extra' := extra[bucket.name := d];
          }
          MoveModule(c, m, d);
          dest := Some(d);
        }
      }
    }

    /**
     * The module `forEach` of index.js:73-85 over the snapshot `ms` of chunk
     * `c`'s modules. `newChunk` ends on the chunk of the last module moved.
     */
    method VisitSnapshot(buckets: seq<Bucket>, extra: map<string, ChunkId>, c: ChunkId, chunkName: string, ms: seq<Module>)
      returns (extra': map<string, ChunkId>, newChunk: Option<ChunkId>)
      requires c < |chunks| && Above(ScanState(chunks, extra, map[]), c) && ExtraNamed(chunks, extra)
      modifies this
      ensures Visited(buckets, ScanState(old(chunks), extra, map[]), c, chunkName, ms, ScanState(chunks, extra', map[]), newChunk)
      ensures entrypoints == old(entrypoints)
    {
      ghost var st0 := ScanState(chunks, extra, map[]);
      newChunk := None;
      extra' := extra;
      assert ms[..0] == [];
      for j := 0 to |ms|
        invariant Visited(buckets, st0, c, chunkName, ms[..j], ScanState(chunks, extra', map[]), newChunk)
        invariant entrypoints == old(entrypoints)
      {
        ghost var before := ScanState(chunks, extra', map[]);
        var dest;
        extra', dest := VisitModule(buckets, extra', c, chunkName, ms[j]);
        VisitedStep(buckets, st0, c, chunkName, ms[..j], ms[j], before, ScanState(chunks, extra', map[]), dest, newChunk);
        assert ms[..j + 1] == ms[..j] + [ms[j]];
        if dest.Some? {
          newChunk := dest;
        }
      }
      assert ms[..|ms|] == ms;
    }

    /**
     * One scanned chunk (index.js:70-92): visit a snapshot of its modules,
     * then record the chunk under the name of the chunk its last moved
     * module went to.
     */
    method ScanChunk(buckets: seq<Bucket>, extra: map<string, ChunkId>, sources: map<string, seq<ChunkId>>, c: ChunkId)
      returns (extra': map<string, ChunkId>, sources': map<string, seq<ChunkId>>)
      requires c < |chunks| && chunks[c].name.Some? && Above(ScanState(chunks, extra, sources), c)
      requires ExtraNamed(chunks, extra)
      modifies this
      ensures ScanState(chunks, extra', sources') == Scanning.ScanChunk(buckets, ScanState(old(chunks), extra, sources), c)
      ensures ExtraNamed(chunks, extra')
      ensures entrypoints == old(entrypoints)
    {
      ghost var st0 := ScanState(chunks, extra, sources);
      var chunkName := chunks[c].name.value;
      var ms := chunks[c].modules;
      var newChunk;
      extra', newChunk := VisitSnapshot(buckets, extra, c, chunkName, ms);
      VisitIgnoresSources(buckets, st0, c, chunkName, ms);
      ghost var visited := VisitModules(buckets, st0, c, chunkName, ms);
      assert st0.(sources := map[]) == ScanState(old(chunks), extra, map[]);
      assert ScanState(chunks, extra', sources) == visited;
      sources' := sources;
      if newChunk.Some? {
        var n := chunks[newChunk.value].name.value;
        if n in sources {
          sources' := sources[n := sources[n] + [c]];
        } else {
          sources' := sources[n := [c]];
          assert [] + [c] == [c];
        }
        assert sources' == Record(sources, n, c);
      }
    }

    /**
     * The repair of one new chunk (index.js:99-119). On a TypeError it stops
     * with the error; what the arena holds then is not described.
     */
    method RepairNewChunk(nc: ChunkId, sources: map<string, seq<ChunkId>>) returns (r: Outcome<PassError>)
      requires nc < |chunks| && chunks[nc].name.Some?
      requires EntriesInRange(State()) && SourcesInRange(State(), sources) && NotASource(sources, nc)
      modifies this
      ensures var expected := RepairChunk(old(State()), sources, nc);
        && (r.Pass? <==> expected.Ok?)
        && (r.Pass? ==> State() == expected.value)
        && (r.Fail? ==> r.error == expected.error)
    {
      ghost var g := State();
      var name := chunks[nc].name.value;
      var self := AddSelfEntrypoint(nc);
      ghost var g1 := State();
      if name !in sources || sources[name] == [] {
        return Fail(NoRecordedSource(name));
      }
      var src := sources[name][0];
      if chunks[src].entrypoints == [] {
        return Fail(NoManifestEntrypoint(src));
      }
      var manifest := chunks[src].entrypoints[0];
      AddToManifest(nc, manifest);
      ghost var g2 := State();
      var common := GatherParents(chunks, sources[name]);
      CommonParentsFrame(chunks, g.chunks, sources[name]);
      SetParents(nc, common);
      RepairChunkPasses(g, sources, nc, g1, g2, State());
      return Pass;
    }

    /**
     * index.js:99-100: a new entrypoint named after chunk `nc`, put first in
     * the chunk's entrypoint list and loading just the chunk.
     */
    method AddSelfEntrypoint(nc: ChunkId) returns (e: EntryId)
      requires nc < |chunks|
      modifies this
      ensures e == old(|entrypoints|)
      ensures entrypoints == old(entrypoints) + [Entrypoint(old(chunks[nc].name), [nc])]
      ensures chunks == old(chunks)[nc := old(chunks[nc]).(entrypoints := [e] + old(chunks[nc].entrypoints))]
    {
      e := NewEntrypoint(chunks[nc].name);
      UnshiftEntrypoint(nc, e);
      PushChunk(chunks[nc].entrypoints[0], nc);
      assert [] + [nc] == [nc];
    }

    /**
     * index.js:107-108: the manifest entrypoint is put in front of chunk
     * `nc`'s entrypoints and loads the chunk last.
     */
    method AddToManifest(nc: ChunkId, manifest: EntryId)
      requires nc < |chunks| && manifest < |entrypoints|
      modifies this
      ensures chunks == old(chunks)[nc := old(chunks[nc]).(entrypoints := [manifest] + old(chunks[nc].entrypoints))]
      ensures entrypoints == old(entrypoints)[manifest := old(entrypoints[manifest]).(chunks := old(entrypoints[manifest].chunks) + [nc])]
    {
      UnshiftEntrypoint(nc, manifest);
      PushChunk(manifest, nc);
    }

    /**
     * The scan of index.js:66-93 from empty `extraChunks` and
     * `chunksWithExtractedModules`: the scanned chunks in list order.
     */
    method ScanAll(buckets: seq<Bucket>) returns (extra: map<string, ChunkId>, sources: map<string, seq<ChunkId>>)
      modifies this
      ensures ScanState(chunks, extra, sources) == Scan(buckets, old(chunks))
      ensures entrypoints == old(entrypoints)
    {
      ghost var cs := chunks;
      extra := map[];
      sources := map[];
      var order := FilterScanned(chunks);
      assert order[..0] == [];
      for t := 0 to |order|
        invariant ScannedUpTo(buckets, cs, order, t, ScanState(chunks, extra, sources))
        invariant entrypoints == old(entrypoints)
      {
        ScanNext(buckets, cs, order, t, ScanState(chunks, extra, sources));
        ghost var before := ScanState(chunks, extra, sources);
        extra, sources := ScanChunk(buckets, extra, sources, order[t]);
        ScannedStep(buckets, cs, order, t, before, ScanState(chunks, extra, sources));
      }
      assert order[..|order|] == order;
    }

    /** The repair `forEach` of index.js:95-120 over the chunks `todo`, stopping at the first TypeError. */
    method RepairAll(sources: map<string, seq<ChunkId>>, todo: seq<ChunkId>) returns (r: Outcome<PassError>)
      requires RepairReady(State(), sources, todo)
      modifies this
      ensures var expected := RepairEach(old(State()), sources, todo);
        && (r.Pass? <==> expected.Ok?)
        && (r.Pass? ==> State() == expected.value)
        && (r.Fail? ==> r.error == expected.error)
    {
      ghost var h := State();
      assert todo[..0] == [];
      for k := 0 to |todo|
        invariant RepairedPrefix(h, sources, todo, k, State())
      {
        RepairNext(h, sources, todo, k, State());
        var step := RepairNewChunk(todo[k], sources);
        if step.Fail? {
          return step;
        }
      }
      assert todo[..|todo|] == todo;
      return Pass;
    }

    /**
     * The `optimize-chunks` handler (index.js:62-121): the scan, then the
     * repair of the chunks of the buckets that got one, in bucket order. The
     * run ends as `Optimize` says: the same arena on success, the same
     * TypeError on failure.
     */
    method OptimizeChunks(buckets: seq<Bucket>) returns (r: Outcome<PassError>)
      requires EntriesInRange(State())
      modifies this
      ensures var expected := Optimize(buckets, old(State()));
        && (r.Pass? <==> expected.Ok?)
        && (r.Pass? ==> State() == expected.value)
        && (r.Fail? ==> r.error == expected.error)
    {
      ghost var g := State();
      var extra, sources := ScanAll(buckets);
      var todo := BucketChunks(buckets, extra);
      ScanReady(buckets, g);
      r := RepairAll(sources, todo);
    }
  }
}
