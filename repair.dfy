/**
 * The second half of the `optimize-chunks` handler: for every bucket, in list
 * order, whose name has a chunk in `extraChunks`, that chunk gets a fresh
 * entrypoint named after it, the first entrypoint of its first recorded
 * source chunk (the manifest entrypoint), and the parents of its recorded
 * source chunks. Then the whole pass: the scan followed by the repair.
 */
module Repair {
  import opened Wrappers
  import opened BucketConfig
  import opened Matching
  import opened ChunkGraph
  import opened Scanning

  /** The TypeErrors the repair can throw. */
  datatype PassError =
    /** index.js:104: no source chunk is recorded under the new chunk's name. */
    | NoRecordedSource(bucketName: string)
    /** index.js:105-108: the first recorded source chunk has no entrypoint. */
    | NoManifestEntrypoint(source: ChunkId)

  // ---------------------------------------------------------------------------
  // commonParents (index.js:112-119)
  // ---------------------------------------------------------------------------

  /** The gathered parent list without the source chunk now being processed. */
  function DropChunk(acc: seq<ChunkId>, c: ChunkId): (r: seq<ChunkId>)
    ensures forall x :: x in r <==> x in acc && x != c
    ensures NoDup(acc) ==> NoDup(r)
  {
    if acc == [] then []
    else
      var rest := DropChunk(acc[1..], c);
      assert NoDup(acc) ==> acc[0] !in acc[1..];
      (if acc[0] == c then [] else [acc[0]]) + rest
  }

  /** The parents of a source chunk that the gathered list does not hold yet, in their order. */
  function NewParents(parents: seq<ChunkId>, acc: seq<ChunkId>): (r: seq<ChunkId>)
    ensures forall x :: x in r <==> x in parents && x !in acc
    ensures NoDup(parents) ==> NoDup(r)
  {
    if parents == [] then []
    else
      var rest := NewParents(parents[1..], acc);
      assert NoDup(parents) ==> parents[0] !in parents[1..];
      (if parents[0] in acc then [] else [parents[0]]) + rest
  }

  lemma NoDupAppend(a: seq<ChunkId>, b: seq<ChunkId>)
    requires NoDup(a) && NoDup(b)
    requires forall x | x in a :: x !in b
    ensures NoDup(a + b)
  {
    forall i, j | 0 <= i < j < |a + b|
      ensures (a + b)[i] != (a + b)[j]
    {
      if i < |a| && |a| <= j {
        assert (a + b)[i] in a && (a + b)[j] == b[j - |a|];
      }
    }
  }

  /** The parent list the repair gives a new chunk whose recorded sources are `srcs`. */
  function CommonParents(cs: seq<Chunk>, srcs: seq<ChunkId>): (r: seq<ChunkId>)
    requires forall k | 0 <= k < |srcs| :: srcs[k] < |cs|
    ensures srcs != [] ==> forall x | x in cs[srcs[|srcs| - 1]].parents :: x in r
    ensures forall x | x in r :: exists k | 0 <= k < |srcs| :: x in cs[srcs[k]].parents
  {
    if srcs == [] then []
    else
      var s := srcs[|srcs| - 1];
      var kept := DropChunk(CommonParents(cs, srcs[..|srcs| - 1]), s);
      kept + NewParents(cs[s].parents, kept)
  }

  /**
   * `x` is a parent of the source at `j`, and no later source is `x` itself
   * (a processed source is dropped from the list gathered before it).
   */
  ghost predicate SurvivesFrom(cs: seq<Chunk>, srcs: seq<ChunkId>, x: ChunkId, j: int)
    requires forall k | 0 <= k < |srcs| :: srcs[k] < |cs|
  {
    0 <= j < |srcs| && x in cs[srcs[j]].parents && forall k | j < k < |srcs| :: srcs[k] != x
  }

  /** One step of the fold: the gathered list loses the source and gains its parents. */
  lemma CommonParentsStep(cs: seq<Chunk>, srcs: seq<ChunkId>, x: ChunkId)
    requires srcs != [] && forall k | 0 <= k < |srcs| :: srcs[k] < |cs|
    ensures var s := srcs[|srcs| - 1];
      x in CommonParents(cs, srcs) <==> (x in CommonParents(cs, srcs[..|srcs| - 1]) && x != s) || x in cs[s].parents
  {
  }

  lemma {:induction false} CommonParentsSound(cs: seq<Chunk>, srcs: seq<ChunkId>, x: ChunkId)
    requires forall k | 0 <= k < |srcs| :: srcs[k] < |cs|
    requires x in CommonParents(cs, srcs)
    ensures exists j :: SurvivesFrom(cs, srcs, x, j)
  {
    var last := |srcs| - 1;
    var prefix := srcs[..last];
    CommonParentsStep(cs, srcs, x);
    if x in cs[srcs[last]].parents {
      assert SurvivesFrom(cs, srcs, x, last);
    } else {
      assert x in CommonParents(cs, prefix) && x != srcs[last];
      CommonParentsSound(cs, prefix, x);
      var j :| SurvivesFrom(cs, prefix, x, j);
      assert srcs[j] == prefix[j];
      forall k | j < k < |srcs|
        ensures srcs[k] != x
      {
        if k < last {
          assert srcs[k] == prefix[k];
        } else {
          assert k == last;
        }
      }
      assert SurvivesFrom(cs, srcs, x, j);
    }
  }

  lemma {:induction false} CommonParentsComplete(cs: seq<Chunk>, srcs: seq<ChunkId>, x: ChunkId, j: int)
    requires forall k | 0 <= k < |srcs| :: srcs[k] < |cs|
    requires SurvivesFrom(cs, srcs, x, j)
    ensures x in CommonParents(cs, srcs)
  {
    var last := |srcs| - 1;
    var prefix := srcs[..last];
    CommonParentsStep(cs, srcs, x);
    if j < last {
      assert srcs[j] == prefix[j];
      assert forall k | j < k < last :: prefix[k] == srcs[k];
      assert SurvivesFrom(cs, prefix, x, j);
      CommonParentsComplete(cs, prefix, x, j);
    }
  }

  lemma CommonParentsMembers(cs: seq<Chunk>, srcs: seq<ChunkId>, x: ChunkId)
    requires forall k | 0 <= k < |srcs| :: srcs[k] < |cs|
    ensures x in CommonParents(cs, srcs) <==> exists j :: SurvivesFrom(cs, srcs, x, j)
  {
    if x in CommonParents(cs, srcs) {
      CommonParentsSound(cs, srcs, x);
    }
    if exists j :: SurvivesFrom(cs, srcs, x, j) {
      var j :| SurvivesFrom(cs, srcs, x, j);
      CommonParentsComplete(cs, srcs, x, j);
    }
  }

  lemma {:induction false} CommonParentsNoDup(cs: seq<Chunk>, srcs: seq<ChunkId>)
    requires forall k | 0 <= k < |srcs| :: srcs[k] < |cs| && NoDup(cs[srcs[k]].parents)
    ensures NoDup(CommonParents(cs, srcs))
  {
    if srcs != [] {
      var s := srcs[|srcs| - 1];
      CommonParentsNoDup(cs, srcs[..|srcs| - 1]);
      var kept := DropChunk(CommonParents(cs, srcs[..|srcs| - 1]), s);
      NoDupAppend(kept, NewParents(cs[s].parents, kept));
    }
  }

  /**
   * The parent list of a new chunk: exactly the parents of its sources that
   * are not themselves a later source (a union with processed sources
   * dropped, not an intersection); every parent of the last source is in it;
   * it has no duplicates when no source lists a parent twice.
   */
  lemma CommonParentsSpec(cs: seq<Chunk>, srcs: seq<ChunkId>)
    requires forall k | 0 <= k < |srcs| :: srcs[k] < |cs|
    ensures forall x :: x in CommonParents(cs, srcs) <==>
      exists j | 0 <= j < |srcs| :: x in cs[srcs[j]].parents && forall k | j < k < |srcs| :: srcs[k] != x
    ensures srcs != [] ==> forall x | x in cs[srcs[|srcs| - 1]].parents :: x in CommonParents(cs, srcs)
    ensures (forall k | 0 <= k < |srcs| :: NoDup(cs[srcs[k]].parents)) ==> NoDup(CommonParents(cs, srcs))
  {
    forall x
      ensures x in CommonParents(cs, srcs) <==>
        exists j | 0 <= j < |srcs| :: x in cs[srcs[j]].parents && forall k | j < k < |srcs| :: srcs[k] != x
    {
      CommonParentsMembers(cs, srcs, x);
      if exists j | 0 <= j < |srcs| :: x in cs[srcs[j]].parents && forall k | j < k < |srcs| :: srcs[k] != x {
        var j :| 0 <= j < |srcs| && x in cs[srcs[j]].parents && forall k | j < k < |srcs| :: srcs[k] != x;
        assert SurvivesFrom(cs, srcs, x, j);
      }
    }
    if srcs != [] {
      forall x | x in cs[srcs[|srcs| - 1]].parents
        ensures x in CommonParents(cs, srcs)
      {
        CommonParentsMembers(cs, srcs, x);
        assert SurvivesFrom(cs, srcs, x, |srcs| - 1);
      }
    }
    if forall k | 0 <= k < |srcs| :: NoDup(cs[srcs[k]].parents) {
      CommonParentsNoDup(cs, srcs);
    }
  }

  /** The list reads only the parents of the sources. */
  lemma {:induction false} CommonParentsFrame(cs: seq<Chunk>, ds: seq<Chunk>, srcs: seq<ChunkId>)
    requires forall k | 0 <= k < |srcs| :: srcs[k] < |cs| && srcs[k] < |ds| && cs[srcs[k]].parents == ds[srcs[k]].parents
    ensures CommonParents(cs, srcs) == CommonParents(ds, srcs)
  {
    if srcs != [] {
      CommonParentsFrame(cs, ds, srcs[..|srcs| - 1]);
    }
  }

  // ---------------------------------------------------------------------------
  // The repair of one new chunk (index.js:99-119)
  // ---------------------------------------------------------------------------

  /** Every recorded source chunk exists. */
  predicate SourcesInRange(g: Graph, sources: map<string, seq<ChunkId>>) {
    forall n, k | n in sources && 0 <= k < |sources[n]| :: sources[n][k] < |g.chunks|
  }

  /** The first recorded source of the chunk named `n` exists and has an entrypoint. */
  predicate Repairable(g: Graph, sources: map<string, seq<ChunkId>>, n: string)
    requires SourcesInRange(g, sources)
  {
    n in sources && sources[n] != [] && g.chunks[sources[n][0]].entrypoints != []
  }

  /**
   * The body of the repair `forEach` for new chunk `nc`. A fresh entrypoint
   * named after the chunk and loading just the chunk is put first in its
   * entrypoint list; then the first entrypoint of its first recorded source
   * (the manifest entrypoint) is put in front of that and gets the chunk
   * appended; then the chunk's parents become `CommonParents` of its sources.
   * Entrypoint edits leave every parent list alone, so the parents are read
   * off `g`.
   */
  function RepairChunk(g: Graph, sources: map<string, seq<ChunkId>>, nc: ChunkId): (r: Result<Graph, PassError>)
    requires nc < |g.chunks| && g.chunks[nc].name.Some?
    requires EntriesInRange(g) && SourcesInRange(g, sources)
    requires forall n | n in sources :: nc !in sources[n]
    ensures var n := g.chunks[nc].name.value;
      && (r.Ok? <==> Repairable(g, sources, n))
      && (r.Err? ==> r.error == if n in sources && sources[n] != [] then NoManifestEntrypoint(sources[n][0]) else NoRecordedSource(n))
    ensures r.Ok? ==>
      && |r.value.chunks| == |g.chunks| && |r.value.entrypoints| == |g.entrypoints| + 1
      && (forall i | 0 <= i < |g.chunks| :: r.value.chunks[i].name == g.chunks[i].name)
      && EntriesInRange(r.value)
  {
    var n := g.chunks[nc].name.value;
    var e := |g.entrypoints|;
    var self := g.chunks[nc].(entrypoints := [e] + g.chunks[nc].entrypoints);
    var eps := g.entrypoints + [Entrypoint(Some(n), [nc])];
    if n !in sources || sources[n] == [] then Err(NoRecordedSource(n))
    else
      var src := sources[n][0];
      if g.chunks[src].entrypoints == [] then Err(NoManifestEntrypoint(src))
      else
        var manifest := g.chunks[src].entrypoints[0];
        var chunk := self.(entrypoints := [manifest] + self.entrypoints,
                           parents := CommonParents(g.chunks, sources[n]));
        Ok(Graph(g.chunks[nc := chunk], eps[manifest := eps[manifest].(chunks := eps[manifest].chunks + [nc])]))
  }

  /**
   * What a successful repair of chunk `nc` changes: a fresh entrypoint at the
   * end, named after the chunk and loading just it; the manifest entrypoint
   * gets the chunk appended; the chunk gains [manifest, fresh] in front of
   * its entrypoints and the common parents of its sources. Every other chunk
   * and entrypoint is as before, and all references stay in range.
   */
  lemma RepairChunkShape(g: Graph, sources: map<string, seq<ChunkId>>, nc: ChunkId)
    requires nc < |g.chunks| && g.chunks[nc].name.Some?
    requires EntriesInRange(g) && SourcesInRange(g, sources)
    requires forall n | n in sources :: nc !in sources[n]
    ensures var r := RepairChunk(g, sources, nc);
      r.Ok? ==> var n := g.chunks[nc].name.value;
      var manifest := g.chunks[sources[n][0]].entrypoints[0];
      var e := |g.entrypoints|;
      && manifest < e
      && r.value.entrypoints[e] == Entrypoint(Some(n), [nc])
      && r.value.entrypoints[manifest] == g.entrypoints[manifest].(chunks := g.entrypoints[manifest].chunks + [nc])
      && (forall i | 0 <= i < e && i != manifest :: r.value.entrypoints[i] == g.entrypoints[i])
      && r.value.chunks[nc] == g.chunks[nc].(entrypoints := [manifest, e] + g.chunks[nc].entrypoints,
                                             parents := CommonParents(g.chunks, sources[n]))
      && (forall i | 0 <= i < |g.chunks| && i != nc :: r.value.chunks[i] == g.chunks[i])
      && EntriesInRange(r.value)
  {
    var r := RepairChunk(g, sources, nc);
    if r.Ok? {
      var n := g.chunks[nc].name.value;
      var manifest := g.chunks[sources[n][0]].entrypoints[0];
      var e := |g.entrypoints|;
      var eps := g.entrypoints + [Entrypoint(Some(n), [nc])];
      var chunk := g.chunks[nc].(entrypoints := [manifest, e] + g.chunks[nc].entrypoints,
                                 parents := CommonParents(g.chunks, sources[n]));
      assert [manifest] + ([e] + g.chunks[nc].entrypoints) == [manifest, e] + g.chunks[nc].entrypoints;
      var h := Graph(g.chunks[nc := chunk], eps[manifest := eps[manifest].(chunks := eps[manifest].chunks + [nc])]);
      assert r.value == h;
      forall i, k | 0 <= i < |h.chunks| && 0 <= k < |h.chunks[i].entrypoints|
        ensures h.chunks[i].entrypoints[k] < |h.entrypoints|
      {
        if i != nc {
          assert h.chunks[i] == g.chunks[i];
        } else if k >= 2 {
          assert h.chunks[i].entrypoints[k] == g.chunks[nc].entrypoints[k - 2];
        }
      }
    }
  }

  // ---------------------------------------------------------------------------
  // The repair loop (index.js:95-120)
  // ---------------------------------------------------------------------------

  /** The chunks of the buckets that got one, looked up bucket by bucket, in bucket order. */
  function ToRepair(buckets: seq<Bucket>, extra: map<string, ChunkId>): (r: seq<ChunkId>)
    ensures |r| <= |buckets|
    ensures forall d :: d in r <==> exists i | 0 <= i < |buckets| :: buckets[i].name in extra && extra[buckets[i].name] == d
  {
    if buckets == [] then []
    else
      var b := buckets[|buckets| - 1];
      var before := ToRepair(buckets[..|buckets| - 1], extra);
      assert forall i | 0 <= i < |buckets| - 1 :: buckets[..|buckets| - 1][i] == buckets[i];
      before + (if b.name in extra then [extra[b.name]] else [])
  }

  /** Chunk `d` is not recorded as a source under any name. */
  predicate NotASource(sources: map<string, seq<ChunkId>>, d: ChunkId) {
    forall n | n in sources :: d !in sources[n]
  }

  /** What the repair loop needs of the arena: references in range, the chunks to repair named and new. */
  predicate RepairReady(g: Graph, sources: map<string, seq<ChunkId>>, todo: seq<ChunkId>) {
    && EntriesInRange(g)
    && SourcesInRange(g, sources)
    && forall p | 0 <= p < |todo| :: todo[p] < |g.chunks| && g.chunks[todo[p]].name.Some? && NotASource(sources, todo[p])
  }

  /** The repair `forEach`, stopping at the first TypeError. */
  function RepairEach(g: Graph, sources: map<string, seq<ChunkId>>, todo: seq<ChunkId>): (r: Result<Graph, PassError>)
    requires RepairReady(g, sources, todo)
    ensures r.Ok? ==>
      && |r.value.chunks| == |g.chunks|
      && |r.value.entrypoints| == |g.entrypoints| + |todo|
      && (forall i | 0 <= i < |g.chunks| :: r.value.chunks[i].name == g.chunks[i].name)
      && EntriesInRange(r.value)
  {
    if todo == [] then Ok(g)
    else
      var prefix := todo[..|todo| - 1];
      assert forall p | 0 <= p < |prefix| :: prefix[p] == todo[p];
      match RepairEach(g, sources, prefix)
      case Err(e) => Err(e)
      case Ok(h) => RepairChunk(h, sources, todo[|todo| - 1])
  }

  /** The manifest entrypoint of chunk `d`: the first entrypoint of its first recorded source. */
  function Manifest(g: Graph, sources: map<string, seq<ChunkId>>, d: ChunkId): EntryId
    requires SourcesInRange(g, sources) && d < |g.chunks|
    requires Repairable(g, sources, NameOf(g.chunks[d]))
  {
    g.chunks[sources[NameOf(g.chunks[d])][0]].entrypoints[0]
  }

  /** Chunk `d` once repaired with its fresh entrypoint at index `e`. */
  function Repaired(g: Graph, sources: map<string, seq<ChunkId>>, d: ChunkId, e: EntryId): Chunk
    requires SourcesInRange(g, sources) && d < |g.chunks|
    requires Repairable(g, sources, NameOf(g.chunks[d]))
  {
    g.chunks[d].(entrypoints := [Manifest(g, sources, d), e] + g.chunks[d].entrypoints,
                 parents := CommonParents(g.chunks, sources[NameOf(g.chunks[d])]))
  }

  /** The first `k` chunks of `todo` are repaired, the `p`-th with the fresh entrypoint `|g.entrypoints| + p`. */
  ghost predicate RepairedChunks(g: Graph, sources: map<string, seq<ChunkId>>, todo: seq<ChunkId>, k: nat, h: Graph)
    requires RepairReady(g, sources, todo) && k <= |todo|
  {
    && |h.chunks| == |g.chunks|
    && forall p | 0 <= p < k ::
         && Repairable(g, sources, NameOf(g.chunks[todo[p]]))
         && h.chunks[todo[p]] == Repaired(g, sources, todo[p], |g.entrypoints| + p)
  }

  /** The `p`-th fresh entrypoint is named after the `p`-th chunk of `todo` and loads just that chunk. */
  ghost predicate FreshEntries(g: Graph, sources: map<string, seq<ChunkId>>, todo: seq<ChunkId>, k: nat, h: Graph)
    requires RepairReady(g, sources, todo) && k <= |todo|
  {
    && |h.entrypoints| == |g.entrypoints| + k
    && forall p | 0 <= p < k :: h.entrypoints[|g.entrypoints| + p] == Entrypoint(g.chunks[todo[p]].name, [todo[p]])
  }

  /** The entrypoints of `g` keep their names in `h` and only gain chunks at the end. */
  ghost predicate OldEntriesKept(g: Graph, h: Graph) {
    && |g.entrypoints| <= |h.entrypoints|
    && forall i | 0 <= i < |g.entrypoints| ::
         h.entrypoints[i].name == g.entrypoints[i].name && g.entrypoints[i].chunks <= h.entrypoints[i].chunks
  }

  /** Each of the first `k` chunks of `todo` is listed by its manifest entrypoint. */
  ghost predicate ManifestsList(g: Graph, sources: map<string, seq<ChunkId>>, todo: seq<ChunkId>, k: nat, h: Graph)
    requires RepairReady(g, sources, todo) && k <= |todo|
  {
    && |g.entrypoints| <= |h.entrypoints|
    && forall p | 0 <= p < k && Repairable(g, sources, NameOf(g.chunks[todo[p]])) ::
         todo[p] in h.entrypoints[Manifest(g, sources, todo[p])].chunks
  }

  /** The arena after the first `k` chunks of `todo` are repaired, stated against the arena before. */
  ghost predicate RepairedUpTo(g: Graph, sources: map<string, seq<ChunkId>>, todo: seq<ChunkId>, k: nat, h: Graph)
    requires RepairReady(g, sources, todo) && k <= |todo|
  {
    && RepairedChunks(g, sources, todo, k, h)
    && UntouchedOutside(g, todo[..k], h)
    && FreshEntries(g, sources, todo, k, h)
    && OldEntriesKept(g, h)
    && ManifestsList(g, sources, todo, k, h)
    && EntriesInRange(h)
  }

  /** The TypeError the repair of chunk `d` throws when it is not repairable. */
  function ErrorFor(g: Graph, sources: map<string, seq<ChunkId>>, d: ChunkId): PassError
    requires d < |g.chunks|
  {
    var n := NameOf(g.chunks[d]);
    if n in sources && sources[n] != [] then NoManifestEntrypoint(sources[n][0]) else NoRecordedSource(n)
  }

  /** Chunks outside the first `k` of `todo` are as before. */
  ghost predicate UntouchedOutside(g: Graph, todo: seq<ChunkId>, h: Graph) {
    |h.chunks| == |g.chunks| && forall i | 0 <= i < |g.chunks| && i !in todo :: h.chunks[i] == g.chunks[i]
  }

  /** Every chunk of `todo` can be repaired. */
  predicate AllRepairable(g: Graph, sources: map<string, seq<ChunkId>>, todo: seq<ChunkId>)
    requires SourcesInRange(g, sources) && forall p | 0 <= p < |todo| :: todo[p] < |g.chunks|
  {
    forall p | 0 <= p < |todo| :: Repairable(g, sources, NameOf(g.chunks[todo[p]]))
  }

  /** The chunk at position `p` of `todo` is the first that cannot be repaired, and `e` is its error. */
  predicate FirstFailure(g: Graph, sources: map<string, seq<ChunkId>>, todo: seq<ChunkId>, p: int, e: PassError)
    requires SourcesInRange(g, sources) && forall p | 0 <= p < |todo| :: todo[p] < |g.chunks|
  {
    && 0 <= p < |todo|
    && !Repairable(g, sources, NameOf(g.chunks[todo[p]]))
    && AllRepairable(g, sources, todo[..p])
    && e == ErrorFor(g, sources, todo[p])
  }

  /** The repair of one chunk when the chunks it reads are as in `g`. */
  lemma RepairChunkAgainst(g: Graph, h: Graph, sources: map<string, seq<ChunkId>>, todo: seq<ChunkId>, d: ChunkId)
    requires RepairReady(g, sources, todo) && d in todo
    requires UntouchedOutside(g, todo, h) && EntriesInRange(h)
    requires forall i | 0 <= i < |g.chunks| :: h.chunks[i].name == g.chunks[i].name
    ensures var r := RepairChunk(h, sources, d);
      && (r.Ok? <==> Repairable(g, sources, NameOf(g.chunks[d])))
      && (r.Err? ==> r.error == ErrorFor(g, sources, d))
  {
  }

  /**
   * The repair loop succeeds exactly when every chunk to repair is
   * repairable; otherwise it throws the error of the first one that is not.
   * The chunks it does not repair (the recorded sources among them) are
   * never touched.
   */
  lemma {:induction false} RepairEachOutcome(g: Graph, sources: map<string, seq<ChunkId>>, todo: seq<ChunkId>)
    requires RepairReady(g, sources, todo)
    ensures var r := RepairEach(g, sources, todo);
      && (r.Ok? <==> AllRepairable(g, sources, todo))
      && (r.Err? ==> exists p :: FirstFailure(g, sources, todo, p, r.error))
      && (r.Ok? ==> UntouchedOutside(g, todo, r.value))
  {
    if todo != [] {
      var prefix := todo[..|todo| - 1];
      assert forall p | 0 <= p < |prefix| :: prefix[p] == todo[p];
      RepairEachOutcome(g, sources, prefix);
      match RepairEach(g, sources, prefix)
      case Err(e) =>
        var p :| FirstFailure(g, sources, prefix, p, e);
        FailedBefore(g, sources, todo, p, e);
      case Ok(h) => RepairedBefore(g, sources, todo, h);
    }
  }

  lemma FailedBefore(g: Graph, sources: map<string, seq<ChunkId>>, todo: seq<ChunkId>, p: int, e: PassError)
    requires RepairReady(g, sources, todo) && todo != []
    requires FirstFailure(g, sources, todo[..|todo| - 1], p, e)
    ensures !AllRepairable(g, sources, todo) && FirstFailure(g, sources, todo, p, e)
  {
  }

  lemma AllRepairableSnoc(g: Graph, sources: map<string, seq<ChunkId>>, todo: seq<ChunkId>)
    requires SourcesInRange(g, sources) && forall p | 0 <= p < |todo| :: todo[p] < |g.chunks|
    requires todo != []
    ensures AllRepairable(g, sources, todo) <==>
      AllRepairable(g, sources, todo[..|todo| - 1]) && Repairable(g, sources, NameOf(g.chunks[todo[|todo| - 1]]))
  {
  }

  /** A chunk outside `todo` is outside every prefix of it. */
  lemma UntouchedWiden(g: Graph, prefix: seq<ChunkId>, todo: seq<ChunkId>, h: Graph)
    requires prefix <= todo && UntouchedOutside(g, prefix, h)
    ensures UntouchedOutside(g, todo, h)
  {
  }

  /** Repairing a chunk of `todo` leaves every chunk outside `todo` as it was. */
  lemma RepairChunkUntouched(g: Graph, h: Graph, sources: map<string, seq<ChunkId>>, todo: seq<ChunkId>, d: ChunkId)
    requires d < |h.chunks| && h.chunks[d].name.Some?
    requires EntriesInRange(h) && SourcesInRange(h, sources)
    requires forall n | n in sources :: d !in sources[n]
    requires d in todo && UntouchedOutside(g, todo, h)
    ensures RepairChunk(h, sources, d).Ok? ==> UntouchedOutside(g, todo, RepairChunk(h, sources, d).value)
  {
  }

  lemma RepairedBefore(g: Graph, sources: map<string, seq<ChunkId>>, todo: seq<ChunkId>, h: Graph)
    requires RepairReady(g, sources, todo) && todo != []
    requires RepairEach(g, sources, todo[..|todo| - 1]) == Ok(h)
    requires AllRepairable(g, sources, todo[..|todo| - 1])
    requires UntouchedOutside(g, todo[..|todo| - 1], h)
    ensures var r := RepairEach(g, sources, todo);
      && (r.Ok? <==> AllRepairable(g, sources, todo))
      && (r.Err? ==> exists p :: FirstFailure(g, sources, todo, p, r.error))
      && (r.Ok? ==> UntouchedOutside(g, todo, r.value))
  {
    var last := |todo| - 1;
    var prefix := todo[..last];
    var d := todo[last];
    assert RepairEach(g, sources, todo) == RepairChunk(h, sources, d);
    UntouchedWiden(g, prefix, todo, h);
    RepairChunkAgainst(g, h, sources, todo, d);
    RepairChunkUntouched(g, h, sources, todo, d);
    AllRepairableSnoc(g, sources, todo);
    var r := RepairChunk(h, sources, d);
    if r.Err? {
      assert FirstFailure(g, sources, todo, last, r.error);
    }
  }

  /** A recorded source is never one of the chunks to repair, so `h` still has it as in `g`. */
  lemma SourcesUntouched(g: Graph, h: Graph, sources: map<string, seq<ChunkId>>, todo: seq<ChunkId>, n: string)
    requires RepairReady(g, sources, todo) && UntouchedOutside(g, todo, h) && n in sources
    ensures forall k | 0 <= k < |sources[n]| :: h.chunks[sources[n][k]] == g.chunks[sources[n][k]]
  {
  }

  /** What the repair of `todo[k]` reads in the arena `h` reached after `k` steps: the chunk and its sources, as in `g`. */
  ghost predicate SeesAsBefore(g: Graph, sources: map<string, seq<ChunkId>>, d: ChunkId, h: Graph)
    requires SourcesInRange(g, sources) && d < |g.chunks|
  {
    && |h.chunks| == |g.chunks|
    && h.chunks[d] == g.chunks[d]
    && var n := NameOf(g.chunks[d]);
       n in sources ==> forall j | 0 <= j < |sources[n]| :: h.chunks[sources[n][j]] == g.chunks[sources[n][j]]
  }

  lemma RepairStepSees(g: Graph, sources: map<string, seq<ChunkId>>, todo: seq<ChunkId>, k: nat, h: Graph)
    requires RepairReady(g, sources, todo) && k < |todo| && todo[k] !in todo[..k]
    requires UntouchedOutside(g, todo[..k], h)
    ensures SeesAsBefore(g, sources, todo[k], h)
  {
  }

  /** The chunk side of repairing `d` in `h`: it becomes `Repaired` of `g`, and no other chunk changes. */
  lemma RepairStepChunk(g: Graph, sources: map<string, seq<ChunkId>>, d: ChunkId, h: Graph, e: EntryId)
    requires EntriesInRange(g) && SourcesInRange(g, sources) && d < |g.chunks| && g.chunks[d].name.Some?
    requires NotASource(sources, d) && SeesAsBefore(g, sources, d, h)
    requires EntriesInRange(h) && |h.entrypoints| == e
    requires RepairChunk(h, sources, d).Ok?
    ensures var r := RepairChunk(h, sources, d).value;
      && Repairable(g, sources, NameOf(g.chunks[d]))
      && |r.chunks| == |h.chunks|
      && r.chunks[d] == Repaired(g, sources, d, e)
      && (forall i | 0 <= i < |h.chunks| && i != d :: r.chunks[i] == h.chunks[i])
  {
    var n := NameOf(g.chunks[d]);
    CommonParentsFrame(h.chunks, g.chunks, sources[n]);
    RepairChunkShape(h, sources, d);
    var src := sources[n][0];
    assert h.chunks[src] == g.chunks[src];
  }

  /** The entrypoint side of repairing `d` in `h`: a fresh entrypoint, and `Manifest` of `g` gains `d`. */
  lemma RepairStepEntrypoints(g: Graph, sources: map<string, seq<ChunkId>>, d: ChunkId, h: Graph)
    requires EntriesInRange(g) && SourcesInRange(g, sources) && d < |g.chunks| && g.chunks[d].name.Some?
    requires NotASource(sources, d) && SeesAsBefore(g, sources, d, h)
    requires EntriesInRange(h) && |g.entrypoints| <= |h.entrypoints|
    requires RepairChunk(h, sources, d).Ok?
    ensures var r := RepairChunk(h, sources, d).value;
      && Repairable(g, sources, NameOf(g.chunks[d]))
      && var m := Manifest(g, sources, d);
      && m < |g.entrypoints|
      && |r.entrypoints| == |h.entrypoints| + 1
      && r.entrypoints[|h.entrypoints|] == Entrypoint(g.chunks[d].name, [d])
      && r.entrypoints[m] == h.entrypoints[m].(chunks := h.entrypoints[m].chunks + [d])
      && (forall i | 0 <= i < |h.entrypoints| && i != m :: r.entrypoints[i] == h.entrypoints[i])
      && EntriesInRange(r)
  {
  }

  lemma RepairedChunksStep(g: Graph, sources: map<string, seq<ChunkId>>, todo: seq<ChunkId>, k: nat, h: Graph, r: Graph)
    requires RepairReady(g, sources, todo) && k < |todo| && todo[k] !in todo[..k]
    requires RepairedChunks(g, sources, todo, k, h)
    requires |r.chunks| == |h.chunks| && forall i | 0 <= i < |h.chunks| && i != todo[k] :: r.chunks[i] == h.chunks[i]
    requires Repairable(g, sources, NameOf(g.chunks[todo[k]]))
    requires r.chunks[todo[k]] == Repaired(g, sources, todo[k], |g.entrypoints| + k)
    ensures RepairedChunks(g, sources, todo, k + 1, r)
  {
  }

  lemma UntouchedStep(g: Graph, todo: seq<ChunkId>, k: nat, h: Graph, r: Graph)
    requires k < |todo| && UntouchedOutside(g, todo[..k], h)
    requires |r.chunks| == |h.chunks| && forall i | 0 <= i < |h.chunks| && i != todo[k] :: r.chunks[i] == h.chunks[i]
    ensures UntouchedOutside(g, todo[..k + 1], r)
  {
  }

  lemma FreshStep(g: Graph, sources: map<string, seq<ChunkId>>, todo: seq<ChunkId>, k: nat, h: Graph, r: Graph, m: EntryId)
    requires RepairReady(g, sources, todo) && k < |todo| && FreshEntries(g, sources, todo, k, h)
    requires m < |g.entrypoints| && |r.entrypoints| == |h.entrypoints| + 1
    requires r.entrypoints[|h.entrypoints|] == Entrypoint(g.chunks[todo[k]].name, [todo[k]])
    requires forall i | 0 <= i < |h.entrypoints| && i != m :: r.entrypoints[i] == h.entrypoints[i]
    ensures FreshEntries(g, sources, todo, k + 1, r)
  {
  }

  lemma OldEntriesStep(g: Graph, h: Graph, r: Graph, m: EntryId, d: ChunkId)
    requires OldEntriesKept(g, h) && m < |h.entrypoints| && |r.entrypoints| == |h.entrypoints| + 1
    requires r.entrypoints[m] == h.entrypoints[m].(chunks := h.entrypoints[m].chunks + [d])
    requires forall i | 0 <= i < |h.entrypoints| && i != m :: r.entrypoints[i] == h.entrypoints[i]
    ensures OldEntriesKept(g, r)
  {
  }

  lemma ManifestsStep(g: Graph, sources: map<string, seq<ChunkId>>, todo: seq<ChunkId>, k: nat, h: Graph, r: Graph)
    requires RepairReady(g, sources, todo) && k < |todo| && ManifestsList(g, sources, todo, k, h)
    requires Repairable(g, sources, NameOf(g.chunks[todo[k]])) && |r.entrypoints| == |h.entrypoints| + 1
    requires var m := Manifest(g, sources, todo[k]);
      && m < |h.entrypoints|
      && r.entrypoints[m] == h.entrypoints[m].(chunks := h.entrypoints[m].chunks + [todo[k]])
      && forall i | 0 <= i < |h.entrypoints| && i != m :: r.entrypoints[i] == h.entrypoints[i]
    ensures ManifestsList(g, sources, todo, k + 1, r)
  {
  }

  /** One repair step keeps the description of the repaired prefix. */
  lemma RepairStep(g: Graph, sources: map<string, seq<ChunkId>>, todo: seq<ChunkId>, k: nat, h: Graph)
    requires RepairReady(g, sources, todo) && NoDup(todo) && k < |todo|
    requires RepairedUpTo(g, sources, todo, k, h)
    requires RepairChunk(h, sources, todo[k]).Ok?
    ensures RepairedUpTo(g, sources, todo, k + 1, RepairChunk(h, sources, todo[k]).value)
  {
    var d := todo[k];
    assert d !in todo[..k];
    RepairStepSees(g, sources, todo, k, h);
    RepairStepChunk(g, sources, d, h, |g.entrypoints| + k);
    RepairStepEntrypoints(g, sources, d, h);
    var r := RepairChunk(h, sources, d).value;
    var m := Manifest(g, sources, d);
    RepairedChunksStep(g, sources, todo, k, h, r);
    UntouchedStep(g, todo, k, h, r);
    FreshStep(g, sources, todo, k, h, r, m);
    OldEntriesStep(g, h, r, m, d);
    ManifestsStep(g, sources, todo, k, h, r);
  }

  lemma {:induction false} RepairEachPrefix(g: Graph, sources: map<string, seq<ChunkId>>, todo: seq<ChunkId>, k: nat)
    requires RepairReady(g, sources, todo) && NoDup(todo) && k <= |todo|
    requires RepairReady(g, sources, todo[..k])
    requires RepairEach(g, sources, todo[..k]).Ok?
    ensures RepairedUpTo(g, sources, todo, k, RepairEach(g, sources, todo[..k]).value)
  {
    if k == 0 {
      assert todo[..0] == [];
    } else {
      var prefix := todo[..k - 1];
      assert todo[..k][..k - 1] == prefix;
      assert RepairReady(g, sources, prefix);
      var h := RepairEach(g, sources, prefix).value;
      RepairEachPrefix(g, sources, todo, k - 1);
      RepairStep(g, sources, todo, k - 1, h);
    }
  }

  /** Once the loop has stopped at a TypeError, no later chunk is reached: the error is the loop's. */
  lemma {:induction false} RepairEachStops(g: Graph, sources: map<string, seq<ChunkId>>, todo: seq<ChunkId>, k: nat)
    requires RepairReady(g, sources, todo) && k <= |todo|
    requires RepairReady(g, sources, todo[..k])
    requires RepairEach(g, sources, todo[..k]).Err?
    ensures RepairEach(g, sources, todo) == RepairEach(g, sources, todo[..k])
  {
    if k == |todo| {
      assert todo[..k] == todo;
    } else {
      var prefix := todo[..|todo| - 1];
      assert prefix[..k] == todo[..k];
      assert RepairReady(g, sources, prefix);
      RepairEachStops(g, sources, prefix, k);
    }
  }

  /** After a successful repair loop over distinct chunks, each is repaired once, as `Repaired` says. */
  lemma RepairEachShape(g: Graph, sources: map<string, seq<ChunkId>>, todo: seq<ChunkId>)
    requires RepairReady(g, sources, todo) && NoDup(todo)
    requires RepairEach(g, sources, todo).Ok?
    ensures RepairedUpTo(g, sources, todo, |todo|, RepairEach(g, sources, todo).value)
  {
    assert todo[..|todo|] == todo;
    RepairEachPrefix(g, sources, todo, |todo|);
  }

  // ---------------------------------------------------------------------------
  // The whole pass (index.js:62-121)
  // ---------------------------------------------------------------------------

  /** Every key of `extraChunks` after the scan is the name of some bucket. */
  lemma ScanExtraNamesBuckets(buckets: seq<Bucket>, cs: seq<Chunk>, n: string)
    requires n in Scan(buckets, cs).extra
    ensures exists i | 0 <= i < |buckets| :: buckets[i].name == n
  {
    ScanDestinations(buckets, cs);
    var c: ChunkId, m: Module :| RoutedFrom(buckets, cs, c, m, n);
    var i := Route(buckets, cs[c].name.value, ResourceText(m)).value;
    assert buckets[i].name == n;
  }

  /** The scan hands the repair loop an arena it can work on. */
  lemma ScanReady(buckets: seq<Bucket>, g: Graph)
    requires EntriesInRange(g)
    ensures var st := Scan(buckets, g.chunks);
      && SourcesInRange(g, st.sources)
      && RepairReady(Graph(st.chunks, g.entrypoints), st.sources, ToRepair(buckets, st.extra))
  {
    var cs := g.chunks;
    var st := Scan(buckets, cs);
    var h := Graph(st.chunks, g.entrypoints);
    ScanCreatesOnePerName(buckets, cs);
    ScanSources(buckets, cs);
    assert EntriesInRange(h) by {
      forall i, k | 0 <= i < |h.chunks| && 0 <= k < |h.chunks[i].entrypoints|
        ensures h.chunks[i].entrypoints[k] < |h.entrypoints|
      {
        if i < |cs| {
          assert h.chunks[i].entrypoints == cs[i].entrypoints;
        }
      }
    }
    var todo := ToRepair(buckets, st.extra);
    forall p | 0 <= p < |todo|
      ensures todo[p] < |h.chunks| && h.chunks[todo[p]].name.Some? && NotASource(st.sources, todo[p])
    {
      assert todo[p] in todo;
      var i :| 0 <= i < |buckets| && buckets[i].name in st.extra && st.extra[buckets[i].name] == todo[p];
      forall n | n in st.sources
        ensures todo[p] !in st.sources[n]
      {
        forall k | 0 <= k < |st.sources[n]|
          ensures st.sources[n][k] < |cs|
        {
          assert LastDestination(buckets, cs, st.sources[n][k], n);
        }
      }
    }
    assert forall n, k | n in st.sources && 0 <= k < |st.sources[n]| :: st.sources[n][k] < |cs| by {
      forall n, k | n in st.sources && 0 <= k < |st.sources[n]|
        ensures st.sources[n][k] < |cs|
      {
        assert LastDestination(buckets, cs, st.sources[n][k], n);
      }
    }
  }

  /**
   * The `optimize-chunks` handler on the arena `g`: the scan, then the repair
   * of the new chunks in bucket order. It keeps every chunk's name and keeps
   * every entrypoint reference in range.
   */
  function Optimize(buckets: seq<Bucket>, g: Graph): (r: Result<Graph, PassError>)
    requires EntriesInRange(g)
    ensures r.Ok? ==>
      && |g.chunks| <= |r.value.chunks|
      && |g.entrypoints| <= |r.value.entrypoints|
      && (forall i | 0 <= i < |g.chunks| :: r.value.chunks[i].name == g.chunks[i].name)
      && EntriesInRange(r.value)
  {
    var st := Scan(buckets, g.chunks);
    ScanReady(buckets, g);
    RepairEach(Graph(st.chunks, g.entrypoints), st.sources, ToRepair(buckets, st.extra))
  }

  /** Distinct keys of `extraChunks` point at distinct chunks after the scan. */
  lemma ScanExtraInjective(buckets: seq<Bucket>, cs: seq<Chunk>)
    ensures var st := Scan(buckets, cs);
      forall n1, n2 | n1 in st.extra && n2 in st.extra && n1 != n2 :: st.extra[n1] != st.extra[n2]
  {
    ScanCreatesOnePerName(buckets, cs);
  }

  /** No two buckets share a name. */
  predicate DistinctNames(buckets: seq<Bucket>) {
    forall i, j | 0 <= i < j < |buckets| :: buckets[i].name != buckets[j].name
  }

  lemma {:induction false} ToRepairNoDup(buckets: seq<Bucket>, extra: map<string, ChunkId>)
    requires DistinctNames(buckets)
    requires forall n1, n2 | n1 in extra && n2 in extra && n1 != n2 :: extra[n1] != extra[n2]
    ensures NoDup(ToRepair(buckets, extra))
  {
    if buckets != [] {
      var last := |buckets| - 1;
      var prefix := buckets[..last];
      var b := buckets[last];
      assert forall i | 0 <= i < last :: prefix[i] == buckets[i];
      ToRepairNoDup(prefix, extra);
      var before := ToRepair(prefix, extra);
      if b.name in extra {
        forall x | x in before
          ensures x != extra[b.name]
        {
          var i :| 0 <= i < |prefix| && prefix[i].name in extra && extra[prefix[i].name] == x;
          assert prefix[i].name != b.name;
        }
        NoDupAppend(before, [extra[b.name]]);
      }
    }
  }

  /** The repair loop's view of the scanned arena agrees with the original arena on the recorded sources. */
  lemma ScannedRepairable(buckets: seq<Bucket>, g: Graph, n: string)
    requires EntriesInRange(g)
    ensures var st := Scan(buckets, g.chunks);
      && SourcesInRange(g, st.sources)
      && (n in st.extra ==>
            && NameOf(st.chunks[st.extra[n]]) == n
            && st.extra[n] in ToRepair(buckets, st.extra)
            && (Repairable(Graph(st.chunks, g.entrypoints), st.sources, n) <==> Repairable(g, st.sources, n)))
  {
    var st := Scan(buckets, g.chunks);
    ScanReady(buckets, g);
    ScanCreatesOnePerName(buckets, g.chunks);
    if n in st.extra {
      ScanExtraNamesBuckets(buckets, g.chunks, n);
      var i :| 0 <= i < |buckets| && buckets[i].name == n;
      if n in st.sources && st.sources[n] != [] {
        assert st.sources[n][0] < |g.chunks|;
      }
    }
  }

  /** The chunks to repair are all repairable exactly when every bucket name with a chunk is. */
  lemma ScannedAllRepairable(buckets: seq<Bucket>, g: Graph)
    requires EntriesInRange(g)
    ensures var st := Scan(buckets, g.chunks);
      && SourcesInRange(g, st.sources)
      && RepairReady(Graph(st.chunks, g.entrypoints), st.sources, ToRepair(buckets, st.extra))
      && (AllRepairable(Graph(st.chunks, g.entrypoints), st.sources, ToRepair(buckets, st.extra)) <==>
            forall n | n in st.extra :: Repairable(g, st.sources, n))
  {
    var st := Scan(buckets, g.chunks);
    var h := Graph(st.chunks, g.entrypoints);
    var todo := ToRepair(buckets, st.extra);
    ScanReady(buckets, g);
    forall n | n in st.extra
      ensures NameOf(st.chunks[st.extra[n]]) == n && st.extra[n] in todo
      ensures Repairable(h, st.sources, n) <==> Repairable(g, st.sources, n)
    {
      ScannedRepairable(buckets, g, n);
    }
    if AllRepairable(h, st.sources, todo) {
      forall n | n in st.extra
        ensures Repairable(g, st.sources, n)
      {
        var p :| 0 <= p < |todo| && todo[p] == st.extra[n];
      }
    }
    if forall n | n in st.extra :: Repairable(g, st.sources, n) {
      forall p | 0 <= p < |todo|
        ensures Repairable(h, st.sources, NameOf(h.chunks[todo[p]]))
      {
        assert todo[p] in todo;
        var i :| 0 <= i < |buckets| && buckets[i].name in st.extra && st.extra[buckets[i].name] == todo[p];
      }
    }
  }

  /** A failing repair loop fails at a bucket name with a chunk, with that name's error. */
  lemma ScannedFailure(buckets: seq<Bucket>, g: Graph, p: int, e: PassError)
    requires EntriesInRange(g)
    requires var st := Scan(buckets, g.chunks);
      RepairReady(Graph(st.chunks, g.entrypoints), st.sources, ToRepair(buckets, st.extra))
      && FirstFailure(Graph(st.chunks, g.entrypoints), st.sources, ToRepair(buckets, st.extra), p, e)
    ensures var st := Scan(buckets, g.chunks);
      && SourcesInRange(g, st.sources)
      && exists n | n in st.extra ::
        && !Repairable(g, st.sources, n)
        && e == (if n in st.sources && st.sources[n] != [] then NoManifestEntrypoint(st.sources[n][0]) else NoRecordedSource(n))
  {
    var st := Scan(buckets, g.chunks);
    var todo := ToRepair(buckets, st.extra);
    assert todo[p] in todo;
    var i :| 0 <= i < |buckets| && buckets[i].name in st.extra && st.extra[buckets[i].name] == todo[p];
    var n := buckets[i].name;
    ScannedRepairable(buckets, g, n);
  }

  /**
   * The whole pass succeeds exactly when every bucket that received modules
   * has a recorded source chunk whose first entrypoint exists; otherwise it
   * throws at such a bucket: at index.js:104 when no source chunk was
   * recorded under its name, at index.js:108 when the first one has no
   * entrypoint.
   */
  lemma OptimizeOutcome(buckets: seq<Bucket>, g: Graph)
    requires EntriesInRange(g)
    ensures var st := Scan(buckets, g.chunks);
      SourcesInRange(g, st.sources)
    ensures var st := Scan(buckets, g.chunks);
      Optimize(buckets, g).Ok? <==> forall n | n in st.extra :: Repairable(g, st.sources, n)
    ensures var st := Scan(buckets, g.chunks);
      var r := Optimize(buckets, g);
      r.Err? ==> exists n | n in st.extra ::
        && !Repairable(g, st.sources, n)
        && r.error == (if n in st.sources && st.sources[n] != [] then NoManifestEntrypoint(st.sources[n][0]) else NoRecordedSource(n))
  {
    var st := Scan(buckets, g.chunks);
    var h := Graph(st.chunks, g.entrypoints);
    var todo := ToRepair(buckets, st.extra);
    ScannedAllRepairable(buckets, g);
    RepairEachOutcome(h, st.sources, todo);
    var r := Optimize(buckets, g);
    if r.Err? {
      var p :| FirstFailure(h, st.sources, todo, p, r.error);
      ScannedFailure(buckets, g, p, r.error);
    }
  }

  /** The repair never touches a chunk that existed before the pass, beyond what the scan did. */
  lemma OptimizeKeepsOriginals(buckets: seq<Bucket>, g: Graph)
    requires EntriesInRange(g)
    requires Optimize(buckets, g).Ok?
    ensures var st := Scan(buckets, g.chunks);
      var r := Optimize(buckets, g).value;
      && |r.chunks| == |st.chunks|
      && forall i | 0 <= i < |g.chunks| :: r.chunks[i] == st.chunks[i]
  {
    var st := Scan(buckets, g.chunks);
    var h := Graph(st.chunks, g.entrypoints);
    var todo := ToRepair(buckets, st.extra);
    ScanReady(buckets, g);
    RepairEachOutcome(h, st.sources, todo);
    forall p | 0 <= p < |todo|
      ensures |g.chunks| <= todo[p]
    {
      assert todo[p] in todo;
      var j :| 0 <= j < |buckets| && buckets[j].name in st.extra && st.extra[buckets[j].name] == todo[p];
    }
  }

  /** The manifest entrypoint the pass gives the chunk of bucket name `n`, read off the original arena. */
  function ManifestOf(g: Graph, sources: map<string, seq<ChunkId>>, n: string): EntryId
    requires SourcesInRange(g, sources) && Repairable(g, sources, n)
  {
    g.chunks[sources[n][0]].entrypoints[0]
  }

  /** In `h`, the chunk at position `p` of `todo` is repaired, with its fresh entrypoint and its manifest entrypoint. */
  ghost predicate PositionRepaired(g: Graph, sources: map<string, seq<ChunkId>>, todo: seq<ChunkId>, p: nat, h: Graph)
    requires RepairReady(g, sources, todo) && p < |todo|
  {
    && Repairable(g, sources, NameOf(g.chunks[todo[p]]))
    && var m := Manifest(g, sources, todo[p]);
    && var e := |g.entrypoints| + p;
    && todo[p] < |h.chunks| && m < |h.entrypoints| && e < |h.entrypoints|
    && h.chunks[todo[p]] == Repaired(g, sources, todo[p], e)
    && h.entrypoints[e] == Entrypoint(g.chunks[todo[p]].name, [todo[p]])
    && todo[p] in h.entrypoints[m].chunks
  }

  /** The repaired prefix, read at position `p`. */
  lemma RepairedPosition(g: Graph, sources: map<string, seq<ChunkId>>, todo: seq<ChunkId>, k: nat, h: Graph, p: nat)
    requires RepairReady(g, sources, todo) && k <= |todo| && RepairedUpTo(g, sources, todo, k, h) && p < k
    ensures PositionRepaired(g, sources, todo, p, h)
  {
  }

  /** After a successful repair loop over distinct chunks, the chunk at position `p` and its two entrypoints. */
  lemma RepairEachAt(g: Graph, sources: map<string, seq<ChunkId>>, todo: seq<ChunkId>, p: nat, r: Graph)
    requires RepairReady(g, sources, todo) && NoDup(todo) && RepairEach(g, sources, todo) == Ok(r) && p < |todo|
    ensures PositionRepaired(g, sources, todo, p, r)
  {
    RepairEachShape(g, sources, todo);
    RepairedPosition(g, sources, todo, |todo|, r, p);
  }

  /**
   * In `r`, chunk `d` (which was `base` before the repair) is the repaired
   * chunk of bucket name `n`: its entrypoints are [the manifest entrypoint,
   * the fresh entrypoint `e`], its parents the common parents of its
   * sources, `e` is named `n` and loads just `d`, and the manifest
   * entrypoint lists `d`.
   */
  ghost predicate NewChunkRepaired(g: Graph, sources: map<string, seq<ChunkId>>, n: string, r: Graph, d: ChunkId, e: EntryId, base: Chunk)
    requires SourcesInRange(g, sources)
  {
    && Repairable(g, sources, n)
    && var m := ManifestOf(g, sources, n);
    && d < |r.chunks| && m < |r.entrypoints| && e < |r.entrypoints|
    && r.chunks[d] == base.(entrypoints := [m, e], parents := CommonParents(g.chunks, sources[n]))
    && r.entrypoints[e] == Entrypoint(Some(n), [d])
    && d in r.entrypoints[m].chunks
  }

  /** `NewChunkRepaired`, field by field. */
  lemma NewChunkUnpacked(g: Graph, sources: map<string, seq<ChunkId>>, n: string, r: Graph, d: ChunkId, e: EntryId, base: Chunk)
    requires SourcesInRange(g, sources) && NewChunkRepaired(g, sources, n, r, d, e, base)
    ensures Repairable(g, sources, n)
    ensures var m := ManifestOf(g, sources, n);
      && d < |r.chunks| && m < |r.entrypoints| && e < |r.entrypoints|
      && r.chunks[d].name == base.name && r.chunks[d].modules == base.modules
      && r.chunks[d].parents == CommonParents(g.chunks, sources[n])
      && r.chunks[d].entrypoints == [m, e]
      && r.entrypoints[e] == Entrypoint(Some(n), [d])
      && d in r.entrypoints[m].chunks
  {
  }

  /**
   * Chunk `d` repaired over the chunks `cs` and the entrypoints of `g`,
   * restated against `g` when `cs` agrees with `g` on the entrypoints and
   * parents of its chunks and `d` has no entrypoint yet.
   */
  lemma RepairedAgainst(g: Graph, cs: seq<Chunk>, sources: map<string, seq<ChunkId>>, d: ChunkId, e: EntryId, n: string)
    requires SourcesInRange(Graph(cs, g.entrypoints), sources) && d < |cs|
    requires cs[d].name == Some(n) && cs[d].entrypoints == []
    requires Repairable(Graph(cs, g.entrypoints), sources, NameOf(cs[d]))
    requires SourcesInRange(g, sources) && |g.chunks| <= |cs|
    requires forall i | 0 <= i < |g.chunks| :: cs[i].entrypoints == g.chunks[i].entrypoints && cs[i].parents == g.chunks[i].parents
    ensures Repairable(g, sources, n)
    ensures Manifest(Graph(cs, g.entrypoints), sources, d) == ManifestOf(g, sources, n)
    ensures Repaired(Graph(cs, g.entrypoints), sources, d, e)
      == cs[d].(entrypoints := [ManifestOf(g, sources, n), e], parents := CommonParents(g.chunks, sources[n]))
  {
    var src := sources[n][0];
    assert cs[src].entrypoints == g.chunks[src].entrypoints;
    CommonParentsFrame(cs, g.chunks, sources[n]);
    var m := ManifestOf(g, sources, n);
    assert [m, e] + cs[d].entrypoints == [m, e];
  }

  /**
   * The repaired chunk at position `p` of `todo` and its two entrypoints in
   * `r`, restated against `g` when the repair ran on the chunks `cs` over the
   * entrypoints of `g`, and `cs` agrees with `g` on the entrypoints and
   * parents of the chunks `g` has.
   */
  lemma RepairedAtCore(g: Graph, cs: seq<Chunk>, sources: map<string, seq<ChunkId>>, todo: seq<ChunkId>, p: nat, r: Graph, n: string)
    requires RepairReady(Graph(cs, g.entrypoints), sources, todo) && p < |todo|
    requires PositionRepaired(Graph(cs, g.entrypoints), sources, todo, p, r)
    requires cs[todo[p]].name == Some(n) && cs[todo[p]].entrypoints == []
    requires SourcesInRange(g, sources) && |g.chunks| <= |cs|
    requires forall i | 0 <= i < |g.chunks| :: cs[i].entrypoints == g.chunks[i].entrypoints && cs[i].parents == g.chunks[i].parents
    ensures NewChunkRepaired(g, sources, n, r, todo[p], |g.entrypoints| + p, cs[todo[p]])
  {
    RepairedAgainst(g, cs, sources, todo[p], |g.entrypoints| + p, n);
  }

  /** A successful repair loop over distinct new chunks, read at position `p` and restated against `g`. */
  lemma RepairLoopAt(g: Graph, cs: seq<Chunk>, sources: map<string, seq<ChunkId>>, todo: seq<ChunkId>, n: string, p: nat, r: Graph)
    requires RepairReady(Graph(cs, g.entrypoints), sources, todo) && NoDup(todo) && p < |todo|
    requires RepairEach(Graph(cs, g.entrypoints), sources, todo) == Ok(r)
    requires cs[todo[p]].name == Some(n) && cs[todo[p]].entrypoints == []
    requires SourcesInRange(g, sources) && |g.chunks| <= |cs|
    requires forall i | 0 <= i < |g.chunks| :: cs[i].entrypoints == g.chunks[i].entrypoints && cs[i].parents == g.chunks[i].parents
    ensures NewChunkRepaired(g, sources, n, r, todo[p], |g.entrypoints| + p, cs[todo[p]])
  {
    RepairEachAt(Graph(cs, g.entrypoints), sources, todo, p, r);
    RepairedAtCore(g, cs, sources, todo, p, r, n);
  }

  /** The repaired arena, read at position `p` of the chunks to repair, where the chunk of bucket name `n` is. */
  lemma RepairedAt(buckets: seq<Bucket>, g: Graph, n: string, p: nat)
    requires EntriesInRange(g) && DistinctNames(buckets)
    requires Optimize(buckets, g).Ok?
    requires var st := Scan(buckets, g.chunks);
      n in st.extra && p < |ToRepair(buckets, st.extra)| && ToRepair(buckets, st.extra)[p] == st.extra[n]
    ensures var st := Scan(buckets, g.chunks);
      var todo := ToRepair(buckets, st.extra);
      && SourcesInRange(g, st.sources)
      && NewChunkRepaired(g, st.sources, n, Optimize(buckets, g).value, st.extra[n], |g.entrypoints| + p, st.chunks[st.extra[n]])
      && st.chunks[st.extra[n]].name == Some(n)
  {
    var st := Scan(buckets, g.chunks);
    var h := Graph(st.chunks, g.entrypoints);
    var todo := ToRepair(buckets, st.extra);
    ScanReady(buckets, g);
    ScanExtraInjective(buckets, g.chunks);
    ToRepairNoDup(buckets, st.extra);
    ScannedRepairable(buckets, g, n);
    ScanCreatesOnePerName(buckets, g.chunks);
    var r := Optimize(buckets, g).value;
    assert RepairEach(h, st.sources, todo) == Ok(r);
    RepairLoopAt(g, st.chunks, st.sources, todo, n, p, r);
    assert todo[p] == st.extra[n];
  }

  /**
   * After a successful pass with distinct bucket names, the chunk created for
   * each bucket name `n` keeps the modules the scan gave it and has:
   * entrypoints [the manifest entrypoint (first entrypoint of the first
   * chunk recorded under `n`), a fresh entrypoint named `n` loading just this
   * chunk]; parents `CommonParents` of the recorded chunks; and the manifest
   * entrypoint lists it.
   */
  lemma OptimizeNewChunk(buckets: seq<Bucket>, g: Graph, n: string)
    requires EntriesInRange(g) && DistinctNames(buckets)
    requires Optimize(buckets, g).Ok?
    requires n in Scan(buckets, g.chunks).extra
    ensures var st := Scan(buckets, g.chunks);
      var d := st.extra[n];
      var r := Optimize(buckets, g).value;
      && SourcesInRange(g, st.sources)
      && Repairable(g, st.sources, n)
      && var m := ManifestOf(g, st.sources, n);
      && d < |r.chunks| && m < |r.entrypoints|
      && r.chunks[d].name == Some(n)
      && r.chunks[d].modules == st.chunks[d].modules
      && r.chunks[d].parents == CommonParents(g.chunks, st.sources[n])
      && |r.chunks[d].entrypoints| == 2
      && r.chunks[d].entrypoints[0] == m
      && |g.entrypoints| <= r.chunks[d].entrypoints[1] < |r.entrypoints|
      && r.entrypoints[r.chunks[d].entrypoints[1]] == Entrypoint(Some(n), [d])
      && d in r.entrypoints[m].chunks
  {
    var st := Scan(buckets, g.chunks);
    var todo := ToRepair(buckets, st.extra);
    ScannedRepairable(buckets, g, n);
    var p :| 0 <= p < |todo| && todo[p] == st.extra[n];
    RepairedAt(buckets, g, n, p);
    NewChunkUnpacked(g, st.sources, n, Optimize(buckets, g).value, st.extra[n], |g.entrypoints| + p, st.chunks[st.extra[n]]);
  }

  /** A successful repair loop keeps the names of the entrypoints it started with, which only gain chunks at the end. */
  lemma {:induction false} RepairEachKeepsOldEntries(g: Graph, sources: map<string, seq<ChunkId>>, todo: seq<ChunkId>)
    requires RepairReady(g, sources, todo)
    ensures RepairEach(g, sources, todo).Ok? ==> OldEntriesKept(g, RepairEach(g, sources, todo).value)
  {
    if todo != [] {
      var prefix := todo[..|todo| - 1];
      var d := todo[|todo| - 1];
      assert forall p | 0 <= p < |prefix| :: prefix[p] == todo[p];
      RepairEachKeepsOldEntries(g, sources, prefix);
      var before := RepairEach(g, sources, prefix);
      if before.Ok? {
        var h := before.value;
        RepairChunkShape(h, sources, d);
        var r := RepairChunk(h, sources, d);
        if r.Ok? {
          var n := h.chunks[d].name.value;
          OldEntriesStep(g, h, r.value, h.chunks[sources[n][0]].entrypoints[0], d);
        }
      }
    }
  }

  /** After a successful pass, entrypoints that existed before keep their names and only gain chunks at the end. */
  lemma OptimizeOldEntrypoints(buckets: seq<Bucket>, g: Graph)
    requires EntriesInRange(g)
    requires Optimize(buckets, g).Ok?
    ensures var r := Optimize(buckets, g).value;
      forall i | 0 <= i < |g.entrypoints| ::
        r.entrypoints[i].name == g.entrypoints[i].name && g.entrypoints[i].chunks <= r.entrypoints[i].chunks
  {
    var st := Scan(buckets, g.chunks);
    ScanReady(buckets, g);
    RepairEachKeepsOldEntries(Graph(st.chunks, g.entrypoints), st.sources, ToRepair(buckets, st.extra));
  }
}
