/**
 * The first half of the `optimize-chunks` handler: every initial, named
 * chunk is scanned in order; each module of a snapshot of its module list is
 * routed to the first matching bucket (unless that bucket's lists rule the
 * chunk out), the bucket's chunk is created on first use and reused after,
 * the module is moved there, and the scanned chunk is recorded under the
 * name of the destination of its last moved module.
 */
module Scanning {
  import opened Wrappers
  import opened BucketConfig
  import opened Matching
  import opened ChunkGraph

  /**
   * The filter of the handler: the chunk is initial and its name is truthy,
   * that is neither undefined nor the empty string.
   */
  predicate Scanned(c: Chunk): (r: bool)
    ensures r <==> c.initial && c.name.Some? && c.name.value != ""
  {
    c.initial && c.name != None && c.name != Some("")
  }

  /** The chunks the handler keeps for scanning, as their indices in list order. */
  function ScanOrder(cs: seq<Chunk>): (r: seq<ChunkId>)
    ensures forall k | 0 <= k < |r| :: r[k] < |cs| && Scanned(cs[r[k]])
    ensures forall i | 0 <= i < |cs| && Scanned(cs[i]) :: i in r
    ensures forall a, b | 0 <= a < b < |r| :: r[a] < r[b]
  {
    if cs == [] then []
    else ScanOrder(cs[..|cs| - 1]) + (if Scanned(cs[|cs| - 1]) then [|cs| - 1] else [])
  }

  /** The name of the bucket a module of the named chunk is routed to, if any. */
  function RouteName(buckets: seq<Bucket>, chunkName: string, m: Module): (r: Option<string>)
  {
    match Route(buckets, chunkName, ResourceText(m))
    case None => None
    case Some(i) => Some(buckets[i].name)
  }

  /** The pass-local state: the chunk arena, `extraChunks` and `chunksWithExtractedModules`. */
  datatype ScanState = ScanState(
    chunks: seq<Chunk>,
    extra: map<string, ChunkId>,
    sources: map<string, seq<ChunkId>>)

  /** `extraChunks` only gains entries, and those point at chunks created meanwhile. */
  predicate ExtraGrows(st: ScanState, r: ScanState) {
    forall n | n in r.extra ::
      (n in st.extra && r.extra[n] == st.extra[n]) || |st.chunks| <= r.extra[n] < |r.chunks|
  }

  /** Every chunk in `extraChunks` exists and lies above the scanned chunk `c`. */
  predicate Above(st: ScanState, c: ChunkId) {
    forall n | n in st.extra :: c < st.extra[n] < |st.chunks|
  }

  /** The chunk fields that scanning never changes (all but the module list) are kept. */
  predicate Preserves(before: seq<Chunk>, after: seq<Chunk>) {
    && |before| <= |after|
    && forall i | 0 <= i < |before| ::
         && after[i].name == before[i].name
         && after[i].initial == before[i].initial
         && after[i].parents == before[i].parents
         && after[i].entrypoints == before[i].entrypoints
  }

  /** One module of the snapshot of chunk `c` (index.js:74-84). */
  function VisitModule(buckets: seq<Bucket>, st: ScanState, c: ChunkId, chunkName: string, m: Module): (r: ScanState)
    requires c < |st.chunks| && Above(st, c)
    ensures Above(r, c) && Preserves(st.chunks, r.chunks) && ExtraGrows(st, r) && r.sources == st.sources
  {
    match RouteName(buckets, chunkName, m)
    case None => st
    case Some(n) =>
      if n in st.extra then
        st.(chunks := MoveModule(st.chunks, c, m, st.extra[n]))
      else
        var d := |st.chunks|;
        st.(chunks := MoveModule(st.chunks + [NewChunk(n)], c, m, d), extra := st.extra[n := d])
  }

  /**
   * A module no bucket takes leaves the state as it is; a routed module ends
   * in the chunk of its bucket and out of the scanned chunk, which gains
   * nothing; `extraChunks` loses no key.
   */
  lemma VisitModuleEffect(buckets: seq<Bucket>, st: ScanState, c: ChunkId, chunkName: string, m: Module)
    requires c < |st.chunks| && Above(st, c)
    ensures var r := VisitModule(buckets, st, c, chunkName, m);
      && (RouteName(buckets, chunkName, m).None? ==> r == st)
      && (RouteName(buckets, chunkName, m).Some? ==>
            && RouteName(buckets, chunkName, m).value in r.extra
            && m in r.chunks[r.extra[RouteName(buckets, chunkName, m).value]].modules
            && m !in r.chunks[c].modules)
      && st.extra.Keys <= r.extra.Keys
      && (forall x | x in r.chunks[c].modules :: x in st.chunks[c].modules)
  {
  }

  /** The modules of a snapshot, visited left to right. */
  function VisitModules(buckets: seq<Bucket>, st: ScanState, c: ChunkId, chunkName: string, ms: seq<Module>): (r: ScanState)
    requires c < |st.chunks| && Above(st, c)
    ensures Above(r, c) && Preserves(st.chunks, r.chunks) && ExtraGrows(st, r) && r.sources == st.sources
  {
    if ms == [] then st
    else
      var before := VisitModules(buckets, st, c, chunkName, ms[..|ms| - 1]);
      VisitModule(buckets, before, c, chunkName, ms[|ms| - 1])
  }

  /**
   * After the snapshot is visited, every routed module has left the scanned
   * chunk and its bucket has a chunk; the scanned chunk gained nothing and
   * `extraChunks` lost no key.
   */
  lemma {:induction false} VisitModulesRouted(buckets: seq<Bucket>, st: ScanState, c: ChunkId, chunkName: string, ms: seq<Module>)
    requires c < |st.chunks| && Above(st, c)
    ensures var r := VisitModules(buckets, st, c, chunkName, ms);
      && st.extra.Keys <= r.extra.Keys
      && (forall x | x in r.chunks[c].modules :: x in st.chunks[c].modules)
      && forall k | 0 <= k < |ms| && RouteName(buckets, chunkName, ms[k]).Some? ::
           RouteName(buckets, chunkName, ms[k]).value in r.extra && ms[k] !in r.chunks[c].modules
  {
    if ms != [] {
      var prefix := ms[..|ms| - 1];
      var last := ms[|ms| - 1];
      VisitModulesRouted(buckets, st, c, chunkName, prefix);
      var before := VisitModules(buckets, st, c, chunkName, prefix);
      VisitModuleEffect(buckets, before, c, chunkName, last);
      RoutedStep(buckets, chunkName, ms, prefix, c, st, before, VisitModule(buckets, before, c, chunkName, last));
    }
  }

  /** The step of `VisitModulesRouted`, over the states before and after the last module. */
  lemma RoutedStep(buckets: seq<Bucket>, chunkName: string, ms: seq<Module>, prefix: seq<Module>, c: ChunkId, st: ScanState, before: ScanState, r: ScanState)
    requires ms != [] && prefix == ms[..|ms| - 1] && c < |st.chunks| && c < |before.chunks| && c < |r.chunks|
    requires st.extra.Keys <= before.extra.Keys
    requires forall x | x in before.chunks[c].modules :: x in st.chunks[c].modules
    requires forall k | 0 <= k < |prefix| && RouteName(buckets, chunkName, prefix[k]).Some? ::
      RouteName(buckets, chunkName, prefix[k]).value in before.extra && prefix[k] !in before.chunks[c].modules
    requires var last := ms[|ms| - 1];
      RouteName(buckets, chunkName, last).Some? ==>
        RouteName(buckets, chunkName, last).value in r.extra && last !in r.chunks[c].modules
    requires before.extra.Keys <= r.extra.Keys
    requires forall x | x in r.chunks[c].modules :: x in before.chunks[c].modules
    ensures st.extra.Keys <= r.extra.Keys
    ensures forall x | x in r.chunks[c].modules :: x in st.chunks[c].modules
    ensures forall k | 0 <= k < |ms| && RouteName(buckets, chunkName, ms[k]).Some? ::
      RouteName(buckets, chunkName, ms[k]).value in r.extra && ms[k] !in r.chunks[c].modules
  {
    forall k | 0 <= k < |ms| && RouteName(buckets, chunkName, ms[k]).Some?
      ensures RouteName(buckets, chunkName, ms[k]).value in r.extra && ms[k] !in r.chunks[c].modules
    {
      if k < |ms| - 1 {
        assert prefix[k] == ms[k];
      }
    }
  }

  /** The bucket name of the last routed module of `ms`: the chunk `newChunk` ends on. */
  function LastRouted(buckets: seq<Bucket>, chunkName: string, ms: seq<Module>): (r: Option<string>)
  {
    if ms == [] then None
    else
      match RouteName(buckets, chunkName, ms[|ms| - 1])
      case Some(n) => Some(n)
      case None => LastRouted(buckets, chunkName, ms[..|ms| - 1])
  }

  /** Appends a source chunk to the list kept under a destination name (index.js:88-91). */
  function Record(sources: map<string, seq<ChunkId>>, n: string, c: ChunkId): (r: map<string, seq<ChunkId>>)
    ensures r.Keys == sources.Keys + {n}
    ensures r[n] == (if n in sources then sources[n] else []) + [c]
    ensures forall k | k in sources && k != n :: r[k] == sources[k]
  {
    sources[n := (if n in sources then sources[n] else []) + [c]]
  }

  /** One scanned chunk: visit a snapshot of its modules, then record it (index.js:70-92). */
  function ScanChunk(buckets: seq<Bucket>, st: ScanState, c: ChunkId): (r: ScanState)
    requires c < |st.chunks| && st.chunks[c].name.Some? && Above(st, c)
    ensures Above(r, c) && Preserves(st.chunks, r.chunks) && ExtraGrows(st, r)
  {
    var chunkName := st.chunks[c].name.value;
    var ms := st.chunks[c].modules;
    var visited := VisitModules(buckets, st, c, chunkName, ms);
    match LastRouted(buckets, chunkName, ms)
    case None => visited
    case Some(n) => visited.(sources := Record(visited.sources, n, c))
  }

  /** The chunks of `order`, scanned one after the other, from the original arena. */
  function ScanChunks(buckets: seq<Bucket>, cs: seq<Chunk>, order: seq<ChunkId>): (r: ScanState)
    requires forall k | 0 <= k < |order| :: order[k] < |cs| && cs[order[k]].name.Some?
    ensures Preserves(cs, r.chunks)
    ensures forall n | n in r.extra :: |cs| <= r.extra[n] < |r.chunks|
  {
    if order == [] then ScanState(cs, map[], map[])
    else
      var before := ScanChunks(buckets, cs, order[..|order| - 1]);
      ScanChunk(buckets, before, order[|order| - 1])
  }

  /** The whole scan of the handler over the original chunk list. */
  function Scan(buckets: seq<Bucket>, cs: seq<Chunk>): (r: ScanState)
    ensures Preserves(cs, r.chunks)
    ensures forall n | n in r.extra :: |cs| <= r.extra[n] < |r.chunks|
  {
    ScanChunks(buckets, cs, ScanOrder(cs))
  }

  // ---------------------------------------------------------------------------
  // What the scan leaves behind, stated against the original chunk list.
  // ---------------------------------------------------------------------------

  /** The name a statement about a chunk uses (scanned chunks always have one). */
  function NameOf(c: Chunk): string {
    if c.name.Some? then c.name.value else ""
  }

  /** The modules of `ms` that some bucket takes from the named chunk. */
  function RoutedSet(buckets: seq<Bucket>, chunkName: string, ms: seq<Module>): set<Module> {
    if ms == [] then {}
    else
      var m := ms[|ms| - 1];
      RoutedSet(buckets, chunkName, ms[..|ms| - 1]) + (if RouteName(buckets, chunkName, m).Some? then {m} else {})
  }

  lemma {:induction false} RoutedSetMembers(buckets: seq<Bucket>, chunkName: string, ms: seq<Module>)
    ensures forall x :: x in RoutedSet(buckets, chunkName, ms) <==> x in ms && RouteName(buckets, chunkName, x).Some?
  {
    if ms != [] {
      RoutedSetMembers(buckets, chunkName, ms[..|ms| - 1]);
      assert ms == ms[..|ms| - 1] + [ms[|ms| - 1]];
    }
  }

  /** The modules a scanned chunk keeps: those no bucket takes, in their original order. */
  function Unrouted(buckets: seq<Bucket>, chunkName: string, ms: seq<Module>): (r: seq<Module>)
    ensures forall x :: x in r <==> x in ms && RouteName(buckets, chunkName, x).None?
  {
    RoutedSetMembers(buckets, chunkName, ms);
    Without(ms, RoutedSet(buckets, chunkName, ms))
  }

  /** The (bucket name, module) pairs routed out of the named chunk's modules. */
  function ChunkPairs(buckets: seq<Bucket>, chunkName: string, ms: seq<Module>): set<(string, Module)> {
    if ms == [] then {}
    else
      var m := ms[|ms| - 1];
      ChunkPairs(buckets, chunkName, ms[..|ms| - 1]) +
        (match RouteName(buckets, chunkName, m) case None => {} case Some(n) => {(n, m)})
  }

  lemma {:induction false} ChunkPairsMembers(buckets: seq<Bucket>, chunkName: string, ms: seq<Module>)
    ensures forall n, x :: (n, x) in ChunkPairs(buckets, chunkName, ms) <==> x in ms && RouteName(buckets, chunkName, x) == Some(n)
  {
    if ms != [] {
      ChunkPairsMembers(buckets, chunkName, ms[..|ms| - 1]);
      assert ms == ms[..|ms| - 1] + [ms[|ms| - 1]];
    }
  }

  ghost predicate ValidOrder(cs: seq<Chunk>, order: seq<ChunkId>) {
    && (forall k | 0 <= k < |order| :: order[k] < |cs| && cs[order[k]].name.Some?)
    && NoDup(order)
  }

  /** The pairs routed out of the chunks of `order`. */
  ghost function Pairs(buckets: seq<Bucket>, cs: seq<Chunk>, order: seq<ChunkId>): set<(string, Module)>
    requires forall k | 0 <= k < |order| :: order[k] < |cs|
  {
    if order == [] then {}
    else
      var c := order[|order| - 1];
      Pairs(buckets, cs, order[..|order| - 1]) + ChunkPairs(buckets, NameOf(cs[c]), cs[c].modules)
  }

  ghost function Names(pairs: set<(string, Module)>): set<string> {
    set p | p in pairs :: p.0
  }

  /** The chunks of `order` whose last moved module went to the bucket named `n`. */
  ghost function SourcesFor(buckets: seq<Bucket>, cs: seq<Chunk>, order: seq<ChunkId>, n: string): seq<ChunkId>
    requires forall k | 0 <= k < |order| :: order[k] < |cs|
  {
    if order == [] then []
    else
      var c := order[|order| - 1];
      SourcesFor(buckets, cs, order[..|order| - 1], n) +
        (if LastRouted(buckets, NameOf(cs[c]), cs[c].modules) == Some(n) then [c] else [])
  }

  /** The module list chunk `i` has once the chunks of `order` are scanned. */
  ghost function Kept(buckets: seq<Bucket>, cs: seq<Chunk>, order: seq<ChunkId>, i: ChunkId): seq<Module>
    requires i < |cs|
  {
    if i in order then Unrouted(buckets, NameOf(cs[i]), cs[i].modules) else cs[i].modules
  }

  /** The chunks above `base` are exactly the ones in `extraChunks`, one per name, still fresh. */
  ghost predicate NewChunksOk(base: nat, st: ScanState) {
    && base <= |st.chunks|
    && (forall n | n in st.extra :: base <= st.extra[n] < |st.chunks| && st.chunks[st.extra[n]].name == Some(n))
    && (forall d | base <= d < |st.chunks| ::
          st.chunks[d].name.Some? && st.chunks[d].name.value in st.extra && st.extra[st.chunks[d].name.value] == d)
    && (forall d | base <= d < |st.chunks| ::
          && !st.chunks[d].initial && st.chunks[d].parents == [] && st.chunks[d].entrypoints == []
          && NoDup(st.chunks[d].modules))
  }

  /** `extraChunks`, the chunks it points at and the pairs routed so far agree. */
  ghost predicate Bookkeeping(base: nat, st: ScanState, pairs: set<(string, Module)>) {
    && NewChunksOk(base, st)
    && st.extra.Keys == Names(pairs)
    && (forall n, m | n in st.extra :: m in st.chunks[st.extra[n]].modules <==> (n, m) in pairs)
  }

  /** The chunks and `extraChunks` after scanning the chunks of `order`. */
  ghost predicate ScanShape(buckets: seq<Bucket>, cs: seq<Chunk>, order: seq<ChunkId>, st: ScanState)
    requires ValidOrder(cs, order)
  {
    && Preserves(cs, st.chunks)
    && (forall i | 0 <= i < |cs| :: st.chunks[i].modules == Kept(buckets, cs, order, i))
    && Bookkeeping(|cs|, st, Pairs(buckets, cs, order))
  }

  /** `chunksWithExtractedModules` after scanning the chunks of `order`. */
  ghost predicate SourcesExact(buckets: seq<Bucket>, cs: seq<Chunk>, order: seq<ChunkId>, sources: map<string, seq<ChunkId>>)
    requires forall k | 0 <= k < |order| :: order[k] < |cs|
  {
    && (forall n :: n in sources <==> SourcesFor(buckets, cs, order, n) != [])
    && (forall n | n in sources :: sources[n] == SourcesFor(buckets, cs, order, n))
  }

  /** The state after scanning the chunks of `order`. */
  ghost predicate ScanInv(buckets: seq<Bucket>, cs: seq<Chunk>, order: seq<ChunkId>, st: ScanState)
    requires ValidOrder(cs, order)
  {
    ScanShape(buckets, cs, order, st) && SourcesExact(buckets, cs, order, st.sources)
  }

  /** The state after scanning the chunks of `order` and the first `k` modules of chunk `c`. */
  ghost predicate VisitInv(buckets: seq<Bucket>, cs: seq<Chunk>, order: seq<ChunkId>, c: ChunkId, k: nat, st: ScanState)
    requires ValidOrder(cs, order) && c < |cs| && k <= |cs[c].modules|
  {
    var ms := cs[c].modules;
    && c !in order
    && Preserves(cs, st.chunks)
    && (forall i | 0 <= i < |cs| && i != c :: st.chunks[i].modules == Kept(buckets, cs, order, i))
    && st.chunks[c].modules == Without(ms, RoutedSet(buckets, NameOf(cs[c]), ms[..k]))
    && Bookkeeping(|cs|, st, Pairs(buckets, cs, order) + ChunkPairs(buckets, NameOf(cs[c]), ms[..k]))
  }

  lemma NamesAddPair(pairs: set<(string, Module)>, n: string, m: Module)
    ensures Names(pairs + {(n, m)}) == Names(pairs) + {n}
  {
  }

  /** Moving a module into the existing chunk of bucket `n` records the pair. */
  lemma MoveIntoExisting(base: nat, st: ScanState, pairs: set<(string, Module)>, c: ChunkId, n: string, m: Module)
    requires Bookkeeping(base, st, pairs) && c < base && n in st.extra
    ensures Bookkeeping(base, st.(chunks := MoveModule(st.chunks, c, m, st.extra[n])), pairs + {(n, m)})
  {
    var d := st.extra[n];
    var r := st.(chunks := MoveModule(st.chunks, c, m, d));
    NamesAddPair(pairs, n, m);
    forall n', m' | n' in r.extra
      ensures m' in r.chunks[r.extra[n']].modules <==> (n', m') in pairs + {(n, m)}
    {
      if n' != n {
        assert r.extra[n'] != d;
      }
    }
  }

  /** Creating the chunk of bucket `n` and moving a module into it records the pair. */
  lemma MoveIntoCreated(base: nat, st: ScanState, pairs: set<(string, Module)>, c: ChunkId, n: string, m: Module)
    requires Bookkeeping(base, st, pairs) && c < base && n !in st.extra
    ensures var d := |st.chunks|;
      Bookkeeping(base, st.(chunks := MoveModule(st.chunks + [NewChunk(n)], c, m, d), extra := st.extra[n := d]),
                  pairs + {(n, m)})
  {
  }

  /** The created chunk is the only new one, and is named after its bucket. */
  lemma CreatedChunksOk(base: nat, st: ScanState, c: ChunkId, n: string, m: Module, r: ScanState)
    requires NewChunksOk(base, st) && c < base && n !in st.extra
    requires r == st.(chunks := MoveModule(st.chunks + [NewChunk(n)], c, m, |st.chunks|), extra := st.extra[n := |st.chunks|])
    ensures NewChunksOk(base, r)
  {
    var d := |st.chunks|;
    var grown := st.chunks + [NewChunk(n)];
    assert grown[d] == NewChunk(n);
    assert r.chunks[d].modules == [m];
    forall i | base <= i < d
      ensures r.chunks[i] == st.chunks[i]
    {
      assert grown[i] == st.chunks[i];
    }
    NewChunksOkGrow(base, st, n, r);
  }

  /** A chunk for a new bucket name, appended with a duplicate-free module list and nothing else, keeps `NewChunksOk`. */
  lemma NewChunksOkGrow(base: nat, st: ScanState, n: string, r: ScanState)
    requires NewChunksOk(base, st) && n !in st.extra
    requires |r.chunks| == |st.chunks| + 1 && r.extra == st.extra[n := |st.chunks|]
    requires forall i | base <= i < |st.chunks| :: r.chunks[i] == st.chunks[i]
    requires var d := r.chunks[|st.chunks|];
      d.name == Some(n) && !d.initial && d.parents == [] && d.entrypoints == [] && NoDup(d.modules)
    ensures NewChunksOk(base, r)
  {
  }

  /** After the move, the created chunk holds just the module, and the other chunks of `extraChunks` are untouched. */
  lemma CreatedPairs(base: nat, st: ScanState, pairs: set<(string, Module)>, c: ChunkId, n: string, m: Module, r: ScanState)
    requires Bookkeeping(base, st, pairs) && c < base && n !in st.extra
    requires r == st.(chunks := MoveModule(st.chunks + [NewChunk(n)], c, m, |st.chunks|), extra := st.extra[n := |st.chunks|])
    ensures forall n', m' | n' in r.extra :: m' in r.chunks[r.extra[n']].modules <==> (n', m') in pairs + {(n, m)}
  {
  }

  /** The original chunks other than `c` are untouched by a move out of `c` into a new chunk. */
  lemma OthersUntouched(buckets: seq<Bucket>, cs: seq<Chunk>, order: seq<ChunkId>, c: ChunkId, before: seq<Chunk>, after: seq<Chunk>)
    requires ValidOrder(cs, order) && c < |cs| && |cs| <= |before| <= |after|
    requires forall i | 0 <= i < |cs| && i != c :: before[i].modules == Kept(buckets, cs, order, i)
    requires forall i | 0 <= i < |cs| && i != c :: after[i] == before[i]
    ensures forall i | 0 <= i < |cs| && i != c :: after[i].modules == Kept(buckets, cs, order, i)
  {
  }

  /** Visiting one more module keeps the scan's bookkeeping exact. */
  lemma VisitStep(buckets: seq<Bucket>, cs: seq<Chunk>, order: seq<ChunkId>, c: ChunkId, k: nat, st: ScanState, r: ScanState)
    requires ValidOrder(cs, order) && c < |cs| && cs[c].name.Some? && k < |cs[c].modules|
    requires VisitInv(buckets, cs, order, c, k, st)
    requires r == VisitModule(buckets, st, c, cs[c].name.value, cs[c].modules[k])
    ensures VisitInv(buckets, cs, order, c, k + 1, r)
  {
    match RouteName(buckets, NameOf(cs[c]), cs[c].modules[k])
    case None =>
      VisitUnrouted(buckets, cs, order, c, k, st, r);
    case Some(n) =>
      if n in st.extra {
        VisitIntoExisting(buckets, cs, order, c, k, st, n, r);
      } else {
        VisitIntoCreated(buckets, cs, order, c, k, st, n, r);
      }
  }

  /** A module no bucket takes stays where it is. */
  lemma VisitUnrouted(buckets: seq<Bucket>, cs: seq<Chunk>, order: seq<ChunkId>, c: ChunkId, k: nat, st: ScanState, r: ScanState)
    requires ValidOrder(cs, order) && c < |cs| && cs[c].name.Some? && k < |cs[c].modules|
    requires VisitInv(buckets, cs, order, c, k, st)
    requires RouteName(buckets, NameOf(cs[c]), cs[c].modules[k]).None?
    requires r == VisitModule(buckets, st, c, cs[c].name.value, cs[c].modules[k])
    ensures VisitInv(buckets, cs, order, c, k + 1, r)
  {
    VisitUnroutedPrefix(buckets, cs[c].name.value, cs[c].modules, k);
  }

  /** A module no bucket takes adds nothing to the routed set or the pairs. */
  lemma VisitUnroutedPrefix(buckets: seq<Bucket>, name: string, ms: seq<Module>, k: nat)
    requires k < |ms| && RouteName(buckets, name, ms[k]).None?
    ensures RoutedSet(buckets, name, ms[..k + 1]) == RoutedSet(buckets, name, ms[..k])
    ensures ChunkPairs(buckets, name, ms[..k + 1]) == ChunkPairs(buckets, name, ms[..k])
  {
    assert ms[..k + 1][..k] == ms[..k];
  }

  /** What visiting a module routed to bucket `n` adds to the routed set and the pairs. */
  lemma VisitRoutedPrefix(buckets: seq<Bucket>, cs: seq<Chunk>, order: seq<ChunkId>, c: ChunkId, k: nat, n: string)
    requires ValidOrder(cs, order) && c < |cs| && k < |cs[c].modules|
    requires RouteName(buckets, NameOf(cs[c]), cs[c].modules[k]) == Some(n)
    ensures var ms := cs[c].modules; var name := NameOf(cs[c]);
      && RoutedSet(buckets, name, ms[..k + 1]) == RoutedSet(buckets, name, ms[..k]) + {ms[k]}
      && Pairs(buckets, cs, order) + ChunkPairs(buckets, name, ms[..k + 1])
         == (Pairs(buckets, cs, order) + ChunkPairs(buckets, name, ms[..k])) + {(n, ms[k])}
  {
    var ms := cs[c].modules;
    assert ms[..k + 1][..k] == ms[..k];
  }

  /** A module routed to a bucket whose chunk exists moves into that chunk. */
  lemma VisitIntoExisting(buckets: seq<Bucket>, cs: seq<Chunk>, order: seq<ChunkId>, c: ChunkId, k: nat, st: ScanState, n: string,
                           r: ScanState)
    requires ValidOrder(cs, order) && c < |cs| && cs[c].name.Some? && k < |cs[c].modules|
    requires VisitInv(buckets, cs, order, c, k, st)
    requires RouteName(buckets, NameOf(cs[c]), cs[c].modules[k]) == Some(n) && n in st.extra
    requires r == VisitModule(buckets, st, c, cs[c].name.value, cs[c].modules[k])
    ensures VisitInv(buckets, cs, order, c, k + 1, r)
  {
    var ms := cs[c].modules;
    var m := ms[k];
    var removed := RoutedSet(buckets, NameOf(cs[c]), ms[..k]);
    VisitRoutedPrefix(buckets, cs, order, c, k, n);
    RemoveFromWithout(ms, removed, m);
    assert r == st.(chunks := MoveModule(st.chunks, c, m, st.extra[n]));
    MoveIntoExisting(|cs|, st, Pairs(buckets, cs, order) + ChunkPairs(buckets, NameOf(cs[c]), ms[..k]), c, n, m);
    OthersUntouched(buckets, cs, order, c, st.chunks, r.chunks);
  }

  /** A module routed to a bucket without a chunk yet moves into a chunk created for it. */
  lemma VisitIntoCreated(buckets: seq<Bucket>, cs: seq<Chunk>, order: seq<ChunkId>, c: ChunkId, k: nat, st: ScanState, n: string,
                          r: ScanState)
    requires ValidOrder(cs, order) && c < |cs| && cs[c].name.Some? && k < |cs[c].modules|
    requires VisitInv(buckets, cs, order, c, k, st)
    requires RouteName(buckets, NameOf(cs[c]), cs[c].modules[k]) == Some(n) && n !in st.extra
    requires r == VisitModule(buckets, st, c, cs[c].name.value, cs[c].modules[k])
    ensures VisitInv(buckets, cs, order, c, k + 1, r)
  {
    var ms := cs[c].modules;
    var m := ms[k];
    var removed := RoutedSet(buckets, NameOf(cs[c]), ms[..k]);
    VisitRoutedPrefix(buckets, cs, order, c, k, n);
    RemoveFromWithout(ms, removed, m);
    var d := |st.chunks|;
    assert r == st.(chunks := MoveModule(st.chunks + [NewChunk(n)], c, m, d), extra := st.extra[n := d]);
    MoveIntoCreated(|cs|, st, Pairs(buckets, cs, order) + ChunkPairs(buckets, NameOf(cs[c]), ms[..k]), c, n, m);
    OthersUntouched(buckets, cs, order, c, st.chunks, r.chunks);
  }

  /** Visiting the first `k` modules of the snapshot of chunk `c`. */
  lemma {:induction false} VisitPrefix(buckets: seq<Bucket>, cs: seq<Chunk>, order: seq<ChunkId>, c: ChunkId, st: ScanState, k: nat)
    requires ValidOrder(cs, order) && c < |cs| && cs[c].name.Some? && k <= |cs[c].modules|
    requires VisitInv(buckets, cs, order, c, 0, st)
    ensures c < |st.chunks| && Above(st, c)
    ensures VisitInv(buckets, cs, order, c, k, VisitModules(buckets, st, c, cs[c].name.value, cs[c].modules[..k]))
  {
    var ms := cs[c].modules;
    if k == 0 {
      assert ms[..0] == [];
    } else {
      VisitPrefix(buckets, cs, order, c, st, k - 1);
      assert ms[..k][..k - 1] == ms[..k - 1];
      VisitStep(buckets, cs, order, c, k - 1, VisitModules(buckets, st, c, cs[c].name.value, ms[..k - 1]),
                VisitModules(buckets, st, c, cs[c].name.value, ms[..k]));
    }
  }

  lemma SourcesForSnoc(buckets: seq<Bucket>, cs: seq<Chunk>, order: seq<ChunkId>, c: ChunkId, n: string)
    requires forall k | 0 <= k < |order| :: order[k] < |cs|
    requires c < |cs|
    ensures SourcesFor(buckets, cs, order + [c], n) ==
      SourcesFor(buckets, cs, order, n) + (if LastRouted(buckets, NameOf(cs[c]), cs[c].modules) == Some(n) then [c] else [])
  {
  }

  lemma NotYetScanned(cs: seq<Chunk>, order: seq<ChunkId>, c: ChunkId)
    requires ValidOrder(cs, order + [c])
    ensures c !in order && ValidOrder(cs, order)
  {
    var order' := order + [c];
    forall i | 0 <= i < |order|
      ensures order[i] != c
    {
      assert order'[i] == order[i] && order'[|order|] == c;
    }
    assert forall k | 0 <= k < |order| :: order[k] == order'[k];
  }

  /** A chunk about to be scanned still has its original modules. */
  lemma EnterChunk(buckets: seq<Bucket>, cs: seq<Chunk>, order: seq<ChunkId>, c: ChunkId, st: ScanState)
    requires ValidOrder(cs, order) && ValidOrder(cs, order + [c])
    requires ScanShape(buckets, cs, order, st)
    ensures c < |cs| && cs[c].name.Some? && c !in order && VisitInv(buckets, cs, order, c, 0, st)
  {
    NotYetScanned(cs, order, c);
    assert (order + [c])[|order|] == c;
    var ms := cs[c].modules;
    assert st.chunks[c].modules == ms;
    assert ms[..0] == [];
    WithoutNothing(ms);
    assert Pairs(buckets, cs, order) + ChunkPairs(buckets, NameOf(cs[c]), ms[..0]) == Pairs(buckets, cs, order);
  }

  /** Once all modules of chunk `c` are visited, `c` counts as scanned. */
  lemma LeaveChunk(buckets: seq<Bucket>, cs: seq<Chunk>, order: seq<ChunkId>, c: ChunkId, st: ScanState)
    requires ValidOrder(cs, order) && ValidOrder(cs, order + [c]) && c < |cs|
    requires VisitInv(buckets, cs, order, c, |cs[c].modules|, st)
    ensures ScanShape(buckets, cs, order + [c], st)
  {
    var ms := cs[c].modules;
    var order' := order + [c];
    assert ms[..|ms|] == ms;
    assert order'[..|order|] == order;
    assert Pairs(buckets, cs, order') == Pairs(buckets, cs, order) + ChunkPairs(buckets, NameOf(cs[c]), ms);
    forall i | 0 <= i < |cs|
      ensures st.chunks[i].modules == Kept(buckets, cs, order', i)
    {
      assert i in order' <==> i in order || i == c;
    }
  }

  /** Recording chunk `c` under its last destination keeps `chunksWithExtractedModules` exact. */
  lemma RecordStep(buckets: seq<Bucket>, cs: seq<Chunk>, order: seq<ChunkId>, c: ChunkId,
                   sources: map<string, seq<ChunkId>>, sources': map<string, seq<ChunkId>>)
    requires (forall k | 0 <= k < |order| :: order[k] < |cs|) && c < |cs|
    requires SourcesExact(buckets, cs, order, sources)
    requires sources' == match LastRouted(buckets, NameOf(cs[c]), cs[c].modules)
                         case None => sources
                         case Some(n) => Record(sources, n, c)
    ensures SourcesExact(buckets, cs, order + [c], sources')
  {
  }

  /** Scanning one more chunk keeps the scan's bookkeeping exact. */
  lemma ScanStep(buckets: seq<Bucket>, cs: seq<Chunk>, order: seq<ChunkId>, c: ChunkId, st: ScanState)
    requires ValidOrder(cs, order) && ValidOrder(cs, order + [c])
    requires ScanInv(buckets, cs, order, st)
    ensures c < |st.chunks| && st.chunks[c].name.Some? && Above(st, c)
    ensures ScanInv(buckets, cs, order + [c], ScanChunk(buckets, st, c))
  {
    EnterChunk(buckets, cs, order, c, st);
    var ms := cs[c].modules;
    assert st.chunks[c].modules == ms && st.chunks[c].name == cs[c].name;
    VisitPrefix(buckets, cs, order, c, st, |ms|);
    assert ms[..|ms|] == ms;
    var visited := VisitModules(buckets, st, c, cs[c].name.value, ms);
    LeaveChunk(buckets, cs, order, c, visited);
    var r := ScanChunk(buckets, st, c);
    assert r == match LastRouted(buckets, NameOf(cs[c]), ms)
                case None => visited
                case Some(n) => visited.(sources := Record(visited.sources, n, c));
    assert ScanShape(buckets, cs, order + [c], r) by {
      assert r.chunks == visited.chunks && r.extra == visited.extra;
    }
    RecordStep(buckets, cs, order, c, st.sources, r.sources);
  }

  /** Scanning the chunks of `order` from the original arena leaves the described state. */
  lemma {:induction false} ScanChunksInv(buckets: seq<Bucket>, cs: seq<Chunk>, order: seq<ChunkId>)
    requires ValidOrder(cs, order)
    ensures ScanInv(buckets, cs, order, ScanChunks(buckets, cs, order))
  {
    if order == [] {
      var st := ScanChunks(buckets, cs, order);
      assert Pairs(buckets, cs, order) == {};
      assert Names({}) == {};
      forall n
        ensures SourcesFor(buckets, cs, order, n) == []
      {
      }
    } else {
      var prefix := order[..|order| - 1];
      var c := order[|order| - 1];
      assert prefix + [c] == order;
      assert ValidOrder(cs, prefix);
      ScanChunksInv(buckets, cs, prefix);
      ScanStep(buckets, cs, prefix, c, ScanChunks(buckets, cs, prefix));
    }
  }

  // ---------------------------------------------------------------------------
  // The properties of the whole scan.
  // ---------------------------------------------------------------------------

  /** Module `m` of scanned chunk `c` is routed to the bucket named `n`. */
  ghost predicate RoutedFrom(buckets: seq<Bucket>, cs: seq<Chunk>, c: ChunkId, m: Module, n: string) {
    c < |cs| && Scanned(cs[c]) && m in cs[c].modules && RouteName(buckets, cs[c].name.value, m) == Some(n)
  }

  lemma {:induction false} PairsMembers(buckets: seq<Bucket>, cs: seq<Chunk>, order: seq<ChunkId>, n: string, m: Module)
    requires forall k | 0 <= k < |order| :: order[k] < |cs|
    ensures (n, m) in Pairs(buckets, cs, order) <==>
      exists c :: c in order && m in cs[c].modules && RouteName(buckets, NameOf(cs[c]), m) == Some(n)
  {
    if order != [] {
      var prefix := order[..|order| - 1];
      var c := order[|order| - 1];
      assert order == prefix + [c];
      PairsMembers(buckets, cs, prefix, n, m);
      ChunkPairsMembers(buckets, NameOf(cs[c]), cs[c].modules);
    }
  }

  /** `newChunk` stays unset exactly when no module of the snapshot is routed. */
  lemma {:induction false} LastRoutedNone(buckets: seq<Bucket>, chunkName: string, ms: seq<Module>)
    ensures LastRouted(buckets, chunkName, ms).None? <==> forall k | 0 <= k < |ms| :: RouteName(buckets, chunkName, ms[k]).None?
  {
    if ms != [] {
      var prefix := ms[..|ms| - 1];
      LastRoutedNone(buckets, chunkName, prefix);
      assert forall k | 0 <= k < |prefix| :: prefix[k] == ms[k];
    }
  }

  /** `newChunk` ends on the bucket of the last module that was routed at all. */
  lemma {:induction false} LastRoutedIsLast(buckets: seq<Bucket>, chunkName: string, ms: seq<Module>, k: nat)
    requires k < |ms| && RouteName(buckets, chunkName, ms[k]).Some?
    requires forall j | k < j < |ms| :: RouteName(buckets, chunkName, ms[j]).None?
    ensures LastRouted(buckets, chunkName, ms) == RouteName(buckets, chunkName, ms[k])
  {
    var last := |ms| - 1;
    if k < last {
      var prefix := ms[..last];
      assert prefix[k] == ms[k];
      forall j | k < j < |prefix|
        ensures RouteName(buckets, chunkName, prefix[j]).None?
      {
        assert prefix[j] == ms[j];
      }
      LastRoutedIsLast(buckets, chunkName, prefix, k);
      assert RouteName(buckets, chunkName, ms[last]).None?;
    }
  }

  /** Strictly increasing: no duplicates, in scan order. */
  predicate Increasing(s: seq<ChunkId>) {
    forall a, b | 0 <= a < b < |s| :: s[a] < s[b]
  }

  /** Scanned chunk `c` ends on the bucket named `n`: its last routed module goes there. */
  ghost predicate LastDestination(buckets: seq<Bucket>, cs: seq<Chunk>, c: ChunkId, n: string) {
    c < |cs| && Scanned(cs[c]) && LastRouted(buckets, cs[c].name.value, cs[c].modules) == Some(n)
  }

  lemma {:induction false} SourcesForMembers(buckets: seq<Bucket>, cs: seq<Chunk>, order: seq<ChunkId>, n: string)
    requires forall k | 0 <= k < |order| :: order[k] < |cs|
    ensures forall c :: c in SourcesFor(buckets, cs, order, n) <==>
      c in order && LastRouted(buckets, NameOf(cs[c]), cs[c].modules) == Some(n)
  {
    if order != [] {
      var prefix := order[..|order| - 1];
      assert order == prefix + [order[|order| - 1]];
      SourcesForMembers(buckets, cs, prefix, n);
    }
  }

  lemma {:induction false} SourcesForSorted(buckets: seq<Bucket>, cs: seq<Chunk>, order: seq<ChunkId>, n: string)
    requires forall k | 0 <= k < |order| :: order[k] < |cs|
    requires forall a, b | 0 <= a < b < |order| :: order[a] < order[b]
    ensures Increasing(SourcesFor(buckets, cs, order, n))
  {
    if order != [] {
      var prefix := order[..|order| - 1];
      var c := order[|order| - 1];
      assert forall a, b | 0 <= a < b < |prefix| :: prefix[a] == order[a] && prefix[b] == order[b];
      SourcesForSorted(buckets, cs, prefix, n);
      SourcesForMembers(buckets, cs, prefix, n);
      var before := SourcesFor(buckets, cs, prefix, n);
      var r := SourcesFor(buckets, cs, order, n);
      assert r == before + (if LastRouted(buckets, NameOf(cs[c]), cs[c].modules) == Some(n) then [c] else []);
      forall x | x in before
        ensures x < c
      {
        var i :| 0 <= i < |prefix| && prefix[i] == x;
        assert order[i] == x;
      }
      forall a, b | 0 <= a < b < |r|
        ensures r[a] < r[b]
      {
        assert r[a] == before[a];
        if b < |before| {
          assert r[b] == before[b];
          assert before[a] < before[b];
        } else {
          assert r[b] == c;
          assert before[a] in before;
        }
      }
    }
  }

  /** The original chunks after the scan: a scanned chunk keeps exactly its unrouted modules, in order; the others are untouched. */
  lemma ScanPartition(buckets: seq<Bucket>, cs: seq<Chunk>)
    ensures var st := Scan(buckets, cs);
      forall i | 0 <= i < |cs| ::
        && st.chunks[i].name == cs[i].name && st.chunks[i].initial == cs[i].initial
        && st.chunks[i].parents == cs[i].parents && st.chunks[i].entrypoints == cs[i].entrypoints
        && st.chunks[i].modules == (if Scanned(cs[i]) then Unrouted(buckets, cs[i].name.value, cs[i].modules) else cs[i].modules)
  {
    var order := ScanOrder(cs);
    ScanChunksInv(buckets, cs, order);
  }

  /** The chunks the scan creates: one per bucket name in `extraChunks`, named after it, still without entrypoints or parents. */
  lemma ScanCreatesOnePerName(buckets: seq<Bucket>, cs: seq<Chunk>)
    ensures var st := Scan(buckets, cs);
      && (forall n | n in st.extra :: |cs| <= st.extra[n] < |st.chunks| && st.chunks[st.extra[n]].name == Some(n))
      && (forall d | |cs| <= d < |st.chunks| ::
            && st.chunks[d].name.Some? && st.chunks[d].name.value in st.extra
            && st.extra[st.chunks[d].name.value] == d)
      && (forall d1, d2 | |cs| <= d1 < d2 < |st.chunks| :: st.chunks[d1].name != st.chunks[d2].name)
      && (forall d | |cs| <= d < |st.chunks| ::
            && !st.chunks[d].initial && st.chunks[d].parents == [] && st.chunks[d].entrypoints == []
            && NoDup(st.chunks[d].modules))
  {
    ScanChunksInv(buckets, cs, ScanOrder(cs));
  }

  lemma ScannedPairs(buckets: seq<Bucket>, cs: seq<Chunk>, n: string, m: Module)
    ensures (n, m) in Pairs(buckets, cs, ScanOrder(cs)) <==> exists c :: RoutedFrom(buckets, cs, c, m, n)
  {
    var order := ScanOrder(cs);
    PairsMembers(buckets, cs, order, n, m);
    if (n, m) in Pairs(buckets, cs, order) {
      var c :| c in order && m in cs[c].modules && RouteName(buckets, NameOf(cs[c]), m) == Some(n);
      assert RoutedFrom(buckets, cs, c, m, n);
    }
    if exists c :: RoutedFrom(buckets, cs, c, m, n) {
      var c :| RoutedFrom(buckets, cs, c, m, n);
      assert c in order;
    }
  }

  lemma NamesMembers(pairs: set<(string, Module)>, n: string)
    ensures n in Names(pairs) <==> exists m :: (n, m) in pairs
  {
  }

  /** The destination part of the scan's bookkeeping, read off the whole scan. */
  lemma ScanBookkeeping(buckets: seq<Bucket>, cs: seq<Chunk>)
    ensures var st := Scan(buckets, cs);
      && st.extra.Keys == Names(Pairs(buckets, cs, ScanOrder(cs)))
      && (forall n, m | n in st.extra :: m in st.chunks[st.extra[n]].modules <==> (n, m) in Pairs(buckets, cs, ScanOrder(cs)))
  {
    ScanChunksInv(buckets, cs, ScanOrder(cs));
  }

  /**
   * A bucket name gets a chunk exactly when some module of some scanned chunk
   * is routed to it, and that chunk holds exactly those modules.
   */
  lemma ScanDestinations(buckets: seq<Bucket>, cs: seq<Chunk>)
    ensures var st := Scan(buckets, cs);
      && (forall n :: n in st.extra <==> exists c, m :: RoutedFrom(buckets, cs, c, m, n))
      && (forall n, m | n in st.extra ::
            m in st.chunks[st.extra[n]].modules <==> exists c :: RoutedFrom(buckets, cs, c, m, n))
  {
    var st := Scan(buckets, cs);
    var pairs := Pairs(buckets, cs, ScanOrder(cs));
    ScanBookkeeping(buckets, cs);
    forall n
      ensures n in st.extra <==> exists c, m :: RoutedFrom(buckets, cs, c, m, n)
    {
      NamesMembers(pairs, n);
      if n in st.extra {
        var m :| (n, m) in pairs;
        ScannedPairs(buckets, cs, n, m);
      } else if exists c, m :: RoutedFrom(buckets, cs, c, m, n) {
        var c, m :| RoutedFrom(buckets, cs, c, m, n);
        ScannedPairs(buckets, cs, n, m);
      }
    }
    forall n, m | n in st.extra
      ensures m in st.chunks[st.extra[n]].modules <==> exists c :: RoutedFrom(buckets, cs, c, m, n)
    {
      ScannedPairs(buckets, cs, n, m);
    }
  }

  /** `chunksWithExtractedModules` after the scan, in terms of the scan order. */
  lemma ScanSourcesExact(buckets: seq<Bucket>, cs: seq<Chunk>)
    ensures SourcesExact(buckets, cs, ScanOrder(cs), Scan(buckets, cs).sources)
  {
    ScanChunksInv(buckets, cs, ScanOrder(cs));
  }

  /** The chunks the scan records under `n`, read off the original chunk list. */
  lemma ScannedSources(buckets: seq<Bucket>, cs: seq<Chunk>, n: string)
    ensures var r := SourcesFor(buckets, cs, ScanOrder(cs), n);
      Increasing(r) && forall c :: c in r <==> LastDestination(buckets, cs, c, n)
  {
    var order := ScanOrder(cs);
    SourcesForMembers(buckets, cs, order, n);
    SourcesForSorted(buckets, cs, order, n);
  }

  lemma ScanSourcesOf(buckets: seq<Bucket>, cs: seq<Chunk>, n: string)
    ensures var st := Scan(buckets, cs);
      && (n in st.sources <==> exists c :: LastDestination(buckets, cs, c, n))
      && (n in st.sources ==>
            && st.sources[n] != []
            && Increasing(st.sources[n])
            && (forall c :: c in st.sources[n] <==> LastDestination(buckets, cs, c, n)))
  {
    var st := Scan(buckets, cs);
    var r := SourcesFor(buckets, cs, ScanOrder(cs), n);
    ScanSourcesExact(buckets, cs);
    assert n in st.sources <==> r != [];
    assert n in st.sources ==> st.sources[n] == r;
    ScannedSources(buckets, cs, n);
    if r != [] {
      assert LastDestination(buckets, cs, r[0], n);
    }
  }

  /**
   * `chunksWithExtractedModules` after the scan: a scanned chunk is recorded
   * once, in scan order, under the name of the destination of its last
   * moved module, and a chunk that moved nothing is not recorded.
   */
  lemma ScanSources(buckets: seq<Bucket>, cs: seq<Chunk>)
    ensures var st := Scan(buckets, cs);
      && (forall n :: n in st.sources <==> exists c :: LastDestination(buckets, cs, c, n))
      && (forall n | n in st.sources ::
            && st.sources[n] != []
            && Increasing(st.sources[n])
            && (forall c :: c in st.sources[n] <==> LastDestination(buckets, cs, c, n)))
  {
    forall n {
      ScanSourcesOf(buckets, cs, n);
    }
  }
}
