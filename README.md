# extract-modules-webpack-plugin, modelled in Dafny

ExtractModulesPlugin is a webpack plugin. It moves the modules whose
resource matches a bucket's regular expression out of the initial, named
chunks and into one new chunk per bucket. It then wires each new chunk into
the chunk graph:

- an entrypoint named after the new chunk;
- the manifest entrypoint of its first recorded source chunk (a scanned
  chunk whose last moved module went to this bucket);
- the parents of its recorded source chunks, minus those chunks.

The model covers the two parts of `index.js` that do this work.

- **The constructor** (`BucketConfig`) checks and normalises the user's
  bucket specifications, in order:
  - a name is required, then a test;
  - pattern text is compiled;
  - `only` and `except` become lists.

  The first error aborts the construction, and its message is wrapped
  behind the fixed prefix.
- **The `optimize-chunks` handler** runs in several phases:
  - the scan of the initial named chunks: route each module, create the
    bucket's chunk on first use, move the module, and record the chunk
    under the bucket of its last moved module (`Matching`, `Scanning`);
  - the repair of each new chunk in bucket order: its own entrypoint, the
    manifest entrypoint and `commonParents` (`Repair`).

  The repair throws a TypeError when a bucket has no recorded source chunk,
  or when the first one has no entrypoint. That outcome is the value
  `PassError`.

The chunk graph is an arena (`ChunkGraph`): chunks and entrypoints are
sequences and are referred to by index, so one entrypoint can be shared by
several chunks.

- `Scanning` and `Repair` define the handler as pure folds.
- The class `Compilation.Compilation` holds the arena as fields. Its
  methods run the handler's nested loops with in-place updates, and each is
  proved to compute the corresponding fold.
- The host primitives (`addChunk`, `moveModule`, `new Entrypoint`,
  `unshift`, `push`) are given by their effects.

`Recording` is a corrected recording of the source chunks (see Findings).
`Scenarios` holds concrete runs of the pass.

## Model

| member | source | states |
|---|---|---|
| BucketConfig.Wrapped | index.js:27-29 | a rethrown message starts with the fixed prefix and ends with the original message |
| BucketConfig.NormalizeOnly | index.js:16-18 | a truthy `only` that is not an array becomes a one-element list; a falsy one stays absent; an array is kept |
| BucketConfig.NormalizeExcept | index.js:20-23 | a truthy `except` that is not an array becomes a one-element list; an array is kept; a falsy one becomes the empty list |
| BucketConfig.NormalizeBucket | index.js:6-25 | a missing name fails with the name message before the test is looked at; a missing test fails with the test message; a pattern that does not compile fails with the compiler's message; otherwise the bucket has the given name, the RegExp's or the compiled test, and the normalised lists, and it fails on no other input |
| BucketConfig.Construct | index.js:3-30 | succeeds exactly when every specification normalises, with the buckets in input order; otherwise the error is the first failing specification's message wrapped behind the prefix |
| Matching.FindMatchingBucket | index.js:35-41 | the index found is the first bucket whose test accepts the resource; none found means no bucket accepts it |
| Matching.IndexOf | index.js:45 | `indexOf` gives -1 exactly when the name is absent, and otherwise the first position holding it |
| Matching.IsChunkIgnored | index.js:44-46 | a chunk is ignored by a bucket exactly when its name is on the bucket's `except` list |
| Matching.IsChunkExcluded | index.js:49-51 | a chunk is excluded by a bucket exactly when the bucket has an `only` list and the name is not on it |
| Matching.Route | index.js:74-78 | a module is routed only to its first matching bucket, and only when the chunk is neither on its `except` list nor left out of its `only` list; a module left unrouted has no first match, or the first match rules the chunk out (no later bucket is tried) |
| ChunkGraph.RemoveModule | index.js:84 | after `moveModule`, the source chunk keeps every module but the moved one |
| ChunkGraph.AddModule | index.js:84 | the destination gains the module once, appended when it was absent |
| ChunkGraph.MoveModule | index.js:84 | the module leaves `from` and is in `to`; no other chunk changes |
| ChunkGraph.NewChunk | index.js:81 | the chunk `addChunk` creates carries the bucket's name, is not initial, and has no modules, parents or entrypoints |
| Scanning.ScanOrder | index.js:66-69 | the scanned chunks are exactly the initial chunks with a truthy name, in list order |
| Scanning.Scanned | index.js:67-69 | a chunk is scanned exactly when it is initial and its name is neither undefined nor empty |
| Scanning.VisitModule | index.js:74-84 | one module visit keeps every chunk field but the module lists, keeps the chunks of `extraChunks` above the scanned chunk, adds only fresh chunks to `extraChunks`, and leaves `chunksWithExtractedModules` alone |
| Scanning.VisitModuleEffect | index.js:74-84 | a module no bucket takes leaves the state as it is; a routed module ends up in its bucket's chunk and out of the scanned chunk, which gains nothing; `extraChunks` loses no key |
| Scanning.VisitModules | index.js:73-85 | visiting the snapshot keeps the same frame as a single visit |
| Scanning.VisitModulesRouted | index.js:73-85 | after the snapshot is visited, every routed module has left the scanned chunk and its bucket has a chunk; the scanned chunk gained nothing; `extraChunks` lost no key |
| Scanning.ScanChunk | index.js:70-92 | scanning one chunk keeps every chunk field but the module lists and adds only chunks created meanwhile to `extraChunks` |
| Scanning.ScanChunks | index.js:66-93 | scanning the chunks of an order keeps the original chunks' other fields, and every chunk of `extraChunks` comes after the original chunks |
| Scanning.Scan | index.js:66-93 | the whole scan keeps the original chunks' other fields, and every chunk of `extraChunks` comes after the original chunks |
| Scanning.Record | index.js:87-92 | the chunk is appended to the list under the name, which is created if missing; every other list is unchanged |
| Scanning.LastRoutedNone | index.js:71-87 | `LastRouted`, the bucket `newChunk` ends on, is none: `newChunk` stays unset exactly when no module of the snapshot is routed |
| Scanning.LastRoutedIsLast | index.js:80-84 | `newChunk` ends on the bucket of the last module that was routed at all |
| Scanning.ScanPartition | index.js:73-85 | after the scan, a scanned chunk keeps exactly its unrouted modules, in order; other chunks and all other fields are unchanged |
| Scanning.ScanCreatesOnePerName | index.js:80-82 | the scan creates one chunk per bucket name in `extraChunks`, after the original chunks, named after the bucket, not initial, with no parents, no entrypoints and no duplicate modules |
| Scanning.ScanDestinations | index.js:73-85 | a bucket name gets a chunk exactly when some module of some scanned chunk is routed to it, and that chunk holds exactly those modules |
| Scanning.ScanSources | index.js:87-92 | `chunksWithExtractedModules[n]` exists exactly when some scanned chunk's last moved module went to bucket `n`; it is non-empty, in scan order, and holds exactly those chunks |
| Scanning.ScanBookkeeping | index.js:80-84 | the keys of `extraChunks` are the names of the routed pairs, and each bucket's chunk holds exactly its routed modules |
| Scanning.ScanChunksInv | index.js:70-93 | scanning any valid prefix of the scan order leaves the partition, one-chunk-per-name and recording state described above |
| Repair.DropChunk | index.js:114 | the list loses exactly the processed source chunk and keeps being duplicate-free |
| Repair.NewParents | index.js:115-117 | exactly the parents not gathered yet are added, duplicate-free when the parents are |
| Repair.CommonParents | index.js:112-118 | every parent of the last recorded source is in the list, and every chunk in it is a parent of some recorded source |
| Repair.CommonParentsSpec | index.js:112-119 | a chunk is a common parent exactly when it is a parent of some recorded source and no later source is that chunk itself; every parent of the last source is included; the list is duplicate-free when each source's parent list is |
| Repair.CommonParentsFrame | index.js:112-119 | `commonParents` reads only the parents of the recorded sources |
| Repair.RepairChunk | index.js:99-119 | the repair of one new chunk succeeds exactly when its first recorded source has an entrypoint; otherwise the TypeError names the missing record (line 104) or the source without an entrypoint (line 108); success adds one entrypoint and keeps the names and the range of every reference |
| Repair.RepairChunkShape | index.js:99-119 | after the repair the chunk's entrypoints are [manifest, own] in front of the old ones, and its parents are `commonParents`; the own entrypoint is named after the chunk and loads just it; the manifest entrypoint gains the chunk at the end; nothing else changes |
| Repair.ToRepair | index.js:95 | the chunks to repair are exactly the chunks of the buckets that got one, at most one per bucket |
| Repair.RepairEach | index.js:95-120 | a successful loop adds one entrypoint per repaired chunk and keeps every chunk's name and the range of every reference |
| Repair.RepairEachOutcome | index.js:95-120 | the loop succeeds exactly when every chunk to repair is repairable; a failure is the first unrepairable chunk's TypeError; chunks outside the list, the recorded sources among them, are never touched |
| Repair.RepairEachStops | index.js:95-120 | once a chunk's repair throws, the later chunks are not reached and the error is the loop's |
| Repair.RepairEachShape | index.js:95-120 | after a successful loop over distinct chunks, each is repaired exactly once, against the arena before the loop |
| Repair.ScanReady | index.js:66-95 | the scan leaves recorded sources that exist, chunks to repair that are named, new and never sources, and every reference in range |
| Repair.Optimize | index.js:62-121 | a successful pass keeps every original chunk's name, adds chunks and entrypoints only at the end, and keeps every entrypoint reference in range |
| Repair.OptimizeOutcome | index.js:95-120 | the whole pass succeeds exactly when every bucket that received modules has a recorded source whose first entrypoint exists; otherwise it throws for such a bucket: line 104 with no recorded source, line 108 with a source without an entrypoint |
| Repair.OptimizeKeepsOriginals | index.js:95-120 | the repair touches no chunk that existed before the pass, beyond the scan's module moves |
| Repair.OptimizeNewChunk | index.js:97-119 | after a successful pass (distinct bucket names), each bucket's chunk keeps its modules; its entrypoints are [manifest of the first recorded source, a fresh entrypoint named after the bucket that loads just it]; its parents are `commonParents` of its sources; the manifest entrypoint lists it |
| Repair.OptimizeOldEntrypoints | index.js:107-108 | after a successful pass, entrypoints that existed before keep their names and only gain chunks at the end |
| Repair.RepairEachKeepsOldEntries | index.js:95-120 | a successful repair loop keeps the names of the entrypoints it started with, which only gain chunks at the end |
| Repair.ScanExtraInjective | index.js:80-82 | distinct bucket names get distinct chunks |
| Repair.ToRepairNoDup | index.js:95 | with distinct bucket names no chunk is repaired twice |
| Compilation.FilterScanned | index.js:66-69 | the filter loop yields the scan order |
| Compilation.BucketChunks | index.js:95 | the `map`/`filter` loop yields the chunks to repair, exactly those of the buckets with a chunk |
| Compilation.GatherParents | index.js:112-118 | the `commonParents` loop computes `CommonParents` |
| Compilation.Compilation.constructor | index.js:62 | the compilation holds the given arena |
| Compilation.Compilation.AddChunk | index.js:81 | `addChunk` appends a new empty chunk named after the bucket and returns its index |
| Compilation.Compilation.MoveModule | index.js:84 | `moveModule` updates the arena in place as `ChunkGraph.MoveModule` |
| Compilation.Compilation.NewEntrypoint | index.js:99 | `new Entrypoint` appends an entrypoint with no chunks and returns its index |
| Compilation.Compilation.UnshiftEntrypoint | index.js:99 | `unshift` puts the entrypoint in front of the chunk's list and changes nothing else |
| Compilation.Compilation.PushChunk | index.js:100 | `push` appends the chunk to the entrypoint's list and changes nothing else |
| Compilation.Compilation.SetParents | index.js:119 | the chunk's parents are replaced and nothing else changes |
| Compilation.Compilation.VisitModule | index.js:74-84 | the body for one module updates the arena and `extraChunks` as the scan's fold, keeps `extraChunks` named, and reports where the module went |
| Compilation.Compilation.VisitSnapshot | index.js:73-85 | the loop over the module snapshot computes the fold, and `newChunk` ends on the chunk of the last moved module |
| Compilation.Compilation.ScanChunk | index.js:70-92 | one scanned chunk updates the arena, `extraChunks` and `chunksWithExtractedModules` as `Scanning.ScanChunk` |
| Compilation.Compilation.ScanAll | index.js:66-93 | the scan loop leaves the arena, `extraChunks` and `chunksWithExtractedModules` that `Scan` describes; no entrypoint changes |
| Compilation.Compilation.AddSelfEntrypoint | index.js:99-100 | a fresh entrypoint named after the chunk is put first in its list and loads just the chunk |
| Compilation.Compilation.AddToManifest | index.js:107-108 | the manifest entrypoint is put first in the chunk's list and loads the chunk last |
| Compilation.Compilation.RepairNewChunk | index.js:99-119 | the in-place repair of one chunk passes exactly when `RepairChunk` succeeds, leaves its arena, or fails with its TypeError |
| Compilation.Compilation.RepairAll | index.js:95-120 | the repair loop passes exactly when `RepairEach` succeeds, leaves its arena, or fails with its first TypeError |
| Compilation.Compilation.OptimizeChunks | index.js:62-121 | the whole handler passes exactly when `Optimize` succeeds, leaves its arena, or fails with its TypeError |
| Recording.DestinationsMembers | index.js:74-84 | a bucket name is a destination of a chunk exactly when some module of the chunk is routed to it |
| Recording.RecordAllEffect | index.js:88-91 | recording under distinct names appends the chunk once to each of their lists and changes no other list |
| Recording.AllSourcesMembers | index.js:87-92 | with a chunk recorded under every bucket it fed, a name is recorded exactly when some scanned chunk fed it, with a non-empty list of exactly those chunks |
| Recording.ScanFedEveryName | index.js:104 | every bucket that got a chunk has a non-empty source list in the full record |
| Recording.OptimizeAllSources | index.js:62-121 | the pass with the full record keeps every entrypoint reference in range |
| Recording.OptimizeAllSourcesHasSources | index.js:104 | with the full record the pass never throws for want of a recorded source; the only TypeError left is a first source without an entrypoint |
| Scenarios.SplitScan | index.js:87-92 | one chunk `main` whose module `a` goes to bucket `A` and `b` to bucket `B`: both buckets get a chunk, but `main` is recorded only under `B` |
| Scenarios.SplitFails | index.js:104 | on that input the pass as written throws at line 104 for bucket `A` |
| Scenarios.SplitWithAllSources | index.js:95-120 | on the same input, the pass with the full record repairs both chunks off the `main` entrypoint |
| Scenarios.ParentsUnion | index.js:112-119 | two sources with parents [2, 3] and [3, 4] give `commonParents` [2, 3, 4], a union rather than the intersection |
| Scenarios.VendorSplit | index.js:62-121 | one bucket taking `b` from `main`: the pass succeeds; `main` keeps `a`; the new chunk `B` has entrypoints [main, B], and both load it |

## Left out

- Hook registration (`apply`, `compiler.plugin`, `compilation.plugin`) is not modelled. The model calls the handler directly, and `extraChunks` starts empty for each call. The source creates `extraChunks` once per compilation (index.js:54), so a second `optimize-chunks` run in the same compilation would reuse it. That case is not modelled.
- `addChunk` always returns a fresh chunk. webpack's `addChunk` returns an existing chunk when the name is already taken. That host behaviour is not part of this model.
- Regular-expression semantics are not modelled. A bucket's test is an arbitrary predicate on strings, and pattern compilation is a parameter that returns the predicate or the SyntaxError message. A global RegExp's `lastIndex` state across calls is not modelled.
- Bucket names, `only` and `except` items are strings. Non-string values (a `String` object, numbers) and the JavaScript truthiness of those are not modelled.
- A bucket list that is not an array (for example `null`) makes `buckets.map` throw a TypeError. That TypeError is wrapped like the others. It is not modelled: the model takes a sequence of specifications.
- The constructor mutates the user's specification objects in place. The model returns new buckets instead, and aliasing with the caller is not captured.
- Object keys such as `__proto__` or inherited `Object.prototype` names used as bucket names are not modelled. `extraChunks` and `chunksWithExtractedModules` are maps.
- Compilation.Compilation.RepairNewChunk, RepairAll and OptimizeChunks state nothing about the arena after a TypeError. The source leaves half-repaired chunks behind, and webpack aborts the build.
- Repair.OptimizeOutcome: a failure is shown to be the TypeError of some bucket that cannot be repaired, not necessarily of the first such bucket in bucket order. `RepairEachOutcome` gives the first-failure position for the loop itself.
- Repair.OptimizeNewChunk: stated only for buckets with distinct names. With duplicate names the same chunk is repaired twice and gains four entrypoints.
- Repair.CommonParentsSpec characterises membership and absence of duplicates, not the order of the list.
- `commonParents`, as its name and the comment beside it suggest, reads as the parents the sources share. The code builds a union that drops each processed source chunk, and the model follows the code (see `Scenarios.ParentsUnion`).
- `Recording` is the corrected recording pass, a sibling of the as-written pass. `Compilation.Compilation.OptimizeChunks` models the code as written.
- Webpack's `Entrypoint` and `Chunk` classes are not part of this model beyond the fields the handler reads and writes: name, `isInitial()`, modules, parents and entrypoints.

## Findings

| source | as written | input that shows it | evidently intended | confidence | as-written member | corrected member |
|---|---|---|---|---|---|---|
| index.js:87-104 | a scanned chunk is recorded in `chunksWithExtractedModules` only under the bucket of its LAST moved module, yet every bucket that got a chunk looks up its recorded sources at line 104 | one initial chunk `main` with modules `a` and `b`; buckets `A` testing `a` and `B` testing `b`: `main` is recorded only under `B`, and the repair of `A`'s chunk reads `chunksWithExtractedModules["A"][0]` of `undefined` and throws a TypeError | record the chunk under every bucket it fed, so that each new chunk has its sources and the pass never lacks one | not executed | Scenarios.SplitFails | Recording.OptimizeAllSourcesHasSources |
