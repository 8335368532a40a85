/**
 * The slice of webpack's chunk graph the plugin reads and writes, as an
 * arena: chunks and entrypoints are addressed by their index, so that one
 * entrypoint can be shared by several chunks. `addChunk`, `moveModule` and
 * `new Entrypoint` are host primitives, given here by their effects.
 */
module ChunkGraph {
  import opened Wrappers

  type ChunkId = nat
  type EntryId = nat

  /** A module: an identity and the resource path the bucket tests look at. */
  datatype Module = Module(id: nat, resource: Option<string>)

  /** A chunk; `initial` stands for the host's `chunk.isInitial()`. */
  datatype Chunk = Chunk(
    name: Option<string>,
    initial: bool,
    modules: seq<Module>,
    parents: seq<ChunkId>,
    entrypoints: seq<EntryId>)

  /** An entrypoint: a name and the ordered chunks it loads. */
  datatype Entrypoint = Entrypoint(name: Option<string>, chunks: seq<ChunkId>)

  /** The chunk and entrypoint arenas of one compilation. */
  datatype Graph = Graph(chunks: seq<Chunk>, entrypoints: seq<Entrypoint>)

  /** What a RegExp test sees: a module without a resource is matched as the text "undefined". */
  function ResourceText(m: Module): (r: string) {
    if m.resource.Some? then m.resource.value else "undefined"
  }

  predicate NoDup<T(==)>(s: seq<T>) {
    forall i, j | 0 <= i < j < |s| :: s[i] != s[j]
  }

  /** Every entrypoint that a chunk lists exists in the arena. */
  predicate EntriesInRange(g: Graph) {
    forall i, k | 0 <= i < |g.chunks| && 0 <= k < |g.chunks[i].entrypoints| ::
      g.chunks[i].entrypoints[k] < |g.entrypoints|
  }

  /** The elements of `s` that are not in `removed`, in their order. */
  function Without(s: seq<Module>, removed: set<Module>): (r: seq<Module>)
    ensures forall x :: x in r <==> x in s && x !in removed
    ensures |r| <= |s|
  {
    if s == [] then []
    else (if s[0] in removed then [] else [s[0]]) + Without(s[1..], removed)
  }

  lemma {:induction false} WithoutNothing(s: seq<Module>)
    ensures Without(s, {}) == s
  {
    if s != [] {
      WithoutNothing(s[1..]);
    }
  }

  /** `chunk.removeModule`: every occurrence of the module leaves the list. */
  function RemoveModule(s: seq<Module>, m: Module): (r: seq<Module>)
    ensures forall x :: x in r <==> x in s && x != m
  {
    Without(s, {m})
  }

  /** Removing one more module from a filtered list is filtering by one more module. */
  lemma {:induction false} RemoveFromWithout(s: seq<Module>, removed: set<Module>, m: Module)
    ensures RemoveModule(Without(s, removed), m) == Without(s, removed + {m})
  {
    if s != [] {
      RemoveFromWithout(s[1..], removed, m);
      var rest := Without(s[1..], removed);
      if s[0] in removed {
        assert Without(s, removed) == rest;
      } else {
        assert Without(s, removed) == [s[0]] + rest;
        assert Without([s[0]] + rest, {m}) == (if s[0] == m then [] else [s[0]]) + Without(rest, {m}) by {
          assert ([s[0]] + rest)[1..] == rest;
        }
      }
    }
  }

  /** `chunk.addModule`: a module already in the chunk is not added twice. */
  function AddModule(s: seq<Module>, m: Module): (r: seq<Module>)
    ensures forall x :: x in r <==> x in s || x == m
    ensures NoDup(s) ==> NoDup(r)
    ensures m !in s ==> r == s + [m]
  {
    if m in s then s else s + [m]
  }

  /** The chunk `addChunk(name)` creates: named, not initial, empty. */
  function NewChunk(name: string): (r: Chunk)
    ensures r.name == Some(name) && !r.initial
    ensures r.modules == [] && r.parents == [] && r.entrypoints == []
  {
    Chunk(Some(name), false, [], [], [])
  }

  /** `from.moveModule(m, to)`: the module leaves `from` and joins `to`. */
  function MoveModule(chunks: seq<Chunk>, from: ChunkId, m: Module, to: ChunkId): (r: seq<Chunk>)
    requires from < |chunks| && to < |chunks| && from != to
    ensures |r| == |chunks|
    ensures forall i | 0 <= i < |chunks| && i != from && i != to :: r[i] == chunks[i]
    ensures r[from] == chunks[from].(modules := RemoveModule(chunks[from].modules, m))
    ensures r[to] == chunks[to].(modules := AddModule(chunks[to].modules, m))
    ensures m !in r[from].modules && m in r[to].modules
  {
    chunks[from := chunks[from].(modules := RemoveModule(chunks[from].modules, m))]
          [to := chunks[to].(modules := AddModule(chunks[to].modules, m))]
  }
}
