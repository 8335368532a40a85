/**
 * Concrete runs of the pass. `main` is an initial chunk with the modules `a`
 * and `b`, loaded by the entrypoint `main`; bucket `A` takes the resource
 * "a" and bucket `B` the resource "b".
 */
module Scenarios {
  import opened Wrappers
  import opened BucketConfig
  import opened Matching
  import opened ChunkGraph
  import opened Scanning
  import opened Repair
  import opened Recording

  const ModA: Module := Module(0, Some("a"))
  const ModB: Module := Module(1, Some("b"))

  const BucketA: Bucket := Bucket("A", s => s == "a", None, [])
  const BucketB: Bucket := Bucket("B", s => s == "b", None, [])

  const MainChunk: Chunk := Chunk(Some("main"), true, [ModA, ModB], [], [0])
  const Start: Graph := Graph([MainChunk], [Entrypoint(Some("main"), [0])])

  /** Moving `a` out of `main`. */
  lemma RemoveA()
    ensures RemoveModule([ModA, ModB], ModA) == [ModB]
  {
    assert Without([ModB], {ModA}) == [ModB] by {
      assert [ModB][1..] == [];
    }
    assert [ModA, ModB][1..] == [ModB];
  }

  /** Moving `b` out of what is left of `main`. */
  lemma RemoveB()
    ensures RemoveModule([ModB], ModB) == []
  {
  }

  /** `a` goes to bucket `A`, whose chunk is created at index 1. */
  lemma SplitVisitA()
    ensures VisitModule([BucketA, BucketB], ScanState(Start.chunks, map[], map[]), 0, "main", ModA)
      == ScanState([MainChunk.(modules := [ModB]), NewChunk("A").(modules := [ModA])], map["A" := 1], map[])
  {
    var buckets := [BucketA, BucketB];
    assert RouteName(buckets, "main", ModA) == Some("A");
    RemoveA();
    var cs := Start.chunks + [NewChunk("A")];
    var r := MoveModule(cs, 0, ModA, 1);
    assert AddModule([], ModA) == [ModA];
    assert r[0] == MainChunk.(modules := [ModB]);
    assert r[1] == NewChunk("A").(modules := [ModA]);
    assert r == [MainChunk.(modules := [ModB]), NewChunk("A").(modules := [ModA])];
  }

  /** `b` goes to bucket `B`, whose chunk is created at index 2. */
  lemma SplitVisitB()
    ensures VisitModule([BucketA, BucketB], ScanState([MainChunk.(modules := [ModB]), NewChunk("A").(modules := [ModA])], map["A" := 1], map[]), 0, "main", ModB)
      == ScanState([MainChunk.(modules := []), NewChunk("A").(modules := [ModA]), NewChunk("B").(modules := [ModB])], map["A" := 1, "B" := 2], map[])
  {
    var buckets := [BucketA, BucketB];
    assert buckets[1..] == [BucketB];
    assert FindMatchingBucket([BucketB], "b") == Some(0);
    assert RouteName(buckets, "main", ModB) == Some("B");
    RemoveB();
    var cs := [MainChunk.(modules := [ModB]), NewChunk("A").(modules := [ModA])] + [NewChunk("B")];
    var r := MoveModule(cs, 0, ModB, 2);
    assert AddModule([], ModB) == [ModB];
    assert r[0] == MainChunk.(modules := []);
    assert r[1] == NewChunk("A").(modules := [ModA]);
    assert r[2] == NewChunk("B").(modules := [ModB]);
    assert r == [MainChunk.(modules := []), NewChunk("A").(modules := [ModA]), NewChunk("B").(modules := [ModB])];
  }

  /** The arena after the scan with both buckets: `main` is empty, `a` and `b` sit in the new chunks. */
  const SplitArena: seq<Chunk> := [MainChunk.(modules := []), NewChunk("A").(modules := [ModA]), NewChunk("B").(modules := [ModB])]

  /** The two modules of `main`, visited in order. */
  lemma SplitVisits()
    ensures VisitModules([BucketA, BucketB], ScanState(Start.chunks, map[], map[]), 0, "main", [ModA, ModB])
      == ScanState(SplitArena, map["A" := 1, "B" := 2], map[])
  {
    var buckets := [BucketA, BucketB];
    var st0 := ScanState(Start.chunks, map[], map[]);
    SplitVisitA();
    SplitVisitB();
    assert [ModA, ModB][..1] == [ModA];
    assert [ModA][..0] == [];
    assert VisitModules(buckets, st0, 0, "main", [ModA]) == VisitModule(buckets, st0, 0, "main", ModA);
  }

  /** The last module of `main` goes to `B`. */
  lemma SplitLastRouted()
    ensures LastRouted([BucketA, BucketB], "main", [ModA, ModB]) == Some("B")
  {
    var buckets := [BucketA, BucketB];
    assert buckets[1..] == [BucketB];
    assert FindMatchingBucket([BucketB], "b") == Some(0);
    assert RouteName(buckets, "main", ModB) == Some("B");
  }

  /** Both buckets get a chunk, but `main` is recorded only under `B`, the bucket of its last moved module. */
  lemma SplitScan()
    ensures Scan([BucketA, BucketB], Start.chunks) == ScanState(SplitArena, map["A" := 1, "B" := 2], map["B" := [0]])
  {
    var buckets := [BucketA, BucketB];
    assert ScanOrder(Start.chunks) == [0] by {
      assert Start.chunks[..0] == [];
    }
    SplitVisits();
    SplitLastRouted();
    assert [0][..0] == [];
    assert ScanChunks(buckets, Start.chunks, []) == ScanState(Start.chunks, map[], map[]);
    assert [] + [0] == [0];
    assert Record(map[], "B", 0) == map["B" := [0]];
  }

  /** The chunks to repair, in bucket order. */
  lemma SplitToRepair()
    ensures ToRepair([BucketA, BucketB], map["A" := 1, "B" := 2]) == [1, 2]
  {
  }

  /** The repair loop of the as-written pass stops at `A`'s chunk. */
  lemma SplitRepairFails()
    ensures RepairEach(Graph(SplitArena, Start.entrypoints), map["B" := [0]], [1, 2]) == Err(NoRecordedSource("A"))
  {
    assert [1, 2][..1] == [1];
    assert [1][..0] == [];
    assert RepairEach(Graph(SplitArena, Start.entrypoints), map["B" := [0]], [1]) == Err(NoRecordedSource("A"));
  }

  /** The as-written pass throws at index.js:104 for bucket `A`: no chunk is recorded under its name. */
  lemma SplitFails()
    ensures Optimize([BucketA, BucketB], Start) == Err(NoRecordedSource("A"))
  {
    SplitScan();
    SplitToRepair();
    SplitRepairFails();
  }

  /** The arena after the first repair of the corrected pass. */
  const SplitHalfway: Graph := Graph(
      [ MainChunk.(modules := []),
        NewChunk("A").(modules := [ModA], entrypoints := [0, 1]),
        NewChunk("B").(modules := [ModB]) ],
      [ Entrypoint(Some("main"), [0, 1]), Entrypoint(Some("A"), [1]) ])

  /** The arena after the corrected pass. */
  const SplitRepaired: Graph := Graph(
      [ MainChunk.(modules := []),
        NewChunk("A").(modules := [ModA], entrypoints := [0, 1]),
        NewChunk("B").(modules := [ModB], entrypoints := [0, 2]) ],
      [ Entrypoint(Some("main"), [0, 1, 2]),
        Entrypoint(Some("A"), [1]),
        Entrypoint(Some("B"), [2]) ])

  /** `main` fed both buckets. */
  lemma SplitDestinations()
    ensures Destinations([BucketA, BucketB], "main", [ModA, ModB]) == ["A", "B"]
  {
    var buckets := [BucketA, BucketB];
    assert RouteName(buckets, "main", ModA) == Some("A");
    assert buckets[1..] == [BucketB];
    assert FindMatchingBucket([BucketB], "b") == Some(0);
    assert RouteName(buckets, "main", ModB) == Some("B");
    assert Destinations(buckets, "main", [ModA]) == ["A"] by {
      assert [ModA][..0] == [];
    }
    assert [ModA, ModB][..1] == [ModA];
  }

  lemma SplitRecordAll()
    ensures RecordAll(map[], ["A", "B"], 0) == map["A" := [0], "B" := [0]]
  {
    assert RecordAll(map[], ["A"], 0) == map["A" := [0]] by {
      assert ["A"][..0] == [];
      assert RecordAll(map[], [], 0) == map[];
      assert [] + [0] == [0];
      assert Record(map[], "A", 0) == map["A" := [0]];
    }
    assert ["A", "B"][..1] == ["A"];
  }

  /** Recorded under every bucket it fed, `main` is a source of both. */
  lemma SplitAllSources()
    ensures AllSources([BucketA, BucketB], Start.chunks, ScanOrder(Start.chunks)) == map["A" := [0], "B" := [0]]
  {
    assert ScanOrder(Start.chunks) == [0] by {
      assert Start.chunks[..0] == [];
    }
    SplitDestinations();
    SplitRecordAll();
    assert [0][..0] == [];
  }

  lemma SplitEntrypointsA()
    ensures var eps := Start.entrypoints + [Entrypoint(Some("A"), [1])];
      eps[0 := eps[0].(chunks := eps[0].chunks + [1])] == SplitHalfway.entrypoints
  {
    var eps := Start.entrypoints + [Entrypoint(Some("A"), [1])];
    assert eps == [Entrypoint(Some("main"), [0]), Entrypoint(Some("A"), [1])];
    assert eps[0].chunks + [1] == [0, 1];
  }

  lemma SplitChunksA()
    ensures SplitArena[1 := SplitArena[1].(entrypoints := [0] + ([1] + SplitArena[1].entrypoints), parents := [])] == SplitHalfway.chunks
  {
    assert [0] + ([1] + SplitArena[1].entrypoints) == [0, 1];
    var r := SplitArena[1 := SplitArena[1].(entrypoints := [0, 1], parents := [])];
    assert r[0] == SplitHalfway.chunks[0] && r[1] == SplitHalfway.chunks[1] && r[2] == SplitHalfway.chunks[2];
  }

  /** The repair of `A`'s chunk: entrypoints [main, A], and `main` loads it. */
  lemma SplitRepairA()
    ensures RepairChunk(Graph(SplitArena, Start.entrypoints), map["A" := [0], "B" := [0]], 1) == Ok(SplitHalfway)
  {
    assert CommonParents(SplitArena, [0]) == [] by {
      assert [0][..0] == [];
    }
    SplitEntrypointsA();
    SplitChunksA();
  }

  lemma SplitEntrypointsB()
    ensures var eps := SplitHalfway.entrypoints + [Entrypoint(Some("B"), [2])];
      eps[0 := eps[0].(chunks := eps[0].chunks + [2])] == SplitRepaired.entrypoints
  {
    var eps := SplitHalfway.entrypoints + [Entrypoint(Some("B"), [2])];
    assert eps == [Entrypoint(Some("main"), [0, 1]), Entrypoint(Some("A"), [1]), Entrypoint(Some("B"), [2])];
    assert eps[0].chunks + [2] == [0, 1, 2];
  }

  lemma SplitChunksB()
    ensures SplitHalfway.chunks[2 := SplitHalfway.chunks[2].(entrypoints := [0] + ([2] + SplitHalfway.chunks[2].entrypoints), parents := [])] == SplitRepaired.chunks
  {
    assert [0] + ([2] + SplitHalfway.chunks[2].entrypoints) == [0, 2];
    var r := SplitHalfway.chunks[2 := SplitHalfway.chunks[2].(entrypoints := [0, 2], parents := [])];
    assert r[0] == SplitRepaired.chunks[0] && r[1] == SplitRepaired.chunks[1] && r[2] == SplitRepaired.chunks[2];
  }

  /** The repair of `B`'s chunk: entrypoints [main, B], and `main` loads it after `A`'s. */
  lemma SplitRepairB()
    ensures RepairChunk(SplitHalfway, map["A" := [0], "B" := [0]], 2) == Ok(SplitRepaired)
  {
    assert CommonParents(SplitHalfway.chunks, [0]) == [] by {
      assert [0][..0] == [];
    }
    SplitEntrypointsB();
    SplitChunksB();
  }

  lemma SplitRepairLoop()
    ensures RepairEach(Graph(SplitArena, Start.entrypoints), map["A" := [0], "B" := [0]], [1, 2]) == Ok(SplitRepaired)
  {
    SplitRepairA();
    SplitRepairB();
    assert [1, 2][..1] == [1];
    assert [1][..0] == [];
    assert RepairEach(Graph(SplitArena, Start.entrypoints), map["A" := [0], "B" := [0]], [1]) == Ok(SplitHalfway);
  }

  /** With the full record the same input is repaired: both new chunks hang off the `main` entrypoint. */
  lemma SplitWithAllSources()
    ensures OptimizeAllSources([BucketA, BucketB], Start) == Ok(SplitRepaired)
  {
    SplitScan();
    SplitToRepair();
    SplitAllSources();
    SplitRepairLoop();
  }

  lemma ParentsOfFirst(cs: seq<Chunk>)
    requires 1 <= |cs| && cs[0].parents == [2, 3]
    ensures CommonParents(cs, [0]) == [2, 3]
  {
    assert [0][..0] == [];
    assert CommonParents(cs, []) == [];
    assert DropChunk([], 0) == [];
    assert NewParents([2, 3], []) == [2, 3] by {
      assert [2, 3][1..] == [3];
      assert [3][1..] == [];
    }
  }

  lemma ParentsKept()
    ensures DropChunk([2, 3], 1) == [2, 3]
  {
  }

  lemma ParentsAdded()
    ensures NewParents([3, 4], [2, 3]) == [4]
  {
  }

  /**
   * The parent list of a new chunk whose recorded sources are chunk 0 (with
   * parents 2 and 3) and chunk 1 (with parents 3 and 4): the parents of the
   * first source, then those of the second not listed yet.
   */
  lemma ParentsUnion(cs: seq<Chunk>)
    requires 2 <= |cs| && cs[0].parents == [2, 3] && cs[1].parents == [3, 4]
    ensures CommonParents(cs, [0, 1]) == [2, 3, 4]
  {
    assert [0, 1][..1] == [0];
    ParentsOfFirst(cs);
    ParentsKept();
    ParentsAdded();
    ParentsJoined();
  }

  lemma ParentsJoined()
    ensures [2, 3] + [4] == [2, 3, 4]
  {
  }


  /** The arena after the scan with the single bucket `B`. */
  const VendorArena: seq<Chunk> := [MainChunk.(modules := [ModA]), NewChunk("B").(modules := [ModB])]

  /** The arena after the pass with the single bucket `B`. */
  const VendorRepaired: Graph := Graph(
      [ MainChunk.(modules := [ModA]),
        NewChunk("B").(modules := [ModB], entrypoints := [0, 1]) ],
      [ Entrypoint(Some("main"), [0, 1]),
        Entrypoint(Some("B"), [1]) ])

  /** Only `b` is routed; `a` stays in `main`. */
  lemma VendorVisit()
    ensures VisitModules([BucketB], ScanState(Start.chunks, map[], map[]), 0, "main", [ModA, ModB])
      == ScanState(VendorArena, map["B" := 1], map[])
  {
    var buckets := [BucketB];
    var st0 := ScanState(Start.chunks, map[], map[]);
    assert RouteName(buckets, "main", ModA) == None by {
      assert buckets[1..] == [];
    }
    assert RouteName(buckets, "main", ModB) == Some("B");
    assert [ModA, ModB][..1] == [ModA];
    assert [ModA][..0] == [];
    assert VisitModules(buckets, st0, 0, "main", [ModA]) == st0;
    assert RemoveModule([ModA, ModB], ModB) == [ModA] by {
      assert [ModB][1..] == [];
      assert Without([ModB], {ModB}) == [];
      assert [ModA, ModB][1..] == [ModB];
    }
    var r := MoveModule(Start.chunks + [NewChunk("B")], 0, ModB, 1);
    assert AddModule([], ModB) == [ModB];
    assert r[0] == VendorArena[0] && r[1] == VendorArena[1];
    assert r == VendorArena;
  }

  lemma VendorScan()
    ensures Scan([BucketB], Start.chunks) == ScanState(VendorArena, map["B" := 1], map["B" := [0]])
  {
    var buckets := [BucketB];
    assert ScanOrder(Start.chunks) == [0] by {
      assert Start.chunks[..0] == [];
    }
    VendorVisit();
    assert RouteName(buckets, "main", ModB) == Some("B");
    assert [ModA, ModB][..1] == [ModA];
    assert LastRouted(buckets, "main", [ModA, ModB]) == Some("B");
    assert [0][..0] == [];
    assert ScanChunks(buckets, Start.chunks, []) == ScanState(Start.chunks, map[], map[]);
    assert [] + [0] == [0];
    assert Record(map[], "B", 0) == map["B" := [0]];
  }

  lemma VendorEntrypoints()
    ensures var eps := Start.entrypoints + [Entrypoint(Some("B"), [1])];
      eps[0 := eps[0].(chunks := eps[0].chunks + [1])] == VendorRepaired.entrypoints
  {
    var eps := Start.entrypoints + [Entrypoint(Some("B"), [1])];
    assert eps == [Entrypoint(Some("main"), [0]), Entrypoint(Some("B"), [1])];
    assert eps[0].chunks + [1] == [0, 1];
  }

  lemma VendorChunks()
    ensures VendorArena[1 := VendorArena[1].(entrypoints := [0] + ([1] + VendorArena[1].entrypoints), parents := [])] == VendorRepaired.chunks
  {
    assert [0] + ([1] + VendorArena[1].entrypoints) == [0, 1];
    var r := VendorArena[1 := VendorArena[1].(entrypoints := [0, 1], parents := [])];
    assert r[0] == VendorRepaired.chunks[0] && r[1] == VendorRepaired.chunks[1];
  }

  lemma VendorRepair()
    ensures RepairEach(Graph(VendorArena, Start.entrypoints), map["B" := [0]], [1]) == Ok(VendorRepaired)
  {
    assert CommonParents(VendorArena, [0]) == [] by {
      assert [0][..0] == [];
    }
    VendorEntrypoints();
    VendorChunks();
    assert [1][..0] == [];
    assert RepairChunk(Graph(VendorArena, Start.entrypoints), map["B" := [0]], 1) == Ok(VendorRepaired);
  }

  /** One bucket taking `b`: the pass succeeds, `main` keeps `a`, and the new chunk `B` is loaded by `main` after it and by its own entrypoint. */
  lemma VendorSplit()
    ensures Optimize([BucketB], Start) == Ok(VendorRepaired)
  {
    VendorScan();
    VendorRepair();
    assert ToRepair([BucketB], map["B" := 1]) == [1] by {
      assert [BucketB][..0] == [];
    }
  }
}
