/** The Tier 1 worklist: planned chunks first, then one level of fallback chunks for those a gate rejected. */
module FallbackWorklist {
  import opened Prelude
  import opened Batching
  import Planning = UnityChunks
  import Strict = StrictChunks

  /** What qualifying a chunk ends with; `retry` says a gate rejected it and its receipt could be written. */
  datatype Verdict = Accepted(receipt: string) | Rejected(retry: bool)

  datatype Job = Job(chunk: Chunk, fallback: bool)

  /** Everything a run depends on: the entries, the planning options, and arbitrary verdicts, cached or fresh. */
  datatype Input = Input(entries: seq<Planning.Entry>, members: Members, options: Planning.Options,
                         prove: Job -> Verdict)

  function SourceClass(e: Planning.Entry): nat {
    if forall m :: m in e.members ==> m.kind == Planning.Generated then 0
    else if exists m :: m in e.members && m.kind == Planning.Generated then 1 else 2
  }

  predicate CrossesClasses(group: seq<Planning.Entry>) {
    exists i, j :: 0 <= i < |group| && 0 <= j < |group| && SourceClass(group[i]) != SourceClass(group[j])
  }

  function FallbackOptions(o: Planning.Options): Planning.Options {
    o.(maxSources := None, splitClasses := true, avoidPairs := false)
  }

  /** `_tier1_fallback_chunks`, in the indexes of the whole database. */
  function FallbackChunks(input: Input, chunk: Chunk): (r: seq<Chunk>) {
    var group := Planning.At(input.entries, chunk);
    if !CrossesClasses(group) then []
    else Strict.RenameAll(chunk, Planning.Plan(FallbackOptions(input.options), group))
  }

  function FallbackJobs(chunks: seq<Chunk>): (r: seq<Job>)
    ensures |r| == |chunks|
  {
    seq(|chunks|, k requires 0 <= k < |chunks| => Job(chunks[k], true))
  }

  /** What a processed job appends to the worklist. */
  function Children(input: Input, job: Job): seq<Job> {
    if !job.fallback && input.prove(job) == Rejected(true) then FallbackJobs(FallbackChunks(input, job.chunk)) else []
  }

  function AllChildren(input: Input, jobs: seq<Job>): seq<Job> {
    if jobs == [] then [] else AllChildren(input, Init(jobs)) + Children(input, Last(jobs))
  }

  function PlannedJobs(input: Input): seq<Job> {
    var plan := Planning.Plan(input.options, input.entries);
    seq(|plan|, k requires 0 <= k < |plan| => Job(plan[k], false))
  }

  /** Every job of the run, in the order they are tried. */
  function AllJobs(input: Input): seq<Job> {
    PlannedJobs(input) + AllChildren(input, PlannedJobs(input))
  }

  function AcceptedOf(input: Input, jobs: seq<Job>): seq<Chunk> {
    if jobs == [] then []
    else AcceptedOf(input, Init(jobs)) + if input.prove(Last(jobs)).Accepted? then [Last(jobs).chunk] else []
  }

  function ChunksOf(jobs: seq<Job>): seq<Chunk> {
    if jobs == [] then [] else ChunksOf(Init(jobs)) + [Last(jobs).chunk]
  }

  // ---- planned chunks are apart ----------------------------------------------------------------

  lemma {:induction false} ApartFlattens(chunks: seq<Chunk>)
    requires forall c :: c in chunks ==> Distinct(c)
    requires forall i, j, x :: 0 <= i < j < |chunks| && x in chunks[i] ==> x !in chunks[j]
    ensures Distinct(Flatten(chunks))
  {
    if chunks == [] {
      NothingDistinct();
    } else {
      hide Distinct, Flatten;
      assert forall c :: c in Init(chunks) ==> c in chunks;
      ApartFlattens(Init(chunks));
      FlattenLast(chunks);
      assert Last(chunks) in chunks;
      DistinctConcat(Flatten(Init(chunks)), Last(chunks));
      forall i | 0 <= i < |Last(chunks)| ensures Last(chunks)[i] !in Flatten(Init(chunks)) {
        NotInEarlier(chunks, Last(chunks)[i]);
      }
    }
  }

  lemma NotInEarlier(chunks: seq<Chunk>, x: nat)
    requires chunks != [] && x in Last(chunks)
    requires forall i, j, x :: 0 <= i < j < |chunks| && x in chunks[i] ==> x !in chunks[j]
    ensures x !in Flatten(Init(chunks))
  {
    hide Flatten;
    FlattenMember(Init(chunks), x);
    forall k | 0 <= k < |chunks| - 1 ensures x !in Init(chunks)[k] {
      assert Init(chunks)[k] == chunks[k] && Last(chunks) == chunks[|chunks| - 1];
    }
  }

  lemma NothingDistinct()
    ensures Distinct(Flatten<nat>([]))
  {
  }

  lemma PlanIsApart(o: Planning.Options, entries: seq<Planning.Entry>)
    ensures InRange(|entries|, Planning.Plan(o, entries)) && Distinct(Flatten(Planning.Plan(o, entries)))
  {
    hide Planning.Plan;
    var plan := Planning.Plan(o, entries);
    forall c | c in plan ensures c != [] && (forall i :: i in c ==> i < |entries|) && Distinct(c) {
      Planning.ChunkFacts(o, entries, c);
      forall i | i in c ensures i < |entries| {
        var k :| 0 <= k < |c| && c[k] == i;
        assert Planning.Belongs(o, entries, Planning.KeyAt(o, entries, c[0]), c[k]);
      }
    }
    forall i, j, x | 0 <= i < j < |plan| && x in plan[i] ensures x !in plan[j] {
      Planning.PlanIs(o, entries);
      if x in plan[j] { Planning.ChunksDisjoint(o, entries, plan[i], plan[j], x); }
    }
    ApartFlattens(plan);
  }

  // ---- renamed chunks --------------------------------------------------------------------------

  lemma RenamedAt(chunk: Chunk, part: Chunk, k: nat)
    requires k < |part| && part[k] < |chunk|
    ensures Strict.Rename(chunk, part)[k] == chunk[part[k]]
  {
  }

  /** Chunks of positions, renamed to the entries at those positions, are as far apart as before. */
  lemma {:induction false} RenamedApart(chunk: Chunk, parts: seq<Chunk>)
    requires Distinct(chunk) && InRange(|chunk|, parts) && Distinct(Flatten(parts))
    ensures Distinct(Flatten(Strict.RenameAll(chunk, parts)))
    ensures forall x :: x in Flatten(Strict.RenameAll(chunk, parts)) <==>
              exists p: nat :: p in Flatten(parts) && p < |chunk| && chunk[p] == x
  {
    hide Distinct, Flatten;
    if parts == [] {
      NothingDistinct();
      NothingFlattened();
    } else {
      var part, before := Last(parts), Init(parts);
      InitApart(parts);
      assert part in parts && forall c :: c in before ==> c in parts;
      RenamedApart(chunk, before);
      RenamedOne(chunk, part);
      var renamed := Strict.RenameAll(chunk, parts);
      assert Init(renamed) == Strict.RenameAll(chunk, before) && Last(renamed) == Strict.Rename(chunk, part);
      FlattenLast(renamed);
      FlattenLast(parts);
      DistinctConcat(Flatten(Init(renamed)), Last(renamed));
      forall i | 0 <= i < |Last(renamed)| ensures Last(renamed)[i] !in Flatten(Init(renamed)) {
        assert part[i] in part;
        RenamedAt(chunk, part, i);
        RenamedElsewhere(chunk, part[i], Flatten(before), Flatten(Init(renamed)), Last(renamed)[i]);
      }
    }
  }

  lemma RenamedElsewhere(chunk: Chunk, q: nat, before: seq<nat>, renamed: seq<nat>, x: nat)
    requires Distinct(chunk) && q !in before && q < |chunk| && chunk[q] == x
    requires x in renamed ==> exists p: nat :: p in before && p < |chunk| && chunk[p] == x
    ensures x !in renamed
  {
    forall p: nat | p < |chunk| && chunk[p] == x ensures p == q { SamePosition(chunk, p, q); }
  }

  lemma SamePosition(chunk: Chunk, p: nat, q: nat)
    requires Distinct(chunk) && p < |chunk| && q < |chunk| && chunk[p] == chunk[q]
    ensures p == q
  {
  }

  lemma NothingFlattened()
    ensures Flatten<nat>([]) == []
  {
  }

  lemma RenamedOne(chunk: Chunk, part: Chunk)
    requires Distinct(chunk) && Distinct(part) && forall p :: p in part ==> p < |chunk|
    ensures Distinct(Strict.Rename(chunk, part))
    ensures forall x :: x in Strict.Rename(chunk, part) <==> exists p: nat :: p in part && p < |chunk| && chunk[p] == x
  {
    var renamed := Strict.Rename(chunk, part);
    forall i, j | 0 <= i < j < |renamed| ensures renamed[i] != renamed[j] {
      assert part[i] in part && part[j] in part;
      if renamed[i] == renamed[j] { SamePosition(chunk, part[i], part[j]); }
    }
    forall x ensures x in renamed <==> exists p: nat :: p in part && p < |chunk| && chunk[p] == x {
      if x in renamed {
        var k :| 0 <= k < |renamed| && renamed[k] == x;
        assert part[k] in part;
      }
      if p: nat :| p in part && p < |chunk| && chunk[p] == x {
        var k :| 0 <= k < |part| && part[k] == p;
        assert renamed[k] == x;
      }
    }
  }

  lemma DistinctSubset<T>(a: seq<T>, b: seq<T>)
    requires Distinct(a) && forall x :: x in a ==> x in b
    ensures multiset(a) <= multiset(b)
  {
    hide Distinct;
    DistinctIsMultiset(a);
    forall x | x in multiset(a) ensures multiset(a)[x] <= multiset(b)[x] {
      assert x in a;
      assert x in b;
    }
  }

  /** The fallback chunks of a chunk divide part of it. */
  lemma FallbackWithin(input: Input, chunk: Chunk)
    requires Distinct(chunk)
    ensures multiset(Flatten(FallbackChunks(input, chunk))) <= multiset(chunk)
    ensures [] !in FallbackChunks(input, chunk)
  {
    hide Planning.Plan, CrossesClasses;
    var group := Planning.At(input.entries, chunk);
    if CrossesClasses(group) {
      var plan := Planning.Plan(FallbackOptions(input.options), group);
      PlanIsApart(FallbackOptions(input.options), group);
      RenamedApart(chunk, plan);
      DistinctSubset(Flatten(Strict.RenameAll(chunk, plan)), chunk);
      forall k | 0 <= k < |plan| ensures Strict.RenameAll(chunk, plan)[k] != [] { assert plan[k] in plan; }
    }
  }

  // ---- accepted chunks are apart ---------------------------------------------------------------

  lemma ChunksOfAppend(a: seq<Job>, b: seq<Job>)
    ensures ChunksOf(a + b) == ChunksOf(a) + ChunksOf(b)
    decreases |b|
  {
    if b == [] {
      assert a + b == a && ChunksOf(a) + [] == ChunksOf(a);
    } else {
      ChunksOfAppend(a, Init(b));
      assert Init(a + b) == a + Init(b) && Last(a + b) == Last(b);
      Associates(ChunksOf(a), ChunksOf(Init(b)), [Last(b).chunk]);
    }
  }

  lemma {:induction false} ChunksOfFallback(chunks: seq<Chunk>)
    ensures ChunksOf(FallbackJobs(chunks)) == chunks
  {
    if chunks != [] {
      ChunksOfFallback(Init(chunks));
      assert Init(FallbackJobs(chunks)) == FallbackJobs(Init(chunks));
    }
  }

  /** What is accepted of these jobs is part of what they hold. */
  lemma {:induction false} AcceptedIsPart(input: Input, jobs: seq<Job>)
    ensures multiset(Flatten(AcceptedOf(input, jobs))) <= multiset(Flatten(ChunksOf(jobs)))
    ensures forall c :: c in AcceptedOf(input, jobs) ==> c in ChunksOf(jobs)
  {
    hide Flatten;
    if jobs == [] {
      NothingFlattened();
    } else {
      AcceptedIsPart(input, Init(jobs));
      FlattenSnoc(ChunksOf(Init(jobs)), Last(jobs).chunk);
      FlattenSnoc(AcceptedOf(input, Init(jobs)), Last(jobs).chunk);
      PartGrows(Flatten(AcceptedOf(input, Init(jobs))), Flatten(ChunksOf(Init(jobs))), Last(jobs).chunk);
      NothingAdded(AcceptedOf(input, Init(jobs)));
    }
  }

  lemma NothingAdded<T>(a: seq<T>)
    ensures a + [] == a
  {
  }

  /** A planned chunk is either accepted or gives way to its fallback chunks, never both. */
  lemma {:induction false} PlannedShare(input: Input, jobs: seq<Job>)
    requires (forall j :: j in jobs ==> !j.fallback) && Distinct(Flatten(ChunksOf(jobs)))
    ensures multiset(Flatten(AcceptedOf(input, jobs))) + multiset(Flatten(ChunksOf(AllChildren(input, jobs))))
            <= multiset(Flatten(ChunksOf(jobs)))
  {
    hide Flatten, Distinct, Children;
    if jobs == [] {
      NothingFlattened();
    } else {
      var job, before := Last(jobs), Init(jobs);
      InitApart(ChunksOf(jobs));
      assert Init(ChunksOf(jobs)) == ChunksOf(before);
      assert forall j :: j in before ==> j in jobs;
      PlannedShare(input, before);
      ChildrenShare(input, job);
      ChunksOfAppend(AllChildren(input, before), Children(input, job));
      FlattenAppend(ChunksOf(AllChildren(input, before)), ChunksOf(Children(input, job)));
      FlattenLast(ChunksOf(jobs));
      FlattenSnoc(AcceptedOf(input, before), job.chunk);
      NothingAdded(AcceptedOf(input, before));
      SharesAdd(Flatten(AcceptedOf(input, before)), Flatten(ChunksOf(AllChildren(input, before))),
                Flatten(ChunksOf(before)), if input.prove(job).Accepted? then job.chunk else [],
                Flatten(ChunksOf(Children(input, job))), job.chunk);
      NothingAdded(Flatten(AcceptedOf(input, before)));
    }
  }

  lemma ChildrenShare(input: Input, job: Job)
    requires Distinct(job.chunk)
    ensures multiset(if input.prove(job).Accepted? then job.chunk else [])
            + multiset(Flatten(ChunksOf(Children(input, job)))) <= multiset(job.chunk)
  {
    hide Flatten, Distinct, FallbackChunks;
    if Children(input, job) == [] {
      NothingFlattened();
      assert ChunksOf([]) == [];
    } else {
      FallbackWithin(input, job.chunk);
      ChunksOfFallback(FallbackChunks(input, job.chunk));
    }
  }

  lemma SharesAdd<T>(a: seq<T>, b: seq<T>, c: seq<T>, x: seq<T>, y: seq<T>, z: seq<T>)
    requires multiset(a) + multiset(b) <= multiset(c) && multiset(x) + multiset(y) <= multiset(z)
    ensures multiset(a + x) + multiset(b + y) <= multiset(c + z)
  {
  }

  lemma AcceptedAppend(input: Input, a: seq<Job>, b: seq<Job>)
    ensures AcceptedOf(input, a + b) == AcceptedOf(input, a) + AcceptedOf(input, b)
    decreases |b|
  {
    if b == [] {
      assert a + b == a && AcceptedOf(input, a) + [] == AcceptedOf(input, a);
    } else {
      AcceptedAppend(input, a, Init(b));
      assert Init(a + b) == a + Init(b) && Last(a + b) == Last(b);
      Associates(AcceptedOf(input, a), AcceptedOf(input, Init(b)),
                 if input.prove(Last(b)).Accepted? then [Last(b).chunk] else []);
    }
  }

  lemma PlannedChunks(input: Input)
    ensures ChunksOf(PlannedJobs(input)) == Planning.Plan(input.options, input.entries)
  {
    hide Planning.Plan;
    PlannedChunksUpTo(input, |PlannedJobs(input)|);
    var plan := Planning.Plan(input.options, input.entries);
    assert plan[..|plan|] == plan && PlannedJobs(input)[..|plan|] == PlannedJobs(input);
  }

  lemma {:induction false} PlannedChunksUpTo(input: Input, n: nat)
    requires n <= |PlannedJobs(input)|
    ensures n <= |Planning.Plan(input.options, input.entries)|
    ensures ChunksOf(PlannedJobs(input)[..n]) == Planning.Plan(input.options, input.entries)[..n]
  {
    hide Planning.Plan;
    if n > 0 {
      PlannedChunksUpTo(input, n - 1);
      assert Init(PlannedJobs(input)[..n]) == PlannedJobs(input)[..n - 1];
    }
  }

  /** Whatever the verdicts are, the accepted chunks of a run have no entry in common. */
  lemma AcceptedAreApart(input: Input)
    ensures Distinct(Flatten(AcceptedOf(input, AllJobs(input))))
  {
    hide Flatten, Distinct, Planning.Plan;
    var planned := PlannedJobs(input);
    var children := AllChildren(input, planned);
    PlanIsApart(input.options, input.entries);
    PlannedChunks(input);
    PlannedShare(input, planned);
    AcceptedIsPart(input, children);
    AcceptedAppend(input, planned, children);
    FlattenAppend(AcceptedOf(input, planned), AcceptedOf(input, children));
    PartOfShares(Flatten(AcceptedOf(input, planned)), Flatten(AcceptedOf(input, children)),
                 Flatten(ChunksOf(children)), Flatten(ChunksOf(planned)));
  }

  lemma PartOfShares<T>(a: seq<T>, b: seq<T>, c: seq<T>, all: seq<T>)
    requires multiset(a) + multiset(c) <= multiset(all) && multiset(b) <= multiset(c) && Distinct(all)
    ensures Distinct(a + b)
  {
    hide Distinct;
    DistinctIsMultiset(all);
    DistinctIsMultiset(a + b);
    assert multiset(a + b) == multiset(a) + multiset(b);
    assert multiset(a + b) <= multiset(all);
    forall x ensures multiset(a + b)[x] <= 1 { assert multiset(a + b)[x] <= multiset(all)[x] <= 1; }
  }

  lemma {:induction false} ChildrenNotEmpty(input: Input, jobs: seq<Job>)
    requires forall j :: j in jobs ==> Distinct(j.chunk)
    ensures forall j :: j in AllChildren(input, jobs) ==> j.chunk != [] && j.fallback
  {
    hide FallbackChunks, Distinct;
    if jobs != [] {
      assert jobs == Init(jobs) + [Last(jobs)];
      ChildrenNotEmpty(input, Init(jobs));
      FallbackWithin(input, Last(jobs).chunk);
    }
  }

  lemma JobsNotEmpty(input: Input)
    ensures forall j :: j in AllJobs(input) ==> j.chunk != []
    ensures forall j :: j in PlannedJobs(input) ==> Distinct(j.chunk) && !j.fallback
  {
    hide Planning.Plan;
    PlanIsApart(input.options, input.entries);
    var plan := Planning.Plan(input.options, input.entries);
    forall k | 0 <= k < |plan| ensures plan[k] != [] && Distinct(plan[k]) {
      assert plan[k] in plan;
      Planning.ChunkFacts(input.options, input.entries, plan[k]);
    }
    ChildrenNotEmpty(input, PlannedJobs(input));
  }

  /** Each accepted chunk lies in the database. */
  lemma AcceptedInRange(input: Input)
    ensures InRange(|input.entries|, AcceptedOf(input, AllJobs(input)))
  {
    hide Flatten, Planning.Plan;
    var jobs := AllJobs(input);
    JobsNotEmpty(input);
    AcceptedIsPart(input, jobs);
    ChunksAre(jobs);
    PlanIsApart(input.options, input.entries);
    PlannedChunks(input);
    forall c | c in AcceptedOf(input, jobs) ensures c != [] && forall i :: i in c ==> i < |input.entries| {
      forall i | i in c ensures i < |input.entries| { InSomePlanned(input, c, i); }
    }
  }

  lemma {:induction false} ChunksAre(jobs: seq<Job>)
    ensures forall c :: c in ChunksOf(jobs) ==> exists j :: j in jobs && j.chunk == c
  {
    if jobs != [] {
      ChunksAre(Init(jobs));
      forall c | c in ChunksOf(jobs) ensures exists j :: j in jobs && j.chunk == c {
        if c in ChunksOf(Init(jobs)) {
          var j :| j in Init(jobs) && j.chunk == c;
          assert j in jobs;
        } else {
          assert Last(jobs) in jobs;
        }
      }
    }
  }

  lemma InSomePlanned(input: Input, c: Chunk, i: nat)
    requires c in AcceptedOf(input, AllJobs(input)) && i in c
    ensures i < |input.entries|
  {
    hide Flatten, Distinct, Planning.Plan;
    var planned := PlannedJobs(input);
    var children := AllChildren(input, planned);
    PlanIsApart(input.options, input.entries);
    PlannedChunks(input);
    PlannedShare(input, planned);
    AcceptedIsPart(input, children);
    AcceptedAppend(input, planned, children);
    if c in AcceptedOf(input, planned) {
      FlattenMember(AcceptedOf(input, planned), i);
      assert i in multiset(Flatten(AcceptedOf(input, planned)));
    } else {
      FlattenMember(AcceptedOf(input, children), i);
      assert i in multiset(Flatten(AcceptedOf(input, children)));
      assert i in multiset(Flatten(ChunksOf(children)));
    }
    assert i in multiset(Flatten(ChunksOf(planned)));
    FlattenMember(ChunksOf(planned), i);
    var k :| 0 <= k < |ChunksOf(planned)| && i in ChunksOf(planned)[k];
    assert ChunksOf(planned)[k] in Planning.Plan(input.options, input.entries);
  }
}
