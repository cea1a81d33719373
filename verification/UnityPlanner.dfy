/** The planner loops themselves, proved against the plans they are meant to compute. */
module UnityPlanner {
  import opened Prelude
  import opened ChunkOrder
  import opened UnityChunks
  import opened StrictChunks

  const UNIT_BYTES := 393216

  function OptionsOf(budgetFactor: nat, maxUnities: nat, maxSources: Option<nat>,
                     splitClasses: bool, avoidPairs: bool, includeExact: bool): Options {
    Options(budgetFactor * UNIT_BYTES, maxUnities, maxSources, splitClasses, avoidPairs, includeExact)
  }

  // ---- one bucket ---------------------------------------------------------------------------

  predicate UsesPairs(o: Options) {
    !o.splitClasses && o.avoidPairs
  }

  function StemsOf(o: Options, e: Entry, kind: MemberKind): set<string> {
    if UsesPairs(o) then Stems(e, kind) else {}
  }

  predicate Oversized(o: Options, e: Entry) {
    SizeOf(o, e) > o.byteBudget || !WithinSources(o, |e.members|)
  }

  /** The running totals of the loop describe the open chunk. */
  predicate Totals(o: Options, es: seq<Entry>, size: nat, count: nat, sources: set<string>, generated: set<string>) {
    && size == Bytes(o, es) && count == Sources(es) && Fits(o, es)
    && (UsesPairs(o) ==> sources == AllStems(es, Source) && generated == AllStems(es, Generated))
  }

  predicate Rejects(o: Options, e: Entry, length: nat, size: nat, count: nat,
                    sources: set<string>, generated: set<string>)
  {
    || size + SizeOf(o, e) > o.byteBudget
    || length >= o.maxUnities
    || !WithinSources(o, count + |e.members|)
    || StemsOf(o, e, Source) * generated != {}
    || StemsOf(o, e, Generated) * sources != {}
  }

  /** The incremental test of the loop decides whether the whole longer run fits. */
  lemma RejectsIsUnfit(o: Options, es: seq<Entry>, e: Entry, size: nat, count: nat,
                       sources: set<string>, generated: set<string>)
    requires Totals(o, es, size, count, sources, generated)
    ensures Rejects(o, e, |es|, size, count, sources, generated) <==> !Fits(o, es + [e])
  {
    assert Init(es + [e]) == es;
  }

  lemma TotalsGrow(o: Options, es: seq<Entry>, e: Entry, size: nat, count: nat,
                   sources: set<string>, generated: set<string>)
    requires Totals(o, es, size, count, sources, generated) && Fits(o, es + [e])
    ensures Totals(o, es + [e], size + SizeOf(o, e), count + |e.members|,
                   sources + StemsOf(o, e, Source), generated + StemsOf(o, e, Generated))
  {
    assert Init(es + [e]) == es;
  }

  lemma FitsShorter(o: Options, es: seq<Entry>)
    requires es != []
    ensures Fits(o, es) ==> Fits(o, Init(es))
  {
    if Fits(o, es) { FitsPrefix(o, es, |es| - 1); }
  }

  lemma {:induction false} SomethingTooBig(o: Options, es: seq<Entry>, k: nat)
    requires k < |es| && Oversized(o, es[k])
    ensures !Fits(o, es)
  {
    if k < |es| - 1 {
      SomethingTooBig(o, Init(es), k);
      FitsShorter(o, es);
    }
  }

  /** Where the loop stands: `chunk` is the open run, or the last run was a single oversized entry. */
  predicate Open(o: Options, entries: seq<Entry>, runs: seq<seq<nat>>, chunks: seq<seq<nat>>, chunk: seq<nat>) {
    if chunk != [] then runs != [] && Last(runs) == chunk && chunks == LongOnes(Init(runs))
    else chunks == LongOnes(runs)
         && (runs != [] ==> |Last(runs)| == 1 && Oversized(o, EntryAt(entries, Last(runs)[0])))
  }

  lemma ClosesRun(o: Options, entries: seq<Entry>, runs: seq<seq<nat>>, chunks: seq<seq<nat>>, chunk: seq<nat>, x: nat)
    requires Open(o, entries, runs, chunks, chunk)
    requires chunk != [] ==> !Fits(o, At(entries, chunk + [x]))
    ensures Extend(o, entries, runs, x) == runs + [[x]]
    ensures LongOnes(runs) == if |chunk| > 1 then chunks + [chunk] else chunks
  {
    if chunk == [] && runs != [] {
      SomethingTooBig(o, At(entries, Last(runs) + [x]), 0);
    }
  }

  lemma OpensRun(o: Options, entries: seq<Entry>, runs: seq<seq<nat>>, x: nat)
    ensures LongOnes(runs + [[x]]) == LongOnes(runs)
    ensures Oversized(o, EntryAt(entries, x)) ==> Open(o, entries, runs + [[x]], LongOnes(runs), [])
    ensures Open(o, entries, runs + [[x]], LongOnes(runs), [x])
  {
    assert Init(runs + [[x]]) == runs;
  }

  lemma OneEntry(o: Options, e: Entry)
    requires !Oversized(o, e) && o.maxUnities > 0
    ensures Totals(o, [e], SizeOf(o, e), |e.members|, StemsOf(o, e, Source), StemsOf(o, e, Generated))
  {
    assert Init([e]) == [] && NoPairs([]) && AllStems([], Source) == {} && Bytes(o, []) == 0;
  }

  lemma EntriesSnoc(entries: seq<Entry>, run: seq<nat>, x: nat)
    ensures At(entries, run + [x]) == At(entries, run) + [EntryAt(entries, x)]
  {
  }

  lemma RunsSnoc(o: Options, entries: seq<Entry>, indexes: seq<nat>, i: nat)
    requires i < |indexes|
    ensures Runs(o, entries, indexes[..i + 1]) == Extend(o, entries, Runs(o, entries, indexes[..i]), indexes[i])
  {
    hide Extend;
    assert Init(indexes[..i + 1]) == indexes[..i];
  }

  lemma JoinsRun(o: Options, entries: seq<Entry>, runs: seq<seq<nat>>, chunks: seq<seq<nat>>, chunk: seq<nat>, x: nat)
    requires Open(o, entries, runs, chunks, chunk) && chunk != [] && Fits(o, At(entries, chunk + [x]))
    ensures Open(o, entries, Extend(o, entries, runs, x), chunks, chunk + [x])
  {
    assert Init(Init(runs) + [chunk + [x]]) == Init(runs);
  }

  lemma OversizedIsRejected(o: Options, e: Entry, length: nat, size: nat, count: nat,
                            sources: set<string>, generated: set<string>)
    requires Oversized(o, e)
    ensures Rejects(o, e, length, size, count, sources, generated)
  {
  }

  lemma NothingOpen(o: Options, entries: seq<Entry>, indexes: seq<nat>)
    ensures Open(o, entries, Runs(o, entries, indexes[..0]), [], [])
  {
  }

  lemma OneAt(entries: seq<Entry>, x: nat)
    ensures At(entries, [x]) == [EntryAt(entries, x)]
  {
  }

  /** The inner loop over one bucket keeps exactly the greedy runs of at least two entries. */
  method PackBucket(o: Options, entries: seq<Entry>, indexes: seq<nat>) returns (chunks: seq<seq<nat>>)
    requires o.maxUnities > 0
    ensures chunks == LongOnes(Runs(o, entries, indexes))
  {
    hide *;
    chunks := [];
    NothingOpen(o, entries, indexes);
    var chunk: seq<nat>, size: nat, count: nat := [], 0, 0;
    var sources: set<string>, generated: set<string> := {}, {};
    var i := 0;
    while i < |indexes|
      invariant 0 <= i <= |indexes|
      invariant Open(o, entries, Runs(o, entries, indexes[..i]), chunks, chunk)
      invariant chunk != [] ==> Totals(o, At(entries, chunk), size, count, sources, generated)
      invariant chunk == [] ==> size == 0 && count == 0 && sources == {} && generated == {}
    {
      var index, e := indexes[i], EntryAt(entries, indexes[i]);
      ghost var runs := Runs(o, entries, indexes[..i]);
      RunsSnoc(o, entries, indexes, i);
      EntriesSnoc(entries, chunk, index);
      if chunk != [] { RejectsIsUnfit(o, At(entries, chunk), e, size, count, sources, generated); }
      if chunk != [] && Rejects(o, e, |chunk|, size, count, sources, generated) {
        ClosesRun(o, entries, runs, chunks, chunk, index);
        if |chunk| > 1 { chunks := chunks + [chunk]; }
        chunk, size, count, sources, generated := [], 0, 0, {}, {};
      } else if chunk != [] {
        JoinsRun(o, entries, runs, chunks, chunk, index);
        TotalsGrow(o, At(entries, chunk), e, size, count, sources, generated);
      } else {
        ClosesRun(o, entries, runs, chunks, chunk, index);
      }
      if Oversized(o, e) {
        OversizedIsRejected(o, e, |chunk|, size, count, sources, generated);
        OpensRun(o, entries, runs, index);
        i := i + 1;
        continue;
      }
      if chunk == [] {
        OpensRun(o, entries, runs, index);
        OneEntry(o, e);
        OneAt(entries, index);
        assert chunk + [index] == [index];
        assert {} + StemsOf(o, e, Source) == StemsOf(o, e, Source);
        assert {} + StemsOf(o, e, Generated) == StemsOf(o, e, Generated);
      }
      chunk, size, count := chunk + [index], size + SizeOf(o, e), count + |e.members|;
      sources, generated := sources + StemsOf(o, e, Source), generated + StemsOf(o, e, Generated);
      i := i + 1;
    }
    assert indexes[..i] == indexes;
    FinishRuns(o, entries, Runs(o, entries, indexes), chunks, chunk);
    if |chunk| > 1 { chunks := chunks + [chunk]; }
  }

  lemma FinishRuns(o: Options, entries: seq<Entry>, runs: seq<seq<nat>>, chunks: seq<seq<nat>>, chunk: seq<nat>)
    requires Open(o, entries, runs, chunks, chunk)
    ensures LongOnes(runs) == if |chunk| > 1 then chunks + [chunk] else chunks
  {
  }

  // ---- all buckets --------------------------------------------------------------------------

  /** `buckets` holds the eligible entries of the first `n`, filed under their keys. */
  predicate Filed(o: Options, entries: seq<Entry>, keys: seq<Key>, buckets: map<Key, seq<nat>>, n: nat)
    requires n <= |entries|
  {
    && Distinct(keys)
    && (forall key :: key in buckets ==> key in keys)
    && (forall key :: key in keys ==> key in buckets)
    && (forall key :: key in keys ==> buckets[key] == Bucket(o, entries, key, n))
    && (forall i :: 0 <= i < n && Eligible(o, entries[i]) ==> KeyOf(o, entries[i]) in keys)
  }

  lemma {:induction false} EmptyBucket(o: Options, entries: seq<Entry>, keys: seq<Key>, key: Key, n: nat)
    requires n <= |entries| && key !in keys
    requires forall i :: 0 <= i < n && Eligible(o, entries[i]) ==> KeyOf(o, entries[i]) in keys
    ensures Bucket(o, entries, key, n) == []
  {
    if n > 0 { EmptyBucket(o, entries, keys, key, n - 1); }
  }

  lemma FilesKnown(o: Options, entries: seq<Entry>, keys: seq<Key>, buckets: map<Key, seq<nat>>, i: nat)
    requires i < |entries| && Filed(o, entries, keys, buckets, i)
    requires Eligible(o, entries[i]) && KeyOf(o, entries[i]) in buckets
    ensures var key := KeyOf(o, entries[i]); Filed(o, entries, keys, buckets[key := buckets[key] + [i]], i + 1)
  {
  }

  lemma FilesNew(o: Options, entries: seq<Entry>, keys: seq<Key>, buckets: map<Key, seq<nat>>, i: nat)
    requires i < |entries| && Filed(o, entries, keys, buckets, i)
    requires Eligible(o, entries[i]) && KeyOf(o, entries[i]) !in buckets
    ensures var key := KeyOf(o, entries[i]); Filed(o, entries, keys + [key], buckets[key := [i]], i + 1)
  {
    EmptyBucket(o, entries, keys, KeyOf(o, entries[i]), i);
  }

  lemma FilesNothing(o: Options, entries: seq<Entry>, keys: seq<Key>, buckets: map<Key, seq<nat>>, i: nat)
    requires i < |entries| && Filed(o, entries, keys, buckets, i) && !Eligible(o, entries[i])
    ensures Filed(o, entries, keys, buckets, i + 1)
  {
  }

  method FileEntries(o: Options, entries: seq<Entry>) returns (keys: seq<Key>, buckets: map<Key, seq<nat>>)
    ensures Filed(o, entries, keys, buckets, |entries|)
  {
    keys, buckets := [], map[];
    var i := 0;
    while i < |entries|
      invariant 0 <= i <= |entries|
      invariant Filed(o, entries, keys, buckets, i)
    {
      hide Filed;
      var key := KeyOf(o, entries[i]);
      if !Eligible(o, entries[i]) {
        FilesNothing(o, entries, keys, buckets, i);
      } else if key in buckets {
        FilesKnown(o, entries, keys, buckets, i);
        buckets := buckets[key := buckets[key] + [i]];
      } else {
        FilesNew(o, entries, keys, buckets, i);
        keys, buckets := keys + [key], buckets[key := [i]];
      }
      i := i + 1;
    }
  }

  /** The chunks that the buckets of the first `n` keys contribute. */
  function ChunksOf(o: Options, entries: seq<Entry>, keys: seq<Key>): seq<seq<nat>> {
    if keys == [] then [] else ChunksOf(o, entries, Init(keys)) + LongOnes(RunsOf(o, entries, Last(keys)))
  }

  lemma {:induction false} ChunksOfAre(o: Options, entries: seq<Entry>, keys: seq<Key>, c: seq<nat>)
    ensures c in ChunksOf(o, entries, keys) <==> |c| > 1 && exists key :: key in keys && c in RunsOf(o, entries, key)
  {
    hide LongOnes, RunsOf;
    if keys != [] {
      ChunksOfAre(o, entries, Init(keys), c);
      LongOnesAre(RunsOf(o, entries, Last(keys)), c);
      assert forall key :: key in keys <==> key in Init(keys) || key == Last(keys);
    }
  }

  /** All buckets together hold exactly the chunks of the plan. */
  lemma ChunksOfAllAre(o: Options, entries: seq<Entry>, keys: seq<Key>, buckets: map<Key, seq<nat>>, c: seq<nat>)
    requires Filed(o, entries, keys, buckets, |entries|)
    ensures c in ChunksOf(o, entries, keys) <==> IsChunk(o, entries, c)
  {
    hide RunsOf;
    ChunksOfAre(o, entries, keys, c);
    if |c| > 1 && exists key :: key in keys && c in RunsOf(o, entries, key) {
      var key :| key in keys && c in RunsOf(o, entries, key);
      RunFacts(o, entries, key, c);
      assert Belongs(o, entries, key, c[0]);
    }
    if IsChunk(o, entries, c) {
      var key := KeyAt(o, entries, c[0]);
      RunFacts(o, entries, key, c);
      assert Belongs(o, entries, key, c[0]);
    }
  }

  lemma {:induction false} LongOnesDiffer(runs: seq<seq<nat>>)
    requires StartsDiffer(runs)
    ensures StartsDiffer(LongOnes(runs))
  {
    if runs != [] {
      LongOnesDiffer(Init(runs));
      forall k | 0 <= k < |LongOnes(Init(runs))| ensures LongOnes(Init(runs))[k][0] != Last(runs)[0] {
        var c := LongOnes(Init(runs))[k];
        LongOnesAre(Init(runs), c);
        var l :| 0 <= l < |Init(runs)| && Init(runs)[l] == c;
        assert runs[l] == c;
      }
    }
  }

  lemma RunsDiffer(o: Options, entries: seq<Entry>, key: Key)
    ensures StartsDiffer(RunsOf(o, entries, key))
  {
    hide Runs, Bucket;
    var runs := RunsOf(o, entries, key);
    BucketUpTo(o, entries, key, |entries|);
    RunsDivide(o, entries, Bucket(o, entries, key, |entries|));
    RunsApart(runs);
    forall k | 0 <= k < |runs| ensures runs[k] != [] { RunFacts(o, entries, key, runs[k]); }
    forall k, l | 0 <= k < l < |runs| ensures runs[k][0] != runs[l][0] {
      assert runs[k][0] in runs[k] && runs[l][0] in runs[l];
    }
  }

  lemma {:induction false} ChunksDiffer(o: Options, entries: seq<Entry>, keys: seq<Key>)
    requires Distinct(keys)
    ensures StartsDiffer(ChunksOf(o, entries, keys))
    ensures forall k :: 0 <= k < |ChunksOf(o, entries, keys)| ==>
              KeyAt(o, entries, ChunksOf(o, entries, keys)[k][0]) in keys
  {
    hide LongOnes, RunsOf, KeyAt;
    if keys != [] {
      ChunksDiffer(o, entries, Init(keys));
      var key := Last(keys);
      var before, mine := ChunksOf(o, entries, Init(keys)), LongOnes(RunsOf(o, entries, key));
      RunsDiffer(o, entries, key);
      LongOnesDiffer(RunsOf(o, entries, key));
      forall k | 0 <= k < |mine| ensures KeyAt(o, entries, mine[k][0]) == key { ChunkKey(o, entries, key, mine[k]); }
      assert forall k :: k in Init(keys) ==> k in keys && k != key;
    }
  }

  lemma ChunkKey(o: Options, entries: seq<Entry>, key: Key, c: seq<nat>)
    requires c in LongOnes(RunsOf(o, entries, key))
    ensures c != [] && KeyAt(o, entries, c[0]) == key
  {
    hide LongOnes, RunsOf;
    LongOnesAre(RunsOf(o, entries, key), c);
    RunFacts(o, entries, key, c);
    assert Belongs(o, entries, key, c[0]);
  }

  // ---- the two planners ---------------------------------------------------------------------

  predicate PositiveBudgets(budgetFactor: int, maxUnities: int, maxSources: Option<int>) {
    budgetFactor >= 1 && maxUnities >= 1 && (maxSources.Some? ==> maxSources.value >= 1)
  }

  function Limit(maxSources: Option<int>): Option<nat> {
    if maxSources.Some? && maxSources.value >= 0 then Some(maxSources.value) else None
  }

  /** `secondary_unity_chunks`. */
  method SecondaryUnityChunks(entries: seq<Entry>, budgetFactor: int, maxUnities: int, maxSources: Option<int>,
                              splitClasses: bool, avoidPairs: bool, includeExact: bool)
      returns (r: Result<seq<seq<nat>>>)
    ensures r.Ok? <==> budgetFactor >= 1 && maxUnities >= 1 && (maxSources.Some? ==> maxSources.value >= 1)
    ensures r.Ok? ==> r.value == Plan(Options(budgetFactor * 393216, maxUnities,
                                              if maxSources.Some? then Some(maxSources.value) else None,
                                              splitClasses, avoidPairs, includeExact), entries)
  {
    hide Plan, Filed, LongOnes, Runs;
    if !PositiveBudgets(budgetFactor, maxUnities, maxSources) {
      return Err("SuperUnity chunk budgets must be positive");
    }
    var o := OptionsOf(budgetFactor, maxUnities, Limit(maxSources), splitClasses, avoidPairs, includeExact);
    var keys, buckets := FileEntries(o, entries);
    var chunks: seq<seq<nat>> := [];
    var i := 0;
    while i < |keys|
      invariant 0 <= i <= |keys|
      invariant chunks == ChunksOf(o, entries, keys[..i])
    {
      BucketOfKey(o, entries, keys, buckets, i);
      var packed := PackBucket(o, entries, buckets[keys[i]]);
      assert Init(keys[..i + 1]) == keys[..i];
      chunks := chunks + packed;
      i := i + 1;
    }
    assert keys[..i] == keys;
    var sorted := SortChunks(o, entries, keys, buckets, chunks);
    r := Ok(sorted);
  }

  lemma BucketOfKey(o: Options, entries: seq<Entry>, keys: seq<Key>, buckets: map<Key, seq<nat>>, i: nat)
    requires Filed(o, entries, keys, buckets, |entries|) && i < |keys|
    ensures keys[i] in buckets && buckets[keys[i]] == Bucket(o, entries, keys[i], |entries|)
  {
    assert keys[i] in keys;
  }

  method SortChunks(o: Options, entries: seq<Entry>, ghost keys: seq<Key>, ghost buckets: map<Key, seq<nat>>,
                    chunks: seq<seq<nat>>) returns (sorted: seq<seq<nat>>)
    requires Filed(o, entries, keys, buckets, |entries|) && chunks == ChunksOf(o, entries, keys)
    ensures sorted == Plan(o, entries)
  {
    hide Plan, ChunksOf, RunsOf;
    ChunksDiffer(o, entries, keys);
    sorted := SortByFirst(chunks);
    PlanIs(o, entries);
    forall c ensures c in sorted <==> c in Plan(o, entries) { ChunksOfAllAre(o, entries, keys, buckets, c); }
    SortedIsUnique(sorted, Plan(o, entries));
  }

  /** `strict_unity_chunks`: the loop over what is still available ends, with the strict plan of all entries. */
  method StrictUnityChunks(entries: seq<Entry>, budgetFactor: int, maxUnities: int, maxSources: Option<int>)
      returns (r: Result<seq<seq<nat>>>)
    ensures r.Ok? <==> budgetFactor >= 1 && maxUnities >= 1 && (maxSources.Some? ==> maxSources.value >= 1)
    ensures r.Ok? ==> r.value == StrictPlan(Options(budgetFactor * 393216, maxUnities,
                                                    if maxSources.Some? then Some(maxSources.value) else None,
                                                    true, false, false), entries, Upto(|entries|))
  {
    hide Plan, StrictPlan;
    var chunks: seq<seq<nat>>, available: seq<nat> := [], Upto(|entries|);
    var splitClasses := true;
    ghost var o := OptionsOf(if budgetFactor < 0 then 0 else budgetFactor, if maxUnities < 0 then 0 else maxUnities,
                             Limit(maxSources), true, false, false);
    while true
      invariant splitClasses || Plan(SplitBy(o, true), At(entries, available)) == []
      invariant chunks + StrictPlan(o, entries, available) == StrictPlan(o, entries, Upto(|entries|))
      decreases |available|, splitClasses
    {
      var residual :- SecondaryUnityChunks(At(entries, available), budgetFactor, maxUnities, maxSources,
                                           splitClasses, false, false);
      StrictUnfolds(o, entries, available);
      assert residual == Plan(SplitBy(o, splitClasses), At(entries, available));
      chunks := chunks + RenameAll(available, residual);
      if !splitClasses {
        return Ok(chunks);
      }
      if residual != [] {
        RoundShrinks(SplitBy(o, true), entries, available);
        available := Later(available, residual);
      } else {
        splitClasses := false;
      }
    }
  }

  lemma StrictUnfolds(o: Options, entries: seq<Entry>, available: seq<nat>)
    ensures var residual := Plan(SplitBy(o, true), At(entries, available));
            StrictPlan(o, entries, available) ==
              if residual == [] then RenameAll(available, Plan(SplitBy(o, false), At(entries, available)))
              else RenameAll(available, residual) + StrictPlan(o, entries, Later(available, residual))
  {
    hide Plan;
  }
}
