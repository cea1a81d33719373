/** The loops of `tier2_unity_chunks`, proved against the first-fit plan. */
module ModulePlanner {
  import opened Prelude
  import opened ChunkOrder
  import opened ModulePacking

  /** The running totals the loop keeps for one bin. */
  datatype Batch = Batch(indexes: seq<nat>, size: nat, closure: set<string>, names: set<string>, modules: nat)

  predicate Describes(b: Batch, bin: seq<Module>) {
    b == Batch(Indexes(bin), Size(bin), Closure(bin), Names(bin), |bin|)
  }

  predicate DescribeAll(batches: seq<Batch>, bins: seq<seq<Module>>) {
    |batches| == |bins| && forall k :: 0 <= k < |bins| ==> Describes(batches[k], bins[k])
  }

  function Add(b: Batch, m: Module): Batch {
    Batch(b.indexes + m.indexes, b.size + m.size, b.closure + m.closure, b.names + m.names, b.modules + 1)
  }

  const NEW_BATCH := Batch([], 0, {}, {}, 0)

  predicate BatchAccepts(l: Limits, b: Batch, m: Module) {
    && WithinUnities(l, |b.indexes| + |m.indexes|)
    && b.size + m.size <= l.budget
    && |b.closure + m.closure| <= l.closureBudget
    && b.names * m.names == {}
  }

  lemma BatchAcceptsIs(l: Limits, b: Batch, bin: seq<Module>, m: Module)
    requires Describes(b, bin)
    ensures BatchAccepts(l, b, m) <==> Accepts(l, bin, m)
    ensures Describes(Add(b, m), bin + [m])
  {
    assert Init(bin + [m]) == bin;
    assert forall x :: x in b.names * m.names <==> x in b.names && x in m.names;
    assert b.names * m.names == {} <==> b.names !! m.names;
  }

  /** The inner `for ... else` puts the module where first fit puts it. */
  method PlaceModule(l: Limits, batches: seq<Batch>, m: Module, ghost bins: seq<seq<Module>>)
      returns (after: seq<Batch>)
    requires DescribeAll(batches, bins)
    ensures DescribeAll(after, Place(l, bins, m))
  {
    hide Accepts, Place;
    ghost var k := PlaceIs(l, bins, m);
    var i := 0;
    while i < |batches|
      invariant 0 <= i <= |batches|
      invariant i <= k
    {
      BatchAcceptsIs(l, batches[i], bins[i], m);
      if BatchAccepts(l, batches[i], m) {
        after := batches[i := Add(batches[i], m)];
        return;
      }
      i := i + 1;
    }
    BatchAcceptsIs(l, NEW_BATCH, [], m);
    assert [] + [m] == [m];
    after := batches + [Add(NEW_BATCH, m)];
  }

  method PackModules(l: Limits, modules: seq<Module>) returns (batches: seq<Batch>)
    ensures DescribeAll(batches, FirstFit(l, modules))
  {
    hide Place, DescribeAll;
    batches := [];
    assert DescribeAll([], FirstFit(l, [])) by { NothingPlaced(l); }
    var i := 0;
    while i < |modules|
      invariant 0 <= i <= |modules|
      invariant DescribeAll(batches, FirstFit(l, modules[..i]))
    {
      assert Init(modules[..i + 1]) == modules[..i];
      batches := PlaceModule(l, batches, modules[i], FirstFit(l, modules[..i]));
      i := i + 1;
    }
    assert modules[..i] == modules;
  }

  lemma NothingPlaced(l: Limits)
    ensures DescribeAll([], FirstFit(l, []))
  {
  }

  // ---- grouping the entries by module -------------------------------------------------------

  predicate Grouped(entries: seq<Entry>, names: seq<string>, groups: map<string, seq<nat>>, n: nat)
    requires n <= |entries|
  {
    && names == ModuleNames(entries, n)
    && (forall name :: name in names ==> name in groups && groups[name] == EntriesOf(entries, name, n))
    && forall name :: name in groups ==> name in names
  }

  lemma {:induction false} NoEntries(entries: seq<Entry>, name: string, n: nat)
    requires n <= |entries| && name !in ModuleNames(entries, n)
    ensures EntriesOf(entries, name, n) == []
  {
    if n > 0 { NoEntries(entries, name, n - 1); }
  }

  method GroupEntries(entries: seq<Entry>) returns (names: seq<string>, groups: map<string, seq<nat>>)
    ensures Grouped(entries, names, groups, |entries|)
  {
    names, groups := [], map[];
    var i := 0;
    while i < |entries|
      invariant 0 <= i <= |entries|
      invariant Grouped(entries, names, groups, i)
    {
      var e := entries[i];
      if Eligible(e) {
        if e.moduleRoot in groups {
          groups := groups[e.moduleRoot := groups[e.moduleRoot] + [i]];
        } else {
          NoEntries(entries, e.moduleRoot, i);
          names, groups := names + [e.moduleRoot], groups[e.moduleRoot := [i]];
        }
      }
      i := i + 1;
    }
  }

  // ---- one bucket per compatibility key -----------------------------------------------------

  ghost predicate Bucketed(modules: seq<Module>, keys: seq<string>, buckets: map<string, seq<Module>>) {
    && Distinct(keys)
    && (forall key :: key in keys <==> key in buckets)
    && (forall key :: key in keys ==> buckets[key] == OfKey(modules, key))
    && forall k :: 0 <= k < |modules| ==> modules[k].key in keys
  }

  lemma {:induction false} NoModules(modules: seq<Module>, key: string)
    requires forall k :: 0 <= k < |modules| ==> modules[k].key != key
    ensures OfKey(modules, key) == []
  {
    if modules != [] { NoModules(Init(modules), key); }
  }

  lemma BucketNext(modules: seq<Module>, keys: seq<string>, buckets: map<string, seq<Module>>, m: Module)
    requires Bucketed(modules, keys, buckets)
    ensures m.key in keys ==> Bucketed(modules + [m], keys, buckets[m.key := buckets[m.key] + [m]])
    ensures m.key !in keys ==> Bucketed(modules + [m], keys + [m.key], buckets[m.key := [m]])
  {
    assert Init(modules + [m]) == modules;
    if m.key !in keys { NoModules(modules, m.key); }
  }

  /** Rejected modules are reported; the others are filed under their compatibility key. */
  method FileModules(l: Limits, known: Known, entries: seq<Entry>, names: seq<string>, groups: map<string, seq<nat>>)
      returns (keys: seq<string>, buckets: map<string, seq<Module>>, diagnostics: seq<(string, seq<nat>, string)>)
    requires Grouped(entries, names, groups, |entries|)
    ensures Bucketed(Modules(l, known, entries), keys, buckets)
    ensures forall name, indexes, reason :: (name, indexes, reason) in diagnostics <==>
              name in names && indexes == EntriesOf(entries, name, |entries|)
              && Admit(l, known, entries, name) == Err(reason)
  {
    hide Admit, Bucketed;
    keys, buckets, diagnostics := [], map[], [];
    assert Bucketed([], [], map[]) by { NothingBucketed(); }
    var i := 0;
    while i < |names|
      invariant 0 <= i <= |names|
      invariant Bucketed(Admitted(l, known, entries, names[..i]), keys, buckets)
      invariant forall key :: key in keys <==> key in buckets
      invariant forall name, indexes, reason :: (name, indexes, reason) in diagnostics <==>
                  name in names[..i] && indexes == EntriesOf(entries, name, |entries|)
                  && Admit(l, known, entries, name) == Err(reason)
    {
      var name := names[i];
      assert name in names;
      ghost var before := Admitted(l, known, entries, names[..i]);
      assert Init(names[..i + 1]) == names[..i] && names[..i + 1] == names[..i] + [name];
      match Admit(l, known, entries, name) {
        case Ok(m) =>
          BucketNext(before, keys, buckets, m);
          if m.key in buckets {
            buckets := buckets[m.key := buckets[m.key] + [m]];
          } else {
            keys, buckets := keys + [m.key], buckets[m.key := [m]];
          }
        case Err(reason) =>
          assert Admitted(l, known, entries, names[..i + 1]) == before;
          diagnostics := diagnostics + [(name, groups[name], reason)];
      }
      i := i + 1;
    }
    assert names[..i] == names;
  }

  lemma NothingBucketed()
    ensures Bucketed([], [], map[])
  {
  }

  // ---- the chunks ---------------------------------------------------------------------------

  function LongBins(bins: seq<seq<Module>>): seq<seq<Module>> {
    if bins == [] then [] else LongBins(Init(bins)) + if |Last(bins)| > 1 then [Last(bins)] else []
  }

  function BinsOf(l: Limits, modules: seq<Module>, keys: seq<string>): seq<seq<Module>> {
    if keys == [] then []
    else BinsOf(l, modules, Init(keys)) + LongBins(FirstFit(l, OfKey(modules, Last(keys))))
  }

  function SortedIndexes(bins: seq<seq<Module>>): seq<seq<nat>> {
    if bins == [] then [] else SortedIndexes(Init(bins)) + [SortIndexes(Indexes(Last(bins)))]
  }

  lemma {:induction false} LongBinsAre(bins: seq<seq<Module>>, bin: seq<Module>)
    ensures bin in LongBins(bins) <==> bin in bins && |bin| > 1
  {
    if bins != [] {
      LongBinsAre(Init(bins), bin);
      assert bin in bins <==> bin in Init(bins) || bin == Last(bins);
    }
  }

  lemma FirstFitKey(l: Limits, modules: seq<Module>, key: string, bin: seq<Module>, k: nat)
    requires bin in FirstFit(l, OfKey(modules, key)) && k < |bin|
    ensures bin[k].key == key && bin[k] in modules
  {
    hide FirstFit;
    var mine := OfKey(modules, key);
    FirstFitPartitions(l, mine);
    FlattenMember(FirstFit(l, mine), bin[k]);
    assert bin[k] in multiset(Flatten(FirstFit(l, mine)));
    OfKeyAre(modules, key, bin[k]);
  }

  lemma {:induction false} BinsOfAre(l: Limits, modules: seq<Module>, keys: seq<string>, bin: seq<Module>)
    ensures bin in BinsOf(l, modules, keys) <==> PlannedBin(l, modules, bin) && bin[0].key in keys
  {
    hide FirstFit;
    if keys != [] {
      BinsOfAre(l, modules, Init(keys), bin);
      var bins := FirstFit(l, OfKey(modules, Last(keys)));
      LongBinsAre(bins, bin);
      if bin in bins && |bin| > 1 { FirstFitKey(l, modules, Last(keys), bin, 0); }
      assert |bin| > 1 ==> (bin[0].key in keys <==> bin[0].key in Init(keys) || bin[0].key == Last(keys));
    }
  }

  lemma {:induction false} SortedIndexesSnoc(a: seq<seq<Module>>, b: seq<seq<Module>>)
    ensures SortedIndexes(a + b) == SortedIndexes(a) + SortedIndexes(b)
  {
    hide SortIndexes, Indexes;
    if b == [] {
      assert a + b == a;
    } else {
      SortedIndexesSnoc(a, Init(b));
      assert Init(a + b) == a + Init(b);
    }
  }

  lemma {:induction false} SortedIndexesAre(bins: seq<seq<Module>>, k: nat)
    requires k < |bins|
    ensures |SortedIndexes(bins)| == |bins| && SortedIndexes(bins)[k] == SortIndexes(Indexes(bins[k]))
  {
    hide SortIndexes, Indexes;
    if k < |bins| - 1 { SortedIndexesAre(Init(bins), k); } else { SortedLength(Init(bins)); }
  }

  lemma {:induction false} SortedLength(bins: seq<seq<Module>>)
    ensures |SortedIndexes(bins)| == |bins|
  {
    if bins != [] { SortedLength(Init(bins)); }
  }

  method CollectChunks(batches: seq<Batch>, ghost bins: seq<seq<Module>>) returns (chunks: seq<seq<nat>>)
    requires DescribeAll(batches, bins)
    ensures chunks == SortedIndexes(LongBins(bins))
  {
    hide SortIndexes, Indexes, Size, Closure, Names;
    chunks := [];
    var i := 0;
    while i < |batches|
      invariant 0 <= i <= |batches|
      invariant chunks == SortedIndexes(LongBins(bins[..i]))
    {
      assert Init(bins[..i + 1]) == bins[..i] && Describes(batches[i], bins[i]);
      var before := chunks;
      if batches[i].modules > 1 {
        SortedIndexesOne(LongBins(bins[..i]), bins[i]);
        chunks := chunks + [SortIndexes(batches[i].indexes)];
      } else {
        assert LongBins(bins[..i + 1]) == LongBins(bins[..i]);
      }
      i := i + 1;
    }
    assert bins[..i] == bins;
  }

  lemma SortedIndexesOne(bins: seq<seq<Module>>, bin: seq<Module>)
    ensures SortedIndexes(bins + [bin]) == SortedIndexes(bins) + [SortIndexes(Indexes(bin))]
  {
    assert Init(bins + [bin]) == bins;
  }

  /** No bin is listed twice: bins of one key share no module, and bins of different keys have no key in common. */
  lemma {:induction false} BinsOfDistinct(l: Limits, modules: seq<Module>, keys: seq<string>)
    requires Distinct(keys) && NamedApart(modules)
    ensures Distinct(BinsOf(l, modules, keys))
  {
    hide FirstFit, NamedApart;
    if keys != [] {
      BinsOfDistinct(l, modules, Init(keys));
      var before, bins := BinsOf(l, modules, Init(keys)), FirstFit(l, OfKey(modules, Last(keys)));
      BinsDistinct(l, modules, Last(keys));
      LongBinsDistinct(bins);
      forall i, j | 0 <= i < |before| && 0 <= j < |LongBins(bins)| ensures before[i] != LongBins(bins)[j] {
        BinsOfAre(l, modules, Init(keys), before[i]);
        LongBinsAre(bins, LongBins(bins)[j]);
        FirstFitKey(l, modules, Last(keys), LongBins(bins)[j], 0);
        assert Last(keys) !in Init(keys);
      }
    }
  }

  predicate LongBinsDiffer(bins: seq<seq<Module>>) {
    forall i, j :: 0 <= i < j < |bins| && |bins[i]| > 1 ==> bins[i] != bins[j]
  }

  lemma BinsDistinct(l: Limits, modules: seq<Module>, key: string)
    requires NamedApart(modules)
    ensures LongBinsDiffer(FirstFit(l, OfKey(modules, key)))
  {
    hide FirstFit;
    var mine := OfKey(modules, key);
    var bins := FirstFit(l, mine);
    OfKeyApart(modules, key);
    FirstFitPartitions(l, mine);
    DistinctPermutes(Flatten(bins), mine);
    forall i, j | 0 <= i < j < |bins| && |bins[i]| > 1 ensures bins[i] != bins[j] {
      DistinctParts(bins, i, j, bins[i][0]);
    }
  }

  lemma {:induction false} LongBinsDistinct(bins: seq<seq<Module>>)
    requires LongBinsDiffer(bins)
    ensures Distinct(LongBins(bins))
  {
    if bins != [] {
      LongBinsDistinct(Init(bins));
      forall i | 0 <= i < |LongBins(Init(bins))| ensures LongBins(Init(bins))[i] != Last(bins) {
        LongBinsAre(Init(bins), LongBins(Init(bins))[i]);
        var k :| 0 <= k < |Init(bins)| && Init(bins)[k] == LongBins(Init(bins))[i];
        assert bins[k] != bins[|bins| - 1];
      }
    }
  }

  lemma ChunkOfBin(l: Limits, known: Known, entries: seq<Entry>, bin: seq<Module>)
    requires PlannedBin(l, Modules(l, known, entries), bin)
    ensures SortIndexes(Indexes(bin)) != []
  {
    hide Modules;
    PlannedBinIs(l, known, entries, bin, 0);
    var i := bin[0].indexes[0];
    IndexesFrom(bin, i);
    SortIndexesSorts(Indexes(bin));
    assert i in multiset(SortIndexes(Indexes(bin)));
  }

  lemma ChunksStartApart(l: Limits, known: Known, entries: seq<Entry>, keys: seq<string>)
    requires Distinct(keys)
    ensures StartsDiffer(SortedIndexes(BinsOf(l, Modules(l, known, entries), keys)))
  {
    hide Modules, PlannedBin, BinsOf;
    var modules := Modules(l, known, entries);
    var bins := BinsOf(l, modules, keys);
    var chunks := SortedIndexes(bins);
    SortedLength(bins);
    ModulesAre(l, known, entries);
    BinsOfDistinct(l, modules, keys);
    forall k | 0 <= k < |chunks| ensures chunks[k] != [] && PlannedBin(l, modules, bins[k])
      && chunks[k] == SortIndexes(Indexes(bins[k]))
    {
      SortedIndexesAre(bins, k);
      BinsOfAre(l, modules, keys, bins[k]);
      ChunkOfBin(l, known, entries, bins[k]);
    }
    forall i, j | 0 <= i < j < |chunks| ensures chunks[i][0] != chunks[j][0] {
      if chunks[i][0] == chunks[j][0] {
        ChunksDisjoint(l, known, entries, bins[i], bins[j], chunks[i][0]);
      }
    }
  }

  lemma {:induction false} SortedIndexesFrom(bins: seq<seq<Module>>, c: seq<nat>)
    ensures c in SortedIndexes(bins) <==> exists k :: 0 <= k < |bins| && c == SortIndexes(Indexes(bins[k]))
  {
    hide SortIndexes, Indexes;
    SortedLength(bins);
    forall k | 0 <= k < |bins| ensures SortedIndexes(bins)[k] == SortIndexes(Indexes(bins[k])) {
      SortedIndexesAre(bins, k);
    }
  }

  lemma ChunksArePlanned(l: Limits, modules: seq<Module>, keys: seq<string>, c: seq<nat>)
    requires forall k :: 0 <= k < |modules| ==> modules[k].key in keys
    ensures c in SortedIndexes(BinsOf(l, modules, keys)) <==> IsPlanned(l, modules, c)
  {
    hide SortIndexes, Indexes, BinsOf, PlannedBin, SortedIndexes;
    var bins := BinsOf(l, modules, keys);
    SortedIndexesFrom(bins, c);
    if c in SortedIndexes(bins) {
      var k :| 0 <= k < |bins| && c == SortIndexes(Indexes(bins[k]));
      BinsOfAre(l, modules, keys, bins[k]);
    }
    if IsPlanned(l, modules, c) {
      var bin :| PlannedBin(l, modules, bin) && c == SortIndexes(Indexes(bin));
      PlannedKey(l, modules, keys, bin);
      BinsOfAre(l, modules, keys, bin);
    }
  }

  lemma PlannedKey(l: Limits, modules: seq<Module>, keys: seq<string>, bin: seq<Module>)
    requires PlannedBin(l, modules, bin)
    requires forall k :: 0 <= k < |modules| ==> modules[k].key in keys
    ensures bin != [] && bin[0].key in keys
  {
    FirstFitKey(l, modules, bin[0].key, bin, 0);
  }

  // ---- the planner --------------------------------------------------------------------------

  predicate PositiveBudgets(budgetFactor: int, closureBudget: int, maxUnities: Option<int>, byteBudget: Option<int>) {
    && budgetFactor >= 1 && closureBudget >= 1
    && (maxUnities.Some? ==> maxUnities.value >= 1)
    && (byteBudget.Some? ==> byteBudget.value >= 1)
  }

  function LimitsOf(budgetFactor: int, closureBudget: int, maxUnities: Option<int>, byteBudget: Option<int>): Limits
    requires PositiveBudgets(budgetFactor, closureBudget, maxUnities, byteBudget)
  {
    Limits(if byteBudget.Some? then byteBudget.value else budgetFactor * 393216,
           if maxUnities.Some? then Some(maxUnities.value) else None, closureBudget)
  }

  /** `tier2_unity_chunks`: the first-fit plan, and a diagnostic for every module that may not be packed. */
  method Tier2UnityChunks(entries: seq<Entry>, known: Known, budgetFactor: int, closureBudget: int,
                          maxUnities: Option<int>, byteBudget: Option<int>)
      returns (r: Result<seq<seq<nat>>>, diagnostics: seq<(string, seq<nat>, string)>)
    ensures r.Ok? <==> budgetFactor >= 1 && closureBudget >= 1 && (maxUnities.Some? ==> maxUnities.value >= 1)
                       && (byteBudget.Some? ==> byteBudget.value >= 1)
    ensures r.Ok? ==>
      var l := Limits(if byteBudget.Some? then byteBudget.value else budgetFactor * 393216,
                      if maxUnities.Some? then Some(maxUnities.value) else None, closureBudget);
      IsPlan(l, known, entries, r.value) && forall name, indexes, reason :: (name, indexes, reason) in diagnostics <==>
        name in ModuleNames(entries, |entries|) && indexes == EntriesOf(entries, name, |entries|)
        && Admit(l, known, entries, name) == Err(reason)
  {
    hide Modules, FirstFit, LongBins, OfKey, DescribeAll, SortedIndexes, Admit, IsPlan;
    diagnostics := [];
    if !PositiveBudgets(budgetFactor, closureBudget, maxUnities, byteBudget) {
      return Err("Tier 2 budgets must be positive integers"), [];
    }
    var l := LimitsOf(budgetFactor, closureBudget, maxUnities, byteBudget);
    var names, groups := GroupEntries(entries);
    var keys, buckets;
    keys, buckets, diagnostics := FileModules(l, known, entries, names, groups);
    var chunks := ChunkKeys(l, Modules(l, known, entries), keys, buckets);
    var sorted := SortPlan(l, known, entries, keys, buckets, chunks);
    r := Ok(sorted);
  }

  method ChunkKeys(l: Limits, ghost modules: seq<Module>, keys: seq<string>, buckets: map<string, seq<Module>>)
      returns (chunks: seq<seq<nat>>)
    requires Bucketed(modules, keys, buckets)
    ensures chunks == SortedIndexes(BinsOf(l, modules, keys))
  {
    hide FirstFit, LongBins, OfKey, DescribeAll;
    chunks := [];
    var i := 0;
    while i < |keys|
      invariant 0 <= i <= |keys|
      invariant chunks == SortedIndexes(BinsOf(l, modules, keys[..i]))
    {
      assert keys[i] in keys && Init(keys[..i + 1]) == keys[..i];
      var batches := PackModules(l, buckets[keys[i]]);
      var collected := CollectChunks(batches, FirstFit(l, buckets[keys[i]]));
      SortedIndexesSnoc(BinsOf(l, modules, keys[..i]), LongBins(FirstFit(l, OfKey(modules, keys[i]))));
      chunks := chunks + collected;
      i := i + 1;
    }
    assert keys[..i] == keys;
  }

  method SortPlan(l: Limits, known: Known, entries: seq<Entry>, ghost keys: seq<string>,
                  ghost buckets: map<string, seq<Module>>, chunks: seq<seq<nat>>) returns (sorted: seq<seq<nat>>)
    requires Bucketed(Modules(l, known, entries), keys, buckets)
    requires chunks == SortedIndexes(BinsOf(l, Modules(l, known, entries), keys))
    ensures IsPlan(l, known, entries, sorted)
  {
    hide Modules, BinsOf, SortedIndexes, IsPlanned;
    ChunksStartApart(l, known, entries, keys);
    sorted := SortByFirst(chunks);
    forall c ensures c in sorted <==> IsPlanned(l, Modules(l, known, entries), c) {
      ChunksArePlanned(l, Modules(l, known, entries), keys, c);
    }
  }
}
