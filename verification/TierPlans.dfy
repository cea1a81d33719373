/** The chunks of `tier2_unity_chunks` are what the Tier 2 run needs: apart, and inside the database. */
module TierPlans {
  import opened Prelude
  import opened ChunkOrder
  import opened ModulePacking
  import Batching
  import FallbackWorklist

  lemma {:induction false} EntriesOfDistinct(entries: seq<Entry>, name: string, n: nat)
    requires n <= |entries|
    ensures Distinct(EntriesOf(entries, name, n))
  {
    if n > 0 {
      EntriesOfDistinct(entries, name, n - 1);
      DistinctSnoc(EntriesOf(entries, name, n - 1), n - 1);
      EntriesOfAre(entries, name, n - 1, n - 1);
      assert EntriesOf(entries, name, n - 1) + [] == EntriesOf(entries, name, n - 1);
    }
  }

  /** The modules of a planned bin have different names. */
  lemma BinNamedApart(l: Limits, known: Known, entries: seq<Entry>, bin: seq<Module>, j: nat, k: nat)
    requires PlannedBin(l, Modules(l, known, entries), bin) && j < k < |bin|
    ensures bin[j].name != bin[k].name
  {
    hide Modules, Admit, FirstFit;
    if bin[j].name == bin[k].name {
      BinModule(l, known, entries, bin, j);
      BinModule(l, known, entries, bin, k);
      BinDistinct(l, known, entries, bin);
    }
  }

  lemma BinDistinct(l: Limits, known: Known, entries: seq<Entry>, bin: seq<Module>)
    requires PlannedBin(l, Modules(l, known, entries), bin)
    ensures Distinct(bin)
  {
    hide Modules, FirstFit;
    var modules := Modules(l, known, entries);
    var mine := OfKey(modules, bin[0].key);
    ModulesAre(l, known, entries);
    OfKeyApart(modules, bin[0].key);
    FirstFitPartitions(l, mine);
    var bins := FirstFit(l, mine);
    DistinctPermutes(Flatten(bins), mine);
    var p :| 0 <= p < |bins| && bins[p] == bin;
    FlattenAround(bins, p);
    DistinctConcat(Flatten(bins[..p]) + bin, Flatten(bins[p + 1..]));
    DistinctConcat(Flatten(bins[..p]), bin);
  }

  lemma {:induction false} BinIndexesDistinct(l: Limits, known: Known, entries: seq<Entry>, bin: seq<Module>, n: nat)
    requires PlannedBin(l, Modules(l, known, entries), bin) && n <= |bin|
    ensures Distinct(Indexes(bin[..n]))
  {
    hide Modules, PlannedBin, Distinct;
    if n == 0 {
      assert Indexes(bin[..0]) == [] && Distinct<nat>([]) by { NothingTwice(); }
    } else {
      BinIndexesDistinct(l, known, entries, bin, n - 1);
      assert Init(bin[..n]) == bin[..n - 1] && Last(bin[..n]) == bin[n - 1];
      PlannedBinIs(l, known, entries, bin, n - 1);
      EntriesOfDistinct(entries, bin[n - 1].name, |entries|);
      var before, last := Indexes(bin[..n - 1]), bin[n - 1].indexes;
      DistinctConcat(before, last);
      forall k | 0 <= k < |last| ensures last[k] !in before {
        OtherModule(l, known, entries, bin, n - 1, last[k]);
      }
    }
  }

  lemma NothingTwice()
    ensures Distinct<nat>([])
  {
  }

  lemma OtherModule(l: Limits, known: Known, entries: seq<Entry>, bin: seq<Module>, n: nat, i: nat)
    requires PlannedBin(l, Modules(l, known, entries), bin) && n < |bin| && i in bin[n].indexes
    ensures i !in Indexes(bin[..n])
  {
    hide Modules, PlannedBin;
    IndexesFrom(bin[..n], i);
    PlannedBinIs(l, known, entries, bin, n);
    EntriesOfAre(entries, bin[n].name, |entries|, i);
    forall k | 0 <= k < n ensures i !in bin[..n][k].indexes {
      PlannedBinIs(l, known, entries, bin, k);
      EntriesOfAre(entries, bin[k].name, |entries|, i);
      BinNamedApart(l, known, entries, bin, k, n);
    }
  }

  lemma ChunkIsApart(l: Limits, known: Known, entries: seq<Entry>, chunk: seq<nat>)
    requires IsPlanned(l, Modules(l, known, entries), chunk)
    ensures Distinct(chunk) && forall i :: i in chunk ==> i < |entries|
  {
    hide Modules, PlannedBin, SortIndexes;
    var bin :| PlannedBin(l, Modules(l, known, entries), bin) && chunk == SortIndexes(Indexes(bin));
    assert bin[..|bin|] == bin;
    BinIndexesDistinct(l, known, entries, bin, |bin|);
    SortIndexesSorts(Indexes(bin));
    DistinctPermutes(chunk, Indexes(bin));
    forall i | i in chunk ensures i < |entries| { ChunkIsWholeModules(l, known, entries, bin, i); }
  }

  lemma SharedChunk(l: Limits, known: Known, entries: seq<Entry>, a: seq<nat>, b: seq<nat>, x: nat)
    requires IsPlanned(l, Modules(l, known, entries), a) && IsPlanned(l, Modules(l, known, entries), b)
    requires x in a && x in b
    ensures a == b
  {
    hide Modules, PlannedBin, SortIndexes;
    var p :| PlannedBin(l, Modules(l, known, entries), p) && a == SortIndexes(Indexes(p));
    var q :| PlannedBin(l, Modules(l, known, entries), q) && b == SortIndexes(Indexes(q));
    ChunksDisjoint(l, known, entries, p, q, x);
  }

  lemma ApartInOrder(l: Limits, known: Known, entries: seq<Entry>, chunks: seq<seq<nat>>, i: nat, j: nat, x: nat)
    requires IsPlan(l, known, entries, chunks) && i < j < |chunks| && x in chunks[i]
    ensures x !in chunks[j]
  {
    hide Modules, IsPlanned;
    assert chunks[i] in chunks && chunks[j] in chunks;
    if x in chunks[j] { SharedChunk(l, known, entries, chunks[i], chunks[j], x); }
  }

  /** A module plan has no entry twice and no entry outside the database. */
  lemma ModulePlanIsApart(l: Limits, known: Known, entries: seq<Entry>, chunks: seq<seq<nat>>)
    requires IsPlan(l, known, entries, chunks)
    ensures Batching.InRange(|entries|, chunks) && Distinct(Flatten(chunks))
  {
    hide Modules, IsPlanned;
    forall c | c in chunks ensures c != [] && Distinct(c) && forall i :: i in c ==> i < |entries| {
      ChunkIsApart(l, known, entries, c);
      var k :| 0 <= k < |chunks| && chunks[k] == c;
    }
    forall i, j, x | 0 <= i < j < |chunks| && x in chunks[i] ensures x !in chunks[j] {
      ApartInOrder(l, known, entries, chunks, i, j, x);
    }
    FallbackWorklist.ApartFlattens(chunks);
  }
}
