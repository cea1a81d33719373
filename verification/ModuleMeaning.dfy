/** Which modules the whole-module planner packs together, said of the entries themselves. */
module ModuleMeaning {
  import opened Prelude
  import opened ChunkOrder
  import opened ModulePacking
  import opened TierPlans

  // ---- the entries of a chunk -------------------------------------------------------------------

  ghost predicate Candidate(e: Entry) {
    e.isUbt && e.hasMembers && e.moduleRoot != ""
  }

  /** The entries of one module. */
  ghost function OfModule(entries: seq<Entry>, name: string): set<nat> {
    set i: nat | i < |entries| && Candidate(entries[i]) && entries[i].moduleRoot == name
  }

  /** One cell for each byte of the member files of these entries. */
  ghost function SizeCells(entries: seq<Entry>, chunk: set<nat>): set<(nat, nat)> {
    set i, b: nat | i in chunk && i < |entries| && entries[i].info.Ok? && b < entries[i].info.value.size :: (i, b)
  }

  /** Every file that a module of these entries includes. */
  ghost function Included(known: Known, entries: seq<Entry>, chunk: set<nat>): set<string> {
    set i, x | i in chunk && i < |entries| && entries[i].moduleRoot in known.closures
               && x in known.closures[entries[i].moduleRoot] :: x
  }

  ghost predicate Readable(known: Known, entries: seq<Entry>, chunk: set<nat>) {
    forall i :: i in chunk ==>
      i < |entries| && Candidate(entries[i]) && entries[i].info.Ok? && entries[i].moduleRoot !in known.compileFailed
  }

  /** One Tier 2 key, one context for each module, and no definition name in two modules. */
  ghost predicate Match(entries: seq<Entry>, i: nat, j: nat)
    requires i < |entries| && j < |entries| && entries[i].info.Ok? && entries[j].info.Ok?
  {
    && entries[i].info.value.key == entries[j].info.value.key
    && if entries[i].moduleRoot == entries[j].moduleRoot then entries[i].context == entries[j].context
       else forall x :: x in entries[i].info.value.names ==> x !in entries[j].info.value.names
  }

  ghost predicate Within(l: Limits, known: Known, entries: seq<Entry>, chunk: set<nat>) {
    && |SizeCells(entries, chunk)| <= l.budget && |Included(known, entries, chunk)| <= l.closureBudget
    && (l.maxUnities.Some? ==> |chunk| <= l.maxUnities.value)
  }

  /** These entries may be compiled as one. */
  ghost predicate MayPack(l: Limits, known: Known, entries: seq<Entry>, chunk: set<nat>) {
    && Readable(known, entries, chunk) && (forall i, j :: i in chunk && j in chunk ==> Match(entries, i, j))
    && Within(l, known, entries, chunk)
  }

  // ---- one module -------------------------------------------------------------------------------

  lemma OneMoreSize(entries: seq<Entry>, before: set<nat>, i: nat)
    requires i !in before && i < |entries| && entries[i].info.Ok?
    ensures |SizeCells(entries, before + {i})| == |SizeCells(entries, before)| + entries[i].info.value.size
  {
    var row := set b: nat | b < entries[i].info.value.size :: (i, b);
    RowSize(i, entries[i].info.value.size);
    assert SizeCells(entries, before + {i}) == SizeCells(entries, before) + row;
    assert SizeCells(entries, before) !! row;
  }

  lemma SizesStep(entries: seq<Entry>, indexes: seq<nat>)
    requires indexes != [] && (forall i :: i in indexes ==> i < |entries|) && ReadAll(entries, indexes).Ok?
    ensures forall i :: i in Init(indexes) ==> i < |entries|
    ensures ReadAll(entries, Init(indexes)).Ok? && Last(indexes) < |entries| && entries[Last(indexes)].info.Ok?
    ensures SumSizes(ReadAll(entries, indexes).value)
            == SumSizes(ReadAll(entries, Init(indexes)).value) + entries[Last(indexes)].info.value.size
  {
    assert forall i :: i in Init(indexes) ==> i in indexes;
    assert Last(indexes) in indexes;
    var before := ReadAll(entries, Init(indexes)).value;
    assert Init(ReadAll(entries, indexes).value) == before;
  }

  lemma NatsSnoc(s: seq<nat>, x: nat)
    requires Distinct(s + [x])
    ensures Distinct(s) && x !in s
  {
    DistinctSnoc(s, x);
  }

  lemma {:induction false} SizesAreCells(entries: seq<Entry>, indexes: seq<nat>)
    requires Distinct(indexes) && (forall i :: i in indexes ==> i < |entries|) && ReadAll(entries, indexes).Ok?
    ensures SumSizes(ReadAll(entries, indexes).value) == |SizeCells(entries, SetOf(indexes))|
    ensures |SetOf(indexes)| == |indexes|
  {
    hide ReadAll, SumSizes, SizeCells, Distinct, SetOf;
    if indexes == [] {
      NoSizes(entries);
    } else {
      var before, last := Init(indexes), Last(indexes);
      assert indexes == before + [last];
      assert forall i :: i in before ==> i in indexes;
      NatsSnoc(before, last);
      SizesStep(entries, indexes);
      SizesAreCells(entries, before);
      SetSnoc(before, last);
      OneMoreSize(entries, SetOf(before), last);
    }
  }

  lemma NoSizes(entries: seq<Entry>)
    ensures ReadAll(entries, []) == Ok([]) && SumSizes([]) == 0 && SetOf<nat>([]) == {} && SizeCells(entries, {}) == {}
  {
  }

  lemma SetSnoc(s: seq<nat>, x: nat)
    requires x !in s
    ensures SetOf(s + [x]) == SetOf(s) + {x} && x !in SetOf(s)
  {
  }

  lemma {:induction false} ReadAllMeans(entries: seq<Entry>, indexes: seq<nat>)
    requires forall i :: i in indexes ==> i < |entries|
    ensures ReadAll(entries, indexes).Ok? <==> forall i :: i in indexes ==> entries[i].info.Ok?
    ensures ReadAll(entries, indexes).Ok? ==>
              forall k :: 0 <= k < |indexes| ==>
                indexes[k] in indexes && ReadAll(entries, indexes).value[k] == entries[indexes[k]].info.value
  {
    if indexes != [] {
      assert indexes == Init(indexes) + [Last(indexes)];
      assert forall i :: i in Init(indexes) ==> i in indexes;
      ReadAllMeans(entries, Init(indexes));
    }
  }

  lemma {:induction false} AllNamesAre(infos: seq<Info>, x: string)
    ensures x in AllNames(infos) <==> exists k :: 0 <= k < |infos| && x in infos[k].names
  {
    if infos != [] {
      AllNamesAre(Init(infos), x);
      assert forall k :: 0 <= k < |infos| - 1 ==> Init(infos)[k] == infos[k];
    }
  }

  lemma OfModuleIs(entries: seq<Entry>, name: string)
    ensures SetOf(InRange(entries, name)) == OfModule(entries, name) && Distinct(InRange(entries, name))
  {
    EntriesOfDistinct(entries, name, |entries|);
    forall i ensures i in InRange(entries, name) <==> i in OfModule(entries, name) {
      EntriesOfAre(entries, name, |entries|, i);
    }
  }

  /** What an admitted module holds. */
  ghost predicate Describes(known: Known, entries: seq<Entry>, m: Module) {
    var chunk := OfModule(entries, m.name);
    && SetOf(m.indexes) == chunk && Distinct(m.indexes) && |m.indexes| == |chunk| && chunk != {}
    && m.size == |SizeCells(entries, chunk)| && m.closure == Included(known, entries, chunk)
    && (forall i :: i in chunk ==> i < |entries| && entries[i].info.Ok? && entries[i].info.value.key == m.key)
    && forall x :: x in m.names <==> exists i :: i in chunk && x in entries[i].info.value.names
  }

  lemma IncludedOfModule(known: Known, entries: seq<Entry>, name: string)
    requires OfModule(entries, name) != {}
    ensures Included(known, entries, OfModule(entries, name)) == if name in known.closures then known.closures[name] else {}
  {
    var i :| i in OfModule(entries, name);
    if name in known.closures {
      forall x | x in known.closures[name] ensures x in Included(known, entries, OfModule(entries, name)) {
        assert entries[i].moduleRoot == name;
      }
    }
  }

  /** The checks of the planner, one by one. */
  lemma AdmitStages(l: Limits, known: Known, entries: seq<Entry>, name: string)
    requires InRange(entries, name) != []
    ensures var indexes := InRange(entries, name);
            var r := Admit(l, known, entries, name);
            && (r.Ok? ==> name !in known.compileFailed && ReadAll(entries, indexes).Ok? && SameContext(entries, indexes))
            && (name !in known.compileFailed && ReadAll(entries, indexes).Ok? && SameContext(entries, indexes) ==>
                  var infos := ReadAll(entries, indexes).value;
                  var m := Module(name, infos[0].key, indexes, SumSizes(infos),
                                  if name in known.closures then known.closures[name] else {}, AllNames(infos));
                  && (r.Ok? <==> (forall k :: 0 <= k < |infos| ==> infos[k].key == infos[0].key) && FitsAlone(l, m))
                  && (r.Ok? ==> r.value == m))
  {
    hide EntriesOf, ReadAll, FitsAlone, SameContext, SumSizes, AllNames;
  }

  lemma ContextsMean(entries: seq<Entry>, indexes: seq<nat>, chunk: set<nat>)
    requires (forall i :: i in indexes ==> i < |entries|) && forall i :: i in indexes <==> i in chunk
    ensures SameContext(entries, indexes) <==>
              forall i, j :: i in chunk && j in chunk ==> entries[i].context == entries[j].context
  {
  }

  lemma KeysMean(entries: seq<Entry>, indexes: seq<nat>, infos: seq<Info>, chunk: set<nat>)
    requires indexes != [] && |infos| == |indexes| && forall i :: i in indexes <==> i in chunk
    requires forall k :: 0 <= k < |indexes| ==> indexes[k] < |entries| && entries[indexes[k]].info == Ok(infos[k])
    ensures forall i :: i in chunk ==> i < |entries| && entries[i].info.Ok?
    ensures (forall k :: 0 <= k < |infos| ==> infos[k].key == infos[0].key) <==>
              forall i, j :: i in chunk && j in chunk ==> entries[i].info.value.key == entries[j].info.value.key
    ensures (forall k :: 0 <= k < |infos| ==> infos[k].key == infos[0].key) ==>
              forall i :: i in chunk ==> entries[i].info.value.key == infos[0].key
  {
    assert indexes[0] in indexes;
    forall k | 0 <= k < |indexes| ensures indexes[k] in chunk { assert indexes[k] in indexes; }
    forall i | i in chunk ensures exists k :: 0 <= k < |indexes| && indexes[k] == i { assert i in indexes; }
  }

  /** What the checks of one module mean for the set of its entries. */
  lemma ModuleMatches(entries: seq<Entry>, name: string)
    requires forall i :: i in OfModule(entries, name) ==> i < |entries| && entries[i].info.Ok?
    ensures (forall i, j :: i in OfModule(entries, name) && j in OfModule(entries, name) ==> Match(entries, i, j)) <==>
              && (forall i, j :: i in OfModule(entries, name) && j in OfModule(entries, name) ==>
                    entries[i].context == entries[j].context)
              && forall i, j :: i in OfModule(entries, name) && j in OfModule(entries, name) ==>
                   entries[i].info.value.key == entries[j].info.value.key
  {
    forall i, j | i in OfModule(entries, name) && j in OfModule(entries, name)
      ensures Match(entries, i, j) <==>
                entries[i].context == entries[j].context && entries[i].info.value.key == entries[j].info.value.key
    {
    }
  }

  lemma ModuleReadable(known: Known, entries: seq<Entry>, name: string, indexes: seq<nat>)
    requires OfModule(entries, name) != {} && forall i :: i in indexes <==> i in OfModule(entries, name)
    ensures Readable(known, entries, OfModule(entries, name)) <==>
              name !in known.compileFailed && forall i :: i in indexes ==> i < |entries| && entries[i].info.Ok?
  {
    var i :| i in OfModule(entries, name);
  }

  /** A module with entries is admitted exactly when they may be compiled as one. */
  lemma AdmitMeans(l: Limits, known: Known, entries: seq<Entry>, name: string)
    requires OfModule(entries, name) != {}
    ensures Admit(l, known, entries, name).Ok? <==> MayPack(l, known, entries, OfModule(entries, name))
    ensures Admit(l, known, entries, name).Ok? ==>
              && Admit(l, known, entries, name).value.name == name
              && Describes(known, entries, Admit(l, known, entries, name).value)
  {
    hide OfModule, SizeCells, Included, SetOf, Distinct, EntriesOf, Admit, ReadAll, SameContext, SumSizes, AllNames;
    hide Match, Readable;
    var indexes, chunk := InRange(entries, name), OfModule(entries, name);
    OfModuleIs(entries, name);
    assert forall i :: i in indexes <==> i in chunk;
    SomeIndex(indexes, chunk);
    AdmitStages(l, known, entries, name);
    ReadAllMeans(entries, indexes);
    IncludedOfModule(known, entries, name);
    ContextsMean(entries, indexes, chunk);
    ModuleReadable(known, entries, name, indexes);
    if ReadAll(entries, indexes).Ok? {
      var infos := ReadAll(entries, indexes).value;
      SizesAreCells(entries, indexes);
      KeysMean(entries, indexes, infos, chunk);
      NamesMean(entries, indexes, infos);
      ModuleMatches(entries, name);
    }
  }

  lemma SomeIndex(indexes: seq<nat>, chunk: set<nat>)
    requires (forall i :: i in indexes <==> i in chunk) && chunk != {}
    ensures indexes != [] && indexes[0] in chunk
  {
    var i :| i in chunk;
  }

  lemma NamesMean(entries: seq<Entry>, indexes: seq<nat>, infos: seq<Info>)
    requires |infos| == |indexes|
    requires forall k :: 0 <= k < |indexes| ==> indexes[k] < |entries| && entries[indexes[k]].info == Ok(infos[k])
    ensures forall x :: x in AllNames(infos) <==> exists i :: i in indexes && x in entries[i].info.value.names
  {
    forall x ensures x in AllNames(infos) <==> exists i :: i in indexes && x in entries[i].info.value.names {
      AllNamesAre(infos, x);
      if k :| 0 <= k < |infos| && x in infos[k].names { assert indexes[k] in indexes; }
    }
  }

  lemma {:induction false} FirstUnread(entries: seq<Entry>, indexes: seq<nat>) returns (k: nat)
    requires (forall i :: i in indexes ==> i < |entries|) && ReadAll(entries, indexes).Err?
    ensures k < |indexes| && indexes[k] in indexes && entries[indexes[k]].info == Err(ReadAll(entries, indexes).reason)
    ensures forall j :: 0 <= j < k ==> indexes[j] in indexes && entries[indexes[j]].info.Ok?
  {
    assert indexes == Init(indexes) + [Last(indexes)];
    assert forall i :: i in Init(indexes) ==> i in indexes;
    if ReadAll(entries, Init(indexes)).Err? {
      k := FirstUnread(entries, Init(indexes));
    } else {
      k := |indexes| - 1;
      ReadAllMeans(entries, Init(indexes));
    }
  }

  lemma {:induction false} EntriesAscend(entries: seq<Entry>, name: string, n: nat)
    requires n <= |entries|
    ensures forall i, j :: 0 <= i < j < |EntriesOf(entries, name, n)| ==>
              EntriesOf(entries, name, n)[i] < EntriesOf(entries, name, n)[j]
    ensures forall i :: 0 <= i < |EntriesOf(entries, name, n)| ==> EntriesOf(entries, name, n)[i] < n
  {
    if n > 0 { EntriesAscend(entries, name, n - 1); }
  }

  ghost predicate Fails(entries: seq<Entry>, i: nat) {
    i < |entries| && entries[i].info.Err?
  }

  ghost predicate OneContext(entries: seq<Entry>, chunk: set<nat>) {
    forall i, j :: i in chunk && j in chunk && i < |entries| && j < |entries| ==> entries[i].context == entries[j].context
  }

  ghost predicate OneKey(entries: seq<Entry>, chunk: set<nat>) {
    forall i, j :: i in chunk && j in chunk && i < |entries| && j < |entries| && entries[i].info.Ok? && entries[j].info.Ok? ==>
      entries[i].info.value.key == entries[j].info.value.key
  }

  lemma ReasonStages(l: Limits, known: Known, entries: seq<Entry>, name: string)
    requires InRange(entries, name) != [] && Admit(l, known, entries, name).Err?
    ensures var indexes := InRange(entries, name);
            var read := ReadAll(entries, indexes);
            Admit(l, known, entries, name).reason
            == if name in known.compileFailed then "whole-module-compile-failed"
               else if read.Err? then read.reason
               else if !SameContext(entries, indexes) then "module has multiple compiler contexts"
               else if exists k :: 0 <= k < |read.value| && read.value[k].key != read.value[0].key then
                 "module has incompatible Tier 2 contexts"
               else "whole module exceeds Tier 2 budget"
  {
    hide EntriesOf, ReadAll, FitsAlone, SameContext, SumSizes, AllNames;
  }

  /** The first of these entries that cannot be read gives this reason. */
  ghost predicate FirstFails(entries: seq<Entry>, chunk: set<nat>, reason: string) {
    exists i :: i in chunk && Fails(entries, i) && entries[i].info.reason == reason
                && forall j :: j in chunk && j < i ==> !Fails(entries, j)
  }

  lemma UnreadReason(entries: seq<Entry>, name: string)
    requires InRange(entries, name) != [] && ReadAll(entries, InRange(entries, name)).Err?
    ensures exists i :: i in OfModule(entries, name) && Fails(entries, i)
    ensures FirstFails(entries, OfModule(entries, name), ReadAll(entries, InRange(entries, name)).reason)
  {
    hide OfModule, EntriesOf, SetOf, Distinct, ReadAll;
    OfModuleIs(entries, name);
    var indexes := InRange(entries, name);
    assert forall i :: i in SetOf(indexes) <==> i in indexes;
    var k := FirstUnread(entries, indexes);
    FirstIsLeast(entries, name, k);
    assert Fails(entries, indexes[k]);
  }

  lemma SameMeans(entries: seq<Entry>, name: string)
    requires InRange(entries, name) != [] && ReadAll(entries, InRange(entries, name)).Ok?
    ensures var infos := ReadAll(entries, InRange(entries, name)).value;
            && (forall i :: i in OfModule(entries, name) ==> !Fails(entries, i))
            && (SameContext(entries, InRange(entries, name)) <==> OneContext(entries, OfModule(entries, name)))
            && |infos| == |InRange(entries, name)|
            && ((forall k :: 0 <= k < |infos| ==> infos[k].key == infos[0].key) <==> OneKey(entries, OfModule(entries, name)))
  {
    hide OfModule, EntriesOf, SetOf, Distinct, ReadAll, SameContext;
    var indexes, chunk := InRange(entries, name), OfModule(entries, name);
    OfModuleIs(entries, name);
    assert forall i :: i in indexes <==> i in chunk;
    ReadAllMeans(entries, indexes);
    ContextsMean(entries, indexes, chunk);
    KeysMean(entries, indexes, ReadAll(entries, indexes).value, chunk);
  }

  /** Why a module is not admitted: the first check that fails. */
  lemma AdmitReason(l: Limits, known: Known, entries: seq<Entry>, name: string)
    requires OfModule(entries, name) != {} && Admit(l, known, entries, name).Err?
    ensures var chunk, reason := OfModule(entries, name), Admit(l, known, entries, name).reason;
            if name in known.compileFailed then reason == "whole-module-compile-failed"
            else if exists i :: i in chunk && Fails(entries, i) then FirstFails(entries, chunk, reason)
            else if !OneContext(entries, chunk) then reason == "module has multiple compiler contexts"
            else if !OneKey(entries, chunk) then reason == "module has incompatible Tier 2 contexts"
            else reason == "whole module exceeds Tier 2 budget"
  {
    hide OfModule, EntriesOf, Admit, ReadAll, SameContext, Fails, FirstFails, OneContext, OneKey, SetOf, Distinct;
    var indexes := InRange(entries, name);
    OfModuleIs(entries, name);
    SomeInRange(entries, name);
    ReasonStages(l, known, entries, name);
    if ReadAll(entries, indexes).Ok? { SameMeans(entries, name); } else { UnreadReason(entries, name); }
  }

  lemma SomeInRange(entries: seq<Entry>, name: string)
    requires OfModule(entries, name) != {}
    ensures InRange(entries, name) != []
  {
    OfModuleIs(entries, name);
  }

  lemma FirstIsLeast(entries: seq<Entry>, name: string, k: nat)
    requires k < |InRange(entries, name)| && forall j :: 0 <= j < k ==> !Fails(entries, InRange(entries, name)[j])
    ensures forall j :: j in OfModule(entries, name) && j < InRange(entries, name)[k] ==> !Fails(entries, j)
  {
    var indexes := InRange(entries, name);
    EntriesAscend(entries, name, |entries|);
    OfModuleIs(entries, name);
    forall j | j in OfModule(entries, name) && j < indexes[k] ensures !Fails(entries, j) {
      assert j in SetOf(indexes);
      var p :| 0 <= p < |indexes| && indexes[p] == j;
    }
  }

  // ---- several modules together -----------------------------------------------------------------

  /** Complete modules with different names, each admitted on its own. */
  ghost predicate Complete(l: Limits, known: Known, entries: seq<Entry>, bin: seq<Module>) {
    && NamedApart(bin)
    && forall k :: 0 <= k < |bin| ==>
         OfModule(entries, bin[k].name) != {} && Admit(l, known, entries, bin[k].name) == Ok(bin[k])
  }

  /** The entries of all modules of a bin. */
  ghost function ChunkOf(entries: seq<Entry>, bin: seq<Module>): set<nat> {
    set i: nat | i < |entries| && Candidate(entries[i]) && exists k :: 0 <= k < |bin| && bin[k].name == entries[i].moduleRoot
  }

  lemma CompleteInit(l: Limits, known: Known, entries: seq<Entry>, bin: seq<Module>)
    requires bin != [] && Complete(l, known, entries, bin)
    ensures Complete(l, known, entries, Init(bin)) && Describes(known, entries, Last(bin))
    ensures ChunkOf(entries, bin) == ChunkOf(entries, Init(bin)) + OfModule(entries, Last(bin).name)
    ensures ChunkOf(entries, Init(bin)) !! OfModule(entries, Last(bin).name)
  {
    hide Admit, Describes;
    AdmitMeans(l, known, entries, bin[|bin| - 1].name);
    forall i ensures i in ChunkOf(entries, bin) <==>
                       i in ChunkOf(entries, Init(bin)) || i in OfModule(entries, Last(bin).name) {
      if i in ChunkOf(entries, bin) {
        var k :| 0 <= k < |bin| && bin[k].name == entries[i].moduleRoot;
        if k < |bin| - 1 { assert Init(bin)[k] == bin[k]; }
      }
      if i in ChunkOf(entries, Init(bin)) {
        var k :| 0 <= k < |Init(bin)| && Init(bin)[k].name == entries[i].moduleRoot;
        assert bin[k] == Init(bin)[k];
      }
    }
  }

  lemma CellsJoin(known: Known, entries: seq<Entry>, a: set<nat>, b: set<nat>)
    requires a !! b
    ensures |SizeCells(entries, a + b)| == |SizeCells(entries, a)| + |SizeCells(entries, b)| && |a + b| == |a| + |b|
    ensures Included(known, entries, a + b) == Included(known, entries, a) + Included(known, entries, b)
  {
    assert SizeCells(entries, a + b) == SizeCells(entries, a) + SizeCells(entries, b);
    assert SizeCells(entries, a) !! SizeCells(entries, b);
  }

  lemma {:induction false} BinTotals(l: Limits, known: Known, entries: seq<Entry>, bin: seq<Module>)
    requires Complete(l, known, entries, bin)
    ensures var chunk := ChunkOf(entries, bin);
            && |Indexes(bin)| == |chunk| && (forall i :: i in Indexes(bin) <==> i in chunk)
            && Size(bin) == |SizeCells(entries, chunk)| && Closure(bin) == Included(known, entries, chunk)
  {
    hide Complete, SizeCells, Included, OfModule, ChunkOf;
    if bin == [] {
      NoChunk(known, entries);
    } else {
      var mine := OfModule(entries, Last(bin).name);
      CompleteInit(l, known, entries, bin);
      BinTotals(l, known, entries, Init(bin));
      CellsJoin(known, entries, ChunkOf(entries, Init(bin)), mine);
      DescribedIndexes(known, entries, Last(bin));
    }
  }

  lemma NoChunk(known: Known, entries: seq<Entry>)
    ensures ChunkOf(entries, []) == {} && SizeCells(entries, {}) == {} && Included(known, entries, {}) == {}
  {
  }

  lemma DescribedIndexes(known: Known, entries: seq<Entry>, m: Module)
    requires Describes(known, entries, m)
    ensures forall i :: i in m.indexes <==> i in OfModule(entries, m.name)
    ensures |m.indexes| == |OfModule(entries, m.name)|
    ensures m.size == |SizeCells(entries, OfModule(entries, m.name))|
    ensures m.closure == Included(known, entries, OfModule(entries, m.name))
  {
    hide SizeCells, Included, OfModule;
    assert forall i :: i in SetOf(m.indexes) <==> i in m.indexes;
  }

  ghost predicate AllMatch(entries: seq<Entry>, chunk: set<nat>) {
    && (forall i :: i in chunk ==> i < |entries| && entries[i].info.Ok?)
    && forall i, j :: i in chunk && j in chunk ==> Match(entries, i, j)
  }

  ghost predicate NamesApart(bin: seq<Module>) {
    forall i, j :: 0 <= i < j < |bin| ==> bin[i].names !! bin[j].names
  }

  /** Two modules of one key share no definition name exactly when their entries match. */
  lemma TwoModulesMatch(known: Known, entries: seq<Entry>, a: Module, b: Module)
    requires Describes(known, entries, a) && Describes(known, entries, b) && a.name != b.name && a.key == b.key
    ensures a.names !! b.names <==>
              forall i, j :: i in OfModule(entries, a.name) && j in OfModule(entries, b.name) ==> Match(entries, i, j)
  {
    hide SizeCells, Included;
    if x :| x in a.names && x in b.names {
      var i :| i in OfModule(entries, a.name) && x in entries[i].info.value.names;
      var j :| j in OfModule(entries, b.name) && x in entries[j].info.value.names;
      assert !Match(entries, i, j);
    }
    if a.names !! b.names {
      forall i, j | i in OfModule(entries, a.name) && j in OfModule(entries, b.name) ensures Match(entries, i, j) {
        assert forall x :: x in entries[i].info.value.names ==> x in a.names;
        assert forall x :: x in entries[j].info.value.names ==> x in b.names;
      }
    }
  }

  lemma MatchSymmetric(entries: seq<Entry>, i: nat, j: nat)
    requires i < |entries| && j < |entries| && entries[i].info.Ok? && entries[j].info.Ok?
    ensures Match(entries, i, j) == Match(entries, j, i)
  {
  }

  lemma ModuleAt(l: Limits, known: Known, entries: seq<Entry>, bin: seq<Module>, i: nat) returns (k: nat)
    requires Complete(l, known, entries, bin) && i in ChunkOf(entries, bin)
    ensures k < |bin| && i in OfModule(entries, bin[k].name) && Describes(known, entries, bin[k])
    ensures MayPack(l, known, entries, OfModule(entries, bin[k].name))
  {
    hide Admit, Describes, MayPack;
    k :| 0 <= k < |bin| && bin[k].name == entries[i].moduleRoot;
    AdmitMeans(l, known, entries, bin[k].name);
  }

  lemma InChunk(entries: seq<Entry>, bin: seq<Module>, k: nat, i: nat)
    requires k < |bin| && i in OfModule(entries, bin[k].name)
    ensures i in ChunkOf(entries, bin)
  {
  }

  lemma BinMatches(l: Limits, known: Known, entries: seq<Entry>, bin: seq<Module>)
    requires Complete(l, known, entries, bin) && forall k :: 0 <= k < |bin| ==> bin[k].key == bin[0].key
    ensures NamesApart(bin) <==> AllMatch(entries, ChunkOf(entries, bin))
    ensures Readable(known, entries, ChunkOf(entries, bin))
  {
    hide Admit, OfModule, ChunkOf, Match, Within, Candidate;
    var chunk := ChunkOf(entries, bin);
    forall i | i in chunk
      ensures i < |entries| && Candidate(entries[i]) && entries[i].info.Ok? && entries[i].moduleRoot !in known.compileFailed
    {
      var _ := ModuleAt(l, known, entries, bin, i);
    }
    if NamesApart(bin) {
      forall i, j | i in chunk && j in chunk ensures Match(entries, i, j) { PairMatches(l, known, entries, bin, i, j); }
    }
    if AllMatch(entries, chunk) {
      forall p, q | 0 <= p < q < |bin| ensures bin[p].names !! bin[q].names {
        assert bin[p].name != bin[q].name;
        AdmitMeans(l, known, entries, bin[p].name);
        AdmitMeans(l, known, entries, bin[q].name);
        forall i, j | i in OfModule(entries, bin[p].name) && j in OfModule(entries, bin[q].name)
          ensures i in chunk && j in chunk
        {
          InChunk(entries, bin, p, i);
          InChunk(entries, bin, q, j);
        }
        TwoModulesMatch(known, entries, bin[p], bin[q]);
      }
    }
  }

  lemma PairMatches(l: Limits, known: Known, entries: seq<Entry>, bin: seq<Module>, i: nat, j: nat)
    requires Complete(l, known, entries, bin) && forall k :: 0 <= k < |bin| ==> bin[k].key == bin[0].key
    requires NamesApart(bin) && i in ChunkOf(entries, bin) && j in ChunkOf(entries, bin)
    ensures i < |entries| && j < |entries| && entries[i].info.Ok? && entries[j].info.Ok? && Match(entries, i, j)
  {
    hide Admit, ChunkOf, Match, Within, Candidate, OfModule;
    var p := ModuleAt(l, known, entries, bin, i);
    var q := ModuleAt(l, known, entries, bin, j);
    if p < q {
      assert bin[p].name != bin[q].name;
      TwoModulesMatch(known, entries, bin[p], bin[q]);
    } else if q < p {
      assert bin[q].name != bin[p].name;
      TwoModulesMatch(known, entries, bin[q], bin[p]);
      assert Match(entries, j, i);
      MatchSymmetric(entries, i, j);
    }
  }

  /** A bin of complete modules of one key is packed exactly when its entries may be compiled as one. */
  lemma PackedMeans(l: Limits, known: Known, entries: seq<Entry>, bin: seq<Module>)
    requires Complete(l, known, entries, bin) && bin != [] && forall k :: 0 <= k < |bin| ==> bin[k].key == bin[0].key
    ensures Packed(l, bin) <==> MayPack(l, known, entries, ChunkOf(entries, bin))
  {
    hide Complete, SizeCells, Included, OfModule, ChunkOf, Indexes, Size, Closure, Match;
    BinTotals(l, known, entries, bin);
    BinMatches(l, known, entries, bin);
  }

  // ---- the plan ---------------------------------------------------------------------------------

  lemma PlannedIsComplete(l: Limits, known: Known, entries: seq<Entry>, bin: seq<Module>)
    requires PlannedBin(l, Modules(l, known, entries), bin)
    ensures Complete(l, known, entries, bin) && forall k :: 0 <= k < |bin| ==> bin[k].key == bin[0].key
  {
    hide Modules, Admit, FirstFit, PlannedBin, Packed;
    forall k | 0 <= k < |bin|
      ensures bin[k].key == bin[0].key && Admit(l, known, entries, bin[k].name) == Ok(bin[k])
      ensures OfModule(entries, bin[k].name) != {}
    {
      BinModule(l, known, entries, bin, k);
      PlannedBinIs(l, known, entries, bin, k);
      OfModuleIs(entries, bin[k].name);
      assert bin[k].indexes[0] in SetOf(InRange(entries, bin[k].name));
    }
    forall i, j | 0 <= i < j < |bin| ensures bin[i].name != bin[j].name { BinNamedApart(l, known, entries, bin, i, j); }
  }

  lemma ChunkOfJoin(entries: seq<Entry>, a: seq<Module>, b: seq<Module>)
    ensures ChunkOf(entries, a + b) == ChunkOf(entries, a) + ChunkOf(entries, b)
  {
    var c := a + b;
    forall i: nat ensures i in ChunkOf(entries, c) <==> i in ChunkOf(entries, a) || i in ChunkOf(entries, b) {
      if i in ChunkOf(entries, a) {
        var k :| 0 <= k < |a| && a[k].name == entries[i].moduleRoot;
        assert c[k] == a[k];
      }
      if i in ChunkOf(entries, b) {
        var k :| 0 <= k < |b| && b[k].name == entries[i].moduleRoot;
        assert c[|a| + k] == b[k];
      }
    }
  }

  lemma JoinIsComplete(l: Limits, known: Known, entries: seq<Entry>, a: seq<Module>, b: seq<Module>)
    requires Complete(l, known, entries, a) && Complete(l, known, entries, b)
    requires forall i, j :: 0 <= i < |a| && 0 <= j < |b| ==> a[i].name != b[j].name
    ensures Complete(l, known, entries, a + b)
  {
    hide Admit, OfModule;
  }

  /** The plan is maximal: the entries of two planned bins of one key may not be compiled as one. */
  lemma ModulePlanIsMaximal(l: Limits, known: Known, entries: seq<Entry>, a: seq<Module>, b: seq<Module>)
    requires PlannedBin(l, Modules(l, known, entries), a) && PlannedBin(l, Modules(l, known, entries), b)
    requires a != b && a[0].key == b[0].key
    ensures !MayPack(l, known, entries, ChunkOf(entries, a) + ChunkOf(entries, b))
  {
    hide Modules, PlannedBin, Packed, MayPack, Complete, ChunkOf;
    PlanIsMaximal(l, known, entries, a, b);
    PlannedIsComplete(l, known, entries, a);
    PlannedIsComplete(l, known, entries, b);
    forall i, j | 0 <= i < |a| && 0 <= j < |b| ensures a[i].name != b[j].name {
      if a[i].name == b[j].name { SharedModule(l, known, entries, a, b, i, j); }
    }
    JoinIsComplete(l, known, entries, a, b);
    ChunkOfJoin(entries, a, b);
    PackedMeans(l, known, entries, a + b);
  }

  /** All entries of a module are in the chunk, or none. */
  ghost predicate WholeModules(entries: seq<Entry>, chunk: set<nat>) {
    forall i, j :: i in chunk && i < |entries| && j in OfModule(entries, entries[i].moduleRoot) ==> j in chunk
  }

  ghost predicate SeveralModules(entries: seq<Entry>, chunk: set<nat>) {
    exists i, j :: i in chunk && j in chunk && i < |entries| && j < |entries| && entries[i].moduleRoot != entries[j].moduleRoot
  }

  lemma SeveralMeans(l: Limits, known: Known, entries: seq<Entry>, bin: seq<Module>)
    requires Complete(l, known, entries, bin)
    ensures |bin| > 1 <==> SeveralModules(entries, ChunkOf(entries, bin))
  {
    hide Admit;
    var chunk := ChunkOf(entries, bin);
    if |bin| > 1 {
      assert bin[0].name != bin[1].name && OfModule(entries, bin[0].name) != {} && OfModule(entries, bin[1].name) != {};
      var i :| i in OfModule(entries, bin[0].name);
      var j :| j in OfModule(entries, bin[1].name);
      assert i in chunk && j in chunk;
    }
    if i, j :| i in chunk && j in chunk && i < |entries| && j < |entries| && entries[i].moduleRoot != entries[j].moduleRoot {
      var p :| 0 <= p < |bin| && bin[p].name == entries[i].moduleRoot;
      var q :| 0 <= q < |bin| && bin[q].name == entries[j].moduleRoot;
    }
  }

  /** A planned chunk holds the entries of at least two whole modules that may be compiled as one, in ascending order. */
  lemma ModuleChunkMeans(l: Limits, known: Known, entries: seq<Entry>, chunks: seq<seq<nat>>, c: seq<nat>)
    requires IsPlan(l, known, entries, chunks) && c in chunks
    ensures var chunk := SetOf(c);
            && MayPack(l, known, entries, chunk) && WholeModules(entries, chunk) && SeveralModules(entries, chunk)
            && (forall i, j :: 0 <= i < j < |c| ==> c[i] < c[j]) && |c| == |chunk|
  {
    hide Modules, FirstFit, Complete, MayPack, SortIndexes, Indexes, PlannedBin, Packed, SeveralModules;
    var bin :| PlannedBin(l, Modules(l, known, entries), bin) && c == SortIndexes(Indexes(bin));
    assert |bin| > 1 by { PlannedIsLong(l, Modules(l, known, entries), bin); }
    PlannedIsComplete(l, known, entries, bin);
    PlannedBinIs(l, known, entries, bin, 0);
    PackedMeans(l, known, entries, bin);
    SeveralMeans(l, known, entries, bin);
    BinTotals(l, known, entries, bin);
    SortIndexesSorts(Indexes(bin));
    forall i ensures i in SetOf(c) <==> i in ChunkOf(entries, bin) {
      assert i in c <==> i in multiset(c);
      assert i in Indexes(bin) <==> i in multiset(Indexes(bin));
    }
    assert SetOf(c) == ChunkOf(entries, bin);
    ChunkIsApart(l, known, entries, c);
    AscendingApart(c);
    assert |c| == |multiset(c)| == |multiset(Indexes(bin))| == |Indexes(bin)|;
  }

  lemma PlannedIsLong(l: Limits, modules: seq<Module>, bin: seq<Module>)
    requires PlannedBin(l, modules, bin)
    ensures |bin| > 1
  {
  }

  lemma AscendingApart(c: seq<nat>)
    requires Ascending(c) && Distinct(c)
    ensures forall i, j :: 0 <= i < j < |c| ==> c[i] < c[j]
  {
    forall i, j | 0 <= i < j < |c| ensures c[i] < c[j] { assert c[i] <= c[j] && c[i] != c[j]; }
  }

  // ---- when all modules are packed together -----------------------------------------------------

  lemma {:induction false} TotalsGrow(ms: seq<Module>)
    requires ms != []
    ensures |Indexes(Init(ms))| <= |Indexes(ms)| && Size(Init(ms)) <= Size(ms) && Closure(Init(ms)) <= Closure(ms)
    ensures Indexes(ms) == Indexes(Init(ms)) + Last(ms).indexes && Size(ms) == Size(Init(ms)) + Last(ms).size
    ensures Closure(ms) == Closure(Init(ms)) + Last(ms).closure
  {
  }

  lemma {:induction false} NamesOf(bin: seq<Module>, x: string)
    ensures x in Names(bin) <==> exists k :: 0 <= k < |bin| && x in bin[k].names
  {
    if bin != [] {
      NamesOf(Init(bin), x);
      assert forall k :: 0 <= k < |bin| - 1 ==> Init(bin)[k] == bin[k];
    }
  }

  lemma PackedInit(l: Limits, ms: seq<Module>)
    requires Packed(l, ms) && |ms| > 1
    ensures Packed(l, Init(ms)) && Accepts(l, Init(ms), Last(ms))
  {
    hide Indexes, Size, Closure, Names;
    TotalsGrow(ms);
    Subset(Closure(Init(ms)), Closure(ms));
    assert forall k :: 0 <= k < |ms| - 1 ==> Init(ms)[k] == ms[k];
    forall x | x in Names(Init(ms)) ensures x !in Last(ms).names {
      NamesOf(Init(ms), x);
      var k :| 0 <= k < |Init(ms)| && x in Init(ms)[k].names;
      assert ms[k].names !! ms[|ms| - 1].names;
    }
  }

  /** Modules that may share one bin do. */
  lemma {:induction false} FirstFitWhole(l: Limits, ms: seq<Module>)
    requires Packed(l, ms)
    ensures FirstFit(l, ms) == [ms]
  {
    hide Packed, Accepts;
    assert ms != [] by { PackedIsSome(l, ms); }
    if |ms| == 1 {
      assert Init(ms) == [] && ms == [Last(ms)];
      assert FirstFit(l, []) == [];
    } else {
      PackedInit(l, ms);
      FirstFitWhole(l, Init(ms));
      assert Init(ms) + [Last(ms)] == ms;
      assert Place(l, [Init(ms)], Last(ms)) == [Init(ms) + [Last(ms)]] + [];
    }
  }

  lemma PackedIsSome(l: Limits, ms: seq<Module>)
    requires Packed(l, ms)
    ensures ms != []
  {
  }

  /** Every entry that any candidate may merge. */
  ghost function AllCandidates(entries: seq<Entry>): set<nat> {
    set i: nat | i < |entries| && Candidate(entries[i])
  }

  lemma Fewer<T>(a: set<T>, b: set<T>)
    requires a <= b
    ensures |a| <= |b|
  {
    assert b == a + (b - a);
  }

  lemma PartMayPack(l: Limits, known: Known, entries: seq<Entry>, whole: set<nat>, part: set<nat>)
    requires MayPack(l, known, entries, whole) && part <= whole
    ensures MayPack(l, known, entries, part)
  {
    Fewer(part, whole);
    Fewer(SizeCells(entries, part), SizeCells(entries, whole));
    Fewer(Included(known, entries, part), Included(known, entries, whole));
  }

  lemma {:induction false} AdmittedHas(l: Limits, known: Known, entries: seq<Entry>, names: seq<string>, name: string)
    requires name in names && Admit(l, known, entries, name).Ok?
    ensures Admit(l, known, entries, name).value in Admitted(l, known, entries, names)
  {
    hide Admit;
    if name != Last(names) {
      assert names == Init(names) + [Last(names)];
      AdmittedHas(l, known, entries, Init(names), name);
    }
  }

  lemma {:induction false} NamesHaveEntries(entries: seq<Entry>, n: nat, name: string)
    requires n <= |entries| && name in ModuleNames(entries, n)
    ensures OfModule(entries, name) != {}
  {
    if name in ModuleNames(entries, n - 1) {
      NamesHaveEntries(entries, n - 1, name);
    } else {
      assert n - 1 in OfModule(entries, name);
    }
  }

  lemma {:induction false} OfKeyAll(modules: seq<Module>, key: string)
    requires forall k :: 0 <= k < |modules| ==> modules[k].key == key
    ensures OfKey(modules, key) == modules
  {
    if modules != [] {
      assert forall k :: 0 <= k < |modules| - 1 ==> Init(modules)[k] == modules[k];
      OfKeyAll(Init(modules), key);
      assert Last(modules) == modules[|modules| - 1] && modules == Init(modules) + [Last(modules)];
    }
  }

  lemma ModulesAreComplete(l: Limits, known: Known, entries: seq<Entry>)
    ensures Complete(l, known, entries, Modules(l, known, entries))
  {
    hide Admit;
    var names, modules := ModuleNames(entries, |entries|), Modules(l, known, entries);
    NamesAre(entries, |entries|);
    AdmittedAre(l, known, entries, names);
    forall k | 0 <= k < |modules| ensures OfModule(entries, modules[k].name) != {} {
      NamesHaveEntries(entries, |entries|, modules[k].name);
    }
  }

  lemma AllModulesAdmitted(l: Limits, known: Known, entries: seq<Entry>)
    requires MayPack(l, known, entries, AllCandidates(entries))
    ensures ChunkOf(entries, Modules(l, known, entries)) == AllCandidates(entries)
  {
    hide Admit, MayPack, Admitted;
    var all, modules := AllCandidates(entries), Modules(l, known, entries);
    NamesAre(entries, |entries|);
    forall i | i in all ensures i in ChunkOf(entries, modules) {
      var name := entries[i].moduleRoot;
      assert i in OfModule(entries, name) && OfModule(entries, name) <= all;
      PartMayPack(l, known, entries, all, OfModule(entries, name));
      AdmitMeans(l, known, entries, name);
      AdmittedHas(l, known, entries, ModuleNames(entries, |entries|), name);
      var k :| 0 <= k < |modules| && modules[k] == Admit(l, known, entries, name).value;
      assert modules[k].name == name;
    }
  }

  lemma AllOfOneKey(l: Limits, known: Known, entries: seq<Entry>, modules: seq<Module>)
    requires Complete(l, known, entries, modules) && MayPack(l, known, entries, ChunkOf(entries, modules))
    ensures forall k :: 0 <= k < |modules| ==> modules[k].key == modules[0].key
  {
    hide Admit, Within;
    forall k | 0 <= k < |modules| ensures modules[k].key == modules[0].key {
      AdmitMeans(l, known, entries, modules[k].name);
      AdmitMeans(l, known, entries, modules[0].name);
      var i :| i in OfModule(entries, modules[k].name);
      var j :| j in OfModule(entries, modules[0].name);
      InChunk(entries, modules, k, i);
      InChunk(entries, modules, 0, j);
      assert Match(entries, i, j);
    }
  }

  /** One chunk holds every candidate entry. */
  ghost predicate AllInOne(entries: seq<Entry>, chunks: seq<seq<nat>>) {
    exists c :: c in chunks && SetOf(c) == AllCandidates(entries)
  }

  lemma OneIsPacked(l: Limits, known: Known, entries: seq<Entry>, chunks: seq<seq<nat>>, c: seq<nat>, chunk: set<nat>)
    requires IsPlan(l, known, entries, chunks) && c in chunks && chunk == SetOf(c) && chunk == AllCandidates(entries)
    ensures MayPack(l, known, entries, AllCandidates(entries)) && SeveralModules(entries, AllCandidates(entries))
  {
    hide IsPlan, MayPack, SeveralModules, WholeModules;
    ModuleChunkMeans(l, known, entries, chunks, c);
    assert MayPack(l, known, entries, chunk);
    assert SeveralModules(entries, chunk);
  }

  lemma PackedIsOne(l: Limits, known: Known, entries: seq<Entry>, chunks: seq<seq<nat>>)
    requires IsPlan(l, known, entries, chunks)
    requires MayPack(l, known, entries, AllCandidates(entries)) && SeveralModules(entries, AllCandidates(entries))
    ensures AllInOne(entries, chunks)
  {
    hide Modules, FirstFit, Complete, MayPack, SortIndexes, Indexes, Packed, SeveralModules, OfKey, ChunkOf, AllCandidates;
    var all, modules := AllCandidates(entries), Modules(l, known, entries);
    ModulesAreComplete(l, known, entries);
    AllModulesAdmitted(l, known, entries);
    SeveralMeans(l, known, entries, modules);
    AllOfOneKey(l, known, entries, modules);
    PackedMeans(l, known, entries, modules);
    FirstFitWhole(l, modules);
    OfKeyAll(modules, modules[0].key);
    assert PlannedBin(l, modules, modules);
    var c := SortIndexes(Indexes(modules));
    assert c in chunks by { assert IsPlanned(l, modules, c); }
    BinTotals(l, known, entries, modules);
    SortIndexesSorts(Indexes(modules));
    forall i ensures i in c <==> i in all {
      assert i in c <==> i in multiset(c);
      assert i in Indexes(modules) <==> i in multiset(Indexes(modules));
    }
    assert SetOf(c) == all;
  }

  /** All of a database of several modules becomes one chunk exactly when it may be compiled as one. */
  lemma WholeIsModulePlan(l: Limits, known: Known, entries: seq<Entry>, chunks: seq<seq<nat>>)
    requires IsPlan(l, known, entries, chunks)
    ensures AllInOne(entries, chunks) <==>
              MayPack(l, known, entries, AllCandidates(entries)) && SeveralModules(entries, AllCandidates(entries))
  {
    hide IsPlan, MayPack, SeveralModules, WholeModules;
    if AllInOne(entries, chunks) {
      var c :| c in chunks && SetOf(c) == AllCandidates(entries);
      OneIsPacked(l, known, entries, chunks, c, SetOf(c));
    }
    if MayPack(l, known, entries, AllCandidates(entries)) && SeveralModules(entries, AllCandidates(entries)) {
      PackedIsOne(l, known, entries, chunks);
    }
  }
}
