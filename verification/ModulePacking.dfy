/** `tier2_unity_chunks`: whole modules packed first-fit, within three budgets and without shared names. */
module ModulePacking {
  import opened Prelude
  import opened ChunkOrder

  /** What reading one compiler-authored owner yields. */
  datatype Info = Info(key: string, size: nat, names: set<string>)

  /** A compile entry; `info` is an error when the owner or one of its members cannot be read. */
  datatype Entry = Entry(isUbt: bool, hasMembers: bool, moduleRoot: string, context: string, info: Result<Info>)

  datatype Limits = Limits(budget: nat, maxUnities: Option<nat>, closureBudget: nat)

  /** What planning knows beyond the entries: include closures and compile failures by module. */
  datatype Known = Known(closures: map<string, set<string>>, compileFailed: set<string>)

  /** One complete module that may be packed. */
  datatype Module = Module(name: string, key: string, indexes: seq<nat>, size: nat, closure: set<string>,
                           names: set<string>)

  // ---- first fit ----------------------------------------------------------------------------

  function Indexes(bin: seq<Module>): seq<nat> {
    if bin == [] then [] else Indexes(Init(bin)) + Last(bin).indexes
  }

  function Size(bin: seq<Module>): nat {
    if bin == [] then 0 else Size(Init(bin)) + Last(bin).size
  }

  function Closure(bin: seq<Module>): set<string> {
    if bin == [] then {} else Closure(Init(bin)) + Last(bin).closure
  }

  function Names(bin: seq<Module>): set<string> {
    if bin == [] then {} else Names(Init(bin)) + Last(bin).names
  }

  predicate WithinUnities(l: Limits, n: nat) {
    l.maxUnities.Some? ==> n <= l.maxUnities.value
  }

  /** The two parts may share a bin: within every budget, and no definition name in both. */
  predicate Compatible(l: Limits, unities: nat, size: nat, closure: set<string>, apart: bool) {
    WithinUnities(l, unities) && size <= l.budget && |closure| <= l.closureBudget && apart
  }

  predicate Accepts(l: Limits, bin: seq<Module>, m: Module) {
    Compatible(l, |Indexes(bin)| + |m.indexes|, Size(bin) + m.size, Closure(bin) + m.closure, Names(bin) !! m.names)
  }

  /** The module goes to the first bin that accepts it, or opens one. */
  function Place(l: Limits, bins: seq<seq<Module>>, m: Module): seq<seq<Module>> {
    if bins == [] then [[m]]
    else if Accepts(l, bins[0], m) then [bins[0] + [m]] + bins[1..]
    else [bins[0]] + Place(l, bins[1..], m)
  }

  function FirstFit(l: Limits, modules: seq<Module>): seq<seq<Module>> {
    if modules == [] then [] else Place(l, FirstFit(l, Init(modules)), Last(modules))
  }

  /** A bin within its limits whose modules share no definition name. */
  predicate Packed(l: Limits, bin: seq<Module>) {
    && bin != []
    && Compatible(l, |Indexes(bin)|, Size(bin), Closure(bin), true)
    && forall i, j :: 0 <= i < j < |bin| ==> bin[i].names !! bin[j].names
  }

  predicate FitsAlone(l: Limits, m: Module) {
    Compatible(l, |m.indexes|, m.size, m.closure, true)
  }

  lemma {:induction false} NamesHas(bin: seq<Module>, i: nat)
    requires i < |bin|
    ensures bin[i].names <= Names(bin)
  {
    if i < |bin| - 1 { NamesHas(Init(bin), i); }
  }

  lemma GrowsPacked(l: Limits, bin: seq<Module>, m: Module)
    requires Packed(l, bin) && Accepts(l, bin, m)
    ensures Packed(l, bin + [m])
  {
    assert Init(bin + [m]) == bin;
    forall i | 0 <= i < |bin| ensures bin[i].names !! m.names { NamesHas(bin, i); }
  }

  lemma AlonePacked(l: Limits, m: Module)
    requires FitsAlone(l, m)
    ensures Packed(l, [m])
  {
    assert Init([m]) == [];
    assert {} + m.closure == m.closure;
    assert Closure([m]) == Closure([]) + m.closure;
    assert Indexes([m]) == Indexes([]) + m.indexes;
  }

  lemma RefusesMore(l: Limits, bin: seq<Module>, m: Module, f: Module)
    requires !Accepts(l, bin, f)
    ensures !Accepts(l, bin + [m], f)
  {
    assert Init(bin + [m]) == bin;
    Subset(Closure(bin) + f.closure, Closure(bin + [m]) + f.closure);
  }

  lemma Subset(a: set<string>, b: set<string>)
    requires a <= b
    ensures |a| <= |b|
  {
    assert b == a + (b - a);
  }

  /** Every bin refused the first module of every later bin. */
  predicate Refused(l: Limits, bins: seq<seq<Module>>) {
    && (forall i :: 0 <= i < |bins| ==> bins[i] != [])
    && forall i, j :: 0 <= i < j < |bins| ==> !Accepts(l, bins[i], bins[j][0])
  }

  /** Where `Place` puts the module. */
  lemma {:induction false} PlaceIs(l: Limits, bins: seq<seq<Module>>, m: Module) returns (k: nat)
    ensures k <= |bins| && forall i :: 0 <= i < k ==> !Accepts(l, bins[i], m)
    ensures k == |bins| ==> Place(l, bins, m) == bins + [[m]]
    ensures k < |bins| ==> Accepts(l, bins[k], m) && Place(l, bins, m) == bins[k := bins[k] + [m]]
  {
    if bins == [] {
      k := 0;
    } else if Accepts(l, bins[0], m) {
      k := 0;
      assert Place(l, bins, m) == bins[0 := bins[0] + [m]];
    } else {
      var rest := PlaceIs(l, bins[1..], m);
      k := rest + 1;
      if rest < |bins| - 1 {
        assert [bins[0]] + bins[1..][rest := bins[1..][rest] + [m]] == bins[k := bins[k] + [m]];
      } else {
        assert [bins[0]] + (bins[1..] + [[m]]) == bins + [[m]];
      }
    }
  }

  lemma PlaceKeepsRefused(l: Limits, bins: seq<seq<Module>>, m: Module)
    requires Refused(l, bins)
    ensures Refused(l, Place(l, bins, m))
  {
    hide Accepts;
    var k := PlaceIs(l, bins, m);
    if k < |bins| {
      forall j | k < j < |bins| ensures !Accepts(l, bins[k] + [m], bins[j][0]) {
        RefusesMore(l, bins[k], m, bins[j][0]);
      }
    }
  }

  /** Every bin of first fit is packed, and every bin refused the module that opened any later bin. */
  lemma {:induction false} FirstFitPacks(l: Limits, modules: seq<Module>)
    requires forall i :: 0 <= i < |modules| ==> FitsAlone(l, modules[i])
    ensures Refused(l, FirstFit(l, modules))
    ensures forall i :: 0 <= i < |FirstFit(l, modules)| ==> Packed(l, FirstFit(l, modules)[i])
  {
    hide Accepts, Packed, FitsAlone, Refused, Place;
    if modules == [] {
      NothingRefused(l);
    } else {
      var before, m := FirstFit(l, Init(modules)), Last(modules);
      FirstFitPacks(l, Init(modules));
      PlaceKeepsRefused(l, before, m);
      var k := PlaceIs(l, before, m);
      if k < |before| { GrowsPacked(l, before[k], m); } else { AlonePacked(l, m); }
    }
  }

  lemma NothingRefused(l: Limits)
    ensures Refused(l, [])
  {
  }

  lemma {:induction false} TotalsHaveFirst(bin: seq<Module>)
    requires bin != []
    ensures |bin[0].indexes| <= |Indexes(bin)| && bin[0].size <= Size(bin)
    ensures bin[0].closure <= Closure(bin) && bin[0].names <= Names(bin)
  {
    if |bin| > 1 { TotalsHaveFirst(Init(bin)); } else { assert Init(bin) == []; }
  }

  lemma {:induction false} JoinTotals(a: seq<Module>, b: seq<Module>)
    ensures |Indexes(a + b)| == |Indexes(a)| + |Indexes(b)| && Size(a + b) == Size(a) + Size(b)
    ensures Closure(a + b) == Closure(a) + Closure(b)
  {
    if b == [] {
      assert a + b == a;
    } else {
      JoinTotals(a, Init(b));
      assert Init(a + b) == a + Init(b);
    }
  }

  lemma {:induction false} NamesFrom(bin: seq<Module>, x: string)
    requires x in Names(bin)
    ensures exists k :: 0 <= k < |bin| && x in bin[k].names
  {
    if x !in Last(bin).names {
      NamesFrom(Init(bin), x);
      var k :| 0 <= k < |bin| - 1 && x in Init(bin)[k].names;
      assert x in bin[k].names;
    }
  }

  lemma PackedTakesFirst(l: Limits, a: seq<Module>, b: seq<Module>)
    requires b != [] && Packed(l, a + b)
    ensures Accepts(l, a, b[0])
  {
    JoinTotals(a, b);
    TotalsHaveFirst(b);
    Subset(Closure(a) + b[0].closure, Closure(a) + Closure(b));
    forall x | x in Names(a) ensures x !in b[0].names {
      NamesFrom(a, x);
      var k :| 0 <= k < |a| && x in a[k].names;
      assert (a + b)[k] == a[k] && (a + b)[|a|] == b[0];
    }
  }

  /** No two bins could be one without breaking a limit or sharing a name. */
  lemma FirstFitIsMaximal(l: Limits, modules: seq<Module>, i: nat, j: nat)
    requires forall i :: 0 <= i < |modules| ==> FitsAlone(l, modules[i])
    requires i < j < |FirstFit(l, modules)|
    ensures !Packed(l, FirstFit(l, modules)[i] + FirstFit(l, modules)[j])
  {
    hide FitsAlone, FirstFit, Packed, Accepts;
    FirstFitPacks(l, modules);
    var a, b := FirstFit(l, modules)[i], FirstFit(l, modules)[j];
    assert !Accepts(l, a, b[0]);
    if Packed(l, a + b) { PackedTakesFirst(l, a, b); }
  }

  lemma PackedSwap(l: Limits, a: seq<Module>, b: seq<Module>)
    requires Packed(l, a + b)
    ensures Packed(l, b + a)
  {
    JoinTotals(a, b);
    JoinTotals(b, a);
    assert Closure(a) + Closure(b) == Closure(b) + Closure(a);
    var c, d := a + b, b + a;
    forall i, j | 0 <= i < j < |d| ensures d[i].names !! d[j].names {
      var p, q := if i < |b| then |a| + i else i - |b|, if j < |b| then |a| + j else j - |b|;
      assert d[i] == c[p] && d[j] == c[q];
    }
  }

  /** First fit only distributes the modules: nothing is lost, split or repeated. */
  lemma {:induction false} FirstFitPartitions(l: Limits, modules: seq<Module>)
    ensures multiset(Flatten(FirstFit(l, modules))) == multiset(modules)
  {
    hide Accepts, Place;
    if modules != [] {
      var before, m := FirstFit(l, Init(modules)), Last(modules);
      FirstFitPartitions(l, Init(modules));
      var k := PlaceIs(l, before, m);
      MultisetSnoc(modules);
      if k < |before| {
        FlattenReplace(before, k, before[k] + [m]);
        var all := multiset(Flatten(before));
        assert all + multiset(before[k] + [m]) == (all + multiset{m}) + multiset(before[k]);
        MultisetCancel(multiset(Flatten(before[k := before[k] + [m]])), all + multiset{m}, multiset(before[k]));
      } else {
        assert Init(before + [[m]]) == before;
      }
    }
  }

  // ---- which modules may be packed ----------------------------------------------------------

  predicate Eligible(e: Entry) {
    e.isUbt && e.hasMembers && e.moduleRoot != ""
  }

  /** All entries of one module among the first `n`: a module is packed whole or not at all. */
  function EntriesOf(entries: seq<Entry>, name: string, n: nat): seq<nat>
    requires n <= |entries|
  {
    if n == 0 then []
    else EntriesOf(entries, name, n - 1)
         + if Eligible(entries[n - 1]) && entries[n - 1].moduleRoot == name then [n - 1] else []
  }

  /** The modules in the order in which they first appear. */
  function ModuleNames(entries: seq<Entry>, n: nat): seq<string>
    requires n <= |entries|
  {
    if n == 0 then [] else
      var before := ModuleNames(entries, n - 1);
      if Eligible(entries[n - 1]) && entries[n - 1].moduleRoot !in before then before + [entries[n - 1].moduleRoot]
      else before
  }

  /** The infos of a module's entries, or the first error in reading them. */
  function ReadAll(entries: seq<Entry>, indexes: seq<nat>): (r: Result<seq<Info>>)
    requires forall i :: i in indexes ==> i < |entries|
    ensures r.Ok? ==> |r.value| == |indexes|
  {
    if indexes == [] then Ok([]) else
      assert forall i :: i in Init(indexes) ==> i in indexes;
      var before :- ReadAll(entries, Init(indexes));
      assert Last(indexes) in indexes;
      var last :- entries[Last(indexes)].info;
      Ok(before + [last])
  }

  function SumSizes(infos: seq<Info>): nat {
    if infos == [] then 0 else SumSizes(Init(infos)) + Last(infos).size
  }

  function AllNames(infos: seq<Info>): set<string> {
    if infos == [] then {} else AllNames(Init(infos)) + Last(infos).names
  }

  lemma {:induction false} EntriesOfAre(entries: seq<Entry>, name: string, n: nat, i: nat)
    requires n <= |entries|
    ensures i in EntriesOf(entries, name, n) <==> i < n && Eligible(entries[i]) && entries[i].moduleRoot == name
  {
    if n > 0 { EntriesOfAre(entries, name, n - 1, i); }
  }

  function InRange(entries: seq<Entry>, name: string): (r: seq<nat>)
    ensures r == EntriesOf(entries, name, |entries|)
    ensures forall i :: i in r ==> i < |entries|
  {
    assert forall i :: i in EntriesOf(entries, name, |entries|) ==> i < |entries| by {
      forall i | i in EntriesOf(entries, name, |entries|) ensures i < |entries| {
        EntriesOfAre(entries, name, |entries|, i);
      }
    }
    EntriesOf(entries, name, |entries|)
  }

  predicate SameContext(entries: seq<Entry>, indexes: seq<nat>)
    requires forall i :: i in indexes ==> i < |entries|
  {
    forall i, j :: i in indexes && j in indexes ==> entries[i].context == entries[j].context
  }

  /** A module may be packed when all of it compiles, reads, shares one context, and fits on its own. */
  function Admit(l: Limits, known: Known, entries: seq<Entry>, name: string): Result<Module> {
    var indexes := InRange(entries, name);
    if name in known.compileFailed then Err("whole-module-compile-failed") else
      var infos :- ReadAll(entries, indexes);
      if indexes == [] || !SameContext(entries, indexes) then
        Err("module has multiple compiler contexts")
      else if exists k :: 0 <= k < |infos| && infos[k].key != infos[0].key then
        Err("module has incompatible Tier 2 contexts")
      else
        var closure := if name in known.closures then known.closures[name] else {};
        var m := Module(name, infos[0].key, indexes, SumSizes(infos), closure, AllNames(infos));
        if FitsAlone(l, m) then Ok(m) else Err("whole module exceeds Tier 2 budget")
  }

  lemma AdmitIs(l: Limits, known: Known, entries: seq<Entry>, name: string)
    requires Admit(l, known, entries, name).Ok?
    ensures var m := Admit(l, known, entries, name).value;
            m.name == name && m.indexes == EntriesOf(entries, name, |entries|) && m.indexes != [] && FitsAlone(l, m)
  {
    hide FitsAlone;
  }

  /** The admitted modules, in order of first appearance. */
  function Admitted(l: Limits, known: Known, entries: seq<Entry>, names: seq<string>): seq<Module> {
    if names == [] then [] else
      Admitted(l, known, entries, Init(names))
      + match Admit(l, known, entries, Last(names)) case Ok(m) => [m] case Err(_) => []
  }

  function Modules(l: Limits, known: Known, entries: seq<Entry>): seq<Module> {
    Admitted(l, known, entries, ModuleNames(entries, |entries|))
  }

  function OfKey(modules: seq<Module>, key: string): seq<Module> {
    if modules == [] then [] else OfKey(Init(modules), key) + if Last(modules).key == key then [Last(modules)] else []
  }

  lemma {:induction false} NamesAre(entries: seq<Entry>, n: nat)
    requires n <= |entries|
    ensures Distinct(ModuleNames(entries, n))
    ensures forall i :: 0 <= i < n && Eligible(entries[i]) ==> entries[i].moduleRoot in ModuleNames(entries, n)
  {
    if n > 0 { NamesAre(entries, n - 1); }
  }

  /** Every admitted module is complete and fits on its own; no two have the same name. */
  lemma {:induction false} AdmittedAre(l: Limits, known: Known, entries: seq<Entry>, names: seq<string>)
    requires Distinct(names)
    ensures forall k :: 0 <= k < |Admitted(l, known, entries, names)| ==>
              var m := Admitted(l, known, entries, names)[k];
              m.name in names && Admit(l, known, entries, m.name) == Ok(m)
    ensures forall i, j :: 0 <= i < j < |Admitted(l, known, entries, names)| ==>
              Admitted(l, known, entries, names)[i].name != Admitted(l, known, entries, names)[j].name
  {
    hide Admit;
    if names != [] {
      AdmittedAre(l, known, entries, Init(names));
      if Admit(l, known, entries, Last(names)).Ok? { AdmitIs(l, known, entries, Last(names)); }
    }
  }

  lemma {:induction false} OfKeyAre(modules: seq<Module>, key: string, m: Module)
    ensures m in OfKey(modules, key) <==> m in modules && m.key == key
  {
    if modules != [] {
      OfKeyAre(Init(modules), key, m);
      assert m in modules <==> m in Init(modules) || m == Last(modules);
    }
  }

  predicate NamedApart(modules: seq<Module>) {
    forall i, j :: 0 <= i < j < |modules| ==> modules[i].name != modules[j].name
  }

  lemma {:induction false} OfKeyApart(modules: seq<Module>, key: string)
    requires NamedApart(modules)
    ensures NamedApart(OfKey(modules, key)) && Distinct(OfKey(modules, key))
  {
    if modules != [] {
      OfKeyApart(Init(modules), key);
      var before := OfKey(Init(modules), key);
      forall i | 0 <= i < |before| ensures before[i].name != Last(modules).name {
        OfKeyAre(Init(modules), key, before[i]);
        var k :| 0 <= k < |Init(modules)| && Init(modules)[k] == before[i];
        assert modules[k] == before[i];
      }
    }
  }

  // ---- the plan -----------------------------------------------------------------------------

  /** A bin of at least two modules of one compatibility key, as first fit leaves it. */
  predicate PlannedBin(l: Limits, modules: seq<Module>, bin: seq<Module>) {
    |bin| > 1 && bin in FirstFit(l, OfKey(modules, bin[0].key))
  }

  ghost predicate IsPlanned(l: Limits, modules: seq<Module>, chunk: seq<nat>) {
    exists bin :: PlannedBin(l, modules, bin) && chunk == SortIndexes(Indexes(bin))
  }

  /** The plan: the sorted indexes of exactly those bins, in the order of their first entry. */
  ghost predicate IsPlan(l: Limits, known: Known, entries: seq<Entry>, chunks: seq<seq<nat>>) {
    SortedByFirst(chunks) && forall c :: c in chunks <==> IsPlanned(l, Modules(l, known, entries), c)
  }

  lemma ModulesAre(l: Limits, known: Known, entries: seq<Entry>)
    ensures var modules := Modules(l, known, entries);
            && NamedApart(modules)
            && forall k :: 0 <= k < |modules| ==> Admit(l, known, entries, modules[k].name) == Ok(modules[k])
  {
    hide Admit;
    NamesAre(entries, |entries|);
    AdmittedAre(l, known, entries, ModuleNames(entries, |entries|));
  }

  predicate AllFit(l: Limits, modules: seq<Module>) {
    forall i :: 0 <= i < |modules| ==> FitsAlone(l, modules[i])
  }

  lemma KeyModulesFit(l: Limits, known: Known, entries: seq<Entry>, key: string)
    ensures AllFit(l, OfKey(Modules(l, known, entries), key))
  {
    hide Modules, Admit, FitsAlone;
    var modules := Modules(l, known, entries);
    ModulesAre(l, known, entries);
    var mine := OfKey(modules, key);
    forall i | 0 <= i < |mine| ensures FitsAlone(l, mine[i]) {
      OfKeyAre(modules, key, mine[i]);
      var k :| 0 <= k < |modules| && modules[k] == mine[i];
      AdmitIs(l, known, entries, modules[k].name);
    }
  }

  /** What a planned bin is: complete admitted modules of one key, within the limits, sharing no name. */
  lemma PlannedBinIs(l: Limits, known: Known, entries: seq<Entry>, bin: seq<Module>, k: nat)
    requires PlannedBin(l, Modules(l, known, entries), bin) && k < |bin|
    ensures Packed(l, bin) && bin[k].key == bin[0].key
    ensures bin[k].indexes == EntriesOf(entries, bin[k].name, |entries|) && bin[k].indexes != []
  {
    hide Modules, Admit, FitsAlone, FirstFit, Packed;
    var modules := Modules(l, known, entries);
    var mine := OfKey(modules, bin[0].key);
    KeyModulesFit(l, known, entries, bin[0].key);
    FirstFitPacks(l, mine);
    FirstFitPartitions(l, mine);
    FlattenMember(FirstFit(l, mine), bin[k]);
    assert bin[k] in multiset(Flatten(FirstFit(l, mine)));
    OfKeyAre(modules, bin[0].key, bin[k]);
    ModulesAre(l, known, entries);
    AdmitIs(l, known, entries, bin[k].name);
  }

  lemma {:induction false} IndexesFrom(bin: seq<Module>, i: nat)
    ensures i in Indexes(bin) <==> exists k :: 0 <= k < |bin| && i in bin[k].indexes
  {
    if bin != [] {
      IndexesFrom(Init(bin), i);
      assert forall k :: 0 <= k < |bin| - 1 ==> Init(bin)[k] == bin[k];
      assert Last(bin) == bin[|bin| - 1];
    }
  }

  /** Every index of a chunk belongs to a module of its bin, and with it all entries of that module. */
  lemma ChunkIsWholeModules(l: Limits, known: Known, entries: seq<Entry>, bin: seq<Module>, i: nat)
    requires PlannedBin(l, Modules(l, known, entries), bin)
    ensures i in SortIndexes(Indexes(bin)) <==>
              i < |entries| && Eligible(entries[i]) && exists k :: 0 <= k < |bin| && bin[k].name == entries[i].moduleRoot
  {
    hide Modules, PlannedBin;
    SortIndexesSorts(Indexes(bin));
    assert i in SortIndexes(Indexes(bin)) <==> i in multiset(Indexes(bin));
    IndexesFrom(bin, i);
    forall k | 0 <= k < |bin|
      ensures i in bin[k].indexes <==> i < |entries| && Eligible(entries[i]) && entries[i].moduleRoot == bin[k].name
    {
      PlannedBinIs(l, known, entries, bin, k);
      EntriesOfAre(entries, bin[k].name, |entries|, i);
    }
  }

  /** Two planned bins that hold modules of the same name are the same bin. */
  lemma SharedModule(l: Limits, known: Known, entries: seq<Entry>, a: seq<Module>, b: seq<Module>, j: nat, k: nat)
    requires PlannedBin(l, Modules(l, known, entries), a) && PlannedBin(l, Modules(l, known, entries), b)
    requires j < |a| && k < |b| && a[j].name == b[k].name
    ensures a == b
  {
    hide Modules, Admit, FitsAlone, FirstFit, Packed;
    var modules := Modules(l, known, entries);
    ModulesAre(l, known, entries);
    BinModule(l, known, entries, a, j);
    BinModule(l, known, entries, b, k);
    var x := a[j];
    var mine := OfKey(modules, x.key);
    OfKeyApart(modules, x.key);
    FirstFitPartitions(l, mine);
    DistinctPermutes(Flatten(FirstFit(l, mine)), mine);
    var p :| 0 <= p < |FirstFit(l, mine)| && FirstFit(l, mine)[p] == a;
    var q :| 0 <= q < |FirstFit(l, mine)| && FirstFit(l, mine)[q] == b;
    if p < q { DistinctParts(FirstFit(l, mine), p, q, x); }
    if q < p { DistinctParts(FirstFit(l, mine), q, p, x); }
  }

  lemma BinModule(l: Limits, known: Known, entries: seq<Entry>, bin: seq<Module>, k: nat)
    requires PlannedBin(l, Modules(l, known, entries), bin) && k < |bin|
    ensures bin[k] in Modules(l, known, entries) && bin[k].key == bin[0].key
    ensures Admit(l, known, entries, bin[k].name) == Ok(bin[k])
  {
    hide Modules, Admit, FirstFit;
    var modules := Modules(l, known, entries);
    var mine := OfKey(modules, bin[0].key);
    FirstFitPartitions(l, mine);
    FlattenMember(FirstFit(l, mine), bin[k]);
    assert bin[k] in multiset(Flatten(FirstFit(l, mine)));
    OfKeyAre(modules, bin[0].key, bin[k]);
    ModulesAre(l, known, entries);
  }

  /** No entry is in two chunks of the plan. */
  lemma ChunksDisjoint(l: Limits, known: Known, entries: seq<Entry>, a: seq<Module>, b: seq<Module>, i: nat)
    requires PlannedBin(l, Modules(l, known, entries), a) && PlannedBin(l, Modules(l, known, entries), b)
    requires i in SortIndexes(Indexes(a)) && i in SortIndexes(Indexes(b))
    ensures a == b
  {
    hide Modules, PlannedBin;
    ChunkIsWholeModules(l, known, entries, a, i);
    ChunkIsWholeModules(l, known, entries, b, i);
    var j :| 0 <= j < |a| && a[j].name == entries[i].moduleRoot;
    var k :| 0 <= k < |b| && b[k].name == entries[i].moduleRoot;
    SharedModule(l, known, entries, a, b, j, k);
  }

  /** No two planned bins of one key could be one. */
  lemma PlanIsMaximal(l: Limits, known: Known, entries: seq<Entry>, a: seq<Module>, b: seq<Module>)
    requires PlannedBin(l, Modules(l, known, entries), a) && PlannedBin(l, Modules(l, known, entries), b)
    requires a != b && a[0].key == b[0].key
    ensures !Packed(l, a + b)
  {
    hide Modules, FirstFit, Packed;
    var mine := OfKey(Modules(l, known, entries), a[0].key);
    KeyModulesFit(l, known, entries, a[0].key);
    var p :| 0 <= p < |FirstFit(l, mine)| && FirstFit(l, mine)[p] == a;
    var q :| 0 <= q < |FirstFit(l, mine)| && FirstFit(l, mine)[q] == b;
    if p < q {
      FirstFitIsMaximal(l, mine, p, q);
    } else {
      FirstFitIsMaximal(l, mine, q, p);
      if Packed(l, a + b) { PackedSwap(l, a, b); }
    }
  }
}
