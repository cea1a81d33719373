/** `build_candidates`: which originals are merged, in what order, and which commands stay as they are. */
module OrderedUnity {
  import opened Prelude
  import opened MacroScope
  import Greedy = GreedyDivision

  /** A member source of an original; `key` is its normalised path. */
  datatype Member = Member(key: string, absolute: bool, generated: bool)

  datatype Parsed = Parsed(common: seq<string>, search: seq<seq<string>>, definitions: seq<string>)

  /** A compile command with what reading it gives; `path` is its absolute source path, and `available` says that the
      directory is absolute and the file exists. */
  datatype Entry = Entry(key: string, path: string, directory: string, available: bool, parsed: Result<Parsed>)

  /** The input: entries, the members of each original by key, and what reading a Definitions header gives. */
  datatype Input = Input(entries: seq<Entry>, mapped: map<string, seq<Member>>, headers: string -> Result<Summary>,
                         isApi: string -> bool)

  datatype Bounds = Bounds(originals: nat, sources: nat)

  datatype Context = Context(generated: bool, directory: string, common: seq<string>, semantic: Summary)

  datatype Item = Item(index: nat, original: Original, members: seq<Member>, search: seq<seq<string>>,
                       state: Summary, context: Context)

  // ---- admitting originals --------------------------------------------------------------------

  function KeysUpTo(input: Input, n: nat): (r: seq<string>)
    requires n <= |input.entries|
  {
    if n == 0 then [] else KeysUpTo(input, n - 1) + [input.entries[n - 1].key]
  }

  function MembersOf(input: Input, key: string): seq<Member> {
    if key in input.mapped then input.mapped[key] else []
  }

  function MemberKeys(members: seq<Member>): (r: seq<string>)
    ensures |r| == |members|
  {
    seq(|members|, k requires 0 <= k < |members| => members[k].key)
  }

  /** The member keys of all entries, each as often as it is listed. */
  function MembersUpTo(input: Input, n: nat): seq<string>
    requires n <= |input.entries|
  {
    if n == 0 then []
    else MembersUpTo(input, n - 1) + MemberKeys(MembersOf(input, input.entries[n - 1].key))
  }

  predicate Unambiguous(input: Input, key: string) {
    var members := MembersOf(input, key);
    && members != [] && multiset(KeysUpTo(input, |input.entries|))[key] == 1
    && forall m :: m in members ==> multiset(MembersUpTo(input, |input.entries|))[m.key] == 1
  }

  /** An empty object-like API macro may differ between originals; everything else is part of the context. */
  predicate MayVary(isApi: string -> bool, name: string, value: Option<Macro>) {
    isApi(name) && value == Some(Macro(false, ""))
  }

  function Semantic(isApi: string -> bool, state: Summary): Summary {
    map name | name in state && !MayVary(isApi, name, state[name]) :: state[name]
  }

  function Generated(members: seq<Member>): (r: nat)
    ensures r <= |members|
  {
    if members == [] then 0 else Generated(Init(members)) + if Last(members).generated then 1 else 0
  }

  function Slashes(path: string): (r: string)
    ensures |r| == |path|
  {
    seq(|path|, k requires 0 <= k < |path| => if path[k] == '\\' then '/' else path[k])
  }

  /** `_include_path`: the path as it stands in an include directive, unless it cannot stand there. */
  function IncludePath(path: string): (r: Result<string>)
    ensures r.Ok? <==> forall c :: c in path ==> c !in {'"', '\r', '\n', '\0'}
    ensures r.Ok? ==> |r.value| == |path| && '\\' !in r.value
                      && forall k :: 0 <= k < |path| && path[k] != '\\' ==> r.value[k] == path[k]
  {
    if exists c :: c in path && c in {'"', '\r', '\n', '\0'} then Err("unsupported include path")
    else Ok(Slashes(path))
  }

  /** What the loop decides about entry `k`: an item, or the reason why its command is retained. */
  function Admit(input: Input, bounds: Bounds, k: nat): (r: Result<Item>)
    requires k < |input.entries| && input.entries[k].key in input.mapped
    ensures r.Ok? ==> r.value.index == k && r.value.members == MembersOf(input, input.entries[k].key)
                      && |r.value.members| <= bounds.sources && Unambiguous(input, input.entries[k].key)
    ensures r.Ok? ==> IncludePath(input.entries[k].path) == Ok(r.value.original.source)
                      && States(input.headers, r.value.original.definitions) == Ok(r.value.state)
                      && r.value.context.semantic == Semantic(input.isApi, r.value.state)
  {
    var e := input.entries[k];
    var members := input.mapped[e.key];
    if !Unambiguous(input, e.key) then Err("ambiguous or overlapping original membership")
    else if !e.available then Err("original compiler directory or Unity file is unavailable")
    else if exists m :: m in members && !m.absolute then Err("member paths must be absolute")
    else if |members| > bounds.sources then Err("original Unity exceeds member source budget")
    else
      var parsed :- e.parsed;
      var state :- States(input.headers, parsed.definitions);
      var generated := Generated(members);
      if 0 < generated < |members| then Err("mixed generated/implementation original retained") else
      var source :- IncludePath(e.path);
      var context := Context(generated > 0, e.directory, parsed.common, Semantic(input.isApi, state));
      Ok(Item(k, Original(source, parsed.definitions), members, parsed.search, state, context))
  }

  predicate Admits(input: Input, bounds: Bounds, k: nat) {
    k < |input.entries| && input.entries[k].key in input.mapped && Admit(input, bounds, k).Ok?
  }

  function Admitted(input: Input, bounds: Bounds, n: nat): (r: seq<Item>)
    requires n <= |input.entries|
    ensures forall x :: x in r ==> x.index < n && Admits(input, bounds, x.index) && Admit(input, bounds, x.index).value == x
  {
    if n == 0 then []
    else Admitted(input, bounds, n - 1) + if Admits(input, bounds, n - 1) then [Admit(input, bounds, n - 1).value] else []
  }

  lemma {:induction false} AdmittedAll(input: Input, bounds: Bounds, n: nat, k: nat)
    requires n <= |input.entries| && k < n && Admits(input, bounds, k)
    ensures Admit(input, bounds, k).value in Admitted(input, bounds, n)
  {
    hide Admit, Admits;
    if k < n - 1 { AdmittedAll(input, bounds, n - 1, k); }
  }

  lemma {:induction false} AdmittedDistinct(input: Input, bounds: Bounds, n: nat)
    requires n <= |input.entries|
    ensures Distinct(Admitted(input, bounds, n))
  {
    hide Admit;
    if n > 0 {
      AdmittedDistinct(input, bounds, n - 1);
      if Admits(input, bounds, n - 1) {
        DistinctSnoc(Admitted(input, bounds, n - 1), Admit(input, bounds, n - 1).value);
      } else {
        assert Admitted(input, bounds, n) == Admitted(input, bounds, n - 1);
      }
    }
  }

  // ---- chunks of one context ------------------------------------------------------------------

  function Total(items: seq<Item>): nat {
    if items == [] then 0 else Total(Init(items)) + |Last(items).members|
  }

  predicate Within(bounds: Bounds, items: seq<Item>) {
    |items| <= bounds.originals && Total(items) <= bounds.sources
  }

  function Extend(bounds: Bounds, runs: seq<seq<Item>>, x: Item): seq<seq<Item>> {
    if runs != [] && Within(bounds, Last(runs) + [x]) then Init(runs) + [Last(runs) + [x]] else runs + [[x]]
  }

  /** The greedy division of one group into consecutive runs. */
  function Runs(bounds: Bounds, items: seq<Item>): seq<seq<Item>> {
    if items == [] then [] else Extend(bounds, Runs(bounds, Init(items)), Last(items))
  }

  predicate Full(bounds: Bounds, run: seq<Item>, next: seq<Item>) {
    next != [] && !Within(bounds, run + [next[0]])
  }

  /** No run could have taken in the first item of the next one. */
  ghost predicate Apart(bounds: Bounds, runs: seq<seq<Item>>) {
    forall i, j :: 0 <= i < j < |runs| && j == i + 1 ==> Full(bounds, runs[i], runs[j])
  }

  ghost predicate RunsAre(bounds: Bounds, items: seq<Item>, runs: seq<seq<Item>>) {
    && Flatten(runs) == items
    && (forall r :: r in runs ==> r != [] && Within(bounds, r))
    && Apart(bounds, runs)
  }

  lemma ExtendKeeps(bounds: Bounds, items: seq<Item>, runs: seq<seq<Item>>, x: Item)
    requires bounds.originals >= 1 && |x.members| <= bounds.sources && RunsAre(bounds, items, runs)
    ensures RunsAre(bounds, items + [x], Extend(bounds, runs, x))
  {
    hide Within, Apart;
    OneFits(bounds, x);
    ExtendKeepsApart(bounds, runs, x);
    if runs != [] && Within(bounds, Last(runs) + [x]) {
      FlattenSnoc(Init(runs), Last(runs) + [x]);
      assert forall r :: r in Init(runs) ==> r in runs;
      assert Flatten(Extend(bounds, runs, x)) == items + [x];
    } else {
      FlattenSnoc(runs, [x]);
    }
  }

  lemma ExtendKeepsApart(bounds: Bounds, runs: seq<seq<Item>>, x: Item)
    requires Apart(bounds, runs) && forall r :: r in runs ==> r != []
    ensures Apart(bounds, Extend(bounds, runs, x))
  {
    hide Within;
    var after := Extend(bounds, runs, x);
    forall i, j | 0 <= i < j < |after| && j == i + 1 ensures Full(bounds, after[i], after[j]) {
      if j < |runs| {
        assert Full(bounds, runs[i], runs[j]) && after[i] == runs[i] && after[j][0] == runs[j][0];
      }
    }
  }

  lemma OneFits(bounds: Bounds, x: Item)
    requires bounds.originals >= 1 && |x.members| <= bounds.sources
    ensures Within(bounds, [x])
  {
    assert Init([x]) == [];
  }

  lemma {:induction false} RunsFit(bounds: Bounds, items: seq<Item>)
    requires bounds.originals >= 1 && forall x :: x in items ==> |x.members| <= bounds.sources
    ensures RunsAre(bounds, items, Runs(bounds, items))
  {
    hide RunsAre;
    if items == [] {
      assert RunsAre(bounds, [], []) by { NoRuns(bounds); }
    } else {
      RunsFit(bounds, Init(items));
      ExtendKeeps(bounds, Init(items), Runs(bounds, Init(items)), Last(items));
      assert Init(items) + [Last(items)] == items;
    }
  }

  lemma NoRuns(bounds: Bounds)
    ensures RunsAre(bounds, [], [])
  {
  }

  // ---- no division has fewer runs ---------------------------------------------------------------

  /** A division of the group into consecutive nonempty runs within both bounds. */
  predicate Division(bounds: Bounds, items: seq<Item>, runs: seq<seq<Item>>) {
    Flatten(runs) == items && forall k :: 0 <= k < |runs| ==> runs[k] != [] && Within(bounds, runs[k])
  }

  function Fits(bounds: Bounds): seq<Item> -> bool {
    (run: seq<Item>) => Within(bounds, run)
  }

  lemma {:induction false} TotalJoin(a: seq<Item>, b: seq<Item>)
    ensures Total(a + b) == Total(a) + Total(b)
  {
    if b == [] {
      assert a + b == a;
    } else {
      TotalJoin(a, Init(b));
      assert Init(a + b) == a + Init(b);
    }
  }

  lemma WithinIsClosed(bounds: Bounds)
    ensures Greedy.Closed(Fits(bounds))
  {
    hide Total;
    forall s: seq<Item>, k: nat | k <= |s| && Fits(bounds)(s) ensures Fits(bounds)(s[..k]) && Fits(bounds)(s[k..]) {
      TotalJoin(s[..k], s[k..]);
      assert s[..k] + s[k..] == s;
    }
  }

  lemma {:induction false} RunsAreGreedy(bounds: Bounds, items: seq<Item>)
    ensures Runs(bounds, items) == Greedy.Greedy(Fits(bounds), items)
  {
    hide Within;
    if items != [] { RunsAreGreedy(bounds, Init(items)); }
  }

  /** No division into consecutive runs within both bounds has fewer runs than the greedy one, which is one itself. */
  lemma RunsAreFewest(bounds: Bounds, items: seq<Item>, rival: seq<seq<Item>>)
    requires bounds.originals >= 1 && forall x :: x in items ==> |x.members| <= bounds.sources
    requires Division(bounds, items, rival)
    ensures Division(bounds, items, Runs(bounds, items)) && |Runs(bounds, items)| <= |rival|
  {
    hide Within, Apart, Greedy.Closed, Greedy.Greedy, Runs;
    RunsFit(bounds, items);
    WithinIsClosed(bounds);
    RunsAreGreedy(bounds, items);
    assert forall k :: 0 <= k < |Runs(bounds, items)| ==> Runs(bounds, items)[k] in Runs(bounds, items);
    Greedy.GreedyStaysAhead(Fits(bounds), items, rival);
  }

  // ---- groups ---------------------------------------------------------------------------------

  function Group(items: seq<Item>, c: Context): (r: seq<Item>)
    ensures forall x :: x in r <==> x in items && x.context == c
  {
    if items == [] then [] else
    assert items == Init(items) + [Last(items)];
    Group(Init(items), c) + if Last(items).context == c then [Last(items)] else []
  }

  function Contexts(items: seq<Item>): (r: seq<Context>)
    ensures Distinct(r) && forall x :: x in items ==> x.context in r
  {
    if items == [] then [] else
    assert items == Init(items) + [Last(items)];
    var before := Contexts(Init(items));
    if Last(items).context in before then before else before + [Last(items).context]
  }

  lemma {:induction false} GroupDistinct(items: seq<Item>, c: Context)
    requires Distinct(items)
    ensures Distinct(Group(items, c))
  {
    if items != [] {
      GroupDistinct(Init(items), c);
      assert items == Init(items) + [Last(items)];
      DistinctSnoc(Init(items), Last(items));
      DistinctSnoc(Group(Init(items), c), Last(items));
      if Last(items).context != c { assert Group(items, c) == Group(Init(items), c); }
    }
  }

  function AllRuns(bounds: Bounds, items: seq<Item>, contexts: seq<Context>): seq<seq<Item>> {
    if contexts == [] then []
    else AllRuns(bounds, items, Init(contexts)) + Runs(bounds, Group(items, Last(contexts)))
  }

  /** The runs of all groups hold each item once. */
  lemma {:induction false} AllRunsHold(bounds: Bounds, items: seq<Item>, contexts: seq<Context>)
    requires bounds.originals >= 1 && forall x :: x in items ==> |x.members| <= bounds.sources
    requires Distinct(items) && Distinct(contexts)
    ensures Distinct(Flatten(AllRuns(bounds, items, contexts)))
    ensures forall x :: x in Flatten(AllRuns(bounds, items, contexts)) <==> x in items && x.context in contexts
  {
    hide Group, Runs;
    if contexts != [] {
      var c, before := Last(contexts), AllRuns(bounds, items, Init(contexts));
      assert contexts == Init(contexts) + [c];
      DistinctSnoc(Init(contexts), c);
      AllRunsHold(bounds, items, Init(contexts));
      var group := Group(items, c);
      RunsFit(bounds, group);
      GroupDistinct(items, c);
      FlattenAppend(before, Runs(bounds, group));
      DistinctConcat(Flatten(before), group);
    }
  }

  /** Every run is a run of one group: nonempty, of one context, and within both bounds. */
  lemma {:induction false} AllRunsFit(bounds: Bounds, items: seq<Item>, contexts: seq<Context>, run: seq<Item>)
    requires bounds.originals >= 1 && forall x :: x in items ==> |x.members| <= bounds.sources
    requires run in AllRuns(bounds, items, contexts)
    ensures run != [] && Within(bounds, run) && forall x :: x in run ==> x in items && x.context == run[0].context
  {
    hide Group, Runs, Within;
    if run in AllRuns(bounds, items, Init(contexts)) {
      AllRunsFit(bounds, items, Init(contexts), run);
    } else {
      var group := Group(items, Last(contexts));
      RunsFit(bounds, group);
      forall x | x in run ensures x in group { FlattenMember(Runs(bounds, group), x); }
    }
  }

  // ---- the result -----------------------------------------------------------------------------

  function Long(runs: seq<seq<Item>>): (r: seq<seq<Item>>)
    ensures forall c :: c in r <==> c in runs && |c| != 1
  {
    if runs == [] then [] else
    assert runs == Init(runs) + [Last(runs)];
    Long(Init(runs)) + if |Last(runs)| == 1 then [] else [Last(runs)]
  }

  /** The candidates: runs of at least two originals, group by group in order of first appearance. */
  function Candidates(input: Input, bounds: Bounds): seq<seq<Item>> {
    var items := Admitted(input, bounds, |input.entries|);
    Long(AllRuns(bounds, items, Contexts(items)))
  }

  ghost predicate Merges(input: Input, bounds: Bounds, k: nat) {
    exists c, x :: c in Candidates(input, bounds) && x in c && x.index == k
  }

  lemma {:induction false} LongIsPart(runs: seq<seq<Item>>)
    ensures multiset(Flatten(Long(runs))) <= multiset(Flatten(runs))
  {
    if runs == [] {
      assert Flatten(runs) == [];
    } else {
      var part, all, last := Flatten(Long(Init(runs))), Flatten(Init(runs)), Last(runs);
      LongIsPart(Init(runs));
      LongSnoc(runs);
      PartGrows(part, all, last);
      assert part + [] == part;
    }
  }

  lemma LongSnoc(runs: seq<seq<Item>>)
    requires runs != []
    ensures Flatten(runs) == Flatten(Init(runs)) + Last(runs)
    ensures Flatten(Long(runs)) == Flatten(Long(Init(runs))) + if |Last(runs)| == 1 then [] else Last(runs)
  {
    FlattenSnoc(Long(Init(runs)), Last(runs));
    if |Last(runs)| == 1 { assert Long(runs) == Long(Init(runs)); }
  }

  lemma LongDistinct(runs: seq<seq<Item>>)
    requires Distinct(Flatten(runs))
    ensures Distinct(Flatten(Long(runs)))
  {
    hide Distinct, Flatten, Long;
    LongIsPart(runs);
    DistinctIsMultiset(Flatten(runs));
    DistinctIsMultiset(Flatten(Long(runs)));
  }

  /** A candidate is lawful: at least two originals of one context, within both bounds. */
  lemma CandidateIsLawful(input: Input, bounds: Bounds, c: seq<Item>)
    requires bounds.originals >= 1 && c in Candidates(input, bounds)
    ensures 2 <= |c| && Within(bounds, c)
    ensures forall x :: x in c ==> Admits(input, bounds, x.index) && Admit(input, bounds, x.index).value == x
                                   && x.context == c[0].context
  {
    hide Within, Admit, Admitted, Contexts, AllRuns;
    var items := Admitted(input, bounds, |input.entries|);
    ItemsFit(input, bounds);
    AllRunsFit(bounds, items, Contexts(items), c);
  }

  lemma ItemsFit(input: Input, bounds: Bounds)
    ensures forall x :: x in Admitted(input, bounds, |input.entries|) ==> |x.members| <= bounds.sources
  {
  }

  /** No original is merged twice, within a candidate or across candidates. */
  lemma NothingMergedTwice(input: Input, bounds: Bounds)
    requires bounds.originals >= 1
    ensures Distinct(Flatten(Candidates(input, bounds)))
  {
    hide Admitted, Contexts, AllRuns;
    var items := Admitted(input, bounds, |input.entries|);
    ItemsFit(input, bounds);
    AdmittedDistinct(input, bounds, |input.entries|);
    AllRunsHold(bounds, items, Contexts(items));
    LongDistinct(AllRuns(bounds, items, Contexts(items)));
  }

  /** An admitted original that no candidate merges was alone in its run. */
  lemma OnlyLoneAreLeft(input: Input, bounds: Bounds, k: nat)
    requires bounds.originals >= 1 && Admits(input, bounds, k)
    ensures var items := Admitted(input, bounds, |input.entries|);
            Merges(input, bounds, k) <==> [Admit(input, bounds, k).value] !in AllRuns(bounds, items, Contexts(items))
  {
    hide Admit, Admitted, Contexts, AllRuns;
    var items, x := Admitted(input, bounds, |input.entries|), Admit(input, bounds, k).value;
    var runs := AllRuns(bounds, items, Contexts(items));
    AdmittedAll(input, bounds, |input.entries|, k);
    AdmittedDistinct(input, bounds, |input.entries|);
    ItemsFit(input, bounds);
    AllRunsHold(bounds, items, Contexts(items));
    FlattenMember(runs, x);
    var i :| 0 <= i < |runs| && x in runs[i];
    forall j | 0 <= j < |runs| && j != i ensures x !in runs[j] { InOneRun(runs, i, j, x); }
    if |runs[i]| != 1 {
      assert runs[i] in Long(runs) && x.index == k;
      forall j | 0 <= j < |runs| ensures runs[j] != [x] {
        if i != j { assert x in [x]; }
      }
    } else {
      assert runs[i] == [x];
      forall c, y | c in Candidates(input, bounds) && y in c ensures y.index != k { LoneIsNotMerged(input, bounds, runs, i, c, y, k); }
    }
  }

  lemma LoneIsNotMerged(input: Input, bounds: Bounds, runs: seq<seq<Item>>, i: nat, c: seq<Item>, y: Item, k: nat)
    requires bounds.originals >= 1 && Admits(input, bounds, k) && c in Candidates(input, bounds) && y in c
    requires var items := Admitted(input, bounds, |input.entries|); runs == AllRuns(bounds, items, Contexts(items))
    requires i < |runs| && runs[i] == [Admit(input, bounds, k).value]
    requires forall j :: 0 <= j < |runs| && j != i ==> Admit(input, bounds, k).value !in runs[j]
    ensures y.index != k
  {
    hide Admit, Admitted, Contexts, AllRuns, Within;
    CandidateIsLawful(input, bounds, c);
    var j :| 0 <= j < |runs| && runs[j] == c;
  }

  lemma InOneRun(runs: seq<seq<Item>>, i: nat, j: nat, x: Item)
    requires Distinct(Flatten(runs)) && i < |runs| && j < |runs| && i != j && x in runs[i]
    ensures x !in runs[j]
  {
    if i < j {
      DistinctParts(runs, i, j, x);
    } else if x in runs[j] {
      DistinctParts(runs, j, i, x);
    }
  }
}
