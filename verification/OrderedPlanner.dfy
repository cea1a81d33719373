/** The loops of `build_candidates`, and what its candidates mean to the compiler. */
module OrderedPlanner {
  import opened Prelude
  import opened MacroScope
  import opened OrderedUnity
  import Command = OrderedCommand

  // ---- what a candidate means -----------------------------------------------------------------

  function Originals(c: seq<Item>): (r: seq<Original>)
    ensures |r| == |c|
  {
    seq(|c|, k requires 0 <= k < |c| => c[k].original)
  }

  /** The names any Definitions header of the candidate defines or undefines, each once, in any order. */
  ghost predicate Touches(c: seq<Item>, touched: seq<string>) {
    Distinct(touched) && forall n :: n in touched <==> exists x :: x in c && n in x.state
  }

  /** The files are as they were read, and no source disturbs what was pushed before it. */
  ghost predicate Readable(input: Input, c: seq<Item>, files: Files) {
    forall x :: x in c ==>
      && x.original.source in files && files[x.original.source].Unit?
      && WellBehaved(files[x.original.source].source)
      && Accepted(files, input.headers, x.original.definitions)
  }

  lemma CandidateIsConsistent(input: Input, c: seq<Item>, files: Files, touched: seq<string>)
    requires Touches(c, touched) && Readable(input, c, files)
    ensures Consistent(files, input.headers, Originals(c), touched)
  {
    hide WellBehaved, Accepted;
    forall o | o in Originals(c)
      ensures o.source in files && files[o.source].Unit? && WellBehaved(files[o.source].source)
      ensures Accepted(files, input.headers, o.definitions)
    {
      var k :| 0 <= k < |c| && Originals(c)[k] == o;
      assert c[k] in c;
    }
  }

  /** Where the source of original `i` is included, every touched macro has the value that its own Definitions give it
      from the state before the wrapper; and after the wrapper that state is back. */
  lemma CandidateScopes(input: Input, bounds: Bounds, c: seq<Item>, files: Files, touched: seq<string>, s: State,
                        i: nat, name: string)
    requires bounds.originals >= 1 && c in Candidates(input, bounds) && i < |c|
    requires Touches(c, touched) && Readable(input, c, files) && name in touched
    ensures View(ExecAll(files, s, Before(Originals(c), touched, i)), name).value
            == Overlay(c[i].state, name, View(s, name).value)
    ensures View(ExecAll(files, s, Wrapper(Originals(c), touched)), name) == View(s, name)
  {
    hide View, ExecAll, Before, Wrapper, Consistent, Readable, Touches, Candidates, Admit, Admits;
    CandidateIsConsistent(input, c, files, touched);
    CandidateIsLawful(input, bounds, c);
    SourceSeesOwnDefinitions(files, input.headers, Originals(c), touched, s, i, name);
    WrapperRestores(files, input.headers, Originals(c), touched, s, name);
    StateOfItem(input, bounds, c[i]);
    ConsistentDistinct(files, input.headers, Originals(c), touched);
  }

  lemma ConsistentDistinct(files: Files, headers: string -> Result<Summary>, originals: seq<Original>, touched: seq<string>)
    requires Consistent(files, headers, originals, touched)
    ensures Distinct(touched)
  {
  }

  lemma StateOfItem(input: Input, bounds: Bounds, x: Item)
    requires Admits(input, bounds, x.index) && Admit(input, bounds, x.index).value == x
    ensures States(input.headers, x.original.definitions) == Ok(x.state)
    ensures x.context.semantic == Semantic(input.isApi, x.state) && |x.members| <= bounds.sources
    ensures x.members == MembersOf(input, input.entries[x.index].key) && Unambiguous(input, input.entries[x.index].key)
  {
  }

  function At(state: Summary, name: string): Option<Option<Macro>> {
    if name in state then Some(state[name]) else None
  }

  /** Two merged originals differ at a macro only when it is an API macro that each leaves alone or defines as empty. */
  lemma SharedContext(input: Input, bounds: Bounds, c: seq<Item>, x: Item, y: Item, name: string)
    requires bounds.originals >= 1 && c in Candidates(input, bounds) && x in c && y in c
    requires At(x.state, name) != At(y.state, name)
    ensures input.isApi(name)
    ensures At(x.state, name) in {None, Some(Some(Macro(false, "")))} && At(y.state, name) in {None, Some(Some(Macro(false, "")))}
  {
    hide Candidates, Admit, Admits, Unambiguous;
    CandidateIsLawful(input, bounds, c);
    StateOfItem(input, bounds, x);
    StateOfItem(input, bounds, y);
    assert Semantic(input.isApi, x.state) == Semantic(input.isApi, y.state);
    assert name in Semantic(input.isApi, x.state) <==> name in x.state && !MayVary(input.isApi, name, x.state[name]);
    assert name in Semantic(input.isApi, y.state) <==> name in y.state && !MayVary(input.isApi, name, y.state[name]);
  }

  // ---- members --------------------------------------------------------------------------------

  lemma CountJoin<T>(a: seq<T>, b: seq<T>, x: T)
    ensures multiset(a + b)[x] == multiset(a)[x] + multiset(b)[x]
    ensures x in b ==> multiset(b)[x] >= 1
  {
  }

  lemma {:induction false} ListedOnce(input: Input, n: nat, a: nat, key: string)
    requires a < n <= |input.entries| && key in MemberKeys(MembersOf(input, input.entries[a].key))
    ensures multiset(MembersUpTo(input, n))[key] >= 1
  {
    hide MemberKeys, MembersOf;
    CountJoin(MembersUpTo(input, n - 1), MemberKeys(MembersOf(input, input.entries[n - 1].key)), key);
    if a < n - 1 { ListedOnce(input, n - 1, a, key); }
  }

  lemma {:induction false} ListedTwice(input: Input, n: nat, a: nat, b: nat, key: string)
    requires a < b < n <= |input.entries|
    requires key in MemberKeys(MembersOf(input, input.entries[a].key)) && key in MemberKeys(MembersOf(input, input.entries[b].key))
    ensures multiset(MembersUpTo(input, n))[key] >= 2
  {
    hide MemberKeys, MembersOf;
    CountJoin(MembersUpTo(input, n - 1), MemberKeys(MembersOf(input, input.entries[n - 1].key)), key);
    if b < n - 1 { ListedTwice(input, n - 1, a, b, key); } else { ListedOnce(input, n - 1, a, key); }
  }

  /** No source file is a member of two admitted originals, so no candidate compiles it twice. */
  lemma MembersApart(input: Input, bounds: Bounds, x: Item, y: Item, m: Member)
    requires x in Admitted(input, bounds, |input.entries|) && y in Admitted(input, bounds, |input.entries|)
    requires x.index != y.index && m in x.members
    ensures m.key !in MemberKeys(y.members)
  {
    hide Admit, Admits;
    StateOfItem(input, bounds, x);
    StateOfItem(input, bounds, y);
    var k :| 0 <= k < |x.members| && x.members[k] == m;
    assert MemberKeys(x.members)[k] == m.key;
    if m.key in MemberKeys(y.members) {
      if x.index < y.index {
        ListedTwice(input, |input.entries|, x.index, y.index, m.key);
      } else {
        ListedTwice(input, |input.entries|, y.index, x.index, m.key);
      }
    }
  }

  // ---- the loops ------------------------------------------------------------------------------

  /** The first loop over `membership`: two paths with one key are refused. */
  method MapMembership(listed: seq<(string, seq<Member>)>) returns (r: Result<map<string, seq<Member>>>)
    ensures r.Ok? <==> forall i, j :: 0 <= i < j < |listed| ==> listed[i].0 != listed[j].0
    ensures r.Ok? ==> forall k :: 0 <= k < |listed| ==> listed[k].0 in r.value && r.value[listed[k].0] == listed[k].1
    ensures r.Ok? ==> forall key :: key in r.value ==> exists k :: 0 <= k < |listed| && listed[k].0 == key
    ensures r.Err? ==> r == Err("ambiguous membership key")
  {
    var mapped := map[];
    for n := 0 to |listed|
      invariant forall i, j :: 0 <= i < j < n ==> listed[i].0 != listed[j].0
      invariant forall k :: 0 <= k < n ==> listed[k].0 in mapped && mapped[listed[k].0] == listed[k].1
      invariant forall key :: key in mapped ==> exists k :: 0 <= k < n && listed[k].0 == key
    {
      if listed[n].0 in mapped { return Err("ambiguous membership key"); }
      mapped := mapped[listed[n].0 := listed[n].1];
    }
    return Ok(mapped);
  }

  /** The commands that stay as they are, and those among them that are reported with a reason. */
  datatype Retained = Retained(indexes: set<nat>, rejections: seq<(nat, string)>)

  predicate Rejects(input: Input, bounds: Bounds, k: nat, reason: string) {
    k < |input.entries| && input.entries[k].key in input.mapped && Admit(input, bounds, k) == Err(reason)
  }

  ghost predicate RetainedUpTo(input: Input, bounds: Bounds, n: nat, r: Retained) {
    && n <= |input.entries|
    && (forall k: nat :: k in r.indexes <==> k < n && !Admits(input, bounds, k))
    && forall k: nat, reason :: (k, reason) in r.rejections <==> k < n && Rejects(input, bounds, k, reason)
  }

  ghost predicate Grouped(items: seq<Item>, contexts: seq<Context>, groups: map<Context, seq<Item>>) {
    && contexts == Contexts(items)
    && (forall c :: c in groups <==> c in contexts)
    && forall c :: c in contexts ==> groups[c] == Group(items, c)
  }

  lemma {:induction false} NoGroup(items: seq<Item>, c: Context)
    requires c !in Contexts(items)
    ensures Group(items, c) == []
  {
    if items != [] {
      assert items == Init(items) + [Last(items)];
      NoGroup(Init(items), c);
    }
  }

  lemma GroupSnoc(items: seq<Item>, x: Item, c: Context)
    ensures Group(items + [x], c) == Group(items, c) + if x.context == c then [x] else []
    ensures Contexts(items + [x]) == if x.context in Contexts(items) then Contexts(items) else Contexts(items) + [x.context]
  {
    assert Init(items + [x]) == items;
  }

  lemma GroupedNext(items: seq<Item>, contexts: seq<Context>, groups: map<Context, seq<Item>>, x: Item)
    requires Grouped(items, contexts, groups)
    ensures x.context in groups ==> Grouped(items + [x], contexts, groups[x.context := groups[x.context] + [x]])
    ensures x.context !in groups ==> Grouped(items + [x], contexts + [x.context], groups[x.context := [x]])
  {
    hide Group, Contexts;
    var contexts' := if x.context in groups then contexts else contexts + [x.context];
    var groups' := if x.context in groups then groups[x.context := groups[x.context] + [x]] else groups[x.context := [x]];
    GroupSnoc(items, x, x.context);
    if x.context !in groups { NoGroup(items, x.context); }
    forall c | c in contexts' ensures c in groups' && groups'[c] == Group(items + [x], c) {
      GroupSnoc(items, x, c);
      assert Group(items, c) + [] == Group(items, c);
    }
  }

  /** The main loop: an item joins the group of its context, every other command is retained. */
  method GroupEntries(input: Input, bounds: Bounds)
    returns (contexts: seq<Context>, groups: map<Context, seq<Item>>, retained: Retained)
    ensures Grouped(Admitted(input, bounds, |input.entries|), contexts, groups)
    ensures RetainedUpTo(input, bounds, |input.entries|, retained)
  {
    hide Admit, Grouped;
    contexts, groups, retained := [], map[], Retained({}, []);
    NothingGrouped();
    for k := 0 to |input.entries|
      invariant Grouped(Admitted(input, bounds, k), contexts, groups)
      invariant RetainedUpTo(input, bounds, k, retained)
    {
      ghost var items := Admitted(input, bounds, k);
      if input.entries[k].key !in input.mapped {
        assert Admitted(input, bounds, k + 1) == items;
        retained := retained.(indexes := retained.indexes + {k});
      } else {
        match Admit(input, bounds, k) {
          case Ok(x) =>
            assert Admitted(input, bounds, k + 1) == items + [x];
            GroupedNext(items, contexts, groups, x);
            if x.context in groups {
              groups := groups[x.context := groups[x.context] + [x]];
            } else {
              contexts, groups := contexts + [x.context], groups[x.context := [x]];
            }
          case Err(reason) =>
            assert Admitted(input, bounds, k + 1) == items;
            retained := Retained(retained.indexes + {k}, retained.rejections + [(k, reason)]);
        }
      }
    }
  }

  lemma NothingGrouped()
    ensures Grouped([], [], map[])
  {
  }

  /** What the packing loop holds: closed runs, and the run that is still open. */
  predicate Open(bounds: Bounds, items: seq<Item>, closed: seq<seq<Item>>, run: seq<Item>) {
    Runs(bounds, items) == (if run == [] then closed else closed + [run]) && (run == [] ==> items == [])
  }

  lemma OpenNext(bounds: Bounds, items: seq<Item>, closed: seq<seq<Item>>, run: seq<Item>, x: Item)
    requires Open(bounds, items, closed, run) && (items == [] ==> closed == [])
    ensures run != [] && !Within(bounds, run + [x]) ==> Open(bounds, items + [x], closed + [run], [x])
    ensures run != [] && Within(bounds, run + [x]) ==> Open(bounds, items + [x], closed, run + [x])
    ensures run == [] ==> Open(bounds, items + [x], closed, [x])
  {
    hide Within;
    assert Init(items + [x]) == items;
    if run != [] {
      assert Init(closed + [run]) == closed;
    }
  }

  method PackGroup(bounds: Bounds, group: seq<Item>) returns (chunks: seq<seq<Item>>)
    ensures chunks == Runs(bounds, group)
  {
    hide Open, Runs;
    var run, count := [], 0;
    chunks := [];
    assert Open(bounds, [], [], []) by { NothingOpen(bounds); }
    for k := 0 to |group|
      invariant Open(bounds, group[..k], chunks, run) && count == Total(run)
      invariant k == 0 ==> chunks == [] && run == []
      invariant k > 0 ==> run != []
    {
      var item := group[k];
      var size := |item.members|;
      OpenNext(bounds, group[..k], chunks, run, item);
      assert group[..k + 1] == group[..k] + [item];
      assert Init(run + [item]) == run && [] + [item] == [item] && Init([item]) == [];
      if run != [] && (|run| >= bounds.originals || count + size > bounds.sources) {
        chunks := chunks + [run];
        run, count := [], 0;
      }
      run, count := run + [item], count + size;
    }
    assert group[..|group|] == group;
    OpenCloses(bounds, group, chunks, run);
    if run != [] { chunks := chunks + [run]; }
  }

  lemma NothingOpen(bounds: Bounds)
    ensures Open(bounds, [], [], [])
  {
  }

  lemma OpenCloses(bounds: Bounds, items: seq<Item>, closed: seq<seq<Item>>, run: seq<Item>)
    requires Open(bounds, items, closed, run)
    ensures Runs(bounds, items) == if run == [] then closed else closed + [run]
  {
  }

  method PackGroups(bounds: Bounds, ghost items: seq<Item>, contexts: seq<Context>, groups: map<Context, seq<Item>>)
    returns (chunks: seq<seq<Item>>)
    requires Grouped(items, contexts, groups)
    ensures chunks == AllRuns(bounds, items, contexts)
  {
    hide Group, Contexts, Runs;
    chunks := [];
    for k := 0 to |contexts|
      invariant chunks == AllRuns(bounds, items, contexts[..k])
    {
      assert contexts[k] in contexts;
      var packed := PackGroup(bounds, groups[contexts[k]]);
      assert Init(contexts[..k + 1]) == contexts[..k];
      chunks := chunks + packed;
    }
    assert contexts[..|contexts|] == contexts;
  }

  /** One candidate: what it merges, the lines of its wrapper, its search options, and its compile command. */
  datatype Candidate = Candidate(items: seq<Item>, lines: seq<Line>, search: seq<seq<string>>, wrapper: string,
                                 directory: string, arguments: seq<string>)

  /** The path of a wrapper, named by a hash of what it merges. */
  type Placing = (seq<Item>, seq<Line>, seq<seq<string>>) -> string

  ghost predicate Realizes(place: Placing, c: Candidate) {
    && c.items != []
    && (exists touched :: Touches(c.items, touched) && c.lines == Wrapper(Originals(c.items), touched))
    && Distinct(c.search)
    && (forall o :: o in c.search <==> exists x :: x in c.items && o in x.search)
    && c.wrapper == place(c.items, c.lines, c.search)
    && c.directory == c.items[0].context.directory
    && c.arguments == Command.CandidateArguments(c.items[0].context.common, c.search, c.wrapper)
  }

  function ItemsOf(cs: seq<Candidate>): (r: seq<seq<Item>>)
    ensures |r| == |cs|
  {
    seq(|cs|, k requires 0 <= k < |cs| => cs[k].items)
  }

  function Built(place: Placing, items: seq<Item>, lines: seq<Line>, search: seq<seq<string>>): (c: Candidate)
    requires items != []
    ensures c.items == items
  {
    var wrapper := place(items, lines, search);
    Candidate(items, lines, search, wrapper, items[0].context.directory,
              Command.CandidateArguments(items[0].context.common, search, wrapper))
  }

  method TouchedNames(c: seq<Item>) returns (touched: seq<string>)
    ensures Touches(c, touched)
  {
    var names := {};
    for k := 0 to |c|
      invariant forall n :: n in names <==> exists i :: 0 <= i < k && n in c[i].state
    {
      names := names + c[k].state.Keys;
    }
    touched := [];
    ghost var all := names;
    while names != {}
      invariant names <= all && Distinct(touched)
      invariant forall n :: n in all <==> n in names || n in touched
      invariant forall n :: n in names ==> n !in touched
      decreases |names|
    {
      var n :| n in names;
      DistinctSnoc(touched, n);
      touched := touched + [n];
      names := names - {n};
    }
    forall n ensures n in touched <==> exists x :: x in c && n in x.state {
      if n in touched {
        var i :| 0 <= i < |c| && n in c[i].state;
        assert c[i] in c;
      }
    }
  }

  method UnionSearch(c: seq<Item>) returns (search: seq<seq<string>>)
    ensures Distinct(search) && forall o :: o in search <==> exists x :: x in c && o in x.search
  {
    search := [];
    for k := 0 to |c|
      invariant Distinct(search)
      invariant forall o :: o in search <==> exists i :: 0 <= i < k && o in c[i].search
    {
      for j := 0 to |c[k].search|
        invariant Distinct(search)
        invariant forall o :: o in search <==> (exists i :: 0 <= i < k && o in c[i].search) || o in c[k].search[..j]
      {
        var option := c[k].search[j];
        if option !in search {
          DistinctSnoc(search, option);
          search := search + [option];
        }
      }
      assert c[k].search[..|c[k].search|] == c[k].search;
    }
    forall o ensures o in search <==> exists x :: x in c && o in x.search {
      if o in search {
        var i :| 0 <= i < |c| && o in c[i].search;
        assert c[i] in c;
      }
    }
  }

  method WriteOriginal(o: Original, touched: seq<string>) returns (lines: seq<Line>)
    ensures lines == Prologue(o, touched) + Epilogue(o, touched)
  {
    lines := [Comment("// Original Unity: " + o.source)];
    ghost var start := lines;
    for j := 0 to |touched|
      invariant lines == start + Pushes(touched[..j])
    {
      assert Init(touched[..j + 1]) == touched[..j];
      lines := lines + [PushMacro(touched[j])];
    }
    assert touched[..|touched|] == touched;
    for j := 0 to |o.definitions|
      invariant lines == start + Pushes(touched) + Includes(o.definitions[..j])
    {
      assert Init(o.definitions[..j + 1]) == o.definitions[..j];
      lines := lines + [Include(o.definitions[j])];
    }
    assert o.definitions[..|o.definitions|] == o.definitions;
    lines := lines + [Include(o.source)];
    ghost var middle := lines;
    for j := |touched| downto 0
      invariant lines + Pops(touched[..j]) == middle + Pops(touched)
    {
      assert Init(touched[..j + 1]) == touched[..j];
      lines := lines + [PopMacro(touched[j])];
    }
    assert lines == middle + Pops(touched);
  }

  method WriteLines(c: seq<Item>, touched: seq<string>) returns (lines: seq<Line>)
    ensures lines == Wrapper(Originals(c), touched)
  {
    hide Prologue, Epilogue;
    lines := [HEADING];
    for k := 0 to |c|
      invariant lines == Wrapper(Originals(c[..k]), touched)
    {
      var section := WriteOriginal(c[k].original, touched);
      lines := lines + section;
      assert Originals(c[..k + 1]) == Originals(c[..k]) + [c[k].original];
      assert Init(Originals(c[..k + 1])) == Originals(c[..k]);
    }
    assert c[..|c|] == c;
  }

  // ---- putting the result together ------------------------------------------------------------

  lemma ContextsOfGroups(items: seq<Item>, contexts: seq<Context>, groups: map<Context, seq<Item>>)
    requires Grouped(items, contexts, groups)
    ensures contexts == Contexts(items)
  {
  }

  lemma NoneLong()
    ensures ItemsOf([]) == Long([])
  {
  }

  lemma LongNext(chunks: seq<seq<Item>>, k: nat)
    requires k < |chunks|
    ensures |chunks[k]| == 1 ==> Long(chunks[..k + 1]) == Long(chunks[..k])
    ensures |chunks[k]| != 1 ==> Long(chunks[..k + 1]) == Long(chunks[..k]) + [chunks[k]]
  {
    assert Init(chunks[..k + 1]) == chunks[..k];
  }

  /** One of the first chunks holds only entry `i`. */
  ghost predicate LoneIn(chunks: seq<seq<Item>>, k: nat, i: nat) {
    exists j :: 0 <= j < k && j < |chunks| && |chunks[j]| == 1 && chunks[j][0].index == i
  }

  lemma LoneNext(chunks: seq<seq<Item>>, k: nat)
    requires k < |chunks|
    ensures forall i :: LoneIn(chunks, k + 1, i) <==> LoneIn(chunks, k, i) || (|chunks[k]| == 1 && chunks[k][0].index == i)
  {
    forall i ensures LoneIn(chunks, k + 1, i) <==> LoneIn(chunks, k, i) || (|chunks[k]| == 1 && chunks[k][0].index == i) {
      if LoneIn(chunks, k + 1, i) {
        var j :| 0 <= j < k + 1 && |chunks[j]| == 1 && chunks[j][0].index == i;
        if j < k { assert LoneIn(chunks, k, i); }
      }
    }
  }

  lemma NoneLone(chunks: seq<seq<Item>>)
    ensures forall i :: !LoneIn(chunks, 0, i)
  {
  }

  lemma CandidateRealized(place: Placing, c: seq<Item>, touched: seq<string>, lines: seq<Line>, search: seq<seq<string>>)
    requires c != [] && Touches(c, touched) && lines == Wrapper(Originals(c), touched)
    requires Distinct(search) && forall o :: o in search <==> exists x :: x in c && o in x.search
    ensures Realizes(place, Built(place, c, lines, search))
  {
    hide Touches, Wrapper, Distinct, Command.CandidateArguments;
  }

  lemma ItemsOfNext(cs: seq<Candidate>, c: Candidate)
    ensures ItemsOf(cs + [c]) == ItemsOf(cs) + [c.items]
  {
  }

  lemma CandidatesAre(input: Input, bounds: Bounds, items: seq<Item>, chunks: seq<seq<Item>>)
    requires items == Admitted(input, bounds, |input.entries|) && chunks == AllRuns(bounds, items, Contexts(items))
    ensures Candidates(input, bounds) == Long(chunks)
  {
  }

  lemma LoneIsRun(input: Input, bounds: Bounds, chunks: seq<seq<Item>>, k: nat)
    requires bounds.originals >= 1
    requires chunks == AllRuns(bounds, Admitted(input, bounds, |input.entries|), Contexts(Admitted(input, bounds, |input.entries|)))
    ensures LoneIn(chunks, |chunks|, k) <==> Admits(input, bounds, k) && [Admit(input, bounds, k).value] in chunks
  {
    hide Admit, Contexts, AllRuns, Within;
    var items := Admitted(input, bounds, |input.entries|);
    if LoneIn(chunks, |chunks|, k) {
      var j :| 0 <= j < |chunks| && |chunks[j]| == 1 && chunks[j][0].index == k;
      ItemsFit(input, bounds);
      AllRunsFit(bounds, items, Contexts(items), chunks[j]);
      assert chunks[j] == [chunks[j][0]] && chunks[j][0] in chunks[j];
    }
  }

  /** A command is retained exactly when no candidate merges its entry. */
  lemma RetainedIs(input: Input, bounds: Bounds, chunks: seq<seq<Item>>, retained: Retained, k: nat)
    requires bounds.originals >= 1 && RetainedUpTo(input, bounds, |input.entries|, retained)
    requires chunks == AllRuns(bounds, Admitted(input, bounds, |input.entries|), Contexts(Admitted(input, bounds, |input.entries|)))
    ensures k in retained.indexes || LoneIn(chunks, |chunks|, k) <==> k < |input.entries| && !Merges(input, bounds, k)
  {
    hide Admit, Contexts, AllRuns, LoneIn, Candidates, Admitted, Within;
    LoneIsRun(input, bounds, chunks, k);
    if Admits(input, bounds, k) {
      OnlyLoneAreLeft(input, bounds, k);
    } else {
      forall c, x | c in Candidates(input, bounds) && x in c ensures x.index != k {
        CandidateIsLawful(input, bounds, c);
      }
    }
  }

  /** The last loop: chunks of one stay as they are, every other chunk becomes a candidate with its wrapper. */
  method WriteCandidates(place: Placing, chunks: seq<seq<Item>>, before: set<nat>)
    returns (candidates: seq<Candidate>, retained: set<nat>)
    requires [] !in chunks
    ensures ItemsOf(candidates) == Long(chunks)
    ensures forall c :: c in candidates ==> Realizes(place, c)
    ensures forall i :: i in retained <==> i in before || LoneIn(chunks, |chunks|, i)
  {
    hide *;
    candidates, retained := [], before;
    NoneLong();
    NoneLone(chunks);
    for k := 0 to |chunks|
      invariant ItemsOf(candidates) == Long(chunks[..k])
      invariant forall c :: c in candidates ==> Realizes(place, c)
      invariant forall i :: i in retained <==> i in before || LoneIn(chunks, k, i)
    {
      var c := chunks[k];
      LongNext(chunks, k);
      LoneNext(chunks, k);
      if |c| == 1 {
        retained := retained + {c[0].index};
      } else {
        var touched := TouchedNames(c);
        var search := UnionSearch(c);
        var lines := WriteLines(c, touched);
        assert c in chunks;
        CandidateRealized(place, c, touched, lines, search);
        ItemsOfNext(candidates, Built(place, c, lines, search));
        candidates := candidates + [Built(place, c, lines, search)];
      }
    }
    assert chunks[..|chunks|] == chunks;
  }

  datatype Outcome = Outcome(candidates: seq<Candidate>, retained: Retained)

  /** `build_candidates`: the greedy candidates with their wrappers, and every other command unchanged. */
  method BuildCandidates(input: Input, place: Placing, maxOriginals: int, maxSources: int) returns (r: Result<Outcome>)
    ensures r.Err? <==> maxOriginals < 2 || maxSources < 1
    ensures r.Ok? ==> var bounds := Bounds(maxOriginals, maxSources);
              && ItemsOf(r.value.candidates) == Candidates(input, bounds)
              && (forall c :: c in r.value.candidates ==> Realizes(place, c))
              && (forall k: nat :: k in r.value.retained.indexes <==> k < |input.entries| && !Merges(input, bounds, k))
              && forall k: nat, reason :: (k, reason) in r.value.retained.rejections <==> Rejects(input, bounds, k, reason)
  {
    hide *;
    if maxOriginals < 2 || maxSources < 1 {
      return Err("candidate budgets must allow at least two originals and one source");
    }
    var bounds := Bounds(maxOriginals, maxSources);
    var contexts, groups, retained := GroupEntries(input, bounds);
    ghost var items := Admitted(input, bounds, |input.entries|);
    ContextsOfGroups(items, contexts, groups);
    var chunks := PackGroups(bounds, items, contexts, groups);
    RunsAreNotEmpty(input, bounds, chunks);
    var candidates, kept := WriteCandidates(place, chunks, retained.indexes);
    CandidatesAre(input, bounds, items, chunks);
    forall k: nat ensures k in kept <==> k < |input.entries| && !Merges(input, bounds, k) {
      RetainedIs(input, bounds, chunks, retained, k);
    }
    RejectionsAre(input, bounds, retained);
    return Ok(Outcome(candidates, Retained(kept, retained.rejections)));
  }

  lemma RunsAreNotEmpty(input: Input, bounds: Bounds, chunks: seq<seq<Item>>)
    requires bounds.originals >= 1
    requires chunks == AllRuns(bounds, Admitted(input, bounds, |input.entries|), Contexts(Admitted(input, bounds, |input.entries|)))
    ensures [] !in chunks
  {
    hide Admit, Contexts, AllRuns, Within;
    var items := Admitted(input, bounds, |input.entries|);
    ItemsFit(input, bounds);
    if [] in chunks { AllRunsFit(bounds, items, Contexts(items), []); }
  }

  lemma RejectionsAre(input: Input, bounds: Bounds, retained: Retained)
    requires RetainedUpTo(input, bounds, |input.entries|, retained)
    ensures forall k: nat, reason :: (k, reason) in retained.rejections <==> Rejects(input, bounds, k, reason)
  {
    hide Admit;
  }
}
