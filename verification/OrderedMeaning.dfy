/** Which originals the ordered planner may merge, and what it keeps of them, said of the input itself. */
module OrderedMeaning {
  import opened Prelude
  import opened MacroScope
  import opened OrderedUnity

  // ---- counting members -------------------------------------------------------------------------

  /** Member `p` of entry `j` has this key. */
  ghost predicate Listed(input: Input, key: string, j: nat, p: nat) {
    && j < |input.entries| && input.entries[j].key in input.mapped
    && p < |input.mapped[input.entries[j].key]| && input.mapped[input.entries[j].key][p].key == key
  }

  ghost function Listings(input: Input, n: nat, key: string): set<(nat, nat)> {
    set j: nat, p: nat | j < n && j < |input.entries| && p < |MembersOf(input, input.entries[j].key)|
                         && Listed(input, key, j, p) :: (j, p)
  }

  ghost function Here(members: seq<Member>, key: string, j: nat): set<(nat, nat)> {
    set p: nat | p < |members| && members[p].key == key :: (j, p)
  }

  lemma HereSnoc(members: seq<Member>, key: string, j: nat)
    requires members != []
    ensures |Here(members, key, j)| == |Here(Init(members), key, j)| + if Last(members).key == key then 1 else 0
    ensures MemberKeys(members) == MemberKeys(Init(members)) + [Last(members).key]
  {
    var m: nat := |members| - 1;
    var before := Here(Init(members), key, j);
    if members[m].key == key {
      assert Here(members, key, j) == before + {(j, m)};
    } else {
      assert Here(members, key, j) == before;
    }
  }

  lemma CountSnoc(s: seq<string>, x: string, y: string)
    ensures multiset(s + [x])[y] == multiset(s)[y] + if x == y then 1 else 0
  {
  }

  lemma CountJoin(a: seq<string>, b: seq<string>, x: string)
    ensures multiset(a + b)[x] == multiset(a)[x] + multiset(b)[x]
  {
  }

  lemma {:induction false} CountInKeys(members: seq<Member>, key: string, j: nat)
    ensures multiset(MemberKeys(members))[key] == |Here(members, key, j)|
  {
    hide MemberKeys;
    if members == [] {
      assert MemberKeys(members) == [];
      assert Here(members, key, j) == {};
    } else {
      CountInKeys(Init(members), key, j);
      HereSnoc(members, key, j);
      CountSnoc(MemberKeys(Init(members)), Last(members).key, key);
    }
  }

  lemma ListingsStep(input: Input, j: nat, key: string)
    requires j < |input.entries|
    ensures |Listings(input, j + 1, key)|
            == |Listings(input, j, key)| + |Here(MembersOf(input, input.entries[j].key), key, j)|
  {
    var here := Here(MembersOf(input, input.entries[j].key), key, j);
    assert Listings(input, j + 1, key) == Listings(input, j, key) + here;
    assert Listings(input, j, key) !! here;
  }

  lemma {:induction false} CountListings(input: Input, n: nat, key: string)
    requires n <= |input.entries|
    ensures multiset(MembersUpTo(input, n))[key] == |Listings(input, n, key)|
  {
    hide Listings, Here, MemberKeys;
    if n == 0 {
      assert Listings(input, 0, key) == {} by { NoListings(input, key); }
    } else {
      var members := MembersOf(input, input.entries[n - 1].key);
      CountListings(input, n - 1, key);
      CountInKeys(members, key, n - 1);
      CountJoin(MembersUpTo(input, n - 1), MemberKeys(members), key);
      ListingsStep(input, n - 1, key);
    }
  }

  lemma NoListings(input: Input, key: string)
    ensures Listings(input, 0, key) == {}
  {
  }

  ghost function Same(input: Input, n: nat, key: string): set<nat> {
    set j: nat | j < n && j < |input.entries| && input.entries[j].key == key
  }

  lemma {:induction false} CountKeys(input: Input, n: nat, key: string)
    requires n <= |input.entries|
    ensures multiset(KeysUpTo(input, n))[key] == |Same(input, n, key)|
  {
    hide Same;
    if n == 0 {
      SameNone(input, key);
    } else {
      CountKeys(input, n - 1, key);
      CountSnoc(KeysUpTo(input, n - 1), input.entries[n - 1].key, key);
      SameStep(input, n - 1, key);
    }
  }

  lemma SameNone(input: Input, key: string)
    ensures Same(input, 0, key) == {}
  {
  }

  lemma SameStep(input: Input, j: nat, key: string)
    requires j < |input.entries|
    ensures |Same(input, j + 1, key)| == |Same(input, j, key)| + if input.entries[j].key == key then 1 else 0
  {
    assert Same(input, j + 1, key) == Same(input, j, key) + if input.entries[j].key == key then {j} else {};
  }

  lemma SameMeans(input: Input, k: nat)
    requires k < |input.entries|
    ensures multiset(KeysUpTo(input, |input.entries|))[input.entries[k].key] == 1
            <==> forall j :: 0 <= j < |input.entries| && input.entries[j].key == input.entries[k].key ==> j == k
  {
    hide KeysUpTo;
    var n, key := |input.entries|, input.entries[k].key;
    CountKeys(input, n, key);
    OnlyOne(Same(input, n, key), k);
    forall j: nat ensures j in Same(input, n, key) <==> j < n && input.entries[j].key == key {
    }
  }

  lemma OnlyOne<T>(s: set<T>, x: T)
    requires x in s
    ensures |s| == 1 <==> forall y :: y in s ==> y == x
  {
    if |s| == 1 {
      assert |s - {x}| == 0;
      assert s == (s - {x}) + {x};
    }
    if forall y :: y in s ==> y == x { assert s == {x}; }
  }

  // ---- one original -----------------------------------------------------------------------------

  /** No other entry has the source of entry `k`, and none of its members is listed anywhere else. */
  ghost predicate OwnMembers(input: Input, k: nat)
    requires k < |input.entries| && input.entries[k].key in input.mapped
  {
    var members := input.mapped[input.entries[k].key];
    && |members| > 0
    && (forall j :: 0 <= j < |input.entries| && input.entries[j].key == input.entries[k].key ==> j == k)
    && forall q: nat :: q < |members| ==> OwnMember(input, members[q].key, k, q)
  }

  /** This is the one place where the key is listed. */
  ghost predicate OwnMember(input: Input, key: string, k: nat, q: nat) {
    forall j: nat, p: nat :: Listed(input, key, j, p) ==> j == k && p == q
  }

  lemma OwnMeans(input: Input, key: string, k: nat, q: nat)
    requires Listed(input, key, k, q)
    ensures multiset(MembersUpTo(input, |input.entries|))[key] == 1 <==> OwnMember(input, key, k, q)
  {
    hide MembersUpTo, Listed;
    var n := |input.entries|;
    CountListings(input, n, key);
    forall j: nat, p: nat ensures (j, p) in Listings(input, n, key) <==> Listed(input, key, j, p) {
      ListedInRange(input, key, j, p);
    }
    OnlyOne(Listings(input, n, key), (k, q));
    if OwnMember(input, key, k, q) {
      forall l | l in Listings(input, n, key) ensures l == (k, q) { assert Listed(input, key, l.0, l.1); }
    }
  }

  lemma ListedInRange(input: Input, key: string, j: nat, p: nat)
    ensures Listed(input, key, j, p) ==> j < |input.entries| && p < |MembersOf(input, input.entries[j].key)|
  {
  }

  lemma OwnMembersMean(input: Input, k: nat)
    requires k < |input.entries| && input.entries[k].key in input.mapped
    ensures Unambiguous(input, input.entries[k].key) <==> OwnMembers(input, k)
  {
    hide KeysUpTo, MembersUpTo, OwnMember;
    var n, key := |input.entries|, input.entries[k].key;
    var members := input.mapped[key];
    SameMeans(input, k);
    forall q: nat | q < |members|
      ensures multiset(MembersUpTo(input, n))[members[q].key] == 1 <==> OwnMember(input, members[q].key, k, q)
    {
      assert Listed(input, members[q].key, k, q);
      OwnMeans(input, members[q].key, k, q);
    }
    assert forall q: nat :: q < |members| ==> members[q] in members;
    if OwnMembers(input, k) {
      forall m | m in members ensures multiset(MembersUpTo(input, n))[m.key] == 1 {
        var q :| 0 <= q < |members| && members[q] == m;
      }
    }
    assert MembersOf(input, key) == members;
  }

  // ---- what is admitted -------------------------------------------------------------------------

  /** All member sources are generated, or none is. */
  ghost predicate OfOneKind(members: seq<Member>) {
    (forall m :: m in members ==> m.generated) || (forall m :: m in members ==> !m.generated)
  }

  lemma {:induction false} GeneratedMeans(members: seq<Member>)
    ensures Generated(members) == |members| <==> forall m :: m in members ==> m.generated
    ensures Generated(members) == 0 <==> forall m :: m in members ==> !m.generated
  {
    if members != [] {
      assert members == Init(members) + [Last(members)];
      GeneratedMeans(Init(members));
    }
  }

  /** An original is admitted exactly when its members are its own, all absolute, of one kind and within the budget, its
      command parsed, its Definitions could be read, and its path can stand in an include line. */
  ghost predicate Admissible(input: Input, bounds: Bounds, k: nat)
    requires k < |input.entries| && input.entries[k].key in input.mapped
  {
    var e := input.entries[k];
    var members := input.mapped[e.key];
    && OwnMembers(input, k) && e.available && (forall m :: m in members ==> m.absolute) && |members| <= bounds.sources
    && OfOneKind(members) && e.parsed.Ok? && States(input.headers, e.parsed.value.definitions).Ok?
    && forall c :: c in e.path ==> c != '"' && c != '\r' && c != '\n' && c != '\0'
  }

  /** What the item of an original holds. */
  ghost predicate Holds(input: Input, k: nat, x: Item)
    requires k < |input.entries| && input.entries[k].key in input.mapped
  {
    var e := input.entries[k];
    && x.index == k && x.members == input.mapped[e.key] && e.parsed.Ok?
    && x.search == e.parsed.value.search && x.original.definitions == e.parsed.value.definitions
    && |x.original.source| == |e.path|
    && (forall p :: 0 <= p < |e.path| ==> x.original.source[p] == if e.path[p] == '\\' then '/' else e.path[p])
    && States(input.headers, e.parsed.value.definitions) == Ok(x.state)
    && (x.context.generated <==> forall m :: m in x.members ==> m.generated)
    && x.context.directory == e.directory && x.context.common == e.parsed.value.common
    && forall name :: (name in x.context.semantic <==>
                         name in x.state && !(input.isApi(name) && x.state[name] == Some(Macro(false, ""))))
                      && (name in x.context.semantic ==> x.context.semantic[name] == x.state[name])
  }

  lemma AdmitMeans(input: Input, bounds: Bounds, k: nat)
    requires k < |input.entries| && input.entries[k].key in input.mapped
    ensures Admit(input, bounds, k).Ok? <==> Admissible(input, bounds, k)
    ensures Admit(input, bounds, k).Ok? ==> Holds(input, k, Admit(input, bounds, k).value)
  {
    hide Unambiguous, OwnMembers, States, Generated, IncludePath, Semantic;
    var e := input.entries[k];
    OwnMembersMean(input, k);
    GeneratedMeans(input.mapped[e.key]);
    SlashesMean(e.path);
    if Admit(input, bounds, k).Ok? {
      SemanticMeans(input, Admit(input, bounds, k).value.state);
      OwnIsSome(input, k);
    }
  }

  lemma OwnIsSome(input: Input, k: nat)
    requires k < |input.entries| && input.entries[k].key in input.mapped && OwnMembers(input, k)
    ensures |input.mapped[input.entries[k].key]| > 0
  {
  }

  lemma SlashesMean(path: string)
    ensures IncludePath(path).Ok? <==> forall c :: c in path ==> c != '"' && c != '\r' && c != '\n' && c != '\0'
    ensures IncludePath(path).Ok? ==> |IncludePath(path).value| == |path|
    ensures IncludePath(path).Ok? ==>
              forall p :: 0 <= p < |path| ==> IncludePath(path).value[p] == if path[p] == '\\' then '/' else path[p]
  {
  }

  lemma SemanticMeans(input: Input, state: Summary)
    ensures forall name :: (name in Semantic(input.isApi, state) <==>
                              name in state && !(input.isApi(name) && state[name] == Some(Macro(false, ""))))
                           && (name in Semantic(input.isApi, state) ==> Semantic(input.isApi, state)[name] == state[name])
  {
  }

  /** Why an original is not admitted: the first check that fails. */
  lemma AdmitReason(input: Input, bounds: Bounds, k: nat)
    requires k < |input.entries| && input.entries[k].key in input.mapped && Admit(input, bounds, k).Err?
    ensures var e, reason := input.entries[k], Admit(input, bounds, k).reason;
            var members := input.mapped[e.key];
            if !OwnMembers(input, k) then reason == "ambiguous or overlapping original membership"
            else if !e.available then reason == "original compiler directory or Unity file is unavailable"
            else if exists m :: m in members && !m.absolute then reason == "member paths must be absolute"
            else if |members| > bounds.sources then reason == "original Unity exceeds member source budget"
            else if e.parsed.Err? then reason == e.parsed.reason
            else if States(input.headers, e.parsed.value.definitions).Err? then
              reason == States(input.headers, e.parsed.value.definitions).reason
            else if !OfOneKind(members) then reason == "mixed generated/implementation original retained"
            else reason == "unsupported include path"
  {
    hide Unambiguous, OwnMembers, States, Generated, Semantic;
    OwnMembersMean(input, k);
    GeneratedMeans(input.mapped[input.entries[k].key]);
  }

  // ---- candidates -------------------------------------------------------------------------------

  /** One cell for each member source of each item. */
  ghost function Sources(items: seq<Item>): set<(nat, nat)> {
    set k: nat, p: nat | k < |items| && p < |items[k].members| :: (k, p)
  }

  lemma {:induction false} SourcesAreCells(items: seq<Item>)
    ensures Total(items) == |Sources(items)|
  {
    if items == [] {
      assert Sources(items) == {};
    } else {
      var n: nat := |items| - 1;
      SourcesAreCells(Init(items));
      RowSize(n, |items[n].members|);
      SourcesStep(items, n, set p: nat | p < |items[n].members| :: (n, p));
    }
  }

  lemma SourcesStep(items: seq<Item>, n: nat, row: set<(nat, nat)>)
    requires items != [] && n == |items| - 1 && row == set p: nat | p < |items[n].members| :: (n, p)
    ensures |Sources(items)| == |Sources(Init(items))| + |row|
  {
    forall c: (nat, nat) ensures c in Sources(items) <==> c in Sources(Init(items)) || c in row {
      if c.0 < n { assert Init(items)[c.0] == items[c.0]; }
    }
    assert Sources(items) == Sources(Init(items)) + row && Sources(Init(items)) !! row;
  }

  /** At one macro the originals agree, or it is an API macro that each leaves alone or defines as empty. */
  ghost predicate AgreeAt(input: Input, x: Item, y: Item, name: string) {
    || (name in x.state && name in y.state && x.state[name] == y.state[name]) || (name !in x.state && name !in y.state)
    || (input.isApi(name) && (name in x.state ==> x.state[name] == Some(Macro(false, "")))
        && (name in y.state ==> y.state[name] == Some(Macro(false, ""))))
  }

  /** Two originals may be merged: the same directory and shared arguments, both generated or neither, and their macros
      agree. */
  ghost predicate Together(input: Input, x: Item, y: Item) {
    x.index < |input.entries| && y.index < |input.entries| &&
    var e, f := input.entries[x.index], input.entries[y.index];
    && e.directory == f.directory && e.parsed.Ok? && f.parsed.Ok? && e.parsed.value.common == f.parsed.value.common
    && ((forall m :: m in x.members ==> m.generated) <==> (forall m :: m in y.members ==> m.generated))
    && forall name :: AgreeAt(input, x, y, name)
  }

  lemma ContextMeans(input: Input, j: nat, k: nat, x: Item, y: Item)
    requires j < |input.entries| && input.entries[j].key in input.mapped && Holds(input, j, x)
    requires k < |input.entries| && input.entries[k].key in input.mapped && Holds(input, k, y)
    ensures x.context == y.context <==> Together(input, x, y)
  {
    hide States;
    if x.context == y.context {
      forall name ensures AgreeAt(input, x, y, name) {
        assert name in x.context.semantic <==> name in y.context.semantic;
      }
    }
    if Together(input, x, y) {
      forall name
        ensures name in x.context.semantic <==> name in y.context.semantic
        ensures name in x.context.semantic ==> x.context.semantic[name] == y.context.semantic[name]
      {
        assert AgreeAt(input, x, y, name);
      }
      assert x.context.semantic == y.context.semantic;
    }
  }

  /** The item holds what an admitted original is. */
  ghost predicate IsItem(input: Input, bounds: Bounds, x: Item) {
    && x.index < |input.entries| && input.entries[x.index].key in input.mapped
    && Admissible(input, bounds, x.index) && Holds(input, x.index, x)
  }

  lemma AdmittedIs(input: Input, bounds: Bounds, x: Item)
    requires Admits(input, bounds, x.index) && Admit(input, bounds, x.index).value == x
    ensures IsItem(input, bounds, x)
  {
    hide Admit, Admissible, Holds;
    AdmitMeans(input, bounds, x.index);
  }

  ghost predicate AllTogether(input: Input, c: seq<Item>) {
    forall x, y :: x in c && y in c ==> Together(input, x, y)
  }

  /** Every candidate merges at least two admitted originals that may be merged, within both bounds. */
  lemma CandidateMeans(input: Input, bounds: Bounds, c: seq<Item>)
    requires bounds.originals >= 1 && c in Candidates(input, bounds)
    ensures 2 <= |c| <= bounds.originals && |Sources(c)| <= bounds.sources && AllTogether(input, c)
    ensures forall x :: x in c ==> IsItem(input, bounds, x)
  {
    hide Candidates, Admit, Admits, Admissible, Holds, Sources, Together, Total;
    CandidateIsLawful(input, bounds, c);
    SourcesAreCells(c);
    forall x | x in c ensures IsItem(input, bounds, x) { AdmittedIs(input, bounds, x); }
    forall x, y | x in c && y in c ensures Together(input, x, y) { ContextMeans(input, x.index, y.index, x, y); }
  }

  // ---- when all are merged ----------------------------------------------------------------------

  /** The items of exactly the admitted originals, in order. */
  ghost predicate AllItems(input: Input, bounds: Bounds, items: seq<Item>) {
    && (forall x :: x in items ==> IsItem(input, bounds, x))
    && (forall i, j :: 0 <= i < j < |items| ==> items[i].index < items[j].index)
    && forall k: nat :: k < |input.entries| && input.entries[k].key in input.mapped && Admissible(input, bounds, k) ==>
         exists x :: x in items && x.index == k
  }

  lemma {:induction false} AdmittedAscend(input: Input, bounds: Bounds, n: nat)
    requires n <= |input.entries|
    ensures forall i, j :: 0 <= i < j < |Admitted(input, bounds, n)| ==>
              Admitted(input, bounds, n)[i].index < Admitted(input, bounds, n)[j].index
  {
    hide Admit;
    if n > 0 {
      AdmittedAscend(input, bounds, n - 1);
      var items, before := Admitted(input, bounds, n), Admitted(input, bounds, n - 1);
      assert items == if Admits(input, bounds, n - 1) then before + [Admit(input, bounds, n - 1).value] else before;
      forall i, j | 0 <= i < j < |items| ensures items[i].index < items[j].index {
        assert items[i] == before[i] && before[i] in before;
        if j < |before| { assert items[j] == before[j]; }
      }
    }
  }

  lemma AdmittedMean(input: Input, bounds: Bounds)
    ensures AllItems(input, bounds, Admitted(input, bounds, |input.entries|))
  {
    hide Admit, Admitted, IsItem, Admissible;
    var items := Admitted(input, bounds, |input.entries|);
    AdmittedAscend(input, bounds, |input.entries|);
    forall x | x in items ensures IsItem(input, bounds, x) { AdmittedIs(input, bounds, x); }
    forall k: nat | k < |input.entries| && input.entries[k].key in input.mapped && Admissible(input, bounds, k)
      ensures exists x :: x in items && x.index == k
    {
      AdmitMeans(input, bounds, k);
      AdmittedAll(input, bounds, |input.entries|, k);
      assert Admit(input, bounds, k).value.index == k;
    }
  }

  lemma {:induction false} OneRun(bounds: Bounds, items: seq<Item>)
    requires items != [] && Within(bounds, items)
    ensures Runs(bounds, items) == [items]
  {
    if |items| == 1 {
      assert Runs(bounds, Init(items)) == [];
      assert [Last(items)] == items;
    } else {
      OneRun(bounds, Init(items));
      assert Init(items) + [Last(items)] == items;
      assert Runs(bounds, items) == Extend(bounds, [Init(items)], Last(items));
    }
  }

  lemma {:induction false} OneContext(items: seq<Item>, c: Context)
    requires items != [] && forall x :: x in items ==> x.context == c
    ensures Contexts(items) == [c] && Group(items, c) == items
  {
    assert items == Init(items) + [Last(items)];
    if |items| > 1 {
      OneContext(Init(items), c);
    } else {
      assert Init(items) == [];
    }
  }

  lemma OneCandidate(input: Input, bounds: Bounds, items: seq<Item>)
    requires items == Admitted(input, bounds, |input.entries|) && |items| >= 2 && Within(bounds, items)
    requires forall x :: x in items ==> x.context == items[0].context
    ensures Candidates(input, bounds) == [items]
  {
    hide Admitted, Within, Runs, Contexts, Group;
    var c := items[0].context;
    OneContext(items, c);
    OneRun(bounds, items);
    assert AllRuns(bounds, items, Init([c])) == [];
    assert AllRuns(bounds, items, [c]) == [] + [items];
    assert Long(Init([items])) == [];
  }

  /** All admitted originals become one candidate exactly when there are several, each two may be merged, and both bounds
      allow it. */
  lemma WholeIsCandidate(input: Input, bounds: Bounds, items: seq<Item>)
    requires bounds.originals >= 1 && items == Admitted(input, bounds, |input.entries|)
    ensures Candidates(input, bounds) == [items] <==>
              2 <= |items| <= bounds.originals && |Sources(items)| <= bounds.sources && AllTogether(input, items)
  {
    hide Candidates, Admitted, IsItem, Sources, Together, Total;
    AdmittedMean(input, bounds);
    SourcesAreCells(items);
    if Candidates(input, bounds) == [items] {
      assert items in Candidates(input, bounds);
      CandidateMeans(input, bounds, items);
    }
    if 2 <= |items| && AllTogether(input, items) && Within(bounds, items) {
      forall x | x in items ensures x.context == items[0].context { SameContext(input, bounds, x, items[0]); }
      OneCandidate(input, bounds, items);
    }
  }

  lemma SameContext(input: Input, bounds: Bounds, x: Item, y: Item)
    requires IsItem(input, bounds, x) && IsItem(input, bounds, y) && Together(input, x, y)
    ensures x.context == y.context
  {
    hide Admissible, Holds, Together;
    ContextMeans(input, x.index, y.index, x, y);
  }
}
