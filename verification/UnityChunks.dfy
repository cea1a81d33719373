/** `secondary_unity_chunks` and `strict_unity_chunks`: which original unities one candidate may merge. */
module UnityChunks {
  import opened Prelude
  import opened ChunkOrder
  import Greedy = GreedyDivision

  datatype MemberKind = Generated | Source | OtherKind
  /** The last path component of a member: its stem, and the class its suffix puts it in. */
  datatype Member = Member(stem: string, kind: MemberKind)

  /** What the planner reads of a compile entry. `bytes` is `None` when a size cannot be read. */
  datatype Entry = Entry(isUbt: bool, isExact: bool, isC: bool, moduleRoot: string, context: string,
                         members: seq<Member>, bytes: Option<nat>)

  datatype Options = Options(byteBudget: nat, maxUnities: nat, maxSources: Option<nat>,
                             splitClasses: bool, avoidPairs: bool, includeExact: bool)

  datatype Class = C | Gen | Mixed | Src
  datatype Key = Key(moduleRoot: string, context: string, category: Option<Class>)

  function ClassOf(e: Entry): Class {
    if e.isC then C
    else if forall m :: m in e.members ==> m.kind == Generated then Gen
    else if exists m :: m in e.members && m.kind == Generated then Mixed
    else Src
  }

  function KeyOf(o: Options, e: Entry): Key {
    Key(e.moduleRoot, e.context, if e.isC || o.splitClasses then Some(ClassOf(e)) else None)
  }

  predicate Eligible(o: Options, e: Entry) {
    (e.isUbt || (o.includeExact && e.isExact)) && e.members != [] && e.moduleRoot != ""
  }

  // ---- the budgets of one run ---------------------------------------------------------------

  /** An unreadable member size counts as one more than the whole budget. */
  function SizeOf(o: Options, e: Entry): nat {
    match e.bytes case Some(n) => n case None => o.byteBudget + 1
  }

  function Bytes(o: Options, es: seq<Entry>): nat {
    if es == [] then 0 else Bytes(o, Init(es)) + SizeOf(o, Last(es))
  }

  function Sources(es: seq<Entry>): nat {
    if es == [] then 0 else Sources(Init(es)) + |Last(es).members|
  }

  function Stems(e: Entry, kind: MemberKind): set<string> {
    set m | m in e.members && m.kind == kind :: m.stem
  }

  function AllStems(es: seq<Entry>, kind: MemberKind): set<string> {
    if es == [] then {} else AllStems(Init(es), kind) + Stems(Last(es), kind)
  }

  predicate Clash(e: Entry, generated: set<string>, sources: set<string>) {
    Stems(e, Source) * generated != {} || Stems(e, Generated) * sources != {}
  }

  /** No entry has a source whose generated twin belongs to an earlier entry, nor the other way round. */
  predicate NoPairs(es: seq<Entry>) {
    es != [] ==> NoPairs(Init(es)) && !Clash(Last(es), AllStems(Init(es), Generated), AllStems(Init(es), Source))
  }

  predicate WithinSources(o: Options, n: nat) {
    o.maxSources.Some? ==> n <= o.maxSources.value
  }

  predicate Fits(o: Options, es: seq<Entry>) {
    && Bytes(o, es) <= o.byteBudget
    && |es| <= o.maxUnities
    && WithinSources(o, Sources(es))
    && (!o.splitClasses && o.avoidPairs ==> NoPairs(es))
  }

  /** A run the planner may keep together; a single entry always stays where it is. */
  predicate Feasible(o: Options, es: seq<Entry>) {
    |es| == 1 || Fits(o, es)
  }

  function Without<T>(s: seq<T>, k: nat): seq<T>
    requires k < |s|
  {
    s[..k] + s[k + 1..]
  }

  lemma {:induction false} StemsWithout(es: seq<Entry>, k: nat, kind: MemberKind)
    requires k < |es|
    ensures AllStems(Without(es, k), kind) <= AllStems(es, kind)
  {
    if k < |es| - 1 {
      StemsWithout(Init(es), k, kind);
      assert Init(Without(es, k)) == Without(Init(es), k);
    } else {
      assert Without(es, k) == Init(es);
    }
  }

  lemma {:induction false} TotalsWithout(o: Options, es: seq<Entry>, k: nat)
    requires k < |es|
    ensures Bytes(o, Without(es, k)) <= Bytes(o, es) && Sources(Without(es, k)) <= Sources(es)
  {
    if k < |es| - 1 {
      TotalsWithout(o, Init(es), k);
      assert Init(Without(es, k)) == Without(Init(es), k);
    } else {
      assert Without(es, k) == Init(es);
    }
  }

  lemma ClashShrinks(e: Entry, generated: set<string>, fewerGenerated: set<string>,
                     sources: set<string>, fewerSources: set<string>)
    requires fewerGenerated <= generated && fewerSources <= sources && !Clash(e, generated, sources)
    ensures !Clash(e, fewerGenerated, fewerSources)
  {
  }

  lemma {:induction false} NoPairsWithout(es: seq<Entry>, k: nat)
    requires k < |es| && NoPairs(es)
    ensures NoPairs(Without(es, k))
  {
    if k < |es| - 1 {
      NoPairsWithout(Init(es), k);
      StemsWithout(Init(es), k, Generated);
      StemsWithout(Init(es), k, Source);
      ClashShrinks(Last(es), AllStems(Init(es), Generated), AllStems(Without(Init(es), k), Generated),
                   AllStems(Init(es), Source), AllStems(Without(Init(es), k), Source));
      var shorter := Without(es, k);
      assert Init(shorter) == Without(Init(es), k) && Last(shorter) == Last(es);
    } else {
      assert Without(es, k) == Init(es);
    }
  }

  lemma FitsWithout(o: Options, es: seq<Entry>, k: nat)
    requires k < |es| && Fits(o, es)
    ensures Fits(o, Without(es, k))
  {
    TotalsWithout(o, es, k);
    if !o.splitClasses && o.avoidPairs { NoPairsWithout(es, k); }
  }

  lemma {:induction false} FitsSuffix(o: Options, es: seq<Entry>, k: nat)
    requires k <= |es| && Fits(o, es)
    ensures Fits(o, es[k..])
  {
    if k == 0 {
      assert es[k..] == es;
    } else {
      FitsSuffix(o, es, k - 1);
      FitsWithout(o, es[k - 1..], 0);
      assert Without(es[k - 1..], 0) == es[k..];
    }
  }

  lemma {:induction false} FitsPrefix(o: Options, es: seq<Entry>, k: nat)
    requires k <= |es| && Fits(o, es)
    ensures Fits(o, es[..k])
    decreases |es| - k
  {
    if k == |es| {
      assert es[..k] == es;
    } else {
      FitsPrefix(o, es, k + 1);
      FitsWithout(o, es[..k + 1], k);
      assert Without(es[..k + 1], k) == es[..k];
    }
  }

  // ---- greedy runs of one bucket ------------------------------------------------------------

  const NO_ENTRY := Entry(false, false, false, "", "", [], None)

  function EntryAt(entries: seq<Entry>, i: nat): Entry {
    if i < |entries| then entries[i] else NO_ENTRY
  }

  /** `[entries[index] for index in run]`. */
  function At(entries: seq<Entry>, run: seq<nat>): (r: seq<Entry>)
    ensures |r| == |run|
  {
    seq(|run|, k requires 0 <= k < |run| => EntryAt(entries, run[k]))
  }

  /** The last run takes the new entry when the whole still fits; otherwise the entry opens a run. */
  function Extend(o: Options, entries: seq<Entry>, runs: seq<seq<nat>>, x: nat): seq<seq<nat>> {
    if runs != [] && Fits(o, At(entries, Last(runs) + [x])) then Init(runs) + [Last(runs) + [x]]
    else runs + [[x]]
  }

  /** The runs of a bucket, counting dropped singletons and oversized entries as runs of one. */
  function Runs(o: Options, entries: seq<Entry>, bucket: seq<nat>): seq<seq<nat>> {
    if bucket == [] then [] else Extend(o, entries, Runs(o, entries, Init(bucket)), Last(bucket))
  }

  predicate Allowed(o: Options, entries: seq<Entry>, run: seq<nat>) {
    run != [] && Feasible(o, At(entries, run))
  }

  /** A division of the bucket into consecutive runs that the same limits allow. */
  predicate Division(o: Options, entries: seq<Entry>, bucket: seq<nat>, runs: seq<seq<nat>>) {
    && Flatten(runs) == bucket
    && forall k :: 0 <= k < |runs| ==> Allowed(o, entries, runs[k])
  }

  /** The limits, as a test on runs of positions. */
  function FitsAt(o: Options, entries: seq<Entry>): seq<nat> -> bool {
    (run: seq<nat>) => Fits(o, At(entries, run))
  }

  lemma FitsAtIsClosed(o: Options, entries: seq<Entry>)
    ensures Greedy.Closed(FitsAt(o, entries))
  {
    hide Fits;
    forall s: seq<nat>, k: nat | k <= |s| && FitsAt(o, entries)(s)
      ensures FitsAt(o, entries)(s[..k]) && FitsAt(o, entries)(s[k..])
    {
      FitsPrefix(o, At(entries, s), k);
      FitsSuffix(o, At(entries, s), k);
      assert At(entries, s)[..k] == At(entries, s[..k]) && At(entries, s)[k..] == At(entries, s[k..]);
    }
  }

  lemma {:induction false} RunsAreGreedy(o: Options, entries: seq<Entry>, bucket: seq<nat>)
    ensures Runs(o, entries, bucket) == Greedy.Greedy(FitsAt(o, entries), bucket)
  {
    hide Fits;
    if bucket != [] { RunsAreGreedy(o, entries, Init(bucket)); }
  }

  lemma DivisionIs(o: Options, entries: seq<Entry>, bucket: seq<nat>, runs: seq<seq<nat>>)
    ensures Division(o, entries, bucket, runs) <==> Greedy.Division(FitsAt(o, entries), bucket, runs)
  {
    hide Fits;
    assert forall run :: Allowed(o, entries, run) <==> Greedy.Allowed(FitsAt(o, entries), run);
  }

  lemma RunsDivide(o: Options, entries: seq<Entry>, bucket: seq<nat>)
    ensures Division(o, entries, bucket, Runs(o, entries, bucket))
    ensures bucket != [] ==> Runs(o, entries, bucket) != []
  {
    hide Division, Greedy.Division, Runs, Greedy.Greedy;
    RunsAreGreedy(o, entries, bucket);
    Greedy.GreedyDivides(FitsAt(o, entries), bucket);
    DivisionIs(o, entries, bucket, Runs(o, entries, bucket));
  }

  /** Greedy stays ahead: never more runs than another division, and on a tie never a longer last run. */
  lemma GreedyStaysAhead(o: Options, entries: seq<Entry>, bucket: seq<nat>, rival: seq<seq<nat>>)
    requires Division(o, entries, bucket, rival)
    ensures var runs := Runs(o, entries, bucket);
            && |runs| <= |rival|
            && (runs != [] && |runs| == |rival| ==> |Last(runs)| <= |Last(rival)|)
  {
    hide Division, Greedy.Division, Runs, Greedy.Greedy, Greedy.Closed;
    FitsAtIsClosed(o, entries);
    RunsAreGreedy(o, entries, bucket);
    DivisionIs(o, entries, bucket, rival);
    Greedy.GreedyStaysAhead(FitsAt(o, entries), bucket, rival);
  }

  /** No division into consecutive feasible runs has fewer runs than the greedy one. */
  lemma GreedyIsOptimal(o: Options, entries: seq<Entry>, bucket: seq<nat>, rival: seq<seq<nat>>)
    requires Division(o, entries, bucket, rival)
    ensures Division(o, entries, bucket, Runs(o, entries, bucket))
    ensures |Runs(o, entries, bucket)| <= |rival|
  {
    RunsDivide(o, entries, bucket);
    GreedyStaysAhead(o, entries, bucket, rival);
  }

  // ---- buckets and the plan -----------------------------------------------------------------

  /** The eligible entries of one key among the first `n`, in order. */
  function Bucket(o: Options, entries: seq<Entry>, key: Key, n: nat): seq<nat>
    requires n <= |entries|
  {
    if n == 0 then []
    else Bucket(o, entries, key, n - 1)
         + if Eligible(o, entries[n - 1]) && KeyOf(o, entries[n - 1]) == key then [n - 1] else []
  }

  predicate Increasing(s: seq<nat>) {
    forall i, j :: 0 <= i < j < |s| ==> s[i] < s[j]
  }

  predicate Belongs(o: Options, entries: seq<Entry>, key: Key, i: nat) {
    i < |entries| && Eligible(o, entries[i]) && KeyOf(o, entries[i]) == key
  }

  lemma {:induction false} BucketUpTo(o: Options, entries: seq<Entry>, key: Key, n: nat)
    requires n <= |entries|
    ensures forall k :: 0 <= k < |Bucket(o, entries, key, n)| ==>
              Bucket(o, entries, key, n)[k] < n && Belongs(o, entries, key, Bucket(o, entries, key, n)[k])
    ensures Increasing(Bucket(o, entries, key, n))
  {
    if n > 0 { BucketUpTo(o, entries, key, n - 1); }
  }

  lemma {:induction false} BucketHas(o: Options, entries: seq<Entry>, key: Key, n: nat, i: nat)
    requires n <= |entries| && i < n && Belongs(o, entries, key, i)
    ensures i in Bucket(o, entries, key, n)
  {
    if i < n - 1 { BucketHas(o, entries, key, n - 1, i); }
  }

  function KeyAt(o: Options, entries: seq<Entry>, i: nat): Key {
    KeyOf(o, EntryAt(entries, i))
  }

  function RunsOf(o: Options, entries: seq<Entry>, key: Key): seq<seq<nat>> {
    Runs(o, entries, Bucket(o, entries, key, |entries|))
  }

  /** A chunk is a run of at least two entries; shorter runs are left to their own translation units. */
  predicate IsChunk(o: Options, entries: seq<Entry>, chunk: seq<nat>) {
    |chunk| > 1 && chunk in RunsOf(o, entries, KeyAt(o, entries, chunk[0]))
  }

  /** The run that starts with entry `i`, if any. */
  function StartingAt(runs: seq<seq<nat>>, i: nat): seq<nat> {
    if runs == [] then []
    else if Last(runs) != [] && Last(runs)[0] == i then Last(runs)
    else StartingAt(Init(runs), i)
  }

  function ChunkFrom(o: Options, entries: seq<Entry>, i: nat): seq<nat> {
    StartingAt(RunsOf(o, entries, KeyAt(o, entries, i)), i)
  }

  function LongOnes(runs: seq<seq<nat>>): seq<seq<nat>> {
    if runs == [] then [] else LongOnes(Init(runs)) + if |Last(runs)| > 1 then [Last(runs)] else []
  }

  /** The planned chunks, sorted by their first entry. */
  function Plan(o: Options, entries: seq<Entry>): seq<seq<nat>> {
    LongOnes(Starts(o, entries))
  }

  function Starts(o: Options, entries: seq<Entry>): seq<seq<nat>> {
    seq(|entries|, i requires 0 <= i < |entries| => ChunkFrom(o, entries, i))
  }

  /** Runs of an increasing bucket are increasing, and follow one another without overlap. */
  lemma IncreasingParts(a: seq<nat>, b: seq<nat>)
    requires Increasing(a + b)
    ensures Increasing(a) && Increasing(b) && forall x, y :: x in a && y in b ==> x < y
  {
    assert forall i :: 0 <= i < |a| ==> (a + b)[i] == a[i];
    assert forall i :: 0 <= i < |b| ==> (a + b)[|a| + i] == b[i];
    forall x, y | x in a && y in b ensures x < y {
      var i :| 0 <= i < |a| && a[i] == x;
      var j :| 0 <= j < |b| && b[j] == y;
      assert (a + b)[i] == x && (a + b)[|a| + j] == y;
    }
  }

  lemma {:induction false} RunsApart(runs: seq<seq<nat>>)
    requires Increasing(Flatten(runs))
    ensures forall k :: 0 <= k < |runs| ==> Increasing(runs[k])
    ensures forall i, j, x, y :: 0 <= i < j < |runs| && x in runs[i] && y in runs[j] ==> x < y
  {
    if runs != [] {
      var before, last := Flatten(Init(runs)), Last(runs);
      assert Flatten(runs) == before + last;
      IncreasingParts(before, last);
      RunsApart(Init(runs));
      forall i, x, y | 0 <= i < |runs| - 1 && x in runs[i] && y in last ensures x < y {
        assert Init(runs)[i] == runs[i];
        FlattenMember(Init(runs), x);
      }
    }
  }

  lemma RunFacts(o: Options, entries: seq<Entry>, key: Key, run: seq<nat>)
    requires run in RunsOf(o, entries, key)
    ensures Allowed(o, entries, run) && Increasing(run)
    ensures forall k :: 0 <= k < |run| ==> Belongs(o, entries, key, run[k])
  {
    var bucket := Bucket(o, entries, key, |entries|);
    BucketUpTo(o, entries, key, |entries|);
    RunsDivide(o, entries, bucket);
    RunsApart(Runs(o, entries, bucket));
    var k :| 0 <= k < |RunsOf(o, entries, key)| && RunsOf(o, entries, key)[k] == run;
    assert Allowed(o, entries, RunsOf(o, entries, key)[k]);
    forall j | 0 <= j < |run| ensures Belongs(o, entries, key, run[j]) {
      FlattenMember(Runs(o, entries, bucket), run[j]);
      assert run[j] in bucket;
    }
  }

  lemma {:induction false} StartingAtIs(runs: seq<seq<nat>>, i: nat)
    ensures var run := StartingAt(runs, i); run != [] ==> run in runs && run[0] == i
  {
    if runs != [] { StartingAtIs(Init(runs), i); }
  }

  lemma {:induction false} StartingAtFinds(runs: seq<seq<nat>>, i: nat, k: nat)
    requires k < |runs| && runs[k] != [] && runs[k][0] == i
    ensures StartingAt(runs, i) != []
  {
    if k < |runs| - 1 { StartingAtFinds(Init(runs), i, k); }
  }

  /** Two runs of one bucket that start with the same entry are the same run. */
  lemma SameStart(o: Options, entries: seq<Entry>, key: Key, r: seq<nat>, q: seq<nat>)
    requires r in RunsOf(o, entries, key) && q in RunsOf(o, entries, key)
    requires r != [] && q != [] && r[0] == q[0]
    ensures r == q
  {
    var bucket := Bucket(o, entries, key, |entries|);
    BucketUpTo(o, entries, key, |entries|);
    RunsDivide(o, entries, bucket);
    var runs := RunsOf(o, entries, key);
    RunsApart(runs);
    var i :| 0 <= i < |runs| && runs[i] == r;
    var j :| 0 <= j < |runs| && runs[j] == q;
    assert r[0] in runs[i] && q[0] in runs[j];
  }

  lemma StartIsChunk(o: Options, entries: seq<Entry>, chunk: seq<nat>)
    requires chunk != [] && chunk in RunsOf(o, entries, KeyAt(o, entries, chunk[0]))
    ensures StartingAt(RunsOf(o, entries, KeyAt(o, entries, chunk[0])), chunk[0]) == chunk
  {
    var key := KeyAt(o, entries, chunk[0]);
    var runs := RunsOf(o, entries, key);
    var k :| 0 <= k < |runs| && runs[k] == chunk;
    StartingAtFinds(runs, chunk[0], k);
    StartingAtIs(runs, chunk[0]);
    SameStart(o, entries, key, chunk, StartingAt(runs, chunk[0]));
  }

  lemma {:induction false} LongOnesSorted(runs: seq<seq<nat>>)
    requires forall i :: 0 <= i < |runs| ==> runs[i] != [] ==> runs[i][0] == i
    ensures SortedByFirst(LongOnes(runs))
    ensures forall k :: 0 <= k < |LongOnes(runs)| ==> LongOnes(runs)[k][0] < |runs|
  {
    if runs != [] { LongOnesSorted(Init(runs)); }
  }

  lemma {:induction false} LongOnesAre(runs: seq<seq<nat>>, c: seq<nat>)
    ensures c in LongOnes(runs) <==> c in runs && |c| > 1
  {
    if runs != [] {
      LongOnesAre(Init(runs), c);
      assert c in runs <==> c in Init(runs) || c == Last(runs);
    }
  }

  lemma StartIsRun(o: Options, entries: seq<Entry>, i: nat)
    requires i < |entries| && |ChunkFrom(o, entries, i)| > 1
    ensures ChunkFrom(o, entries, i)[0] == i && IsChunk(o, entries, ChunkFrom(o, entries, i))
  {
    StartingAtIs(RunsOf(o, entries, KeyAt(o, entries, i)), i);
  }

  lemma ChunkStarts(o: Options, entries: seq<Entry>, c: seq<nat>)
    requires IsChunk(o, entries, c)
    ensures c[0] < |entries| && ChunkFrom(o, entries, c[0]) == c
  {
    StartIsChunk(o, entries, c);
    RunFacts(o, entries, KeyAt(o, entries, c[0]), c);
    assert Belongs(o, entries, KeyAt(o, entries, c[0]), c[0]);
  }

  lemma InPlan(o: Options, entries: seq<Entry>, c: seq<nat>)
    ensures c in Plan(o, entries) <==> IsChunk(o, entries, c)
  {
    var starts := Starts(o, entries);
    LongOnesAre(starts, c);
    if c in starts && |c| > 1 {
      var i :| 0 <= i < |starts| && starts[i] == c;
      StartIsRun(o, entries, i);
    }
    if IsChunk(o, entries, c) {
      ChunkStarts(o, entries, c);
      assert starts[c[0]] == c;
    }
  }

  /** The plan holds exactly the chunks, sorted by first entry. */
  lemma PlanIs(o: Options, entries: seq<Entry>)
    ensures SortedByFirst(Plan(o, entries))
    ensures forall c :: c in Plan(o, entries) <==> IsChunk(o, entries, c)
  {
    var starts := Starts(o, entries);
    forall i | 0 <= i < |starts| ensures starts[i] != [] ==> starts[i][0] == i {
      StartingAtIs(RunsOf(o, entries, KeyAt(o, entries, i)), i);
    }
    LongOnesSorted(starts);
    forall c ensures c in Plan(o, entries) <==> IsChunk(o, entries, c) { InPlan(o, entries, c); }
  }

  /** What a chunk is worth: one module, one context, one class, within every budget, in entry order. */
  lemma ChunkFacts(o: Options, entries: seq<Entry>, chunk: seq<nat>)
    requires chunk in Plan(o, entries)
    ensures |chunk| > 1 && Increasing(chunk) && Fits(o, At(entries, chunk))
    ensures forall k :: 0 <= k < |chunk| ==> Belongs(o, entries, KeyAt(o, entries, chunk[0]), chunk[k])
  {
    InPlan(o, entries, chunk);
    RunFacts(o, entries, KeyAt(o, entries, chunk[0]), chunk);
  }

  lemma RunsDisjoint(o: Options, entries: seq<Entry>, key: Key, c: seq<nat>, d: seq<nat>, x: nat)
    requires c in RunsOf(o, entries, key) && d in RunsOf(o, entries, key) && x in c && x in d
    ensures c == d
  {
    var runs := RunsOf(o, entries, key);
    BucketUpTo(o, entries, key, |entries|);
    RunsDivide(o, entries, Bucket(o, entries, key, |entries|));
    RunsApart(runs);
    var i :| 0 <= i < |runs| && runs[i] == c;
    var j :| 0 <= j < |runs| && runs[j] == d;
  }

  lemma ChunksDisjoint(o: Options, entries: seq<Entry>, c: seq<nat>, d: seq<nat>, x: nat)
    requires c in Plan(o, entries) && d in Plan(o, entries) && x in c && x in d
    ensures c == d
  {
    InPlan(o, entries, c);
    InPlan(o, entries, d);
    ChunkFacts(o, entries, c);
    ChunkFacts(o, entries, d);
    var k :| 0 <= k < |c| && c[k] == x;
    var l :| 0 <= l < |d| && d[l] == x;
    assert Belongs(o, entries, KeyAt(o, entries, c[0]), c[k]) && Belongs(o, entries, KeyAt(o, entries, d[0]), d[l]);
    RunsDisjoint(o, entries, KeyAt(o, entries, c[0]), c, d, x);
  }
}
