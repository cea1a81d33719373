/** `strict_unity_chunks`: settle same-class chunks first, then pack what is left across classes. */
module StrictChunks {
  import opened Prelude
  import opened ChunkOrder
  import opened UnityChunks

  // ---- a chunk plans to itself --------------------------------------------------------------

  predicate OneKey(o: Options, es: seq<Entry>) {
    forall i :: 0 <= i < |es| ==> Eligible(o, es[i]) && KeyOf(o, es[i]) == KeyAt(o, es, 0)
  }

  lemma {:induction false} WholeBucket(o: Options, es: seq<Entry>, n: nat)
    requires OneKey(o, es) && n <= |es|
    ensures Bucket(o, es, KeyAt(o, es, 0), n) == Upto(n)
  {
    if n > 0 {
      WholeBucket(o, es, n - 1);
      assert Upto(n) == Upto(n - 1) + [n - 1];
    }
  }

  lemma {:induction false} WholeRun(o: Options, es: seq<Entry>, n: nat)
    requires Fits(o, es) && 0 < n <= |es|
    ensures Runs(o, es, Upto(n)) == [Upto(n)]
  {
    assert Init(Upto(n)) == Upto(n - 1) && Last(Upto(n)) == n - 1;
    assert Upto(n) == Upto(n - 1) + [n - 1];
    if n > 1 {
      WholeRun(o, es, n - 1);
      assert At(es, Upto(n)) == es[..n];
      FitsPrefix(o, es, n);
      assert Init([Upto(n - 1)]) == [];
    }
  }

  /** Entries of one key that fit together plan to exactly one chunk holding all of them. */
  lemma WholePlan(o: Options, es: seq<Entry>)
    requires |es| > 1 && OneKey(o, es) && Fits(o, es)
    ensures Plan(o, es) == [Upto(|es|)]
  {
    var whole := Upto(|es|);
    WholeBucket(o, es, |es|);
    WholeRun(o, es, |es|);
    PlanIs(o, es);
    assert IsChunk(o, es, whole);
    forall c | c in Plan(o, es) ensures c == whole {
      ChunkFacts(o, es, c);
      assert Belongs(o, es, KeyAt(o, es, c[0]), c[0]);
    }
    OnlyOne(Plan(o, es), whole);
  }

  lemma OnlyOne(chunks: seq<seq<nat>>, whole: seq<nat>)
    requires SortedByFirst(chunks) && whole in chunks && forall c :: c in chunks ==> c == whole
    ensures chunks == [whole]
  {
    assert |chunks| > 1 ==> chunks[0][0] < chunks[1][0];
    forall k | 0 <= k < |chunks| ensures chunks[k][0] == whole[0] { assert chunks[k] in chunks; }
    assert chunks[0] in chunks;
  }

  lemma FirstTwo(o: Options, es: seq<Entry>, c: seq<nat>)
    requires c in Plan(o, es)
    ensures |c| > 1 && c[0] < c[1] < |es| && KeyOf(o, es[c[0]]) == KeyOf(o, es[c[1]])
  {
    ChunkFacts(o, es, c);
    assert Belongs(o, es, KeyAt(o, es, c[0]), c[0]) && Belongs(o, es, KeyAt(o, es, c[0]), c[1]);
  }

  /** Entries whose keys all differ plan to nothing. */
  lemma DistinctKeysPlan(o: Options, es: seq<Entry>)
    requires forall i, j :: 0 <= i < j < |es| ==> KeyOf(o, es[i]) != KeyOf(o, es[j])
    ensures Plan(o, es) == []
  {
    if Plan(o, es) != [] {
      FirstTwo(o, es, Plan(o, es)[0]);
    }
  }

  lemma ChunkIsOneKey(o: Options, es: seq<Entry>, c: seq<nat>)
    requires c in Plan(o, es)
    ensures |c| > 1 && OneKey(o, At(es, c)) && Fits(o, At(es, c))
  {
    ChunkFacts(o, es, c);
    forall i | 0 <= i < |c| ensures Eligible(o, At(es, c)[i]) && KeyOf(o, At(es, c)[i]) == KeyAt(o, es, c[0]) {
      assert Belongs(o, es, KeyAt(o, es, c[0]), c[i]);
    }
  }

  /** Under the same limits, every planned chunk planned alone gives back exactly that chunk. */
  lemma ChunkReplans(o: Options, es: seq<Entry>, c: seq<nat>)
    requires c in Plan(o, es)
    ensures Plan(o, At(es, c)) == [Upto(|c|)]
  {
    ChunkIsOneKey(o, es, c);
    WholePlan(o, At(es, c));
  }

  // ---- after the same-class rounds, a cross-class chunk has at most one entry of each class ---

  function SplitBy(o: Options, split: bool): Options {
    o.(splitClasses := split, avoidPairs := false, includeExact := false)
  }

  /** The entries of one key, in order. */
  function OfKey(o: Options, es: seq<Entry>, s: seq<nat>, key: Key): seq<nat> {
    if s == [] then []
    else OfKey(o, es, Init(s), key) + if KeyAt(o, es, Last(s)) == key then [Last(s)] else []
  }

  lemma {:induction false} OfKeyAppend(o: Options, es: seq<Entry>, a: seq<nat>, b: seq<nat>, key: Key)
    ensures OfKey(o, es, a + b, key) == OfKey(o, es, a, key) + OfKey(o, es, b, key)
  {
    if b == [] {
      assert a + b == a;
    } else {
      OfKeyAppend(o, es, a, Init(b), key);
      assert Init(a + b) == a + Init(b);
    }
  }

  lemma {:induction false} OfKeyFits(o: Options, es: seq<Entry>, s: seq<nat>, key: Key)
    ensures var kept := OfKey(o, es, s, key);
            && |kept| <= |s| && Bytes(o, At(es, kept)) <= Bytes(o, At(es, s))
            && Sources(At(es, kept)) <= Sources(At(es, s))
  {
    if s != [] {
      var before := OfKey(o, es, Init(s), key);
      OfKeyFits(o, es, Init(s), key);
      assert Init(At(es, s)) == At(es, Init(s));
      if KeyAt(o, es, Last(s)) == key {
        assert Init(At(es, before + [Last(s)])) == At(es, before);
      } else {
        assert OfKey(o, es, s, key) == before;
      }
    }
  }

  lemma {:induction false} OfKeyIs(o: Options, es: seq<Entry>, s: seq<nat>, key: Key, i: nat, j: nat)
    requires i < j < |s| && KeyAt(o, es, s[i]) == key && KeyAt(o, es, s[j]) == key
    ensures |OfKey(o, es, s, key)| > 1
  {
    if j < |s| - 1 {
      OfKeyIs(o, es, Init(s), key, i, j);
    } else {
      OfKeyHas(o, es, Init(s), key, i);
    }
  }

  lemma {:induction false} OfKeyHas(o: Options, es: seq<Entry>, s: seq<nat>, key: Key, i: nat)
    requires i < |s| && KeyAt(o, es, s[i]) == key
    ensures |OfKey(o, es, s, key)| > 0
  {
    if i < |s| - 1 { OfKeyHas(o, es, Init(s), key, i); }
  }

  /** A class bucket is what the cross-class bucket holds of that class. */
  lemma {:induction false} ClassBucket(o: Options, es: seq<Entry>, key: Key, wide: Key, n: nat)
    requires n <= |es|
    requires forall e :: KeyOf(SplitBy(o, true), e) == key ==> KeyOf(SplitBy(o, false), e) == wide
    ensures OfKey(SplitBy(o, true), es, Bucket(SplitBy(o, false), es, wide, n), key) == Bucket(SplitBy(o, true), es, key, n)
  {
    if n > 0 {
      ClassBucket(o, es, key, wide, n - 1);
      var before := Bucket(SplitBy(o, false), es, wide, n - 1);
      if Eligible(SplitBy(o, false), es[n - 1]) && KeyOf(SplitBy(o, false), es[n - 1]) == wide {
        assert Init(before + [n - 1]) == before;
      } else {
        assert Bucket(SplitBy(o, false), es, wide, n) == before;
      }
    }
  }

  /** Where no two entries were merged, no two neighbours fit together. */
  lemma {:induction false} NeighboursDontFit(o: Options, es: seq<Entry>, bucket: seq<nat>, t: nat)
    requires forall k :: 0 <= k < |Runs(o, es, bucket)| ==> |Runs(o, es, bucket)[k]| == 1
    requires t + 1 < |bucket|
    ensures !Fits(o, At(es, [bucket[t], bucket[t + 1]]))
  {
    hide Fits, Extend, Flatten;
    var before, runs := Runs(o, es, Init(bucket)), Runs(o, es, bucket);
    RunsDivide(o, es, Init(bucket));
    assert Allowed(o, es, before[|before| - 1]);
    assert |runs| > 0 by { RunsDivide(o, es, bucket); }
    assert |Last(runs)| == |runs[|runs| - 1]| == 1;
    StaysAlone(o, es, before, Last(bucket));
    assert forall k :: 0 <= k < |before| ==> before[k] == runs[k];
    if t + 2 < |bucket| {
      NeighboursDontFit(o, es, Init(bucket), t);
    } else {
      FlattenLast(before);
      assert Last(before) == [bucket[t]];
      assert Last(before) + [Last(bucket)] == [bucket[t], bucket[t + 1]];
    }
  }

  /** An entry that opens a run did not fit into the run before it. */
  lemma StaysAlone(o: Options, es: seq<Entry>, runs: seq<seq<nat>>, x: nat)
    requires runs != [] && Last(runs) != [] && Extend(o, es, runs, x) != [] && |Last(Extend(o, es, runs, x))| == 1
    ensures Extend(o, es, runs, x) == runs + [[x]] && !Fits(o, At(es, Last(runs) + [x]))
  {
    hide Fits;
  }

  lemma NothingMerged(o: Options, es: seq<Entry>, key: Key, k: nat)
    requires Plan(o, es) == [] && k < |RunsOf(o, es, key)|
    ensures |RunsOf(o, es, key)[k]| == 1
  {
    var run := RunsOf(o, es, key)[k];
    RunFacts(o, es, key, run);
    assert Belongs(o, es, key, run[0]);
    InPlan(o, es, run);
  }

  /** The entries of a run that share a class are neighbours in the bucket of that class. */
  lemma ClassNeighbours(o: Options, es: seq<Entry>, c: seq<nat>, key: Key, wide: Key) returns (t: nat)
    requires c in RunsOf(SplitBy(o, false), es, wide)
    requires forall e :: KeyOf(SplitBy(o, true), e) == key ==> KeyOf(SplitBy(o, false), e) == wide
    requires |OfKey(SplitBy(o, true), es, c, key)| > 1
    ensures var bucket := Bucket(SplitBy(o, true), es, key, |es|);
            t + 1 < |bucket| && [bucket[t], bucket[t + 1]] == OfKey(SplitBy(o, true), es, c, key)[..2]
  {
    var a, b := RunInBucket(SplitBy(o, false), es, wide, c);
    OfKeyAround(SplitBy(o, true), es, a, c, b, key);
    ClassBucket(o, es, key, wide, |es|);
    t := |OfKey(SplitBy(o, true), es, a, key)|;
  }

  lemma RunInBucket(o: Options, es: seq<Entry>, key: Key, c: seq<nat>) returns (a: seq<nat>, b: seq<nat>)
    requires c in RunsOf(o, es, key)
    ensures Bucket(o, es, key, |es|) == a + c + b
  {
    var bucket := Bucket(o, es, key, |es|);
    var runs := Runs(o, es, bucket);
    var k :| 0 <= k < |runs| && runs[k] == c;
    RunsDivide(o, es, bucket);
    FlattenAround(runs, k);
    a, b := Flatten(runs[..k]), Flatten(runs[k + 1..]);
  }

  lemma OfKeyAround(o: Options, es: seq<Entry>, a: seq<nat>, c: seq<nat>, b: seq<nat>, key: Key)
    ensures OfKey(o, es, a + c + b, key) == OfKey(o, es, a, key) + OfKey(o, es, c, key) + OfKey(o, es, b, key)
  {
    OfKeyAppend(o, es, a + c, b, key);
    OfKeyAppend(o, es, a, c, key);
  }

  /** Once no same-class chunk is left, a cross-class chunk holds at most one entry of each class. */
  lemma OneOfEachClass(o: Options, es: seq<Entry>, c: seq<nat>, i: nat, j: nat)
    requires Plan(SplitBy(o, true), es) == [] && c in Plan(SplitBy(o, false), es) && i < j < |c|
    ensures KeyAt(SplitBy(o, true), es, c[i]) != KeyAt(SplitBy(o, true), es, c[j])
  {
    var narrow, wide := SplitBy(o, true), KeyAt(SplitBy(o, false), es, c[0]);
    var key := KeyAt(narrow, es, c[i]);
    if KeyAt(narrow, es, c[j]) == key {
      OfKeyIs(narrow, es, c, key, i, j);
      var t := TwoOfAClassFit(o, es, c, i);
      NoNeighboursFit(narrow, es, key, t);
    }
  }

  lemma TwoOfAClassFit(o: Options, es: seq<Entry>, c: seq<nat>, i: nat) returns (t: nat)
    requires c in Plan(SplitBy(o, false), es) && i < |c|
    requires |OfKey(SplitBy(o, true), es, c, KeyAt(SplitBy(o, true), es, c[i]))| > 1
    ensures var bucket := Bucket(SplitBy(o, true), es, KeyAt(SplitBy(o, true), es, c[i]), |es|);
            t + 1 < |bucket| && Fits(SplitBy(o, true), At(es, [bucket[t], bucket[t + 1]]))
  {
    var key, wide := KeyAt(SplitBy(o, true), es, c[i]), KeyAt(SplitBy(o, false), es, c[0]);
    InPlan(SplitBy(o, false), es, c);
    ChunkFacts(SplitBy(o, false), es, c);
    assert Belongs(SplitBy(o, false), es, wide, c[i]);
    SameClassSameBucket(o, es, key, wide, c[i]);
    t := ClassNeighbours(o, es, c, key, wide);
    PairFits(o, es, c, key);
  }

  lemma NoNeighboursFit(o: Options, es: seq<Entry>, key: Key, t: nat)
    requires Plan(o, es) == [] && t + 1 < |Bucket(o, es, key, |es|)|
    ensures !Fits(o, At(es, [Bucket(o, es, key, |es|)[t], Bucket(o, es, key, |es|)[t + 1]]))
  {
    var bucket := Bucket(o, es, key, |es|);
    forall k | 0 <= k < |Runs(o, es, bucket)| ensures |Runs(o, es, bucket)[k]| == 1 { NothingMerged(o, es, key, k); }
    NeighboursDontFit(o, es, bucket, t);
  }

  lemma SameClassSameBucket(o: Options, es: seq<Entry>, key: Key, wide: Key, i: nat)
    requires KeyAt(SplitBy(o, true), es, i) == key && KeyAt(SplitBy(o, false), es, i) == wide
    ensures forall e :: KeyOf(SplitBy(o, true), e) == key ==> KeyOf(SplitBy(o, false), e) == wide
  {
  }

  lemma PairFits(o: Options, es: seq<Entry>, c: seq<nat>, key: Key)
    requires Fits(SplitBy(o, false), At(es, c)) && |OfKey(SplitBy(o, true), es, c, key)| > 1
    ensures Fits(SplitBy(o, true), At(es, OfKey(SplitBy(o, true), es, c, key)[..2]))
  {
    var narrow := SplitBy(o, true);
    var kept := OfKey(narrow, es, c, key);
    OfKeyFits(narrow, es, c, key);
    SameSizes(o, At(es, c));
    assert Fits(narrow, At(es, kept));
    FitsPrefix(narrow, At(es, kept), 2);
    assert At(es, kept)[..2] == At(es, kept[..2]);
  }

  lemma {:induction false} SameSizes(o: Options, es: seq<Entry>)
    ensures Bytes(SplitBy(o, false), es) == Bytes(SplitBy(o, true), es)
  {
    if es != [] { SameSizes(o, Init(es)); }
  }

  // ---- the rounds ---------------------------------------------------------------------------

  /** `[[available[index] for index in chunk] for chunk in residual]`. */
  function Rename(available: seq<nat>, chunk: seq<nat>): (r: seq<nat>)
    ensures |r| == |chunk|
  {
    seq(|chunk|, k requires 0 <= k < |chunk| => if chunk[k] < |available| then available[chunk[k]] else 0)
  }

  function RenameAll(available: seq<nat>, chunks: seq<seq<nat>>): (r: seq<seq<nat>>)
    ensures |r| == |chunks|
  {
    seq(|chunks|, k requires 0 <= k < |chunks| => Rename(available, chunks[k]))
  }

  /** The available entries at positions that no chunk claimed. */
  function Unclaimed(available: seq<nat>, claimed: set<nat>, n: nat): (r: seq<nat>)
    requires n <= |available|
    ensures |r| <= n
    ensures n > 0 && (exists p :: p in claimed && p < n) ==> |r| < n
  {
    if n == 0 then [] else
      Unclaimed(available, claimed, n - 1) + if n - 1 in claimed then [] else [available[n - 1]]
  }

  function Claimed(chunks: seq<seq<nat>>): set<nat> {
    set k, i | 0 <= k < |chunks| && 0 <= i < |chunks[k]| :: chunks[k][i]
  }

  lemma PlanClaims(o: Options, es: seq<Entry>)
    ensures Plan(o, es) != [] ==> exists p :: p in Claimed(Plan(o, es)) && p < |es|
  {
    if Plan(o, es) != [] {
      FirstTwo(o, es, Plan(o, es)[0]);
      assert Plan(o, es)[0][0] in Claimed(Plan(o, es));
    }
  }

  /** What is left after one round has claimed `residual`. */
  function Later(available: seq<nat>, residual: seq<seq<nat>>): (r: seq<nat>)
    ensures |r| <= |available|
  {
    Unclaimed(available, Claimed(residual), |available|)
  }

  lemma RoundShrinks(o: Options, entries: seq<Entry>, available: seq<nat>)
    requires Plan(o, At(entries, available)) != []
    ensures |Later(available, Plan(o, At(entries, available)))| < |available|
  {
    hide Plan;
    PlanClaims(o, At(entries, available));
  }

  /** Same-class rounds until none plans a chunk, then one pass across classes. */
  function StrictPlan(o: Options, entries: seq<Entry>, available: seq<nat>): seq<seq<nat>>
    decreases |available|
  {
    var residual := Plan(SplitBy(o, true), At(entries, available));
    if residual == [] then RenameAll(available, Plan(SplitBy(o, false), At(entries, available)))
    else
      RoundShrinks(SplitBy(o, true), entries, available);
      RenameAll(available, residual) + StrictPlan(o, entries, Later(available, residual))
  }

  /** What the same-class rounds leave to the final pass. */
  function Settled(o: Options, entries: seq<Entry>, available: seq<nat>): seq<nat>
    decreases |available|
  {
    var residual := Plan(SplitBy(o, true), At(entries, available));
    if residual == [] then available
    else
      RoundShrinks(SplitBy(o, true), entries, available);
      Settled(o, entries, Later(available, residual))
  }

  // ---- what every strict plan satisfies -----------------------------------------------------

  lemma RenamedEntries(entries: seq<Entry>, available: seq<nat>, chunk: seq<nat>)
    requires forall k :: 0 <= k < |chunk| ==> chunk[k] < |available|
    ensures At(entries, Rename(available, chunk)) == At(At(entries, available), chunk)
  {
  }

  /** A chunk of the strict planner planned alone, from its own entries. */
  predicate ReplansAlone(o: Options, entries: seq<Entry>, chunk: seq<nat>) {
    StrictPlan(o, At(entries, chunk), Upto(|chunk|)) == [Upto(|chunk|)]
  }

  lemma UptoIsAll(es: seq<Entry>)
    ensures At(es, Upto(|es|)) == es
  {
  }

  lemma NothingLeft(o: Options, es: seq<Entry>)
    ensures StrictPlan(o, es, []) == []
  {
  }

  lemma {:induction false} AllClaimed(available: seq<nat>, claimed: set<nat>, n: nat)
    requires n <= |available| && forall p :: 0 <= p < n ==> p in claimed
    ensures Unclaimed(available, claimed, n) == []
  {
    if n > 0 { AllClaimed(available, claimed, n - 1); }
  }

  lemma RenameUpto(n: nat)
    ensures Rename(Upto(n), Upto(n)) == Upto(n)
  {
  }

  /** Entries that plan as one same-class chunk settle in one round. */
  lemma SettlesAtOnce(o: Options, es: seq<Entry>)
    requires |es| > 1 && Plan(SplitBy(o, true), es) == [Upto(|es|)]
    ensures StrictPlan(o, es, Upto(|es|)) == [Upto(|es|)]
  {
    var all := Upto(|es|);
    UptoIsAll(es);
    forall p | 0 <= p < |es| ensures p in Claimed([all]) { assert [all][0][p] == p; }
    AllClaimed(all, Claimed([all]), |es|);
    NothingLeft(o, es);
    RenameUpto(|es|);
    assert RenameAll(all, [all]) == [all];
  }

  /** Entries with no same-class chunk that fit together are one cross-class chunk. */
  lemma PacksAtOnce(o: Options, es: seq<Entry>)
    requires Plan(SplitBy(o, true), es) == [] && Plan(SplitBy(o, false), es) == [Upto(|es|)]
    ensures StrictPlan(o, es, Upto(|es|)) == [Upto(|es|)]
  {
    UptoIsAll(es);
    RenameUpto(|es|);
    assert RenameAll(Upto(|es|), [Upto(|es|)]) == [Upto(|es|)];
  }

  lemma RoundReplans(o: Options, entries: seq<Entry>, available: seq<nat>, c: seq<nat>)
    requires c in Plan(SplitBy(o, true), At(entries, available))
    ensures ReplansAlone(o, entries, Rename(available, c))
  {
    var es := At(entries, available);
    ChunkFacts(SplitBy(o, true), es, c);
    forall k | 0 <= k < |c| ensures c[k] < |available| {
      assert Belongs(SplitBy(o, true), es, KeyAt(SplitBy(o, true), es, c[0]), c[k]);
    }
    RenamedEntries(entries, available, c);
    ChunkReplans(SplitBy(o, true), es, c);
    SettlesAtOnce(o, At(es, c));
  }

  lemma FinalReplans(o: Options, entries: seq<Entry>, rest: seq<nat>, c: seq<nat>)
    requires Plan(SplitBy(o, true), At(entries, rest)) == []
    requires c in Plan(SplitBy(o, false), At(entries, rest))
    ensures ReplansAlone(o, entries, Rename(rest, c))
  {
    var es := At(entries, rest);
    ChunkFacts(SplitBy(o, false), es, c);
    forall k | 0 <= k < |c| ensures c[k] < |rest| {
      assert Belongs(SplitBy(o, false), es, KeyAt(SplitBy(o, false), es, c[0]), c[k]);
    }
    RenamedEntries(entries, rest, c);
    ChunkReplans(SplitBy(o, false), es, c);
    forall i, j | 0 <= i < j < |c|
      ensures KeyOf(SplitBy(o, true), At(es, c)[i]) != KeyOf(SplitBy(o, true), At(es, c)[j])
    {
      OneOfEachClass(o, es, c, i, j);
    }
    DistinctKeysPlan(SplitBy(o, true), At(es, c));
    PacksAtOnce(o, At(es, c));
  }

  /** Where chunk `k` comes from: this round, the final pass, or a later round. */
  lemma StrictStep(o: Options, entries: seq<Entry>, available: seq<nat>, k: nat)
    requires k < |StrictPlan(o, entries, available)|
    ensures var residual := Plan(SplitBy(o, true), At(entries, available));
            var last := Plan(SplitBy(o, false), At(entries, available));
            var later := Later(available, residual);
            var chunk := StrictPlan(o, entries, available)[k];
            && (residual == [] ==> k < |last| && chunk == Rename(available, last[k]))
            && (residual != [] && k < |residual| ==> chunk == Rename(available, residual[k]))
            && (residual != [] && k >= |residual| ==>
                  && |later| < |available| && k - |residual| < |StrictPlan(o, entries, later)|
                  && chunk == StrictPlan(o, entries, later)[k - |residual|])
  {
    hide Plan;
    var residual := Plan(SplitBy(o, true), At(entries, available));
    if residual != [] { RoundShrinks(SplitBy(o, true), entries, available); }
  }

  /** Every chunk the strict planner returns, planned alone under the same limits, is that one chunk again. */
  lemma {:induction false} StrictReplans(o: Options, entries: seq<Entry>, available: seq<nat>, k: nat, chunk: seq<nat>)
    requires k < |StrictPlan(o, entries, available)| && chunk == StrictPlan(o, entries, available)[k]
    ensures ReplansAlone(o, entries, chunk)
    decreases |available|
  {
    hide Plan, ReplansAlone;
    var residual := Plan(SplitBy(o, true), At(entries, available));
    StrictStep(o, entries, available, k);
    if residual == [] {
      FinalReplans(o, entries, available, Plan(SplitBy(o, false), At(entries, available))[k]);
    } else if k < |residual| {
      RoundReplans(o, entries, available, residual[k]);
    } else {
      StrictReplans(o, entries, Later(available, residual), k - |residual|, chunk);
    }
  }

  lemma {:induction false} SettledIsStable(o: Options, entries: seq<Entry>, available: seq<nat>)
    ensures Plan(SplitBy(o, true), At(entries, Settled(o, entries, available))) == []
    decreases |available|
  {
    hide Plan;
    var residual := Plan(SplitBy(o, true), At(entries, available));
    if residual != [] {
      RoundShrinks(SplitBy(o, true), entries, available);
      SettledIsStable(o, entries, Later(available, residual));
    }
  }

  /** Every chunk of the final pass holds at most one original of each member class. */
  lemma FinalPassCrossesClasses(o: Options, entries: seq<Entry>, available: seq<nat>, c: seq<nat>, i: nat, j: nat)
    requires c in Plan(SplitBy(o, false), At(entries, Settled(o, entries, available))) && i < j < |c|
    ensures var chunk := Rename(Settled(o, entries, available), c);
            ClassOf(EntryAt(entries, chunk[i])) != ClassOf(EntryAt(entries, chunk[j]))
  {
    hide Plan, Settled;
    var rest := Settled(o, entries, available);
    var es := At(entries, rest);
    SettledIsStable(o, entries, available);
    ChunkFacts(SplitBy(o, false), es, c);
    assert Belongs(SplitBy(o, false), es, KeyAt(SplitBy(o, false), es, c[0]), c[i]);
    assert Belongs(SplitBy(o, false), es, KeyAt(SplitBy(o, false), es, c[0]), c[j]);
    OneOfEachClass(o, es, c, i, j);
  }

  // ---- no index is in two chunks ------------------------------------------------------------

  lemma {:induction false} UnclaimedIs(available: seq<nat>, claimed: set<nat>, n: nat, x: nat)
    requires n <= |available|
    ensures x in Unclaimed(available, claimed, n) <==> exists p :: 0 <= p < n && p !in claimed && available[p] == x
  {
    if n > 0 { UnclaimedIs(available, claimed, n - 1, x); }
  }

  lemma {:induction false} UnclaimedDistinct(available: seq<nat>, claimed: set<nat>, n: nat)
    requires n <= |available| && Distinct(available)
    ensures Distinct(Unclaimed(available, claimed, n))
  {
    if n > 0 {
      UnclaimedDistinct(available, claimed, n - 1);
      UnclaimedIs(available, claimed, n - 1, available[n - 1]);
    }
  }

  /** An index of a renamed chunk is the available entry at a position of the chunk. */
  lemma RenamedIndex(o: Options, es: seq<Entry>, available: seq<nat>, c: seq<nat>, x: nat) returns (p: nat)
    requires c in Plan(o, es) && |es| == |available| && x in Rename(available, c)
    ensures p in c && p < |available| && available[p] == x
  {
    hide Plan;
    var k :| 0 <= k < |c| && Rename(available, c)[k] == x;
    ChunkFacts(o, es, c);
    assert Belongs(o, es, KeyAt(o, es, c[0]), c[k]);
    p := c[k];
  }

  lemma RenamedDisjoint(o: Options, es: seq<Entry>, available: seq<nat>, k: nat, l: nat, x: nat)
    requires Distinct(available) && |es| == |available| && k < l < |Plan(o, es)|
    requires x in Rename(available, Plan(o, es)[k])
    ensures x !in Rename(available, Plan(o, es)[l])
  {
    hide Plan;
    if x in Rename(available, Plan(o, es)[l]) {
      var p := RenamedIndex(o, es, available, Plan(o, es)[k], x);
      var q := RenamedIndex(o, es, available, Plan(o, es)[l], x);
      ChunksDisjoint(o, es, Plan(o, es)[k], Plan(o, es)[l], p);
      PlanIs(o, es);
    }
  }

  lemma ClaimedIsGone(o: Options, es: seq<Entry>, available: seq<nat>, k: nat, x: nat)
    requires Distinct(available) && |es| == |available| && k < |Plan(o, es)|
    requires x in Rename(available, Plan(o, es)[k])
    ensures x !in Later(available, Plan(o, es))
  {
    hide Plan;
    var p := RenamedIndex(o, es, available, Plan(o, es)[k], x);
    var i :| 0 <= i < |Plan(o, es)[k]| && Plan(o, es)[k][i] == p;
    assert p in Claimed(Plan(o, es));
    UnclaimedIs(available, Claimed(Plan(o, es)), |available|, x);
  }

  lemma {:induction false} StrictWithin(o: Options, entries: seq<Entry>, available: seq<nat>, k: nat, x: nat)
    requires k < |StrictPlan(o, entries, available)| && x in StrictPlan(o, entries, available)[k]
    ensures x in available
    decreases |available|
  {
    hide Plan, StrictPlan;
    var es := At(entries, available);
    var residual := Plan(SplitBy(o, true), es);
    StrictStep(o, entries, available, k);
    if residual == [] {
      var _ := RenamedIndex(SplitBy(o, false), es, available, Plan(SplitBy(o, false), es)[k], x);
    } else if k < |residual| {
      var _ := RenamedIndex(SplitBy(o, true), es, available, residual[k], x);
    } else {
      StrictWithin(o, entries, Later(available, residual), k - |residual|, x);
      UnclaimedIs(available, Claimed(residual), |available|, x);
    }
  }

  /** No entry is in two chunks of the strict plan. */
  lemma {:induction false} StrictDisjoint(o: Options, entries: seq<Entry>, available: seq<nat>, k: nat, l: nat, x: nat)
    requires Distinct(available) && k < l < |StrictPlan(o, entries, available)|
    requires x in StrictPlan(o, entries, available)[k]
    ensures x !in StrictPlan(o, entries, available)[l]
    decreases |available|
  {
    hide Plan, StrictPlan;
    var es := At(entries, available);
    var residual := Plan(SplitBy(o, true), es);
    StrictStep(o, entries, available, k);
    StrictStep(o, entries, available, l);
    if residual == [] {
      RenamedDisjoint(SplitBy(o, false), es, available, k, l, x);
    } else if l < |residual| {
      RenamedDisjoint(SplitBy(o, true), es, available, k, l, x);
    } else {
      var later := Later(available, residual);
      UnclaimedDistinct(available, Claimed(residual), |available|);
      if k < |residual| {
        ClaimedIsGone(SplitBy(o, true), es, available, k, x);
        if x in StrictPlan(o, entries, later)[l - |residual|] {
          StrictWithin(o, entries, later, l - |residual|, x);
        }
      } else {
        StrictDisjoint(o, entries, later, k - |residual|, l - |residual|, x);
      }
    }
  }
}
