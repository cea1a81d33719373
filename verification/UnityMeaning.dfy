/** When the planners merge, said of the members, sizes and contexts of the entries themselves. */
module UnityMeaning {
  import opened Prelude
  import opened UnityChunks
  import opened StrictChunks

  // ---- classes and keys -------------------------------------------------------------------------

  /** Two C++ entries are of one member class when they agree on having only generated members and on having any. */
  ghost predicate SameClass(d: Entry, e: Entry) {
    && ((forall m :: m in d.members ==> m.kind == Generated) <==> forall m :: m in e.members ==> m.kind == Generated)
    && ((exists m :: m in d.members && m.kind == Generated) <==> exists m :: m in e.members && m.kind == Generated)
  }

  /** One module, one context, one language and, when classes are split, one member class. */
  ghost predicate Together(d: Entry, e: Entry, split: bool) {
    d.moduleRoot == e.moduleRoot && d.context == e.context && d.isC == e.isC && (split && !d.isC ==> SameClass(d, e))
  }

  lemma SameClassMeans(d: Entry, e: Entry)
    requires d.members != [] && e.members != [] && !d.isC && !e.isC
    ensures ClassOf(d) == ClassOf(e) <==> SameClass(d, e)
  {
    assert d.members[0] in d.members && e.members[0] in e.members;
  }

  /** Two entries are filed in one bucket exactly when they belong together. */
  lemma SameKeyMeans(o: Options, d: Entry, e: Entry)
    requires d.members != [] && e.members != []
    ensures KeyOf(o, d) == KeyOf(o, e) <==> Together(d, e, o.splitClasses)
  {
    if !d.isC && !e.isC { SameClassMeans(d, e); }
  }

  // ---- the budgets ------------------------------------------------------------------------------

  /** One cell for each byte of each entry; an entry whose size cannot be read has none. */
  ghost function ByteCells(es: seq<Entry>): set<(nat, nat)> {
    set k: nat, b: nat | k < |es| && es[k].bytes.Some? && b < es[k].bytes.value :: (k, b)
  }

  /** One cell for each member of each entry. */
  ghost function MemberCells(es: seq<Entry>): set<(nat, nat)> {
    set k: nat, b: nat | k < |es| && b < |es[k].members| :: (k, b)
  }

  lemma NextRow(before: set<(nat, nat)>, k: nat, n: nat, after: set<(nat, nat)>)
    requires forall p :: p in before ==> p.0 < k
    requires after == before + set b: nat | b < n :: (k, b)
    ensures |after| == |before| + n
  {
    RowSize(k, n);
    assert before !! set b: nat | b < n :: (k, b);
  }

  lemma {:induction false} MembersAreCells(es: seq<Entry>)
    ensures Sources(es) == |MemberCells(es)|
  {
    if es == [] {
      assert MemberCells(es) == {};
    } else {
      var k := |es| - 1;
      MembersAreCells(Init(es));
      forall p ensures p in MemberCells(es) <==> p in MemberCells(Init(es)) + set b: nat | b < |es[k].members| :: (k, b) {
        if p.0 < k { assert Init(es)[p.0] == es[p.0]; }
      }
      NextRow(MemberCells(Init(es)), k, |es[k].members|, MemberCells(es));
    }
  }

  ghost predicate Readable(es: seq<Entry>) {
    forall k :: 0 <= k < |es| ==> es[k].bytes.Some?
  }

  lemma {:induction false} BytesAreCells(o: Options, es: seq<Entry>)
    ensures Readable(es) ==> Bytes(o, es) == |ByteCells(es)|
    ensures !Readable(es) ==> Bytes(o, es) > o.byteBudget
  {
    if es == [] {
      assert ByteCells(es) == {};
    } else {
      var k := |es| - 1;
      BytesAreCells(o, Init(es));
      assert forall i :: 0 <= i < k ==> Init(es)[i] == es[i];
      assert Readable(es) <==> Readable(Init(es)) && es[k].bytes.Some?;
      if Readable(es) {
        var n := es[k].bytes.value;
        forall p ensures p in ByteCells(es) <==> p in ByteCells(Init(es)) + set b: nat | b < n :: (k, b) {
          if p.0 < k { assert Init(es)[p.0] == es[p.0]; }
        }
        NextRow(ByteCells(Init(es)), k, n, ByteCells(es));
      }
    }
  }

  /** One entry holds a source and the other its generated twin. */
  ghost predicate Twins(d: Entry, e: Entry) {
    exists m, n :: m in d.members && n in e.members && m.stem == n.stem
                   && ((m.kind == Generated && n.kind == Source) || (m.kind == Source && n.kind == Generated))
  }

  ghost predicate NoTwins(es: seq<Entry>) {
    forall i, j :: 0 <= i < j < |es| ==> !Twins(es[i], es[j])
  }

  lemma OneClash(d: Entry, e: Entry)
    ensures Clash(e, Stems(d, Generated), Stems(d, Source)) <==> Twins(d, e)
  {
    if m, n :| m in d.members && n in e.members && m.stem == n.stem
               && ((m.kind == Generated && n.kind == Source) || (m.kind == Source && n.kind == Generated)) {
      if n.kind == Source {
        assert n.stem in Stems(e, Source) * Stems(d, Generated);
      } else {
        assert n.stem in Stems(e, Generated) * Stems(d, Source);
      }
    }
    if Stems(e, Source) * Stems(d, Generated) != {} {
      var stem :| stem in Stems(e, Source) * Stems(d, Generated);
    } else if Stems(e, Generated) * Stems(d, Source) != {} {
      var stem :| stem in Stems(e, Generated) * Stems(d, Source);
    }
  }

  lemma ClashAdds(e: Entry, a: set<string>, b: set<string>, c: set<string>, d: set<string>)
    ensures Clash(e, a + b, c + d) <==> Clash(e, a, c) || Clash(e, b, d)
  {
    hide Stems;
    var s, g := Stems(e, Source), Stems(e, Generated);
    assert s * (a + b) == s * a + s * b && g * (c + d) == g * c + g * d;
  }

  lemma {:induction false} ClashMeans(es: seq<Entry>, e: Entry)
    ensures Clash(e, AllStems(es, Generated), AllStems(es, Source)) <==> exists i :: 0 <= i < |es| && Twins(es[i], e)
  {
    hide Stems, Twins;
    if es == [] {
      assert !Clash(e, {}, {});
    } else {
      var k := |es| - 1;
      ClashMeans(Init(es), e);
      assert forall i :: 0 <= i < k ==> Init(es)[i] == es[i];
      OneClash(es[k], e);
      ClashAdds(e, AllStems(Init(es), Generated), Stems(es[k], Generated), AllStems(Init(es), Source), Stems(es[k], Source));
    }
  }

  lemma {:induction false} NoPairsMeans(es: seq<Entry>)
    ensures NoPairs(es) <==> NoTwins(es)
  {
    hide Clash, AllStems, Twins;
    if es != [] {
      var k := |es| - 1;
      NoPairsMeans(Init(es));
      ClashMeans(Init(es), es[k]);
      assert forall i :: 0 <= i < k ==> Init(es)[i] == es[i];
    }
  }

  /** Within every budget, each size known and, where classes mix and twins are avoided, without twins. */
  ghost predicate Small(o: Options, es: seq<Entry>, twins: bool) {
    && Readable(es) && |ByteCells(es)| <= o.byteBudget && |es| <= o.maxUnities
    && (o.maxSources.Some? ==> |MemberCells(es)| <= o.maxSources.value)
    && (!twins ==> NoTwins(es))
  }

  lemma FitsMeans(o: Options, es: seq<Entry>)
    ensures Fits(o, es) <==> Small(o, es, o.splitClasses || !o.avoidPairs)
  {
    hide Readable, ByteCells, MemberCells, Bytes, Sources, NoPairs, NoTwins;
    BytesAreCells(o, es);
    MembersAreCells(es);
    NoPairsMeans(es);
  }

  // ---- when entries are merged ------------------------------------------------------------------

  /** A merged unity (or, when asked for, an exact one) with members, in a known module. */
  ghost predicate Candidate(e: Entry, exact: bool) {
    (e.isUbt || (exact && e.isExact)) && e.members != [] && e.moduleRoot != ""
  }

  ghost predicate AllCandidates(es: seq<Entry>, exact: bool) {
    forall i :: 0 <= i < |es| ==> Candidate(es[i], exact)
  }

  ghost predicate AllTogether(es: seq<Entry>, split: bool) {
    forall i, j :: 0 <= i < j < |es| ==> Together(es[i], es[j], split)
  }

  lemma OneKeyMeans(o: Options, es: seq<Entry>)
    requires es != []
    ensures OneKey(o, es) <==> AllCandidates(es, o.includeExact) && AllTogether(es, o.splitClasses)
  {
    hide KeyOf, Together;
    assert EntryAt(es, 0) == es[0];
    if AllCandidates(es, o.includeExact) {
      forall i, j | 0 <= i < |es| && 0 <= j < |es|
        ensures KeyOf(o, es[i]) == KeyOf(o, es[j]) <==> Together(es[i], es[j], o.splitClasses)
      {
        SameKeyMeans(o, es[i], es[j]);
      }
    }
  }

  /** Entries are merged into one candidate exactly when all are candidates, belong together and stay within the budgets. */
  lemma WholeIsPlanned(o: Options, es: seq<Entry>)
    requires |es| > 1
    ensures Plan(o, es) == [Upto(|es|)] <==>
              && AllCandidates(es, o.includeExact) && AllTogether(es, o.splitClasses)
              && Small(o, es, o.splitClasses || !o.avoidPairs)
  {
    hide Plan, Fits, OneKey, Small, AllTogether;
    OneKeyMeans(o, es);
    FitsMeans(o, es);
    if Plan(o, es) == [Upto(|es|)] {
      assert Upto(|es|) in Plan(o, es);
      ChunkIsOneKey(o, es, Upto(|es|));
      UptoIsAll(es);
    }
    if OneKey(o, es) && Fits(o, es) { WholePlan(o, es); }
  }

  /** What every planned chunk is. */
  lemma ChunkMeans(o: Options, es: seq<Entry>, c: seq<nat>)
    requires c in Plan(o, es)
    ensures |c| > 1 && forall i, j :: 0 <= i < j < |c| ==> c[i] < c[j] < |es|
    ensures var merged := At(es, c);
            && AllCandidates(merged, o.includeExact) && AllTogether(merged, o.splitClasses)
            && Small(o, merged, o.splitClasses || !o.avoidPairs)
  {
    hide Plan, Fits, Small, AllTogether, AllCandidates;
    ChunkFacts(o, es, c);
    forall i, j | 0 <= i < j < |c| ensures c[i] < c[j] < |es| { assert Belongs(o, es, KeyAt(o, es, c[0]), c[j]); }
    ChunkReplans(o, es, c);
    WholeIsPlanned(o, At(es, c));
  }

  // ---- the strict planner -----------------------------------------------------------------------

  /** Of one member class; two C entries always are. */
  ghost predicate Alike(d: Entry, e: Entry) {
    d.isC || SameClass(d, e)
  }

  ghost predicate OneClass(es: seq<Entry>) {
    forall i, j :: 0 <= i < j < |es| ==> Alike(es[i], es[j])
  }

  ghost predicate AllApart(es: seq<Entry>) {
    forall i, j :: 0 <= i < j < |es| ==> !Alike(es[i], es[j])
  }

  lemma ClassKeyMeans(o: Options, es: seq<Entry>, i: nat, j: nat)
    requires i < j < |es| && es[i].members != [] && es[j].members != [] && Together(es[i], es[j], false)
    ensures KeyOf(SplitBy(o, true), es[i]) == KeyOf(SplitBy(o, true), es[j]) <==> Alike(es[i], es[j])
    ensures Together(es[i], es[j], true) <==> Alike(es[i], es[j])
  {
    SameKeyMeans(SplitBy(o, true), es[i], es[j]);
  }

  /** Merged by a round of one class, or by the pass across classes. */
  lemma OneClassMeans(o: Options, es: seq<Entry>)
    requires AllTogether(es, false) && forall i :: 0 <= i < |es| ==> es[i].members != []
    ensures AllTogether(es, true) <==> OneClass(es)
  {
    hide Alike, Together;
    forall i, j | 0 <= i < j < |es| ensures Together(es[i], es[j], true) <==> Alike(es[i], es[j]) {
      ClassKeyMeans(o, es, i, j);
    }
  }

  lemma RoundIsWhole(o: Options, es: seq<Entry>)
    requires |es| > 1 && StrictPlan(o, es, Upto(|es|)) == [Upto(|es|)]
    ensures Plan(SplitBy(o, true), es) == [Upto(|es|)]
            || (Plan(SplitBy(o, true), es) == [] && Plan(SplitBy(o, false), es) == [Upto(|es|)])
  {
    hide Plan;
    UptoIsAll(es);
    StrictStep(o, es, Upto(|es|), 0);
    var residual, last := Plan(SplitBy(o, true), es), Plan(SplitBy(o, false), es);
    if residual == [] {
      SameWhenRenamed(SplitBy(o, false), es, last[0]);
      assert |RenameAll(Upto(|es|), last)| == 1;
    } else {
      SameWhenRenamed(SplitBy(o, true), es, residual[0]);
      assert |RenameAll(Upto(|es|), residual)| <= 1;
    }
  }

  lemma SameWhenRenamed(o: Options, es: seq<Entry>, c: seq<nat>)
    requires c in Plan(o, es)
    ensures Rename(Upto(|es|), c) == c
  {
    hide Plan;
    ChunkFacts(o, es, c);
    forall k | 0 <= k < |c| ensures c[k] < |es| { assert Belongs(o, es, KeyAt(o, es, c[0]), c[k]); }
  }

  lemma ApartInWhole(o: Options, es: seq<Entry>, i: nat, j: nat)
    requires Plan(SplitBy(o, true), es) == [] && Plan(SplitBy(o, false), es) == [Upto(|es|)] && i < j < |es|
    ensures KeyOf(SplitBy(o, true), es[i]) != KeyOf(SplitBy(o, true), es[j])
  {
    hide Plan;
    assert Upto(|es|) in Plan(SplitBy(o, false), es);
    OneOfEachClass(o, es, Upto(|es|), i, j);
  }

  lemma WholeIsApart(o: Options, es: seq<Entry>)
    requires (forall i :: 0 <= i < |es| ==> es[i].members != []) && AllTogether(es, false)
    requires Plan(SplitBy(o, true), es) == [] && Plan(SplitBy(o, false), es) == [Upto(|es|)]
    ensures AllApart(es)
  {
    hide Plan, Together, Alike, KeyOf;
    forall i, j | 0 <= i < j < |es| ensures !Alike(es[i], es[j]) {
      ApartInWhole(o, es, i, j);
      assert Together(es[i], es[j], false);
      ClassKeyMeans(o, es, i, j);
    }
  }

  lemma RoundsMeans(o: Options, es: seq<Entry>)
    requires |es| > 1
    ensures Plan(SplitBy(o, true), es) == [Upto(|es|)] <==>
              AllCandidates(es, false) && AllTogether(es, true) && Small(o, es, true)
    ensures Plan(SplitBy(o, false), es) == [Upto(|es|)] <==>
              AllCandidates(es, false) && AllTogether(es, false) && Small(o, es, true)
  {
    hide Plan, Small, AllCandidates, AllTogether;
    WholeIsPlanned(SplitBy(o, true), es);
    WholeIsPlanned(SplitBy(o, false), es);
    SmallIs(o, es);
  }

  lemma ApartPlansWhole(o: Options, es: seq<Entry>)
    requires |es| > 1 && (forall i :: 0 <= i < |es| ==> es[i].members != []) && AllTogether(es, false)
    requires Plan(SplitBy(o, false), es) == [Upto(|es|)]
    requires AllApart(es)
    ensures StrictPlan(o, es, Upto(|es|)) == [Upto(|es|)]
  {
    hide Plan, StrictPlan, Together, Alike, KeyOf;
    forall i, j | 0 <= i < j < |es| ensures KeyOf(SplitBy(o, true), es[i]) != KeyOf(SplitBy(o, true), es[j]) {
      assert Together(es[i], es[j], false);
      ClassKeyMeans(o, es, i, j);
    }
    DistinctKeysPlan(SplitBy(o, true), es);
    PacksAtOnce(o, es);
  }

  /** The strict planner merges entries into one candidate exactly when all are merged unities that belong together, stay
      within the budgets, and are all of one member class or all of different ones. */
  lemma WholeIsStrict(o: Options, es: seq<Entry>)
    requires |es| > 1
    ensures StrictPlan(o, es, Upto(|es|)) == [Upto(|es|)] <==>
              && AllCandidates(es, false) && AllTogether(es, false) && Small(o, es, true)
              && (OneClass(es) || AllApart(es))
  {
    hide Plan, StrictPlan, Small, AllCandidates, AllTogether, OneClass, AllApart;
    RoundsMeans(o, es);
    CandidatesHaveMembers(es);
    TogetherIs(es);
    if AllTogether(es, false) && AllCandidates(es, false) { OneClassMeans(o, es); }
    if StrictPlan(o, es, Upto(|es|)) == [Upto(|es|)] {
      RoundIsWhole(o, es);
      if Plan(SplitBy(o, true), es) == [] { WholeIsApart(o, es); }
    } else if AllCandidates(es, false) && AllTogether(es, false) && Small(o, es, true) {
      if OneClass(es) { SettlesAtOnce(o, es); }
      if AllApart(es) { ApartPlansWhole(o, es); }
    }
  }

  lemma SmallIs(o: Options, es: seq<Entry>)
    ensures Small(SplitBy(o, true), es, true) == Small(SplitBy(o, false), es, true) == Small(o, es, true)
  {
  }

  lemma CandidatesHaveMembers(es: seq<Entry>)
    ensures AllCandidates(es, false) ==> forall i :: 0 <= i < |es| ==> es[i].members != []
  {
  }

  lemma TogetherIs(es: seq<Entry>)
    ensures AllTogether(es, true) ==> AllTogether(es, false)
  {
  }

  /** What every chunk of the strict plan is. */
  lemma StrictMeans(o: Options, entries: seq<Entry>, available: seq<nat>, k: nat)
    requires k < |StrictPlan(o, entries, available)|
    ensures var merged := At(entries, StrictPlan(o, entries, available)[k]);
            && |merged| > 1 && AllCandidates(merged, false) && AllTogether(merged, false)
            && Small(o, merged, true) && (OneClass(merged) || AllApart(merged))
  {
    hide StrictPlan, Small, AllCandidates, AllTogether, OneClass, AllApart;
    StrictReplans(o, entries, available, k, StrictPlan(o, entries, available)[k]);
    StrictLong(o, entries, available, k);
    WholeIsStrict(o, At(entries, StrictPlan(o, entries, available)[k]));
  }

  lemma {:induction false} StrictLong(o: Options, entries: seq<Entry>, available: seq<nat>, k: nat)
    requires k < |StrictPlan(o, entries, available)|
    ensures |StrictPlan(o, entries, available)[k]| > 1
    decreases |available|
  {
    hide Plan, StrictPlan;
    var es, residual := At(entries, available), Plan(SplitBy(o, true), At(entries, available));
    StrictStep(o, entries, available, k);
    if residual == [] {
      ChunkFacts(SplitBy(o, false), es, Plan(SplitBy(o, false), es)[k]);
    } else if k < |residual| {
      ChunkFacts(SplitBy(o, true), es, residual[k]);
    } else {
      StrictLong(o, entries, Later(available, residual), k - |residual|);
    }
  }
}
