/** A branch switch from changed files to worker bins: closures, cover and split put together. */
module ReindexPlan {
  import opened Prelude
  import opened IncludeClosure
  import Cover = GreedyCover
  import Split = LptSplit

  /** What the manifest stores for a source: its stamp, or nothing when it did not exist. */
  type Stamps = map<string, Option<seq<int>>>

  /** `stamps.get(source)`: a source that is not listed looks like one that did not exist. */
  function StampOf(stamps: Stamps, source: string): Option<seq<int>> {
    if source in stamps then stamps[source] else None
  }

  /** The `changed` set of `manifest_state`. */
  function Changed(previous: Stamps, current: Stamps): (r: set<string>)
    ensures forall s :: s !in r <==> || (s in previous && s in current && previous[s] == current[s])
                                     || ((s !in previous || previous[s] == None) && (s !in current || current[s] == None))
  {
    set s | s in previous.Keys + current.Keys && StampOf(previous, s) != StampOf(current, s)
  }

  /** The manifest: none, one of another generation, or the stamps it stores. */
  datatype Baseline = Missing | Stale | Stored(stamps: Stamps)

  /** What is to be done: the sources whose stamps differ, and those listed as changed. */
  function ToDo(previous: Stamps, current: Stamps, listed: set<string>): (r: set<string>)
    ensures forall s :: s in r <==> s in Changed(previous, current) || s in listed
  {
    Changed(previous, current) + listed
  }

  datatype Action = NeedsBaseline(reason: string) | Nothing | NeedsPrepare(uncovered: set<string>) | NoHeadroom
                  | Reindex(bins: seq<seq<string>>)

  ghost predicate ReachedFrom(edges: Edges, mains: seq<string>, source: string) {
    exists main :: main in mains && Reaches(edges, main, source)
  }

  /** A changed source the run can bring up to date: it exists before and after, and some main reaches it. */
  ghost predicate Coverable(edges: Edges, mains: seq<string>, previous: Stamps, current: Stamps, source: string) {
    && source in previous && previous[source].Some? && source in current && current[source].Some?
    && ReachedFrom(edges, mains, source)
  }

  /** The closures of all mains. */
  ghost predicate ClosuresAre(edges: Edges, mains: seq<string>, cl: Cover.Closures) {
    && cl.order == mains && cl.Valid()
    && forall main, x :: main in cl.files ==> (x in cl.files[main] <==> Reaches(edges, main, x))
  }

  method AllClosures(edges: Edges, mains: seq<string>) returns (cl: Cover.Closures)
    requires Distinct(mains)
    ensures ClosuresAre(edges, mains, cl)
  {
    hide Reaches;
    var files: map<string, set<string>> := map[];
    for k := 0 to |mains|
      invariant forall main :: main in mains[..k] <==> main in files
      invariant forall main :: main in files ==> main in files[main]
      invariant forall main, x :: main in files ==> (x in files[main] <==> Reaches(edges, main, x))
    {
      var seen := Closure(mains[k], edges);
      assert mains[..k + 1] == mains[..k] + [mains[k]];
      files := files[mains[k] := seen];
    }
    assert mains[..|mains|] == mains;
    forall main | main in files ensures files[main] != {} { assert main in files[main]; }
    return Cover.Closures(mains, files);
  }

  lemma {:induction false} CoveredBy(cl: Cover.Closures, mains: seq<string>, x: string)
    ensures x in Cover.Covered(cl, mains) <==> exists main :: main in mains && x in Cover.Files(cl, main)
  {
    if mains != [] {
      CoveredBy(cl, Init(mains), x);
      assert mains == Init(mains) + [Last(mains)];
    }
  }

  lemma CoveredIsReached(edges: Edges, all: seq<string>, cl: Cover.Closures, mains: seq<string>, x: string)
    requires ClosuresAre(edges, all, cl) && forall main :: main in mains ==> main in all
    ensures x in Cover.Covered(cl, mains) <==> ReachedFrom(edges, mains, x)
  {
    hide Reaches;
    CoveredBy(cl, mains, x);
  }

  /** Every source this bin's worker brings up to date. */
  ghost predicate InSomeBin(edges: Edges, bins: seq<seq<string>>, source: string) {
    exists k :: 0 <= k < |bins| && ReachedFrom(edges, bins[k], source)
  }

  lemma SelectedIsBinned(edges: Edges, selected: seq<string>, bins: seq<seq<string>>, source: string)
    requires multiset(Flatten(bins)) == multiset(selected) && ReachedFrom(edges, selected, source)
    ensures InSomeBin(edges, bins, source)
  {
    hide Reaches;
    var main :| main in selected && Reaches(edges, main, source);
    assert main in multiset(selected);
    assert main in Flatten(bins);
    FlattenMember(bins, main);
    var k :| 0 <= k < |bins| && main in bins[k];
    assert ReachedFrom(edges, bins[k], source);
  }

  lemma BinnedIsSelected(selected: seq<string>, bins: seq<seq<string>>, main: string)
    requires multiset(Flatten(bins)) == multiset(selected)
    ensures main in Flatten(bins) <==> main in selected
  {
    assert main in Flatten(bins) <==> main in multiset(Flatten(bins));
    assert main in selected <==> main in multiset(selected);
  }

  lemma KnownIsCovered(cl: Cover.Closures)
    requires cl.Valid()
    ensures Cover.Known(cl) == Cover.Covered(cl, cl.order)
  {
    forall x ensures x in Cover.Known(cl) <==> x in Cover.Covered(cl, cl.order) {
      CoveredBy(cl, cl.order, x);
    }
  }

  lemma SelectedFacts(edges: Edges, mains: seq<string>, cl: Cover.Closures, changed: set<string>, selected: seq<string>)
    requires ClosuresAre(edges, mains, cl) && Cover.Selection(cl, changed, selected) && changed <= Cover.Covered(cl, selected)
    ensures Distinct(selected) && forall main :: main in selected ==> main in mains && main in cl.files
    ensures forall main :: main in mains && main in changed ==> main in selected
    ensures forall s :: s in changed ==> ReachedFrom(edges, selected, s)
  {
    hide Reaches, ReachedFrom, Cover.GreedyRun, Cover.Covered;
    forall main | main in mains && main in changed ensures main in selected {
      Cover.ChangedMainsAre(cl.order, changed, main);
    }
    forall s | s in changed ensures ReachedFrom(edges, selected, s) { CoveredIsReached(edges, mains, cl, selected, s); }
  }

  /** The bins do the whole job: each changed source is reached, each changed main runs itself, and no main runs twice. */
  ghost predicate Serves(edges: Edges, mains: seq<string>, changed: set<string>, workers: int, bins: seq<seq<string>>) {
    && |bins| <= workers && [] !in bins && Distinct(Flatten(bins))
    && (forall main :: main in Flatten(bins) ==> main in mains)
    && (forall main :: main in mains && main in changed ==> main in Flatten(bins))
    && forall s :: s in changed ==> InSomeBin(edges, bins, s)
  }

  /** How the bins come about: the mains a greedy cover selects, split longest first. */
  datatype Choice = Choice(cl: Cover.Closures, selected: seq<string>, placed: seq<nat>)

  ghost predicate Chosen(edges: Edges, mains: seq<string>, changed: set<string>, workers: nat, c: Choice,
                         bins: seq<seq<string>>)
  {
    && ClosuresAre(edges, mains, c.cl) && Cover.Selection(c.cl, changed, c.selected)
    && changed <= Cover.Covered(c.cl, c.selected)
    && Split.IsLptSplit(c.cl.files, c.selected, workers, c.placed, bins)
  }

  lemma CoverableIsKnown(edges: Edges, mains: seq<string>, cl: Cover.Closures, changed: set<string>)
    requires ClosuresAre(edges, mains, cl) && changed <= Cover.Covered(cl, mains)
    ensures cl.Valid() && changed <= Cover.Known(cl)
  {
    KnownIsCovered(cl);
  }

  lemma ChoiceServes(edges: Edges, mains: seq<string>, changed: set<string>, workers: nat, c: Choice, bins: seq<seq<string>>)
    requires ClosuresAre(edges, mains, c.cl) && Cover.Selection(c.cl, changed, c.selected)
    requires changed <= Cover.Covered(c.cl, c.selected)
    requires Split.IsLptSplit(c.cl.files, c.selected, workers, c.placed, bins)
    ensures Serves(edges, mains, changed, workers, bins) && Chosen(edges, mains, changed, workers, c, bins)
  {
    hide ClosuresAre, Cover.Selection, Cover.Covered, Split.IsLptSplit, ReachedFrom, InSomeBin, Flatten, Distinct;
    SelectedFacts(edges, mains, c.cl, changed, c.selected);
    Split.SplitIsPartition(c.cl.files, c.selected, workers, c.placed, bins);
    DistinctPermutes(Flatten(bins), c.selected);
    forall main ensures main in Flatten(bins) <==> main in c.selected { BinnedIsSelected(c.selected, bins, main); }
    forall s | s in changed ensures InSomeBin(edges, bins, s) { SelectedIsBinned(edges, c.selected, bins, s); }
  }

  /** Cover and split of coverable changes. */
  method PlanBins(edges: Edges, mains: seq<string>, cl: Cover.Closures, changed: set<string>, workers: nat)
    returns (bins: seq<seq<string>>, ghost choice: Choice)
    requires ClosuresAre(edges, mains, cl) && changed <= Cover.Covered(cl, mains) && workers > 0
    ensures Serves(edges, mains, changed, workers, bins) && Chosen(edges, mains, changed, workers, choice, bins)
  {
    hide *;
    CoverableIsKnown(edges, mains, cl, changed);
    var selected := Cover.SelectCover(cl, changed);
    SelectedFacts(edges, mains, cl, changed, selected.value);
    var split, a := Split.SplitLpt(selected.value, cl.files, workers);
    bins := split.value;
    choice := Choice(cl, selected.value, a);
    ChoiceServes(edges, mains, changed, workers, choice, bins);
  }

  // ---- what the cover costs ---------------------------------------------------------------------

  /** A changed source that no changed main reaches. */
  ghost predicate LeftOver(edges: Edges, mains: seq<string>, changed: set<string>, s: string) {
    s in changed && !exists main :: main in mains && main in changed && Reaches(edges, main, s)
  }

  ghost function AllLeft(edges: Edges, mains: seq<string>, changed: set<string>): set<string> {
    set s | s in changed && LeftOver(edges, mains, changed, s)
  }

  /** The files that the selected mains have to read that did not change themselves. */
  ghost function Extra(c: Choice, changed: set<string>): set<(nat, string)> {
    set k: nat, f | k < |c.selected| && c.selected[k] !in changed
                    && c.selected[k] in c.cl.files && f in c.cl.files[c.selected[k]] :: (k, f)
  }

  lemma {:induction false} CostIsFiles(cl: Cover.Closures, mains: seq<string>)
    ensures Cover.Cost(cl, mains) == |Split.Files(cl.files, mains)|
  {
    hide Split.Files;
    Split.WeightIsFiles(cl.files, mains);
    if mains != [] {
      CostIsFiles(cl, Init(mains));
      Split.WeightIsFiles(cl.files, Init(mains));
      assert Init(Split.Sizes(cl.files, mains)) == Split.Sizes(cl.files, Init(mains));
    }
  }

  lemma {:induction false} CostJoins(cl: Cover.Closures, a: seq<string>, b: seq<string>)
    ensures Cover.Cost(cl, a + b) == Cover.Cost(cl, a) + Cover.Cost(cl, b)
  {
    if b == [] {
      assert a + b == a;
    } else {
      CostJoins(cl, a, Init(b));
      assert Init(a + b) == a + Init(b);
    }
  }

  /** The changed mains come first, and what is selected after them did not change itself. */
  lemma MustComesFirst(mains: seq<string>, c: Choice, changed: set<string>, k: nat)
    requires c.cl.order == mains && Cover.Selection(c.cl, changed, c.selected) && k < |c.selected|
    requires forall main :: main in c.cl.files ==> main in mains
    ensures k < |Cover.ChangedMains(mains, changed)| <==> c.selected[k] in changed
  {
    hide Cover.GreedyRun;
    var must := Cover.ChangedMains(mains, changed);
    Cover.ChangedMainsAre(mains, changed, c.selected[k]);
    assert c.selected[..|must|] == must;
    if k < |must| {
      assert must[k] in must;
    }
  }

  lemma ExtraCosts(mains: seq<string>, c: Choice, changed: set<string>)
    requires c.cl.order == mains && Cover.Selection(c.cl, changed, c.selected)
    requires forall main :: main in c.cl.files ==> main in mains
    ensures var must := Cover.ChangedMains(mains, changed);
            must <= c.selected && |Extra(c, changed)| == Cover.Cost(c.cl, c.selected[|must|..])
  {
    hide Cover.GreedyRun, Cover.ChangedMains, Cover.Cost, Distinct;
    var must := Cover.ChangedMains(mains, changed);
    var whole, first, rest := Split.Files(c.cl.files, c.selected), Split.Files(c.cl.files, must), Extra(c, changed);
    forall p: (nat, string) ensures p in whole <==> p in first || p in rest {
      if p.0 < |c.selected| { MustComesFirst(mains, c, changed, p.0); }
    }
    forall p | p in rest ensures p !in first { MustComesFirst(mains, c, changed, p.0); }
    assert whole == first + rest;
    assert c.selected == must + c.selected[|must|..];
    CostJoins(c.cl, must, c.selected[|must|..]);
    CostIsFiles(c.cl, c.selected);
    CostIsFiles(c.cl, must);
  }

  lemma LeftIs(edges: Edges, mains: seq<string>, changed: set<string>, cl: Cover.Closures)
    requires ClosuresAre(edges, mains, cl)
    ensures AllLeft(edges, mains, changed) == changed - Cover.Covered(cl, Cover.ChangedMains(mains, changed))
  {
    hide Reaches, Cover.Covered, Cover.ChangedMains;
    var must := Cover.ChangedMains(mains, changed);
    forall main ensures main in must <==> main in mains && main in changed { Cover.ChangedMainsAre(mains, changed, main); }
    forall s ensures s in Cover.Covered(cl, must) <==> ReachedFrom(edges, must, s) {
      CoveredIsReached(edges, mains, cl, must, s);
    }
  }

  /** A family of mains that reaches every source the changed mains leave. */
  ghost predicate Rival(edges: Edges, mains: seq<string>, changed: set<string>, family: seq<string>) {
    (forall f :: f in family ==> f in mains) && forall s :: LeftOver(edges, mains, changed, s) ==> ReachedFrom(edges, family, s)
  }

  lemma RivalCovers(edges: Edges, mains: seq<string>, changed: set<string>, cl: Cover.Closures, family: seq<string>)
    requires ClosuresAre(edges, mains, cl) && Rival(edges, mains, changed, family)
    ensures AllLeft(edges, mains, changed) <= Cover.Covered(cl, family)
    ensures forall f :: f in family ==> f in cl.files
  {
    hide Reaches, Cover.Covered, LeftOver, ReachedFrom;
    forall s | s in AllLeft(edges, mains, changed) ensures s in Cover.Covered(cl, family) {
      CoveredIsReached(edges, mains, cl, family, s);
    }
  }

  /** The cover is cheap: beyond what the changed mains read, at most H(r) times the files of any family of mains that
      reaches the r sources those leave. */
  lemma ChoiceIsCheap(edges: Edges, mains: seq<string>, changed: set<string>, workers: nat, c: Choice,
                      bins: seq<seq<string>>, family: seq<string>)
    requires Chosen(edges, mains, changed, workers, c, bins) && Rival(edges, mains, changed, family)
    ensures |Extra(c, changed)| as real
            <= Cover.H(|AllLeft(edges, mains, changed)|) * |Split.Files(c.cl.files, family)| as real
  {
    hide Cover.Covered, Cover.GreedyRun, Cover.Cost, Reaches, Split.IsLptSplit, AllLeft, Extra, Split.Files, Rival, Cover.H;
    var must := Cover.ChangedMains(mains, changed);
    ExtraCosts(mains, c, changed);
    LeftIs(edges, mains, changed, c.cl);
    RivalCovers(edges, mains, changed, c.cl, family);
    CostIsFiles(c.cl, family);
    assert c.selected == must + c.selected[|must|..];
    Cover.GreedyWithinHarmonic(c.cl, changed, must, c.selected[|must|..], family);
  }

  /** In fact H(d) times them, where no main of the family reaches more than d of those sources. */
  lemma ChoiceWithinChvatal(edges: Edges, mains: seq<string>, changed: set<string>, workers: nat, c: Choice,
                            bins: seq<seq<string>>, family: seq<string>, d: nat)
    requires Chosen(edges, mains, changed, workers, c, bins) && Rival(edges, mains, changed, family)
    requires forall f :: f in family ==> |set s | s in AllLeft(edges, mains, changed) && Reaches(edges, f, s)| <= d
    ensures |Extra(c, changed)| as real <= Cover.H(d) * |Split.Files(c.cl.files, family)| as real
  {
    hide Cover.Covered, Cover.GreedyRun, Cover.Cost, Reaches, Split.IsLptSplit, AllLeft, Extra, Split.Files, Rival, Cover.H;
    hide Cover.Gain;
    var must := Cover.ChangedMains(mains, changed);
    ExtraCosts(mains, c, changed);
    LeftIs(edges, mains, changed, c.cl);
    RivalCovers(edges, mains, changed, c.cl, family);
    CostIsFiles(c.cl, family);
    assert c.selected == must + c.selected[|must|..];
    forall f | f in family ensures Cover.Gain(c.cl, AllLeft(edges, mains, changed), f) <= d {
      GainIs(edges, mains, c.cl, AllLeft(edges, mains, changed), f);
    }
    Cover.GreedyWithinChvatal(c.cl, changed, must, c.selected[|must|..], family, d);
  }

  lemma GainIs(edges: Edges, mains: seq<string>, cl: Cover.Closures, left: set<string>, f: string)
    requires ClosuresAre(edges, mains, cl) && f in cl.files
    ensures Cover.Gain(cl, left, f) == |set s | s in left && Reaches(edges, f, s)|
  {
    hide Reaches;
    assert Cover.Files(cl, f) * left == set s | s in left && Reaches(edges, f, s);
  }

  /** The split is even: no bin is heavier than 4/3 - 1/(3m) times the heaviest bin of any split of the same selection. */
  lemma ChoiceIsEven(edges: Edges, mains: seq<string>, changed: set<string>, workers: nat, c: Choice,
                     bins: seq<seq<string>>, bin: seq<string>, rival: seq<seq<string>>, M: nat)
    requires workers > 0 && Chosen(edges, mains, changed, workers, c, bins) && bin in bins
    requires Split.IsSplit(rival, c.selected, workers)
    requires forall r :: r in rival ==> |Split.Files(c.cl.files, r)| <= M
    ensures 3 * (workers * |Split.Files(c.cl.files, bin)|) + M <= 4 * (workers * M)
  {
    hide Cover.Covered, Cover.Selection, ClosuresAre, Split.Files, Split.IsLptSplit;
    Split.SplitWithinFourThirds(c.cl.files, c.selected, workers, c.placed, bins, bin, rival, M);
  }

  /** A source to be done that the run cannot bring up to date. */
  ghost predicate Stuck(edges: Edges, mains: seq<string>, previous: Stamps, current: Stamps, todo: set<string>, s: string) {
    s in todo && !Coverable(edges, mains, previous, current, s)
  }

  lemma ServesAll(edges: Edges, mains: seq<string>, changed: set<string>, workers: int, bins: seq<seq<string>>)
    requires Serves(edges, mains, changed, workers, bins)
    ensures |bins| <= workers && [] !in bins && Distinct(Flatten(bins))
    ensures forall main :: main in Flatten(bins) ==> main in mains
    ensures forall main :: main in mains && main in changed ==> main in Flatten(bins)
    ensures forall s :: s in changed ==> exists bin, main :: bin in bins && main in bin && Reaches(edges, main, s)
  {
    hide Flatten, Distinct, Reaches;
    forall s | s in changed ensures exists bin, main :: bin in bins && main in bin && Reaches(edges, main, s) {
      assert InSomeBin(edges, bins, s);
      var k :| 0 <= k < |bins| && ReachedFrom(edges, bins[k], s);
      assert bins[k] in bins;
    }
  }

  /** The planning part of the switch: a baseline is needed exactly when none is stored; otherwise nothing is done exactly
      when nothing changed or is listed, a full prepare is needed exactly when some such source cannot be covered, and else
      the bins of a greedy cover and a longest-first split serve every change. */
  method PlanReindex(mains: seq<string>, edges: Edges, baseline: Baseline, current: Stamps, listed: set<string>, workers: int)
    returns (r: Action, ghost choice: Option<Choice>)
    requires Distinct(mains)
    ensures r.NeedsBaseline? <==> !baseline.Stored?
    ensures baseline.Stored? ==>
              var todo := ToDo(baseline.stamps, current, listed);
              && (r.Nothing? <==> todo == {})
              && (r.NeedsPrepare? <==> exists s :: Stuck(edges, mains, baseline.stamps, current, todo, s))
              && (r.NeedsPrepare? ==> forall s :: s in r.uncovered <==> Stuck(edges, mains, baseline.stamps, current, todo, s))
              && (r.Reindex? ==>
                    && |r.bins| <= workers && [] !in r.bins && Distinct(Flatten(r.bins))
                    && (forall main :: main in Flatten(r.bins) ==> main in mains)
                    && (forall main :: main in mains && main in todo ==> main in Flatten(r.bins))
                    && (forall s :: s in todo ==> exists bin, main :: bin in r.bins && main in bin && Reaches(edges, main, s))
                    && workers > 0 && choice.Some? && Chosen(edges, mains, todo, workers, choice.value, r.bins))
              && (r.NoHeadroom? ==> workers <= 0)
  {
    hide Reaches, ReachedFrom, Serves, Cover.Covered, Changed, Chosen, InSomeBin, Flatten, Distinct;
    choice := None;
    if baseline.Missing? { return NeedsBaseline("missing-baseline"), choice; }
    if baseline.Stale? { return NeedsBaseline("stale-baseline"), choice; }
    var previous := baseline.stamps;
    var changed := ToDo(previous, current, listed);
    if changed == {} { return Nothing, choice; }
    var cl := AllClosures(edges, mains);
    var covered := Cover.Covered(cl, mains);
    var uncovered := set s | s in changed && (s !in covered || StampOf(current, s).None? || StampOf(previous, s).None?);
    forall s ensures s in uncovered <==> Stuck(edges, mains, previous, current, changed, s) {
      CoveredIsReached(edges, mains, cl, mains, s);
    }
    if uncovered != {} {
      var s :| s in uncovered;
      assert Stuck(edges, mains, previous, current, changed, s);
      return NeedsPrepare(uncovered), choice;
    }
    forall s | s in changed ensures s in covered { assert s !in uncovered; }
    if workers <= 0 { return NoHeadroom, choice; }
    var bins;
    ghost var c;
    bins, c := PlanBins(edges, mains, cl, changed, workers);
    ServesAll(edges, mains, changed, workers, bins);
    return Reindex(bins), Some(c);
  }
}
