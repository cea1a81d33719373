/** `select_cover`: the changed mains, then greedily the main that covers most per included file. */
module GreedyCover {
  import opened Prelude

  /** A dictionary of closures: Python iterates it in insertion order. */
  datatype Closures = Closures(order: seq<string>, files: map<string, set<string>>) {
    ghost predicate Valid() {
      && Distinct(order)
      && (forall main :: main in order <==> main in files)
      && forall main :: main in files ==> files[main] != {}
    }
  }

  function Files(cl: Closures, main: string): set<string> {
    if main in cl.files then cl.files[main] else {}
  }

  function Covered(cl: Closures, mains: seq<string>): set<string> {
    if mains == [] then {} else Covered(cl, Init(mains)) + Files(cl, Last(mains))
  }

  function Cost(cl: Closures, mains: seq<string>): nat {
    if mains == [] then 0 else Cost(cl, Init(mains)) + |Files(cl, Last(mains))|
  }

  function Gain(cl: Closures, remaining: set<string>, main: string): nat {
    |Files(cl, main) * remaining|
  }

  /** The mains that changed themselves, in dictionary order. */
  function ChangedMains(order: seq<string>, changed: set<string>): seq<string> {
    if order == [] then []
    else ChangedMains(Init(order), changed) + if Last(order) in changed then [Last(order)] else []
  }

  /** At the price of `s` for every `c` files, `x` files cost at most `cost`. */
  predicate Pays(s: nat, x: nat, c: nat, cost: nat) {
    s * x <= c * cost
  }

  /** `p` covers at least as much per included file as `q`; exact ratios, cross-multiplied. */
  predicate AtLeast(cl: Closures, remaining: set<string>, p: string, q: string) {
    Pays(|Files(cl, p)|, Gain(cl, remaining, q), Gain(cl, remaining, p), |Files(cl, q)|)
  }

  /** The candidate at position `i` is the first with the best ratio. */
  predicate BestAt(cl: Closures, candidates: seq<string>, remaining: set<string>, i: nat) {
    && i < |candidates|
    && (forall j :: 0 <= j < |candidates| ==> AtLeast(cl, remaining, candidates[i], candidates[j]))
    && (forall j :: 0 <= j < i ==> !AtLeast(cl, remaining, candidates[j], candidates[i]))
  }

  function Candidates(order: seq<string>, selected: seq<string>): seq<string> {
    if order == [] then []
    else Candidates(Init(order), selected) + if Last(order) in selected then [] else [Last(order)]
  }

  predicate GreedyPick(cl: Closures, changed: set<string>, selected: seq<string>, pick: string) {
    var remaining := changed - Covered(cl, selected);
    && Gain(cl, remaining, pick) > 0
    && exists i :: 0 <= i < |Candidates(cl.order, selected)| && Candidates(cl.order, selected)[i] == pick
                   && BestAt(cl, Candidates(cl.order, selected), remaining, i)
  }

  /** Every pick after the first `from` is the greedy one for what was then left to cover. */
  predicate GreedyRun(cl: Closures, changed: set<string>, selected: seq<string>, from: nat) {
    |selected| > from ==>
      GreedyRun(cl, changed, Init(selected), from) && GreedyPick(cl, changed, Init(selected), Last(selected))
  }

  // ---- facts about the parts ----------------------------------------------------------------

  lemma {:induction false} CandidatesAre(order: seq<string>, selected: seq<string>, main: string)
    ensures main in Candidates(order, selected) <==> main in order && main !in selected
  {
    if order != [] {
      CandidatesAre(Init(order), selected, main);
      assert main in order <==> main in Init(order) || main == Last(order);
    }
  }

  lemma {:induction false} ChangedMainsAre(order: seq<string>, changed: set<string>, main: string)
    ensures main in ChangedMains(order, changed) <==> main in order && main in changed
  {
    if order != [] {
      ChangedMainsAre(Init(order), changed, main);
      assert main in order <==> main in Init(order) || main == Last(order);
    }
  }

  lemma {:induction false} ChangedMainsDistinct(order: seq<string>, changed: set<string>)
    requires Distinct(order)
    ensures Distinct(ChangedMains(order, changed))
  {
    if order != [] {
      ChangedMainsDistinct(Init(order), changed);
      ChangedMainsAre(Init(order), changed, Last(order));
    }
  }

  lemma {:induction false} CoveredHas(cl: Closures, mains: seq<string>, main: string)
    requires main in mains
    ensures Files(cl, main) <= Covered(cl, mains)
  {
    if main != Last(mains) {
      assert main in Init(mains);
      CoveredHas(cl, Init(mains), main);
    }
  }

  lemma {:induction false} CoveredFrom(cl: Closures, mains: seq<string>, file: string) returns (main: string)
    requires file in Covered(cl, mains)
    ensures main in mains && file in Files(cl, main)
  {
    if file in Files(cl, Last(mains)) {
      main := Last(mains);
    } else {
      main := CoveredFrom(cl, Init(mains), file);
    }
  }

  // ---- the H(r) bound -----------------------------------------------------------------------

  function H(n: nat): real {
    if n == 0 then 0.0 else H(n - 1) + 1.0 / n as real
  }

  lemma Reciprocals(j: nat, r: nat)
    requires 0 < j <= r
    ensures 1.0 / r as real <= 1.0 / j as real
  {
    UnitShare(r, j);
    assert 1.0 / r as real * r as real == 1.0;
    Cancel(1.0 / r as real, 1.0 / j as real, r as real);
  }

  lemma {:induction false} HarmonicRun(n: nat, c: nat)
    requires n > 0
    ensures H(n + c) <= H(n) + c as real / n as real
  {
    if c > 0 {
      HarmonicRun(n, c - 1);
      Reciprocals(n, n + c);
      assert (c - 1) as real / n as real + 1.0 / n as real == c as real / n as real;
    }
  }

  /** H grows like the logarithm: doubling the number of files adds at most one. */
  lemma HarmonicDoubles(n: nat)
    ensures H(0) == 0.0 && H(1) == 1.0 && (n > 0 ==> H(2 * n) <= H(n) + 1.0)
  {
    assert H(1) == H(0) + 1.0 / 1.0;
    if n > 0 { HarmonicRun(n, n); }
  }

  lemma {:induction false} HarmonicGap(r: nat, c: nat)
    requires 0 < r && c <= r
    ensures (H(r) - H(r - c)) * r as real >= c as real
  {
    if c > 0 {
      HarmonicGap(r, c - 1);
      var j := r - c + 1;
      UnitShare(r, j);
      assert H(r) - H(r - c) == (H(r) - H(j)) + 1.0 / j as real;
      assert ((H(r) - H(j)) + 1.0 / j as real) * r as real
          == (H(r) - H(j)) * r as real + 1.0 / j as real * r as real;
    }
  }

  lemma UnitShare(r: nat, j: nat)
    requires 0 < j <= r
    ensures 1.0 / j as real * r as real >= 1.0
  {
    assert 1.0 / j as real * j as real == 1.0;
    assert 1.0 / j as real > 0.0;
    assert 1.0 / j as real * (r - j) as real >= 0.0;
    assert 1.0 / j as real * r as real == 1.0 / j as real * j as real + 1.0 / j as real * (r - j) as real;
  }

  lemma PaysMore(s: nat, x: nat, y: nat, z: nat, c: nat, costY: nat, costZ: nat)
    requires Pays(s, y, c, costY) && Pays(s, z, c, costZ) && x <= y + z
    ensures Pays(s, x, c, costY + costZ)
  {
    assert s * (y + z - x) >= 0;
    assert s * (y + z) == s * y + s * z;
    assert c * (costY + costZ) == c * costY + c * costZ;
  }

  lemma PaysNothing(s: nat, c: nat)
    ensures Pays(s, 0, c, 0)
  {
  }

  lemma CoveredSplits(cl: Closures, remaining: set<string>, family: seq<string>)
    requires family != []
    ensures |remaining * Covered(cl, family)|
            <= |remaining * Covered(cl, Init(family))| + Gain(cl, remaining, Last(family))
  {
    var before, mine := remaining * Covered(cl, Init(family)), Files(cl, Last(family)) * remaining;
    assert remaining * Covered(cl, family) == before + mine;
  }

  /** What a family covers costs it at least the greedy pick's price per file. */
  lemma {:induction false} FamilyPays(cl: Closures, remaining: set<string>, family: seq<string>, s: nat, c: nat)
    requires forall f :: f in family ==> Pays(s, Gain(cl, remaining, f), c, |Files(cl, f)|)
    ensures Pays(s, |remaining * Covered(cl, family)|, c, Cost(cl, family))
  {
    hide Pays, Gain, Files;
    if family == [] {
      assert remaining * Covered(cl, family) == {};
      PaysNothing(s, c);
    } else {
      var f := Last(family);
      assert family == Init(family) + [f];
      FamilyPays(cl, remaining, Init(family), s, c);
      CoveredSplits(cl, remaining, family);
      PaysMore(s, |remaining * Covered(cl, family)|, |remaining * Covered(cl, Init(family))|, Gain(cl, remaining, f),
               c, Cost(cl, Init(family)), |Files(cl, f)|);
    }
  }

  lemma NoGain(cl: Closures, changed: set<string>, selected: seq<string>, f: string, s: nat, c: nat)
    requires f in selected
    ensures Pays(s, Gain(cl, changed - Covered(cl, selected), f), c, |Files(cl, f)|)
  {
    CoveredHas(cl, selected, f);
    assert Files(cl, f) * (changed - Covered(cl, selected)) == {};
  }

  lemma CandidatePays(cl: Closures, changed: set<string>, selected: seq<string>, pick: string, f: string)
    requires GreedyPick(cl, changed, selected, pick)
    requires f in cl.order && f !in selected
    ensures var remaining := changed - Covered(cl, selected);
            Pays(|Files(cl, pick)|, Gain(cl, remaining, f), Gain(cl, remaining, pick), |Files(cl, f)|)
  {
    CandidatesAre(cl.order, selected, f);
    assert AtLeast(cl, changed - Covered(cl, selected), pick, f);
  }

  /** Price per covered file: no family covering what is left is cheaper per file than the greedy pick. */
  lemma PickIsCheap(cl: Closures, changed: set<string>, selected: seq<string>, pick: string, family: seq<string>)
    requires cl.Valid() && GreedyPick(cl, changed, selected, pick)
    requires forall f :: f in family ==> f in cl.files
    requires changed - Covered(cl, selected) <= Covered(cl, family)
    ensures var remaining := changed - Covered(cl, selected);
            Pays(|Files(cl, pick)|, |remaining|, Gain(cl, remaining, pick), Cost(cl, family))
  {
    var remaining := changed - Covered(cl, selected);
    var s, c := |Files(cl, pick)|, Gain(cl, remaining, pick);
    forall f | f in family ensures Pays(s, Gain(cl, remaining, f), c, |Files(cl, f)|) {
      if f in selected {
        NoGain(cl, changed, selected, f, s, c);
      } else {
        CandidatePays(cl, changed, selected, pick, f);
      }
    }
    FamilyPays(cl, remaining, family, s, c);
    assert remaining * Covered(cl, family) == remaining;
  }

  /** Cost `s` is paid for by the drop from the harmonic number of `r` to that of `rest`. */
  predicate Charged(s: nat, r: nat, rest: nat, total: nat) {
    s as real <= (H(r) - H(rest)) * total as real
  }

  lemma Cancel(x: real, y: real, r: real)
    requires r > 0.0 && x * r <= y * r
    ensures x <= y
  {
    assert (y - x) * r == y * r - x * r;
    NotNegative(y - x, r);
  }

  lemma NotNegative(d: real, r: real)
    requires r > 0.0 && d * r >= 0.0
    ensures d >= 0.0
  {
  }

  lemma Scale(x: real, y: real, by': real)
    requires x <= y && by' >= 0.0
    ensures x * by' <= y * by'
  {
    assert (y - x) * by' >= 0.0;
  }

  lemma PaysReal(s: nat, x: nat, c: nat, cost: nat)
    requires Pays(s, x, c, cost)
    ensures s as real * x as real <= c as real * cost as real
  {
    assert (s * x) as real == s as real * x as real;
    assert (c * cost) as real == c as real * cost as real;
  }

  lemma StepArithmetic(s: nat, r: nat, c: nat, total: nat)
    requires 0 < c <= r && Pays(s, r, c, total)
    ensures Charged(s, r, r - c, total)
  {
    var gap := H(r) - H(r - c);
    PaysReal(s, r, c, total);
    HarmonicGap(r, c);
    Scale(c as real, gap * r as real, total as real);
    assert (gap * r as real) * total as real == (gap * total as real) * r as real;
    Cancel(s as real, gap * total as real, r as real);
  }

  lemma ChargedMore(s: nat, t: nat, r: nat, mid: nat, rest: nat, total: nat)
    requires Charged(s, r, mid, total) && Charged(t, mid, rest, total)
    ensures Charged(s + t, r, rest, total)
  {
    var a, b, c, T := H(r), H(mid), H(rest), total as real;
    assert (a - b) * T + (b - c) * T == (a - c) * T;
  }

  lemma PickShrinks(cl: Closures, changed: set<string>, selected: seq<string>, pick: string)
    ensures var before := changed - Covered(cl, selected);
            var after := changed - Covered(cl, selected + [pick]);
            after == before - Files(cl, pick) * before && |after| == |before| - Gain(cl, before, pick)
  {
    var before := changed - Covered(cl, selected);
    assert Init(selected + [pick]) == selected;
    var mine := Files(cl, pick) * before;
    assert changed - Covered(cl, selected + [pick]) == before - mine;
  }

  function Left(cl: Closures, changed: set<string>, selected: seq<string>): nat {
    |changed - Covered(cl, selected)|
  }

  /** Cost so far against the harmonic numbers of what was left before and after. */
  lemma {:induction false} GreedyCostSoFar(cl: Closures, changed: set<string>, mains: seq<string>, picks: seq<string>,
                                           family: seq<string>)
    requires cl.Valid() && GreedyRun(cl, changed, mains + picks, |mains|)
    requires forall f :: f in family ==> f in cl.files
    requires changed - Covered(cl, mains) <= Covered(cl, family)
    ensures changed - Covered(cl, mains + picks) <= changed - Covered(cl, mains)
    ensures Charged(Cost(cl, picks), Left(cl, changed, mains), Left(cl, changed, mains + picks), Cost(cl, family))
  {
    if picks == [] {
      assert mains + picks == mains;
    } else {
      var selected, pick := mains + Init(picks), Last(picks);
      assert mains + picks == selected + [pick];
      assert Init(mains + picks) == selected;
      GreedyCostSoFar(cl, changed, mains, Init(picks), family);
      PickIsCheap(cl, changed, selected, pick, family);
      PickShrinks(cl, changed, selected, pick);
      var before := changed - Covered(cl, selected);
      StepArithmetic(|Files(cl, pick)|, |before|, Gain(cl, before, pick), Cost(cl, family));
      ChargedMore(Cost(cl, Init(picks)), |Files(cl, pick)|, Left(cl, changed, mains), Left(cl, changed, selected),
                  Left(cl, changed, mains + picks), Cost(cl, family));
    }
  }

  lemma {:induction false} HarmonicPositive(n: nat)
    ensures H(n) >= 0.0
  {
    if n > 0 { HarmonicPositive(n - 1); }
  }

  /** The greedy picks cost at most H(r) times any family covering the r files that were left. */
  lemma GreedyWithinHarmonic(cl: Closures, changed: set<string>, mains: seq<string>, picks: seq<string>,
                             family: seq<string>)
    requires cl.Valid() && GreedyRun(cl, changed, mains + picks, |mains|)
    requires forall f :: f in family ==> f in cl.files
    requires changed - Covered(cl, mains) <= Covered(cl, family)
    ensures WithinHarmonic(Cost(cl, picks), |changed - Covered(cl, mains)|, Cost(cl, family))
  {
    GreedyCostSoFar(cl, changed, mains, picks, family);
    ChargedAtMost(Cost(cl, picks), Left(cl, changed, mains), Left(cl, changed, mains + picks), Cost(cl, family));
  }

  /** `cost` is at most the harmonic number of `r` times `best`. */
  predicate WithinHarmonic(cost: nat, r: nat, best: nat) {
    cost as real <= H(r) * best as real
  }

  lemma ChargedAtMost(s: nat, r: nat, rest: nat, total: nat)
    requires Charged(s, r, rest, total)
    ensures WithinHarmonic(s, r, total)
  {
    HarmonicPositive(rest);
    Scale(H(r) - H(rest), H(r), total as real);
  }

  // ---- Chvatal's bound: H(d), for the most files any one set of the family still has to cover --------

  /** What a set of this cost is charged in all while it still covers `x` files. */
  function Price(x: nat, cost: nat): real {
    H(x) * cost as real
  }

  function Budget(cl: Closures, remaining: set<string>, family: seq<string>): real {
    if family == [] then 0.0
    else Budget(cl, remaining, Init(family)) + Price(Gain(cl, remaining, Last(family)), |Files(cl, Last(family))|)
  }

  /** At the price of `s` for every `c` files, `x` files are charged at most `drop`. */
  predicate Owes(s: nat, x: nat, c: nat, drop: real) {
    s as real * x as real <= c as real * drop
  }

  lemma {:induction false} HarmonicGrows(n: nat, k: nat)
    requires k <= n
    ensures H(n) - H(n - k) >= 0.0
  {
    if k > 0 { HarmonicGrows(n, k - 1); }
  }

  /** One set: the files of it that a pick takes are charged at most by the drop of its price. */
  lemma OwesShare(s: nat, x: nat, k: nat, c: nat, cost: nat)
    requires k <= x && Pays(s, x, c, cost)
    ensures Owes(s, k, c, Price(x, cost) - Price(x - k, cost))
  {
    var gap := H(x) - H(x - k);
    PriceGap(x, k, cost);
    if k > 0 {
      HarmonicGap(x, k);
      HarmonicGrows(x, k);
      PaysReal(s, x, c, cost);
      OwesReal(s as real, x as real, k as real, c as real, cost as real, gap);
    }
  }

  lemma PriceGap(x: nat, k: nat, cost: nat)
    requires k <= x
    ensures Price(x, cost) - Price(x - k, cost) == (H(x) - H(x - k)) * cost as real
  {
    hide H;
  }

  lemma OwesReal(s: real, x: real, k: real, c: real, cost: real, gap: real)
    requires s >= 0.0 && gap >= 0.0 && k <= gap * x && s * x <= c * cost
    ensures s * k <= c * (gap * cost)
  {
    Scale(k, gap * x, s);
    Scale(s * x, c * cost, gap);
    assert (gap * x) * s == (s * x) * gap;
    assert (c * cost) * gap == c * (gap * cost);
  }

  lemma OwesNothing(s: nat, c: nat)
    ensures Owes(s, 0, c, 0.0)
  {
  }

  lemma OwesMore(s: nat, x: nat, y: nat, z: nat, c: nat, a: real, b: real)
    requires x <= y + z && Owes(s, y, c, a) && Owes(s, z, c, b)
    ensures Owes(s, x, c, a + b)
  {
    Scale(x as real, (y + z) as real, s as real);
    var r, p := s as real, c as real;
    assert (y + z) as real * r == r * y as real + r * z as real;
    assert p * (a + b) == p * a + p * b;
  }

  lemma OwesAll(s: nat, c: nat, drop: real)
    requires c > 0 && Owes(s, c, c, drop)
    ensures s as real <= drop
  {
    assert c as real * drop == drop * c as real;
    Cancel(s as real, drop, c as real);
  }

  lemma GainsDrop(cl: Closures, remaining: set<string>, taken: set<string>, f: string)
    requires taken <= remaining
    ensures Gain(cl, remaining - taken, f) == Gain(cl, remaining, f) - Gain(cl, taken, f)
    ensures Gain(cl, taken, f) <= Gain(cl, remaining, f)
  {
    var all, mine := Files(cl, f) * remaining, Files(cl, f) * taken;
    assert Files(cl, f) * (remaining - taken) == all - mine && mine <= all;
  }

  /** The files a pick takes are charged to the sets of the family that hold them. */
  lemma {:induction false} FamilyIsCharged(cl: Closures, remaining: set<string>, taken: set<string>, family: seq<string>,
                                           s: nat, c: nat)
    requires taken <= remaining && forall f :: f in family ==> Pays(s, Gain(cl, remaining, f), c, |Files(cl, f)|)
    ensures Owes(s, |taken * Covered(cl, family)|, c, Budget(cl, remaining, family) - Budget(cl, remaining - taken, family))
  {
    hide Owes, Price, Gain, Files, Pays, H;
    if family == [] {
      assert taken * Covered(cl, family) == {};
      OwesNothing(s, c);
    } else {
      var f, before := Last(family), Init(family);
      FamilyIsCharged(cl, remaining, taken, before, s, c);
      CoveredSplits(cl, taken, family);
      GainsDrop(cl, remaining, taken, f);
      var x, k, cost := Gain(cl, remaining, f), Gain(cl, taken, f), |Files(cl, f)|;
      OwesShare(s, x, k, c, cost);
      OwesMore(s, |taken * Covered(cl, family)|, |taken * Covered(cl, before)|, k, c,
               Budget(cl, remaining, before) - Budget(cl, remaining - taken, before), Price(x, cost) - Price(x - k, cost));
    }
  }

  lemma AllPay(cl: Closures, changed: set<string>, selected: seq<string>, pick: string, family: seq<string>)
    requires cl.Valid() && GreedyPick(cl, changed, selected, pick) && forall f :: f in family ==> f in cl.files
    ensures var remaining := changed - Covered(cl, selected);
            forall f :: f in family ==>
              Pays(|Files(cl, pick)|, Gain(cl, remaining, f), Gain(cl, remaining, pick), |Files(cl, f)|)
  {
    hide Pays, Files, Covered, Gain, GreedyPick;
    var remaining := changed - Covered(cl, selected);
    var s, c := |Files(cl, pick)|, Gain(cl, remaining, pick);
    forall f | f in family ensures Pays(s, Gain(cl, remaining, f), c, |Files(cl, f)|) {
      if f in selected {
        NoGain(cl, changed, selected, f, s, c);
      } else {
        CandidatePays(cl, changed, selected, pick, f);
      }
    }
  }

  /** One pick costs at most what the budget drops by. */
  lemma PickIsBudgeted(cl: Closures, changed: set<string>, selected: seq<string>, pick: string, family: seq<string>)
    requires cl.Valid() && GreedyPick(cl, changed, selected, pick)
    requires forall f :: f in family ==> f in cl.files
    requires changed - Covered(cl, selected) <= Covered(cl, family)
    ensures |Files(cl, pick)| as real
            <= Budget(cl, changed - Covered(cl, selected), family)
               - Budget(cl, changed - Covered(cl, selected + [pick]), family)
  {
    hide Budget, Owes, Pays, Covered, Files;
    var remaining := changed - Covered(cl, selected);
    var taken := Files(cl, pick) * remaining;
    AllPay(cl, changed, selected, pick, family);
    FamilyIsCharged(cl, remaining, taken, family, |Files(cl, pick)|, Gain(cl, remaining, pick));
    PickShrinks(cl, changed, selected, pick);
    assert taken * Covered(cl, family) == taken;
    OwesAll(|Files(cl, pick)|, |taken|, Budget(cl, remaining, family) - Budget(cl, remaining - taken, family));
  }

  /** The picks so far cost at most what the budget dropped by. */
  lemma {:induction false} GreedyIsBudgeted(cl: Closures, changed: set<string>, mains: seq<string>, picks: seq<string>,
                                            family: seq<string>)
    requires cl.Valid() && GreedyRun(cl, changed, mains + picks, |mains|)
    requires forall f :: f in family ==> f in cl.files
    requires changed - Covered(cl, mains) <= Covered(cl, family)
    ensures changed - Covered(cl, mains + picks) <= changed - Covered(cl, mains)
    ensures Cost(cl, picks) as real
            <= Budget(cl, changed - Covered(cl, mains), family) - Budget(cl, changed - Covered(cl, mains + picks), family)
  {
    hide Budget, GreedyPick, Covered, Files;
    if picks == [] {
      assert mains + picks == mains;
    } else {
      var selected, pick := mains + Init(picks), Last(picks);
      assert mains + picks == selected + [pick];
      assert Init(mains + picks) == selected;
      GreedyIsBudgeted(cl, changed, mains, Init(picks), family);
      PickIsBudgeted(cl, changed, selected, pick, family);
      PickShrinks(cl, changed, selected, pick);
    }
  }

  lemma PriceWithin(x: nat, d: nat, cost: nat)
    requires x <= d
    ensures 0.0 <= Price(x, cost) <= Price(d, cost)
  {
    HarmonicGrows(d, d - x);
    HarmonicPositive(x);
    Scale(H(x), H(d), cost as real);
    Scale(0.0, H(x), cost as real);
  }

  lemma PricesAdd(d: nat, a: nat, b: nat)
    ensures Price(d, a) + Price(d, b) == Price(d, a + b) && Price(d, 0) == 0.0
  {
    hide H;
    assert (a + b) as real == a as real + b as real;
  }

  lemma {:induction false} BudgetWithin(cl: Closures, remaining: set<string>, family: seq<string>, d: nat)
    requires forall f :: f in family ==> Gain(cl, remaining, f) <= d
    ensures 0.0 <= Budget(cl, remaining, family) <= Price(d, Cost(cl, family))
  {
    hide Price, Gain, Files;
    if family == [] {
      PricesAdd(d, 0, 0);
    } else {
      BudgetWithin(cl, remaining, Init(family), d);
      PriceWithin(Gain(cl, remaining, Last(family)), d, |Files(cl, Last(family))|);
      PricesAdd(d, Cost(cl, Init(family)), |Files(cl, Last(family))|);
    }
  }

  lemma {:induction false} BudgetPositive(cl: Closures, remaining: set<string>, family: seq<string>)
    ensures Budget(cl, remaining, family) >= 0.0
  {
    hide Price, Gain, Files;
    if family != [] {
      BudgetPositive(cl, remaining, Init(family));
      PriceWithin(Gain(cl, remaining, Last(family)), Gain(cl, remaining, Last(family)), |Files(cl, Last(family))|);
    }
  }

  /** Chvatal's bound: the greedy picks cost at most H(d) times any family covering the files that were left, where no set of
      the family holds more than d of those. */
  lemma GreedyWithinChvatal(cl: Closures, changed: set<string>, mains: seq<string>, picks: seq<string>,
                            family: seq<string>, d: nat)
    requires cl.Valid() && GreedyRun(cl, changed, mains + picks, |mains|)
    requires forall f :: f in family ==> f in cl.files
    requires changed - Covered(cl, mains) <= Covered(cl, family)
    requires forall f :: f in family ==> Gain(cl, changed - Covered(cl, mains), f) <= d
    ensures WithinHarmonic(Cost(cl, picks), d, Cost(cl, family))
  {
    hide Budget, GreedyRun, Covered, Gain, Cost;
    GreedyIsBudgeted(cl, changed, mains, picks, family);
    BudgetWithin(cl, changed - Covered(cl, mains), family, d);
    BudgetPositive(cl, changed - Covered(cl, mains + picks), family);
  }

  // ---- the selection loop -------------------------------------------------------------------

  function Known(cl: Closures): set<string> {
    set main, file | main in cl.files && file in cl.files[main] :: file
  }

  lemma AtLeastTransitive(cl: Closures, remaining: set<string>, p: string, q: string, r: string)
    requires Files(cl, q) != {}
    requires AtLeast(cl, remaining, p, q) && AtLeast(cl, remaining, q, r)
    ensures AtLeast(cl, remaining, p, r)
  {
    RatioTransitive(|Files(cl, p)|, Gain(cl, remaining, p), |Files(cl, q)|, Gain(cl, remaining, q),
                    |Files(cl, r)|, Gain(cl, remaining, r));
  }

  lemma RatioTransitive(sp: nat, gp: nat, sq: nat, gq: nat, sr: nat, gr: nat)
    requires sq > 0 && Pays(sp, gq, gp, sq) && Pays(sq, gr, gq, sr)
    ensures Pays(sp, gr, gp, sr)
  {
    ProductMonotone(sp * gq, gp * sq, sr);
    ProductMonotone(sq * gr, gq * sr, sp);
    assert (sp * gq) * sr == sp * (gq * sr);
    assert sp * (sq * gr) == (sp * gr) * sq;
    assert (gp * sq) * sr == (gp * sr) * sq;
    ProductCancel(sp * gr, gp * sr, sq);
  }

  lemma ProductMonotone(x: nat, y: nat, k: nat)
    requires x <= y
    ensures x * k <= y * k && k * x <= k * y
  {
    assert (y - x) * k >= 0;
  }

  lemma ProductCancel(x: nat, y: nat, k: nat)
    requires k > 0 && x * k <= y * k
    ensures x <= y
  {
    assert (y - x) * k >= 0;
  }

  lemma AtLeastTotal(cl: Closures, remaining: set<string>, p: string, q: string)
    ensures AtLeast(cl, remaining, p, q) || AtLeast(cl, remaining, q, p)
  {
  }

  /** `max(candidates, key=ratio)`: the first candidate whose ratio no other exceeds. */
  method MaxRatio(cl: Closures, candidates: seq<string>, remaining: set<string>) returns (best: nat)
    requires candidates != []
    requires forall f :: f in candidates ==> Files(cl, f) != {}
    ensures BestAt(cl, candidates, remaining, best)
  {
    best := 0;
    var i := 1;
    while i < |candidates|
      invariant best < i <= |candidates|
      invariant forall j :: 0 <= j < i ==> AtLeast(cl, remaining, candidates[best], candidates[j])
      invariant forall j :: 0 <= j < best ==> !AtLeast(cl, remaining, candidates[j], candidates[best])
    {
      if AtLeast(cl, remaining, candidates[best], candidates[i]) {
      } else {
        forall j | 0 <= j < i
          ensures AtLeast(cl, remaining, candidates[i], candidates[j])
          ensures !AtLeast(cl, remaining, candidates[j], candidates[i])
        {
          AtLeastTotal(cl, remaining, candidates[best], candidates[i]);
          AtLeastTransitive(cl, remaining, candidates[i], candidates[best], candidates[j]);
          if AtLeast(cl, remaining, candidates[j], candidates[i]) {
            AtLeastTransitive(cl, remaining, candidates[best], candidates[j], candidates[i]);
          }
        }
        best := i;
      }
      i := i + 1;
    }
  }

  method BestCandidate(cl: Closures, candidates: seq<string>, ghost selected: seq<string>, remaining: set<string>)
      returns (best: nat)
    requires cl.Valid() && candidates == Candidates(cl.order, selected) && candidates != []
    ensures BestAt(cl, candidates, remaining, best)
  {
    forall f | f in candidates ensures Files(cl, f) != {} {
      CandidatesAre(cl.order, selected, f);
    }
    best := MaxRatio(cl, candidates, remaining);
  }

  /** A candidate that covers something forces the best one to cover something too. */
  lemma BestGains(cl: Closures, candidates: seq<string>, remaining: set<string>, best: nat, j: nat)
    requires BestAt(cl, candidates, remaining, best)
    requires j < |candidates| && Gain(cl, remaining, candidates[j]) > 0 && Files(cl, candidates[best]) != {}
    ensures Gain(cl, remaining, candidates[best]) > 0
  {
    assert AtLeast(cl, remaining, candidates[best], candidates[j]);
    SomethingForSomething(|Files(cl, candidates[best])|, Gain(cl, remaining, candidates[j]),
                          Gain(cl, remaining, candidates[best]), |Files(cl, candidates[j])|);
  }

  lemma SomethingForSomething(s: nat, x: nat, c: nat, cost: nat)
    requires Pays(s, x, c, cost) && s > 0 && x > 0
    ensures c > 0
  {
    assert s * x >= 1;
  }

  /** While something known is left, some candidate still covers part of it. */
  lemma SomeCandidateGains(cl: Closures, changed: set<string>, selected: seq<string>) returns (j: nat)
    requires cl.Valid() && changed <= Known(cl) && changed - Covered(cl, selected) != {}
    ensures j < |Candidates(cl.order, selected)|
    ensures Gain(cl, changed - Covered(cl, selected), Candidates(cl.order, selected)[j]) > 0
  {
    var file :| file in changed - Covered(cl, selected);
    var main :| main in cl.files && file in cl.files[main];
    if main in selected {
      CoveredHas(cl, selected, main);
    }
    CandidatesAre(cl.order, selected, main);
    j :| 0 <= j < |Candidates(cl.order, selected)| && Candidates(cl.order, selected)[j] == main;
    assert file in Files(cl, main) * (changed - Covered(cl, selected));
  }

  /** `candidates.pop(best)`. */
  lemma {:induction false} CandidatesPop(order: seq<string>, selected: seq<string>, i: nat)
    requires Distinct(order) && i < |Candidates(order, selected)|
    ensures var c := Candidates(order, selected); Candidates(order, selected + [c[i]]) == c[..i] + c[i + 1..]
  {
    var c := Candidates(order, selected);
    CandidatesAre(Init(order), selected, Last(order));
    if i < |Candidates(Init(order), selected)| {
      CandidatesAre(Init(order), selected, c[i]);
      assert c[i] in Init(order) && c[i] != Last(order);
      CandidatesPop(Init(order), selected, i);
      assert Last(order) in selected + [c[i]] <==> Last(order) in selected;
    } else {
      CandidatesWithout(Init(order), selected, c[i]);
    }
  }

  lemma {:induction false} CandidatesWithout(order: seq<string>, selected: seq<string>, extra: string)
    requires extra !in order
    ensures Candidates(order, selected + [extra]) == Candidates(order, selected)
  {
    if order != [] {
      CandidatesWithout(Init(order), selected, extra);
    }
  }

  /** What holds of a selection at every turn of the loop. */
  ghost predicate Selection(cl: Closures, changed: set<string>, selected: seq<string>) {
    && ChangedMains(cl.order, changed) <= selected
    && Distinct(selected)
    && (forall main :: main in selected ==> main in cl.files)
    && GreedyRun(cl, changed, selected, |ChangedMains(cl.order, changed)|)
  }

  lemma FirstSelection(cl: Closures, changed: set<string>)
    requires cl.Valid()
    ensures Selection(cl, changed, ChangedMains(cl.order, changed))
  {
    ChangedMainsDistinct(cl.order, changed);
    forall main | main in ChangedMains(cl.order, changed) ensures main in cl.files {
      ChangedMainsAre(cl.order, changed, main);
    }
  }

  lemma NextSelection(cl: Closures, changed: set<string>, selected: seq<string>, best: nat)
    requires cl.Valid() && changed <= Known(cl) && changed - Covered(cl, selected) != {}
    requires Selection(cl, changed, selected)
    requires BestAt(cl, Candidates(cl.order, selected), changed - Covered(cl, selected), best)
    ensures var candidates := Candidates(cl.order, selected);
            && Selection(cl, changed, selected + [candidates[best]])
            && Gain(cl, changed - Covered(cl, selected), candidates[best]) > 0
            && Candidates(cl.order, selected + [candidates[best]]) == candidates[..best] + candidates[best + 1..]
  {
    var candidates := Candidates(cl.order, selected);
    var pick := candidates[best];
    CandidatesAre(cl.order, selected, pick);
    var j := SomeCandidateGains(cl, changed, selected);
    BestGains(cl, candidates, changed - Covered(cl, selected), best, j);
    CandidatesPop(cl.order, selected, best);
    assert Init(selected + [pick]) == selected;
  }

  /** `select_cover`. It fails exactly when a changed file is in no closure; the inner error cannot occur. */
  method SelectCover(cl: Closures, changed: set<string>) returns (r: Result<seq<string>>)
    requires cl.Valid()
    ensures r.Ok? <==> changed <= Known(cl)
    ensures r.Ok? ==> Selection(cl, changed, r.value)
    ensures r.Ok? ==> changed <= Covered(cl, r.value)
  {
    if !(changed <= Known(cl)) {
      return Err("uncovered-changed-files");
    }
    var selected := ChangedMains(cl.order, changed);
    FirstSelection(cl, changed);
    var remaining := changed - Covered(cl, selected);
    var candidates := Candidates(cl.order, selected);
    while remaining != {}
      invariant Selection(cl, changed, selected)
      invariant candidates == Candidates(cl.order, selected)
      invariant remaining == changed - Covered(cl, selected)
      decreases remaining
    {
      ghost var _ := SomeCandidateGains(cl, changed, selected);
      var best := BestCandidate(cl, candidates, selected, remaining);
      NextSelection(cl, changed, selected, best);
      var pick := candidates[best];
      PickShrinks(cl, changed, selected, pick);
      candidates := candidates[..best] + candidates[best + 1..];
      selected := selected + [pick];
      remaining := remaining - Files(cl, pick) * remaining;
    }
    NothingRemains(changed, Covered(cl, selected));
    r := Ok(selected);
  }

  lemma NothingRemains(changed: set<string>, covered: set<string>)
    requires changed - covered == {}
    ensures changed <= covered
  {
    assert changed <= (changed - covered) + covered;
  }
}
