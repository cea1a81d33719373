/** `split_lpt`: the selected mains, longest closure first, each to the least loaded worker. */
module LptSplit {
  import opened Prelude
  import opened Sorting

  type Closures = map<string, set<string>>

  function Size(closures: Closures, main: string): nat {
    if main in closures then |closures[main]| else 0
  }

  function Sizes(closures: Closures, mains: seq<string>): (r: seq<nat>)
    ensures |r| == |mains|
  {
    seq(|mains|, i requires 0 <= i < |mains| => Size(closures, mains[i]))
  }

  function Sum(xs: seq<nat>): nat {
    if xs == [] then 0 else Sum(Init(xs)) + Last(xs)
  }

  function Weight(closures: Closures, bin: seq<string>): nat {
    Sum(Sizes(closures, bin))
  }

  /** The files that the mains of a bin read, each once for every main that reads it. */
  ghost function Files(closures: Closures, bin: seq<string>): set<(nat, string)> {
    set k: nat, f | k < |bin| && bin[k] in closures && f in closures[bin[k]] :: (k, f)
  }

  ghost function FilesAt(closures: Closures, bin: seq<string>, k: nat): set<(nat, string)>
    requires k < |bin|
  {
    set f | bin[k] in closures && f in closures[bin[k]] :: (k, f)
  }

  lemma {:induction false} PairedWith(k: nat, files: set<string>)
    ensures |set f | f in files :: (k, f)| == |files|
  {
    var paired := set f | f in files :: (k, f);
    if files == {} {
      assert paired == {};
    } else {
      var f :| f in files;
      PairedWith(k, files - {f});
      assert paired == (set g | g in files - {f} :: (k, g)) + {(k, f)};
    }
  }

  lemma SizeIsFiles(closures: Closures, bin: seq<string>, k: nat)
    requires k < |bin|
    ensures Size(closures, bin[k]) == |FilesAt(closures, bin, k)|
  {
    if bin[k] in closures {
      PairedWith(k, closures[bin[k]]);
      assert FilesAt(closures, bin, k) == set f | f in closures[bin[k]] :: (k, f);
    } else {
      assert FilesAt(closures, bin, k) == {};
    }
  }

  /** A bin weighs as many files as its mains read. */
  lemma {:induction false} WeightIsFiles(closures: Closures, bin: seq<string>)
    ensures Weight(closures, bin) == |Files(closures, bin)|
  {
    if bin == [] {
      assert Files(closures, bin) == {};
    } else {
      var n := |bin| - 1;
      WeightIsFiles(closures, Init(bin));
      SizeIsFiles(closures, bin, n);
      assert Init(Sizes(closures, bin)) == Sizes(closures, Init(bin));
      FilesSplit(closures, bin);
    }
  }

  lemma FilesSplit(closures: Closures, bin: seq<string>)
    requires bin != []
    ensures |Files(closures, bin)| == |Files(closures, Init(bin))| + |FilesAt(closures, bin, |bin| - 1)|
  {
    var n := |bin| - 1;
    var before, mine := Files(closures, Init(bin)), FilesAt(closures, bin, n);
    forall p ensures p in Files(closures, bin) <==> p in before + mine {
      if p.0 < n { assert Init(bin)[p.0] == bin[p.0]; }
    }
    assert Files(closures, bin) == before + mine && before !! mine;
  }

  // ---- the stable sort by decreasing closure size -------------------------------------------

  /** `reverse=True` by closure size: a larger one comes first. */
  function Longer(closures: Closures): (string, string) -> bool {
    (a, b) => Size(closures, a) >= Size(closures, b)
  }

  function LongestFirst(closures: Closures, mains: seq<string>): seq<string> {
    Sort(Longer(closures), mains)
  }

  predicate Decreasing(closures: Closures, mains: seq<string>) {
    forall i, j :: 0 <= i < j < |mains| ==> Size(closures, mains[i]) >= Size(closures, mains[j])
  }

  /** `sorted(..., key=size, reverse=True)`: by decreasing number of files, keeping the order of equal numbers. */
  lemma LongestFirstSorts(closures: Closures, mains: seq<string>, size: nat)
    ensures var sorted, ofSize := LongestFirst(closures, mains), (m: string) => m in closures && |closures[m]| == size;
            && multiset(sorted) == multiset(mains) && |sorted| == |mains| && Decreasing(closures, sorted)
            && (forall i, j :: 0 <= i < j < |sorted| && sorted[i] in closures && sorted[j] in closures ==>
                  |closures[sorted[i]]| >= |closures[sorted[j]]|)
            && Select(ofSize, sorted) == Select(ofSize, mains)
  {
    var le := Longer(closures);
    SortPermutes(le, mains);
    SortSorts(le, mains);
    SortIsStable(le, m => m in closures && |closures[m]| == size, mains);
    assert forall i, j :: 0 <= i < j < |Sort(le, mains)| ==> le(Sort(le, mains)[i], Sort(le, mains)[j]);
  }

  lemma SameLength(closures: Closures, mains: seq<string>)
    ensures |LongestFirst(closures, mains)| == |mains|
  {
    SortPermutes(Longer(closures), mains);
  }

  // ---- assignments of jobs to workers -------------------------------------------------------

  /** Total of the quantities `x` that assignment `a` gives to worker `w`. */
  function Load(x: seq<nat>, a: seq<nat>, w: nat): nat
    requires |x| == |a|
  {
    if x == [] then 0 else Load(Init(x), Init(a), w) + if Last(a) == w then Last(x) else 0
  }

  function Loads(x: seq<nat>, a: seq<nat>, m: nat): (r: seq<nat>)
    requires |x| == |a|
    ensures |r| == m
  {
    seq(m, w requires 0 <= w < m => Load(x, a, w))
  }

  predicate Assigns(a: seq<nat>, n: nat, m: nat) {
    |a| == n && forall i :: 0 <= i < n ==> a[i] < m
  }

  /** `loads.index(min(loads))`. */
  function Least(loads: seq<nat>): (w: nat)
    requires loads != []
    ensures w < |loads|
    ensures forall v :: 0 <= v < |loads| ==> loads[w] <= loads[v]
    ensures forall v :: 0 <= v < w ==> loads[w] < loads[v]
  {
    if |loads| == 1 then 0
    else var w := Least(Init(loads)); if Last(loads) < loads[w] then |loads| - 1 else w
  }

  /** Worker `w` is the first of the least loaded ones. */
  predicate IsLeast(x: seq<nat>, a: seq<nat>, m: nat, w: nat)
    requires |x| == |a|
  {
    w < m && forall v :: 0 <= v < m ==> Load(x, a, w) <= Load(x, a, v) && (v < w ==> Load(x, a, w) < Load(x, a, v))
  }

  /** Each job in turn went to the worker that was least loaded by the jobs before it. */
  predicate IsLpt(x: seq<nat>, a: seq<nat>, m: nat) {
    |x| == |a| && (x != [] ==> IsLpt(Init(x), Init(a), m) && IsLeast(Init(x), Init(a), m, Last(a)))
  }

  lemma {:induction false} LptAssigns(x: seq<nat>, a: seq<nat>, m: nat)
    requires IsLpt(x, a, m)
    ensures Assigns(a, |x|, m)
  {
    if x != [] { LptAssigns(Init(x), Init(a), m); }
  }

  lemma {:induction false} LptIsUnique(x: seq<nat>, a: seq<nat>, b: seq<nat>, m: nat)
    requires IsLpt(x, a, m) && IsLpt(x, b, m)
    ensures a == b
  {
    if x != [] {
      LptIsUnique(Init(x), Init(a), Init(b), m);
      assert Load(Init(x), Init(a), Last(a)) == Load(Init(x), Init(a), Last(b));
      assert a == Init(a) + [Last(a)] && b == Init(b) + [Last(b)];
    }
  }

  lemma {:induction false} SumOfLoads(x: seq<nat>, a: seq<nat>, m: nat)
    requires Assigns(a, |x|, m)
    ensures Sum(Loads(x, a, m)) == Sum(x)
  {
    if x == [] {
      SumZero(Loads(x, a, m));
    } else {
      SumOfLoads(Init(x), Init(a), m);
      SumBump(Loads(Init(x), Init(a), m), Last(a), Last(x));
      LoadsStep(x, a, m);
    }
  }

  lemma LoadsStep(x: seq<nat>, a: seq<nat>, m: nat)
    requires x != [] && Assigns(a, |x|, m)
    ensures var before := Loads(Init(x), Init(a), m);
            Loads(x, a, m) == before[Last(a) := before[Last(a)] + Last(x)]
  {
  }

  lemma {:induction false} SumZero(xs: seq<nat>)
    requires forall i :: 0 <= i < |xs| ==> xs[i] == 0
    ensures Sum(xs) == 0
  {
    if xs != [] { SumZero(Init(xs)); }
  }

  lemma {:induction false} SumBump(xs: seq<nat>, w: nat, extra: nat)
    requires w < |xs|
    ensures Sum(xs[w := xs[w] + extra]) == Sum(xs) + extra
  {
    var ys := xs[w := xs[w] + extra];
    if w < |xs| - 1 {
      SumBump(Init(xs), w, extra);
      assert Init(ys) == Init(xs)[w := xs[w] + extra];
    } else {
      assert Init(ys) == Init(xs);
    }
  }

  lemma {:induction false} SumBounds(xs: seq<nat>, low: nat, high: nat)
    requires forall i :: 0 <= i < |xs| ==> low <= xs[i] <= high
    ensures |xs| * low <= Sum(xs) <= |xs| * high
  {
    if xs != [] {
      SumBounds(Init(xs), low, high);
      assert |xs| * low == (|xs| - 1) * low + low && |xs| * high == (|xs| - 1) * high + high;
    }
  }

  lemma LeastIsAverage(x: seq<nat>, a: seq<nat>, m: nat, w: nat)
    requires Assigns(a, |x|, m) && IsLeast(x, a, m, w)
    ensures m * Load(x, a, w) <= Sum(x)
  {
    var loads := Loads(x, a, m);
    SumOfLoads(x, a, m);
    var low := loads[w];
    forall i | 0 <= i < m ensures low <= loads[i] <= Sum(loads) { ElementAtMostSum(loads, i); }
    SumBounds(loads, low, Sum(loads));
  }

  lemma {:induction false} ElementAtMostSum(xs: seq<nat>, i: nat)
    requires i < |xs|
    ensures xs[i] <= Sum(xs)
  {
    if i < |xs| - 1 { ElementAtMostSum(Init(xs), i); }
  }

  // ---- the 4/3 - 1/(3m) bound ---------------------------------------------------------------

  /** A job that cannot share a worker with one of size `p` counts double. */
  function Slots(x: seq<nat>, p: nat, M: nat): (v: seq<nat>)
    ensures |v| == |x|
  {
    seq(|x|, i requires 0 <= i < |x| => if x[i] + p > M then 2 else 1)
  }

  /** In a split within `M`, where three jobs never fit together, no worker holds more than two slots. */
  lemma {:induction false} RivalSlots(x: seq<nat>, a: seq<nat>, w: nat, p: nat, M: nat)
    requires |x| == |a| && 3 * p > M
    requires forall i :: 0 <= i < |x| ==> x[i] >= p
    ensures Load(Slots(x, p, M), a, w) == 1 ==> Load(x, a, w) >= p
    ensures Load(Slots(x, p, M), a, w) >= 2 ==> Load(x, a, w) >= 2 * p || Load(x, a, w) + p > M
    ensures Load(Slots(x, p, M), a, w) >= 3 ==> Load(x, a, w) > M
  {
    if x != [] {
      RivalSlots(Init(x), Init(a), w, p, M);
      assert Init(Slots(x, p, M)) == Slots(Init(x), p, M);
    }
  }

  /** A worker with at most one slot taken has room for a job of size `p`. */
  lemma {:induction false} FreeSlots(x: seq<nat>, a: seq<nat>, w: nat, p: nat, M: nat)
    requires |x| == |a| && p <= M
    ensures Load(Slots(x, p, M), a, w) == 0 ==> Load(x, a, w) == 0
    ensures Load(Slots(x, p, M), a, w) <= 1 ==> Load(x, a, w) + p <= M
  {
    if x != [] {
      FreeSlots(Init(x), Init(a), w, p, M);
      assert Init(Slots(x, p, M)) == Slots(Init(x), p, M);
    }
  }

  /** When the least loaded worker cannot take the shortest job within the rival's makespan, that job is short. */
  lemma LastJobIsShort(x: seq<nat>, a: seq<nat>, rival: seq<nat>, m: nat, M: nat)
    requires m > 0 && x != [] && Assigns(a, |x| - 1, m) && Assigns(rival, |x|, m)
    requires forall i :: 0 <= i < |x| ==> x[i] >= Last(x)
    requires forall w :: 0 <= w < m ==> Load(x, rival, w) <= M
    requires forall w :: 0 <= w < m ==> Load(Init(x), a, w) + Last(x) > M
    ensures 3 * Last(x) <= M
  {
    var p := Last(x);
    if 3 * p > M {
      var v := Slots(x, p, M);
      assert Init(v) == Slots(Init(x), p, M);
      assert Load(x, rival, Last(rival)) >= p;
      forall w | 0 <= w < m ensures 0 <= Loads(v, rival, m)[w] <= 2 { RivalSlots(x, rival, w, p, M); }
      forall w | 0 <= w < m ensures 2 <= Loads(Init(v), a, m)[w] <= 2 * |x| {
        FreeSlots(Init(x), a, w, p, M);
        SlotsAtMost(Init(x), a, w, p, M);
      }
      SumBounds(Loads(v, rival, m), 0, 2);
      SumBounds(Loads(Init(v), a, m), 2, 2 * |x|);
      SumOfLoads(v, rival, m);
      SumOfLoads(Init(v), a, m);
      assert false;
    }
  }

  lemma {:induction false} SlotsAtMost(x: seq<nat>, a: seq<nat>, w: nat, p: nat, M: nat)
    requires |x| == |a|
    ensures Load(Slots(x, p, M), a, w) <= 2 * |x|
  {
    if x != [] {
      SlotsAtMost(Init(x), Init(a), w, p, M);
      assert Init(Slots(x, p, M)) == Slots(Init(x), p, M);
    }
  }

  /** `load` is within 4/3 - 1/(3m) of `M`, multiplied out. */
  predicate FourThirds(m: nat, load: nat, M: nat) {
    3 * (m * load) + M <= 4 * (m * M)
  }

  /** Graham's bound: against every assignment of the same jobs, LPT is within 4/3 - 1/(3m). */
  lemma {:induction false} LptWithinFourThirds(x: seq<nat>, a: seq<nat>, rival: seq<nat>, m: nat, M: nat, w: nat)
    requires m > 0 && w < m && IsLpt(x, a, m) && Assigns(rival, |x|, m)
    requires forall i, j :: 0 <= i < j < |x| ==> x[i] >= x[j]
    requires forall v :: 0 <= v < m ==> Load(x, rival, v) <= M
    ensures FourThirds(m, Load(x, a, w), M)
  {
    if x == [] {
      OptimalIsWithin(m, 0, M);
    } else {
      forall v | 0 <= v < m ensures Load(Init(x), Init(rival), v) <= M { assert Load(x, rival, v) <= M; }
      LptWithinFourThirds(Init(x), Init(a), Init(rival), m, M, w);
      if w == Last(a) {
        LeastTakesLast(x, a, rival, m, M, Load(x, a, w));
      }
    }
  }

  lemma LeastTakesLast(x: seq<nat>, a: seq<nat>, rival: seq<nat>, m: nat, M: nat, load: nat)
    requires m > 0 && x != [] && IsLpt(x, a, m) && Assigns(rival, |x|, m)
    requires forall i, j :: 0 <= i < j < |x| ==> x[i] >= x[j]
    requires forall v :: 0 <= v < m ==> Load(x, rival, v) <= M
    requires load == Load(x, a, Last(a))
    ensures FourThirds(m, load, M)
  {
    if load <= M {
      OptimalIsWithin(m, load, M);
    } else {
      LptAssigns(Init(x), Init(a), m);
      LastJobIsShort(x, Init(a), rival, m, M);
      LeastIsAverage(Init(x), Init(a), m, Last(a));
      TotalWithin(x, rival, m, M);
      ShareArithmetic(m, load, Last(x), M, Sum(Init(x)));
    }
  }

  lemma OptimalIsWithin(m: nat, load: nat, M: nat)
    requires m > 0 && load <= M
    ensures FourThirds(m, load, M)
  {
    assert m * load <= m * M;
    assert M <= m * M;
  }

  lemma TotalWithin(x: seq<nat>, a: seq<nat>, m: nat, M: nat)
    requires Assigns(a, |x|, m)
    requires forall v :: 0 <= v < m ==> Load(x, a, v) <= M
    ensures Sum(x) <= m * M
  {
    SumOfLoads(x, a, m);
    SumBounds(Loads(x, a, m), 0, M);
  }

  lemma ShareArithmetic(m: nat, load: nat, p: nat, M: nat, others: nat)
    requires m > 0 && load >= p && m * (load - p) <= others && others + p <= m * M && 3 * p <= M
    ensures FourThirds(m, load, M)
  {
    assert m * load == m * (load - p) + p + (m - 1) * p;
    assert 3 * ((m - 1) * p) == (m - 1) * (3 * p) <= (m - 1) * M == m * M - M;
  }

  /** `load` is at most total/m + (1 - 1/m) * largest, multiplied out. */
  predicate Average(m: nat, load: nat, total: nat, largest: nat)
    requires m > 0
  {
    m * load <= total + (m - 1) * largest
  }

  /** The classical bound for list scheduling. */
  lemma {:induction false} LptWithinAverage(x: seq<nat>, a: seq<nat>, m: nat, largest: nat, w: nat)
    requires m > 0 && w < m && IsLpt(x, a, m)
    requires forall i :: 0 <= i < |x| ==> x[i] <= largest
    ensures Average(m, Load(x, a, w), Sum(x), largest)
  {
    if x == [] {
      AverageArithmetic(m, 0, 0, largest, 0);
    } else {
      LptWithinAverage(Init(x), Init(a), m, largest, w);
      var L := Load(Init(x), Init(a), w);
      if w == Last(a) {
        LptAssigns(Init(x), Init(a), m);
        LeastIsAverage(Init(x), Init(a), m, w);
        AverageArithmetic(m, L, Last(x), largest, Sum(Init(x)));
      } else {
        AverageGrows(m, L, Sum(Init(x)), Sum(x), largest);
      }
    }
  }

  lemma AverageArithmetic(m: nat, L: nat, p: nat, largest: nat, others: nat)
    requires m > 0 && p <= largest && m * L <= others
    ensures Average(m, L + p, others + p, largest)
  {
    Monotone(m - 1, p, largest);
    assert m * (L + p) == m * L + m * p;
    assert m * p == p + (m - 1) * p;
  }

  lemma Monotone(k: nat, p: nat, largest: nat)
    requires p <= largest
    ensures k * p <= k * largest
  {
    assert k * (largest - p) >= 0;
  }

  lemma AverageGrows(m: nat, load: nat, before: nat, after: nat, largest: nat)
    requires m > 0 && before <= after && Average(m, load, before, largest)
    ensures Average(m, load, after, largest)
  {
  }

  // ---- the returned bins --------------------------------------------------------------------

  function Bin(mains: seq<string>, a: seq<nat>, w: nat): seq<string>
    requires |mains| == |a|
  {
    if mains == [] then []
    else Bin(Init(mains), Init(a), w) + if Last(a) == w then [Last(mains)] else []
  }

  function Bins(mains: seq<string>, a: seq<nat>, m: nat): (r: seq<seq<string>>)
    requires |mains| == |a|
    ensures |r| == m
  {
    seq(m, w requires 0 <= w < m => Bin(mains, a, w))
  }

  function NonEmpty(bins: seq<seq<string>>): (r: seq<seq<string>>)
    ensures |r| <= |bins|
    ensures forall bin :: bin in r <==> bin in bins && bin != []
  {
    if bins == [] then [] else NonEmpty(Init(bins)) + if Last(bins) == [] then [] else [Last(bins)]
  }

  /** The split that the loop builds: `a` places the sorted mains, and empty bins are dropped. */
  predicate IsLptSplit(closures: Closures, selected: seq<string>, m: nat, a: seq<nat>, bins: seq<seq<string>>) {
    var mains := LongestFirst(closures, selected);
    IsLpt(Sizes(closures, mains), a, m) && bins == NonEmpty(Bins(mains, a, m))
  }

  /** Every selected main is in exactly one of at most `m` bins, as often as it was selected. */
  predicate IsSplit(bins: seq<seq<string>>, selected: seq<string>, m: nat) {
    |bins| <= m && multiset(Flatten(bins)) == multiset(selected)
  }

  lemma {:induction false} NonEmptyFlatten(bins: seq<seq<string>>)
    ensures Flatten(NonEmpty(bins)) == Flatten(bins)
  {
    if bins != [] {
      NonEmptyFlatten(Init(bins));
      var before := NonEmpty(Init(bins));
      if Last(bins) == [] {
        assert NonEmpty(bins) == before;
        assert Flatten(Init(bins)) + [] == Flatten(Init(bins));
      } else {
        assert Init(before + [Last(bins)]) == before;
      }
    }
  }

  lemma BinsStep(mains: seq<string>, a: seq<nat>, m: nat)
    requires mains != [] && Assigns(a, |mains|, m)
    ensures var before := Bins(Init(mains), Init(a), m);
            Bins(mains, a, m) == before[Last(a) := before[Last(a)] + [Last(mains)]]
  {
    var before := Bins(Init(mains), Init(a), m);
    forall v | 0 <= v < m && v != Last(a) ensures Bins(mains, a, m)[v] == before[v] {
      assert before[v] + [] == before[v];
    }
  }

  lemma FlattenGrow(bins: seq<seq<string>>, w: nat, main: string)
    requires w < |bins|
    ensures multiset(Flatten(bins[w := bins[w] + [main]])) == multiset(Flatten(bins)) + multiset{main}
  {
    FlattenReplace(bins, w, bins[w] + [main]);
    var before := multiset(Flatten(bins));
    assert before + multiset(bins[w] + [main]) == (before + multiset{main}) + multiset(bins[w]);
    MultisetCancel(multiset(Flatten(bins[w := bins[w] + [main]])), before + multiset{main}, multiset(bins[w]));
  }

  lemma {:induction false} BinsPartition(mains: seq<string>, a: seq<nat>, m: nat)
    requires Assigns(a, |mains|, m)
    ensures multiset(Flatten(Bins(mains, a, m))) == multiset(mains)
  {
    var bins := Bins(mains, a, m);
    if mains == [] {
      if Flatten(bins) != [] {
        FlattenMember(bins, Flatten(bins)[0]);
        assert false;
      }
    } else {
      var before, w := Bins(Init(mains), Init(a), m), Last(a);
      BinsPartition(Init(mains), Init(a), m);
      BinsStep(mains, a, m);
      FlattenGrow(before, w, Last(mains));
      MultisetSnoc(mains);
    }
  }

  lemma {:induction false} BinWeight(closures: Closures, mains: seq<string>, a: seq<nat>, w: nat)
    requires |mains| == |a|
    ensures Weight(closures, Bin(mains, a, w)) == Load(Sizes(closures, mains), a, w)
  {
    if mains != [] {
      var before := Bin(Init(mains), Init(a), w);
      BinWeight(closures, Init(mains), Init(a), w);
      assert Init(Sizes(closures, mains)) == Sizes(closures, Init(mains));
      if Last(a) == w {
        assert Init(Sizes(closures, before + [Last(mains)])) == Sizes(closures, before);
      } else {
        assert Bin(mains, a, w) == before;
      }
    }
  }

  lemma Without(bin: seq<string>, k: nat)
    requires k < |bin|
    ensures multiset(bin) == multiset(bin[..k] + bin[k + 1..]) + multiset{bin[k]}
  {
    assert bin == bin[..k] + [bin[k]] + bin[k + 1..];
  }

  lemma {:induction false} WeightWithout(closures: Closures, bin: seq<string>, k: nat)
    requires k < |bin|
    ensures Weight(closures, bin) == Weight(closures, bin[..k] + bin[k + 1..]) + Size(closures, bin[k])
  {
    var rest := bin[..k] + bin[k + 1..];
    assert Init(Sizes(closures, bin)) == Sizes(closures, Init(bin));
    if k < |bin| - 1 {
      WeightWithout(closures, Init(bin), k);
      assert Init(rest) == Init(bin)[..k] + Init(bin)[k + 1..];
      assert Init(Sizes(closures, rest)) == Sizes(closures, Init(rest));
    } else {
      assert rest == Init(bin);
    }
  }

  /** One occurrence of `x` leaves one bin of the rival; everything else stays. */
  lemma TakeOut(rival: seq<seq<string>>, x: string) returns (i: nat, k: nat)
    requires x in Flatten(rival)
    ensures i < |rival| && k < |rival[i]| && rival[i][k] == x
    ensures multiset(Flatten(rival[i := rival[i][..k] + rival[i][k + 1..]])) + multiset{x} == multiset(Flatten(rival))
  {
    FlattenMember(rival, x);
    i :| 0 <= i < |rival| && x in rival[i];
    k :| 0 <= k < |rival[i]| && rival[i][k] == x;
    var rest := rival[i][..k] + rival[i][k + 1..];
    Without(rival[i], k);
    FlattenReplace(rival, i, rest);
    var after := multiset(Flatten(rival[i := rest]));
    assert after + (multiset(rest) + multiset{x}) == (after + multiset{x}) + multiset(rest);
    MultisetCancel(after + multiset{x}, multiset(Flatten(rival)), multiset(rest));
  }

  lemma NothingLeft(rival: seq<seq<string>>)
    requires multiset(Flatten(rival)) == multiset{}
    ensures forall w :: 0 <= w < |rival| ==> rival[w] == []
  {
    assert |Flatten(rival)| == |multiset(Flatten(rival))| == 0;
    forall w | 0 <= w < |rival| ensures rival[w] == [] {
      if rival[w] != [] {
        FlattenMember(rival, rival[w][0]);
      }
    }
  }

  function RivalLoad(closures: Closures, rival: seq<seq<string>>, w: nat): nat {
    if w < |rival| then Weight(closures, rival[w]) else 0
  }

  /** Any split of the mains into at most `m` bins is an assignment of the listed jobs with the same loads. */
  lemma {:induction false} RivalAssignment(closures: Closures, mains: seq<string>, rival: seq<seq<string>>, m: nat)
      returns (a: seq<nat>)
    requires IsSplit(rival, mains, m)
    ensures Assigns(a, |mains|, m)
    ensures forall w :: 0 <= w < m ==> Load(Sizes(closures, mains), a, w) == RivalLoad(closures, rival, w)
  {
    if mains == [] {
      a := [];
      NothingLeft(rival);
    } else {
      var x := Last(mains);
      MultisetSnoc(mains);
      assert x in multiset(Flatten(rival));
      var i, k := TakeOut(rival, x);
      var smaller := rival[i := rival[i][..k] + rival[i][k + 1..]];
      MultisetCancel(multiset(Flatten(smaller)), multiset(Init(mains)), multiset{x});
      var before := RivalAssignment(closures, Init(mains), smaller, m);
      a := before + [i];
      forall w | 0 <= w < m ensures Load(Sizes(closures, mains), a, w) == RivalLoad(closures, rival, w) {
        assert Load(Sizes(closures, Init(mains)), before, w) == RivalLoad(closures, smaller, w);
        AssignStep(closures, mains, before, rival, i, k, w);
      }
    }
  }

  lemma AssignStep(closures: Closures, mains: seq<string>, before: seq<nat>, rival: seq<seq<string>>,
                   i: nat, k: nat, w: nat)
    requires mains != [] && |before| == |mains| - 1
    requires i < |rival| && k < |rival[i]| && rival[i][k] == Last(mains)
    requires Load(Sizes(closures, Init(mains)), before, w)
             == RivalLoad(closures, rival[i := rival[i][..k] + rival[i][k + 1..]], w)
    ensures Load(Sizes(closures, mains), before + [i], w) == RivalLoad(closures, rival, w)
  {
    assert Init(before + [i]) == before;
    assert Init(Sizes(closures, mains)) == Sizes(closures, Init(mains));
    WeightWithout(closures, rival[i], k);
  }

  lemma SizesSorted(closures: Closures, selected: seq<string>)
    ensures var mains := LongestFirst(closures, selected);
            multiset(mains) == multiset(selected)
            && forall i, j :: 0 <= i < j < |mains| ==> Sizes(closures, mains)[i] >= Sizes(closures, mains)[j]
  {
    LongestFirstSorts(closures, selected, 0);
  }

  /** The returned bins are a split of exactly the selected mains, and none is empty. */
  lemma SplitIsPartition(closures: Closures, selected: seq<string>, m: nat, a: seq<nat>, bins: seq<seq<string>>)
    requires IsLptSplit(closures, selected, m, a, bins)
    ensures IsSplit(bins, selected, m) && [] !in bins
  {
    var mains := LongestFirst(closures, selected);
    SizesSorted(closures, selected);
    LptAssigns(Sizes(closures, mains), a, m);
    BinsPartition(mains, a, m);
    NonEmptyFlatten(Bins(mains, a, m));
  }

  /** No split of the selected mains into `m` bins beats a returned bin by more than 4/3 - 1/(3m). */
  lemma SplitWithinFourThirds(closures: Closures, selected: seq<string>, m: nat, a: seq<nat>, bins: seq<seq<string>>,
                              bin: seq<string>, rival: seq<seq<string>>, M: nat)
    requires m > 0 && IsLptSplit(closures, selected, m, a, bins) && bin in bins
    requires IsSplit(rival, selected, m)
    requires forall r :: r in rival ==> |Files(closures, r)| <= M
    ensures 3 * (m * |Files(closures, bin)|) + M <= 4 * (m * M)
  {
    hide Weight, Files, IsLpt, Sizes, LongestFirst, NonEmpty, IsSplit, Load;
    forall r | r in rival ensures Weight(closures, r) <= M { WeightIsFiles(closures, r); }
    WeightWithinFourThirds(closures, selected, m, a, bins, bin, rival, M);
    WeightIsFiles(closures, bin);
  }

  lemma WeightWithinFourThirds(closures: Closures, selected: seq<string>, m: nat, a: seq<nat>, bins: seq<seq<string>>,
                               bin: seq<string>, rival: seq<seq<string>>, M: nat)
    requires m > 0 && IsLptSplit(closures, selected, m, a, bins) && bin in bins
    requires IsSplit(rival, selected, m)
    requires forall r :: r in rival ==> Weight(closures, r) <= M
    ensures FourThirds(m, Weight(closures, bin), M)
  {
    var mains := LongestFirst(closures, selected);
    var x := Sizes(closures, mains);
    SizesSorted(closures, selected);
    var b := RivalAssignment(closures, mains, rival, m);
    forall v | 0 <= v < m ensures Load(x, b, v) <= M { assert Load(x, b, v) == RivalLoad(closures, rival, v); }
    var w :| 0 <= w < m && Bins(mains, a, m)[w] == bin;
    LptWithinFourThirds(x, a, b, m, M, w);
    BinWeight(closures, mains, a, w);
  }

  lemma {:induction false} SumPermutes(closures: Closures, mains: seq<string>, other: seq<string>)
    requires multiset(mains) == multiset(other)
    ensures Weight(closures, mains) == Weight(closures, other)
  {
    if mains == [] {
      assert |other| == |multiset(other)| == 0;
    } else {
      MultisetSnoc(mains);
      assert Last(mains) in multiset(other);
      var k :| 0 <= k < |other| && other[k] == Last(mains);
      Without(other, k);
      MultisetCancel(multiset(other[..k] + other[k + 1..]), multiset(Init(mains)), multiset{other[k]});
      SumPermutes(closures, Init(mains), other[..k] + other[k + 1..]);
      WeightWithout(closures, other, k);
      assert Init(Sizes(closures, mains)) == Sizes(closures, Init(mains));
    }
  }

  /** Every returned bin is within the average load plus all but one share of the largest closure. */
  lemma SplitWithinAverage(closures: Closures, selected: seq<string>, m: nat, a: seq<nat>, bins: seq<seq<string>>,
                           bin: seq<string>, largest: nat)
    requires m > 0 && IsLptSplit(closures, selected, m, a, bins) && bin in bins
    requires forall main :: main in selected && main in closures ==> |closures[main]| <= largest
    ensures m * |Files(closures, bin)| <= |Files(closures, selected)| + (m - 1) * largest
  {
    hide Weight, Files, IsLpt, Sizes, LongestFirst, NonEmpty;
    WeightWithinAverage(closures, selected, m, a, bins, bin, largest);
    WeightIsFiles(closures, bin);
    WeightIsFiles(closures, selected);
  }

  lemma WeightWithinAverage(closures: Closures, selected: seq<string>, m: nat, a: seq<nat>, bins: seq<seq<string>>,
                            bin: seq<string>, largest: nat)
    requires m > 0 && IsLptSplit(closures, selected, m, a, bins) && bin in bins
    requires forall main :: main in selected ==> Size(closures, main) <= largest
    ensures Average(m, Weight(closures, bin), Weight(closures, selected), largest)
  {
    var mains := LongestFirst(closures, selected);
    var x := Sizes(closures, mains);
    SizesSorted(closures, selected);
    var w :| 0 <= w < m && Bins(mains, a, m)[w] == bin;
    forall i | 0 <= i < |x| ensures x[i] <= largest {
      assert mains[i] in multiset(selected);
    }
    LptWithinAverage(x, a, m, largest, w);
    BinWeight(closures, mains, a, w);
    SumPermutes(closures, mains, selected);
  }

  /** What the loop has built once the jobs `done` are placed as `a` says. */
  predicate Placed(closures: Closures, done: seq<string>, a: seq<nat>, m: nat,
                   loads: seq<nat>, bins: seq<seq<string>>)
  {
    && |loads| == |bins| == m
    && IsLpt(Sizes(closures, done), a, m)
    && (forall w :: 0 <= w < m ==> loads[w] == Load(Sizes(closures, done), a, w))
    && forall w :: 0 <= w < m ==> bins[w] == Bin(done, a, w)
  }

  /** One turn of the loop: the job goes to the least loaded worker and nothing else moves. */
  lemma PlaceNext(closures: Closures, done: seq<string>, main: string, a: seq<nat>, m: nat,
                  loads: seq<nat>, bins: seq<seq<string>>, w: nat)
    requires Placed(closures, done, a, m, loads, bins)
    requires w < m && forall v :: 0 <= v < m ==> loads[w] <= loads[v] && (v < w ==> loads[w] < loads[v])
    ensures Placed(closures, done + [main], a + [w], m,
                   loads[w := loads[w] + Size(closures, main)], bins[w := bins[w] + [main]])
  {
    var x := Sizes(closures, done + [main]);
    assert Init(done + [main]) == done && Init(a + [w]) == a;
    assert Init(x) == Sizes(closures, done);
  }

  lemma NothingPlaced(closures: Closures, m: nat, loads: seq<nat>, bins: seq<seq<string>>)
    requires |loads| == |bins| == m && forall w :: 0 <= w < m ==> loads[w] == 0 && bins[w] == []
    ensures Placed(closures, [], [], m, loads, bins)
  {
  }

  lemma PlacedAre(closures: Closures, mains: seq<string>, a: seq<nat>, m: nat, loads: seq<nat>, bins: seq<seq<string>>)
    requires Placed(closures, mains, a, m, loads, bins)
    ensures |a| == |mains| && bins == Bins(mains, a, m) && IsLpt(Sizes(closures, mains), a, m)
  {
    assert |a| == |mains|;
    assert bins == Bins(mains, a, m);
  }

  /** `split_lpt`. With no worker, taking the minimum of the empty load list raises. */
  method SplitLpt(selected: seq<string>, closures: Closures, workers: int)
      returns (r: Result<seq<seq<string>>>, ghost a: seq<nat>)
    requires forall main :: main in selected ==> main in closures
    ensures r.Ok? <==> workers > 0 || selected == []
    ensures r.Ok? && workers > 0 ==> IsLptSplit(closures, selected, workers, a, r.value)
    ensures r.Ok? && workers <= 0 ==> r.value == []
  {
    hide LongestFirst, NonEmpty, Size, Placed;
    var mains := LongestFirst(closures, selected);
    SameLength(closures, selected);
    a := [];
    if workers <= 0 {
      r := if mains == [] then Ok([]) else Err("min() arg is an empty sequence");
      return;
    }
    var bins: seq<seq<string>> := seq(workers, _ => []);
    var loads: seq<nat> := seq(workers, _ => 0);
    var i := 0;
    NothingPlaced(closures, workers, loads, bins);
    while i < |mains|
      invariant 0 <= i <= |mains|
      invariant |loads| == |bins| == workers && Placed(closures, mains[..i], a, workers, loads, bins)
    {
      var worker := Least(loads);
      PlaceNext(closures, mains[..i], mains[i], a, workers, loads, bins, worker);
      assert mains[..i + 1] == mains[..i] + [mains[i]];
      bins := bins[worker := bins[worker] + [mains[i]]];
      loads := loads[worker := loads[worker] + Size(closures, mains[i])];
      a := a + [worker];
      i := i + 1;
    }
    assert mains[..i] == mains;
    PlacedAre(closures, mains, a, workers, loads, bins);
    r := Ok(NonEmpty(bins));
  }
}
