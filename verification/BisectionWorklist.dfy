/** `_batch_groups`: cached groups first, then planned chunks that are halved as long as admission rejects them. */
module BisectionWorklist {
  import opened Prelude
  import opened Batching
  import opened FallbackWorklist
  import Planning = UnityChunks
  import Strict = StrictChunks

  /** How the consumer of a yielded group left it. */
  datatype Answer = Claimed | AdmissionRejected | OtherwiseRejected

  /** The entries and limits, the cached groups that may be tried first in their order, the order in which planned chunks
      are tried, and arbitrary answers. */
  datatype Input = Input(entries: seq<Planning.Entry>, options: Planning.Options, hints: seq<Chunk>,
                         arrange: seq<Chunk> -> seq<Chunk>, verifyMissing: bool, answerHint: Chunk -> Answer,
                         answer: Chunk -> Answer)

  // ---- cached groups ----------------------------------------------------------------------------

  /** The cached groups that are claimed: each is passed over when an earlier one took one of its entries. */
  function ClaimedHints(input: Input, hints: seq<Chunk>): seq<Chunk> {
    if hints == [] then [] else
    var before := ClaimedHints(input, Init(hints));
    if SetOf(Last(hints)) * SetOf(Flatten<nat>(before)) == {} && input.answerHint(Last(hints)) == Claimed then before + [Last(hints)]
    else before
  }

  lemma {:induction false} HintsApart(input: Input, hints: seq<Chunk>)
    requires forall c :: c in hints ==> Distinct<nat>(c)
    ensures Distinct<nat>(Flatten<nat>(ClaimedHints(input, hints)))
    ensures forall c :: c in ClaimedHints(input, hints) ==> c in hints
  {
    if hints != [] {
      assert hints == Init(hints) + [Last(hints)];
      HintsApart(input, Init(hints));
      var before, last := ClaimedHints(input, Init(hints)), Last(hints);
      hide Flatten;
      FlattenSnoc<nat>(before, last);
      DistinctConcat<nat>(Flatten<nat>(before), last);
      if SetOf(last) * SetOf(Flatten<nat>(before)) == {} {
        forall i | 0 <= i < |last| ensures last[i] !in Flatten<nat>(before) {
          assert last[i] in SetOf(last);
          assert last[i] !in SetOf(last) * SetOf(Flatten<nat>(before));
        }
      }
    }
  }

  // ---- halving ----------------------------------------------------------------------------------

  predicate Splits(input: Input, chunk: Chunk) {
    input.verifyMissing && |chunk| > 2 && input.answer(chunk) == AdmissionRejected
  }

  function Front(chunk: Chunk): (r: Chunk)
    ensures |r| == |chunk| / 2
  {
    chunk[..|chunk| / 2]
  }

  function Back(chunk: Chunk): (r: Chunk)
    ensures |r| == |chunk| - |chunk| / 2
  {
    chunk[|chunk| / 2..]
  }

  /** The groups tried for one planned chunk: the chunk, and when admission rejects it, those of its front half and then
      those of its back half; a half of one entry is not tried. */
  function Tried(input: Input, chunk: Chunk): (r: seq<Chunk>)
    decreases |chunk|
  {
    if |chunk| <= 1 then [chunk]
    else if !Splits(input, chunk) then [chunk]
    else
      [chunk] + (if |Front(chunk)| > 1 then Tried(input, Front(chunk)) else []) + Tried(input, Back(chunk))
  }

  function TriedAll(input: Input, chunks: seq<Chunk>): seq<Chunk> {
    if chunks == [] then [] else Tried(input, chunks[0]) + TriedAll(input, chunks[1..])
  }

  function ClaimedOf(input: Input, tried: seq<Chunk>): seq<Chunk> {
    if tried == [] then [] else ClaimedOf(input, Init(tried)) + if input.answer(Last(tried)) == Claimed then [Last(tried)] else []
  }

  lemma ClaimedAppend(input: Input, a: seq<Chunk>, b: seq<Chunk>)
    ensures ClaimedOf(input, a + b) == ClaimedOf(input, a) + ClaimedOf(input, b)
    decreases |b|
  {
    if b == [] {
      assert a + b == a && ClaimedOf(input, a) + [] == ClaimedOf(input, a);
    } else {
      ClaimedAppend(input, a, Init(b));
      assert Init(a + b) == a + Init(b) && Last(a + b) == Last(b);
      Associates(ClaimedOf(input, a), ClaimedOf(input, Init(b)), if input.answer(Last(b)) == Claimed then [Last(b)] else []);
    }
  }

  lemma ClaimedOne(input: Input, chunk: Chunk)
    ensures ClaimedOf(input, [chunk]) == if input.answer(chunk) == Claimed then [chunk] else []
  {
    assert Init([chunk]) == [];
  }

  /** What is claimed of a planned chunk is part of it, each entry at most once: a claimed group is not halved. */
  lemma {:induction false} ClaimedIsPart(input: Input, chunk: Chunk)
    requires |chunk| > 0
    ensures multiset(Flatten<nat>(ClaimedOf(input, Tried(input, chunk)))) <= multiset(chunk)
    ensures forall c :: c in ClaimedOf(input, Tried(input, chunk)) ==> c != []
    decreases |chunk|
  {
    hide Flatten, Splits, Front, Back;
    ClaimedOne(input, chunk);
    NothingFlattened();
    FlattenOne(chunk);
    if |chunk| > 1 && Splits(input, chunk) {
      HalvesMakeWhole(input, chunk);
      var front := if |Front(chunk)| > 1 then Tried(input, Front(chunk)) else [];
      var back := Tried(input, Back(chunk));
      if |Front(chunk)| > 1 { ClaimedIsPart(input, Front(chunk)); }
      ClaimedIsPart(input, Back(chunk));
      ClaimedAppend(input, [chunk] + front, back);
      ClaimedAppend(input, [chunk], front);
      NoneBefore(ClaimedOf(input, front));
      FlattenAppend<nat>(ClaimedOf(input, front), ClaimedOf(input, back));
      PartsAdd<nat>(Flatten<nat>(ClaimedOf(input, front)), Flatten<nat>(ClaimedOf(input, back)), Front(chunk), Back(chunk));
    }
  }

  lemma NoneBefore<T>(a: seq<T>)
    ensures [] + a == a
  {
  }

  lemma FlattenOne(chunk: Chunk)
    ensures Flatten<nat>([chunk]) == chunk
  {
    FlattenSnoc<nat>([], chunk);
    assert [] + [chunk] == [chunk] && [] + chunk == chunk;
  }

  lemma HalvesMakeWhole(input: Input, chunk: Chunk)
    requires |chunk| > 1
    ensures Front(chunk) + Back(chunk) == chunk && 0 < |Back(chunk)| < |chunk| && |Front(chunk)| < |chunk|
    ensures Splits(input, chunk) ==> input.answer(chunk) != Claimed && |Back(chunk)| > 1
  {
  }

  lemma PartsAdd<T>(a: seq<T>, b: seq<T>, x: seq<T>, y: seq<T>)
    requires multiset(a) <= multiset(x) && multiset(b) <= multiset(y)
    ensures multiset(a + b) <= multiset(x + y)
  {
  }

  lemma {:induction false} AllClaimedIsPart(input: Input, chunks: seq<Chunk>)
    requires [] !in chunks
    ensures multiset(Flatten<nat>(ClaimedOf(input, TriedAll(input, chunks)))) <= multiset(Flatten<nat>(chunks))
    ensures forall c :: c in ClaimedOf(input, TriedAll(input, chunks)) ==> c != []
  {
    hide Flatten, Tried;
    if chunks == [] {
      NothingFlattened();
    } else {
      assert chunks == [chunks[0]] + chunks[1..];
      AllClaimedIsPart(input, chunks[1..]);
      ClaimedIsPart(input, chunks[0]);
      ClaimedAppend(input, Tried(input, chunks[0]), TriedAll(input, chunks[1..]));
      FlattenAppend<nat>(ClaimedOf(input, Tried(input, chunks[0])), ClaimedOf(input, TriedAll(input, chunks[1..])));
      FlattenAppend<nat>([chunks[0]], chunks[1..]);
      FlattenOne(chunks[0]);
      PartsAdd<nat>(Flatten<nat>(ClaimedOf(input, Tried(input, chunks[0]))), Flatten<nat>(ClaimedOf(input, TriedAll(input, chunks[1..]))),
               chunks[0], Flatten<nat>(chunks[1..]));
    }
  }

  // ---- the planned chunks -----------------------------------------------------------------------

  /** The entries that no cached group claimed. */
  function Available(n: nat, claimed: set<nat>): (r: seq<nat>) {
    if n == 0 then [] else Available(n - 1, claimed) + if n - 1 in claimed then [] else [n - 1]
  }

  lemma {:induction false} AvailableIs(n: nat, claimed: set<nat>)
    ensures Distinct<nat>(Available(n, claimed))
    ensures forall i: nat :: i in Available(n, claimed) <==> i < n && i !in claimed
  {
    if n > 0 {
      AvailableIs(n - 1, claimed);
      DistinctSnoc(Available(n - 1, claimed), n - 1);
      NothingAdded(Available(n - 1, claimed));
    }
  }

  function HintsClaim(input: Input): set<nat> {
    SetOf(Flatten<nat>(ClaimedHints(input, input.hints)))
  }

  /** The strict plan of what is available, in the indexes of the whole database. */
  function StrictChunksOf(input: Input): seq<Chunk> {
    var available := Available(|input.entries|, HintsClaim(input));
    Strict.RenameAll(available, Strict.StrictPlan(input.options, Planning.At(input.entries, available), Upto(|available|)))
  }

  /** The same chunks in the order in which they are tried. */
  function PlannedChunks(input: Input): seq<Chunk> {
    input.arrange(StrictChunksOf(input))
  }

  /** Trying in another order neither adds nor drops a chunk. */
  ghost predicate Rearranges(arrange: seq<Chunk> -> seq<Chunk>) {
    forall chunks :: multiset(arrange(chunks)) == multiset(chunks)
  }

  lemma {:induction false} StrictChunkDistinct(o: Planning.Options, entries: seq<Planning.Entry>, available: seq<nat>, k: nat)
    requires k < |Strict.StrictPlan(o, entries, available)| && Distinct<nat>(available)
    ensures Strict.StrictPlan(o, entries, available)[k] != [] && Distinct<nat>(Strict.StrictPlan(o, entries, available)[k])
    decreases |available|
  {
    hide Planning.Plan, Strict.StrictPlan;
    var es := Planning.At(entries, available);
    var residual, last := Planning.Plan(Strict.SplitBy(o, true), es), Planning.Plan(Strict.SplitBy(o, false), es);
    Strict.StrictStep(o, entries, available, k);
    if residual == [] {
      PlannedRename(Strict.SplitBy(o, false), es, available, last[k]);
    } else if k < |residual| {
      PlannedRename(Strict.SplitBy(o, true), es, available, residual[k]);
    } else {
      Strict.UnclaimedDistinct(available, Strict.Claimed(residual), |available|);
      StrictChunkDistinct(o, entries, Strict.Later(available, residual), k - |residual|);
    }
  }

  lemma PlannedRename(o: Planning.Options, es: seq<Planning.Entry>, available: seq<nat>, c: seq<nat>)
    requires c in Planning.Plan(o, es) && |es| == |available| && Distinct<nat>(available)
    ensures Strict.Rename(available, c) != [] && Distinct<nat>(Strict.Rename(available, c))
  {
    hide Planning.Plan;
    Planning.ChunkFacts(o, es, c);
    forall p | p in c ensures p < |available| {
      var k :| 0 <= k < |c| && c[k] == p;
      assert Planning.Belongs(o, es, Planning.KeyAt(o, es, c[0]), c[k]);
    }
    RenamedOne(available, c);
  }

  lemma UptoDistinct(n: nat)
    ensures Distinct<nat>(Upto(n)) && forall i: nat :: i in Upto(n) <==> i < n
  {
    forall i: nat | i < n ensures i in Upto(n) { assert Upto(n)[i] == i; }
    forall i: nat | i in Upto(n) ensures i < n {
      var k :| 0 <= k < n && Upto(n)[k] == i;
    }
  }

  lemma StrictPlanApart(o: Planning.Options, entries: seq<Planning.Entry>, n: nat)
    ensures Distinct<nat>(Flatten<nat>(Strict.StrictPlan(o, entries, Upto(n))))
    ensures InRange(n, Strict.StrictPlan(o, entries, Upto(n)))
  {
    hide Strict.StrictPlan, Upto;
    var all := Upto(n);
    var plan := Strict.StrictPlan(o, entries, all);
    UptoDistinct(n);
    forall c | c in plan ensures c != [] && Distinct<nat>(c) && forall i :: i in c ==> i < n {
      var k :| 0 <= k < |plan| && plan[k] == c;
      StrictChunkDistinct(o, entries, all, k);
      forall i | i in c ensures i < n { Strict.StrictWithin(o, entries, all, k, i); }
    }
    forall i, j, x | 0 <= i < j < |plan| && x in plan[i] ensures x !in plan[j] {
      Strict.StrictDisjoint(o, entries, all, i, j, x);
    }
    ApartFlattens(plan);
  }

  lemma AvailableChunk(available: seq<nat>, part: Chunk)
    requires part != [] && forall p :: p in part ==> p < |available|
    ensures Strict.Rename(available, part) != []
    ensures forall x :: x in Strict.Rename(available, part) ==> x in available
  {
    forall x | x in Strict.Rename(available, part) ensures x in available {
      var k :| 0 <= k < |part| && Strict.Rename(available, part)[k] == x;
      assert part[k] in part;
    }
  }

  /** The planned chunks are apart, inside the database, and clear of every cached group. */
  lemma PlannedAreApart(input: Input)
    requires Rearranges(input.arrange)
    ensures [] !in PlannedChunks(input) && Distinct<nat>(Flatten<nat>(PlannedChunks(input)))
    ensures forall x :: x in Flatten<nat>(PlannedChunks(input)) ==> x < |input.entries| && x !in HintsClaim(input)
  {
    hide Strict.StrictPlan, HintsClaim, Available, Distinct, Flatten;
    var available := Available(|input.entries|, HintsClaim(input));
    var plan := Strict.StrictPlan(input.options, Planning.At(input.entries, available), Upto(|available|));
    AvailableIs(|input.entries|, HintsClaim(input));
    StrictPlanApart(input.options, Planning.At(input.entries, available), |available|);
    RenamedApart(available, plan);
    var renamed := Strict.RenameAll(available, plan);
    forall c | c in renamed ensures c != [] && forall x :: x in c ==> x in available {
      var k :| 0 <= k < |renamed| && renamed[k] == c;
      assert plan[k] in plan;
      AvailableChunk(available, plan[k]);
    }
    SameParts(input.arrange(renamed), renamed);
    forall x | x in Flatten<nat>(PlannedChunks(input)) ensures x in available {
      FlattenMember<nat>(PlannedChunks(input), x);
      var k :| 0 <= k < |PlannedChunks(input)| && x in PlannedChunks(input)[k];
      assert PlannedChunks(input)[k] in multiset(PlannedChunks(input));
      assert PlannedChunks(input)[k] in renamed;
    }
    forall c | c in PlannedChunks(input) ensures c != [] {
      assert c in multiset(PlannedChunks(input));
      assert c in renamed;
    }
  }

  lemma {:induction false} FlattenCounts(a: seq<Chunk>, b: seq<Chunk>)
    requires multiset(a) == multiset(b)
    ensures multiset(Flatten<nat>(a)) == multiset(Flatten<nat>(b))
    decreases |a|
  {
    assert |a| == |multiset(a)| == |multiset(b)| == |b|;
    if a != [] {
      assert Last(a) in multiset(a);
      assert Last(a) in b;
      var k :| 0 <= k < |b| && b[k] == Last(a);
      var rest := b[..k] + b[k + 1..];
      SplitAround(b, k);
      MultisetSnoc(a);
      assert multiset(b) == multiset(rest) + multiset{Last(a)};
      MultisetCancel(multiset(Init(a)), multiset(rest), multiset{Last(a)});
      FlattenCounts(Init(a), rest);
      FlattenAround<nat>(b, k);
      FlattenAppend<nat>(b[..k], b[k + 1..]);
      FlattenLast<nat>(a);
    }
  }

  lemma SameParts(a: seq<Chunk>, b: seq<Chunk>)
    requires multiset(a) == multiset(b) && Distinct<nat>(Flatten<nat>(b))
    ensures Distinct<nat>(Flatten<nat>(a))
  {
    hide Flatten, Distinct;
    FlattenCounts(a, b);
    DistinctPermutes<nat>(Flatten<nat>(a), Flatten<nat>(b));
  }

  // ---- the generator ----------------------------------------------------------------------------

  /** All groups claimed in a run. */
  function AllClaimed(input: Input): seq<Chunk> {
    ClaimedHints(input, input.hints) + ClaimedOf(input, TriedAll(input, PlannedChunks(input)))
  }

  predicate HintsFit(input: Input) {
    forall c :: c in input.hints ==> c != [] && Distinct<nat>(c) && forall i :: i in c ==> i < |input.entries|
  }

  /** No entry is in two claimed groups, cached or proven, whole or halved. */
  lemma ClaimedAreApart(input: Input)
    requires Rearranges(input.arrange) && HintsFit(input)
    ensures InRange(|input.entries|, AllClaimed(input)) && Distinct<nat>(Flatten<nat>(AllClaimed(input)))
  {
    hide PlannedChunks, Flatten, Distinct, TriedAll;
    var hints, planned := ClaimedHints(input, input.hints), PlannedChunks(input);
    var proven := ClaimedOf(input, TriedAll(input, planned));
    HintsApart(input, input.hints);
    PlannedAreApart(input);
    AllClaimedIsPart(input, planned);
    PartIsDistinct<nat>(Flatten<nat>(proven), Flatten<nat>(planned));
    FlattenAppend<nat>(hints, proven);
    DistinctConcat<nat>(Flatten<nat>(hints), Flatten<nat>(proven));
    forall x | x in Flatten<nat>(proven) ensures x in Flatten<nat>(planned) {
      assert x in multiset(Flatten<nat>(proven));
      assert x in multiset(Flatten<nat>(planned));
    }
    forall k | 0 <= k < |Flatten<nat>(proven)| ensures Flatten<nat>(proven)[k] !in Flatten<nat>(hints) {
      var x := Flatten<nat>(proven)[k];
      assert x in Flatten<nat>(proven);
      assert x !in HintsClaim(input);
    }
    forall c | c in proven ensures forall i :: i in c ==> i < |input.entries| {
      forall i | i in c ensures i < |input.entries| { FlattenMember<nat>(proven, i); }
    }
  }

  lemma PartIsDistinct<T>(a: seq<T>, b: seq<T>)
    requires multiset(a) <= multiset(b) && Distinct(b)
    ensures Distinct(a)
  {
    hide Distinct;
    DistinctIsMultiset(a);
    DistinctIsMultiset(b);
    forall x ensures multiset(a)[x] <= 1 { assert multiset(a)[x] <= multiset(b)[x]; }
  }

  /** The groups still to be tried when this stack is pending, the last one first. */
  function TriedStack(input: Input, pending: seq<Chunk>): seq<Chunk> {
    if pending == [] then [] else Tried(input, Last(pending)) + TriedStack(input, Init(pending))
  }

  function Reversed(s: seq<Chunk>): (r: seq<Chunk>)
    ensures |r| == |s|
  {
    if s == [] then [] else Reversed(s[1..]) + [s[0]]
  }

  lemma {:induction false} ReversedStack(input: Input, chunks: seq<Chunk>)
    ensures TriedStack(input, Reversed(chunks)) == TriedAll(input, chunks)
  {
    hide Tried;
    if chunks != [] {
      ReversedStack(input, chunks[1..]);
      assert Init(Reversed(chunks)) == Reversed(chunks[1..]);
    }
  }

  /** What replaces a group on the stack once it was tried. */
  function Halves(input: Input, chunk: Chunk): seq<Chunk> {
    if !Splits(input, chunk) then []
    else [Back(chunk)] + if |Front(chunk)| > 1 then [Front(chunk)] else []
  }

  lemma StackStep(input: Input, pending: seq<Chunk>)
    requires pending != [] && Last(pending) != []
    ensures TriedStack(input, pending) == [Last(pending)] + TriedStack(input, Init(pending) + Halves(input, Last(pending)))
  {
    hide Front, Back, Splits;
    var chunk, rest := Last(pending), Init(pending);
    TriedIs(input, chunk);
    if Splits(input, chunk) {
      SplitsIsLong(input, chunk);
      var withBack := rest + [Back(chunk)];
      assert Init(withBack) == rest;
      if |Front(chunk)| > 1 {
        var both := withBack + [Front(chunk)];
        assert Init(both) == withBack && rest + Halves(input, chunk) == both;
      } else {
        assert rest + Halves(input, chunk) == withBack;
      }
    } else {
      assert rest + [] == rest;
    }
  }

  lemma SplitsIsLong(input: Input, chunk: Chunk)
    requires Splits(input, chunk)
    ensures |chunk| > 1
  {
  }

  lemma TriedIs(input: Input, chunk: Chunk)
    ensures !Splits(input, chunk) ==> Tried(input, chunk) == [chunk]
    ensures Splits(input, chunk) ==>
              Tried(input, chunk) == [chunk] + (if |Front(chunk)| > 1 then Tried(input, Front(chunk)) else []) + Tried(input, Back(chunk))
  {
  }

  /** What the loop over the stack holds: what was tried, and what is claimed by it. */
  ghost predicate Underway(input: Input, tried: seq<Chunk>, pending: seq<Chunk>, claimed: set<nat>) {
    && tried + TriedStack(input, pending) == TriedAll(input, PlannedChunks(input))
    && [] !in pending
    && multiset(Flatten<nat>(ClaimedOf(input, tried))) + multiset(Flatten<nat>(pending))
       <= multiset(Flatten<nat>(PlannedChunks(input)))
    && claimed == HintsClaim(input) + SetOf(Flatten<nat>(ClaimedOf(input, tried)))
  }

  lemma UnderwayStarts(input: Input)
    requires Rearranges(input.arrange)
    ensures Underway(input, [], Reversed(PlannedChunks(input)), HintsClaim(input))
  {
    hide PlannedChunks, TriedStack, TriedAll, HintsClaim;
    var planned := PlannedChunks(input);
    ReversedStack(input, planned);
    PlannedAreApart(input);
    NoneBefore(TriedAll(input, planned));
    ReversedSame(planned);
    FlattenCounts(Reversed(planned), planned);
    NothingFlattened();
    assert Flatten<nat>(ClaimedOf(input, [])) == [];
    forall c | c in Reversed(planned) ensures c != [] { assert c in multiset(Reversed(planned)); }
  }

  lemma {:induction false} ReversedSame(s: seq<Chunk>)
    ensures multiset(Reversed(s)) == multiset(s)
  {
    if s != [] {
      ReversedSame(s[1..]);
      assert s == [s[0]] + s[1..];
    }
  }

  /** The group on top of the stack is clear of everything claimed: the check before it is tried never passes it over. */
  lemma TopIsFree(input: Input, tried: seq<Chunk>, pending: seq<Chunk>, claimed: set<nat>)
    requires Rearranges(input.arrange) && pending != [] && Underway(input, tried, pending, claimed)
    ensures Last(pending) != [] && SetOf(Last(pending)) * claimed == {}
  {
    hide PlannedChunks, TriedStack, TriedAll, HintsClaim, Flatten;
    var top, planned := Last(pending), PlannedChunks(input);
    var before := Flatten<nat>(ClaimedOf(input, tried));
    PlannedAreApart(input);
    FlattenLast<nat>(pending);
    assert top in pending;
    forall x | x in top ensures x !in claimed {
      assert x in multiset(top);
      assert multiset(Flatten<nat>(pending)) == multiset(Flatten<nat>(Init(pending))) + multiset(top);
      AtMostOnce(before, Flatten<nat>(pending), Flatten<nat>(planned), x);
    }
  }

  lemma AtMostOnce(a: seq<nat>, b: seq<nat>, all: seq<nat>, x: nat)
    requires multiset(a) + multiset(b) <= multiset(all) && Distinct<nat>(all) && x in multiset(b)
    ensures x !in a && x in all
  {
    hide Distinct;
    DistinctIsMultiset<nat>(all);
    assert (multiset(a) + multiset(b))[x] <= multiset(all)[x] <= 1;
    assert multiset(b)[x] >= 1;
    assert multiset(a)[x] == 0;
    assert x !in multiset(a);
  }

  lemma UnderwayNext(input: Input, tried: seq<Chunk>, pending: seq<Chunk>, claimed: set<nat>)
    requires pending != [] && Underway(input, tried, pending, claimed)
    ensures var top := Last(pending);
            Underway(input, tried + [top], Init(pending) + Halves(input, top),
                     if input.answer(top) == Claimed then claimed + SetOf(top) else claimed)
  {
    hide PlannedChunks, TriedStack, TriedAll, HintsClaim, Flatten, Halves;
    var top, rest := Last(pending), Init(pending);
    assert top in pending && forall c :: c in rest ==> c in pending;
    StackStep(input, pending);
    NextTried(tried, top, TriedStack(input, rest + Halves(input, top)));
    NextClaims(input, tried, pending);
    HalvesNotEmpty(input, top);
  }

  lemma NextTried(tried: seq<Chunk>, top: Chunk, more: seq<Chunk>)
    ensures tried + ([top] + more) == (tried + [top]) + more
  {
  }

  lemma HalvesNotEmpty(input: Input, chunk: Chunk)
    ensures [] !in Halves(input, chunk)
    ensures multiset(Flatten<nat>(Halves(input, chunk))) <= multiset(chunk)
    ensures input.answer(chunk) == Claimed ==> Halves(input, chunk) == []
  {
    hide Flatten;
    NothingFlattened();
    if Splits(input, chunk) {
      hide Front, Back;
      var front, back := Front(chunk), Back(chunk);
      HalvesTogether(chunk);
      FlattenOne(back);
      FlattenSnoc<nat>([back], front);
      assert multiset(back + front) == multiset(back) + multiset(front);
      if |front| > 1 {
        assert Halves(input, chunk) == [back] + [front];
      } else {
        assert Halves(input, chunk) == [back] by { NothingAdded([back]); }
      }
    }
  }

  lemma HalvesTogether(chunk: Chunk)
    requires chunk != []
    ensures multiset(chunk) == multiset(Front(chunk)) + multiset(Back(chunk)) && Back(chunk) != []
  {
    assert chunk == Front(chunk) + Back(chunk);
  }

  lemma NextClaims(input: Input, tried: seq<Chunk>, pending: seq<Chunk>)
    requires pending != []
    ensures var top := Last(pending);
            && SetOf(Flatten<nat>(ClaimedOf(input, tried + [top]))) ==
                 SetOf(Flatten<nat>(ClaimedOf(input, tried))) + (if input.answer(top) == Claimed then SetOf(top) else {})
            && multiset(Flatten<nat>(ClaimedOf(input, tried + [top]))) + multiset(Flatten<nat>(Init(pending) + Halves(input, top)))
               <= multiset(Flatten<nat>(ClaimedOf(input, tried))) + multiset(Flatten<nat>(pending))
  {
    hide Flatten, Halves;
    var top, before := Last(pending), ClaimedOf(input, tried);
    assert Init(tried + [top]) == tried;
    NothingAdded(before);
    FlattenSnoc<nat>(before, top);
    FlattenLast<nat>(pending);
    FlattenAppend<nat>(Init(pending), Halves(input, top));
    HalvesNotEmpty(input, top);
    NothingFlattened();
  }

  /** `_batch_groups` and its consumer: every cached group is offered once, every planned chunk and every half that admission
      leaves open is tried once, in this order, and what is claimed is exactly what was accepted. */
  method BatchGroups(input: Input) returns (tried: seq<Chunk>, groups: seq<Chunk>, claimed: set<nat>)
    requires Rearranges(input.arrange) && HintsFit(input)
    ensures tried == TriedAll(input, PlannedChunks(input))
    ensures groups == AllClaimed(input) && claimed == SetOf(Flatten<nat>(groups))
  {
    hide *;
    groups, claimed := [], {};
    NoneClaimed(input);
    for k := 0 to |input.hints|
      invariant groups == ClaimedHints(input, input.hints[..k]) && claimed == SetOf(Flatten<nat>(groups))
    {
      var group := input.hints[k];
      HintNext(input, k);
      if SetOf(group) * claimed == {} && input.answerHint(group) == Claimed {
        claimed := claimed + SetOf(group);
        groups := groups + [group];
      }
    }
    assert input.hints[..|input.hints|] == input.hints;
    ghost var cached := groups;
    HintsClaimIs(input);
    var pending := Reversed(PlannedChunks(input));
    tried := [];
    UnderwayStarts(input);
    ClaimedStarts(input, cached);
    while pending != []
      invariant Underway(input, tried, pending, claimed)
      invariant groups == cached + ClaimedOf(input, tried)
      decreases |TriedStack(input, pending)|
    {
      var chunk := Last(pending);
      TopIsFree(input, tried, pending, claimed);
      StackStep(input, pending);
      UnderwayNext(input, tried, pending, claimed);
      ClaimedNext(input, cached, tried, chunk);
      pending := Init(pending);
      if SetOf(chunk) * claimed == {} {
        tried := tried + [chunk];
        if input.answer(chunk) == Claimed {
          claimed := claimed + SetOf(chunk);
          groups := groups + [chunk];
        }
        pending := pending + Halves(input, chunk);
      }
    }
    UnderwayEnds(input, cached, tried, claimed);
  }

  lemma NoneClaimed(input: Input)
    ensures ClaimedHints(input, []) == [] && SetOf(Flatten<nat>([])) == {} && input.hints[..0] == []
  {
  }

  lemma HintNext(input: Input, k: nat)
    requires k < |input.hints|
    ensures var before, group := ClaimedHints(input, input.hints[..k]), input.hints[k];
            && ClaimedHints(input, input.hints[..k + 1]) ==
                 (if SetOf(group) * SetOf(Flatten<nat>(before)) == {} && input.answerHint(group) == Claimed then before + [group]
                  else before)
            && SetOf(Flatten<nat>(before + [group])) == SetOf(Flatten<nat>(before)) + SetOf(group)
  {
    hide Flatten;
    assert Init(input.hints[..k + 1]) == input.hints[..k];
    FlattenSnoc<nat>(ClaimedHints(input, input.hints[..k]), input.hints[k]);
  }

  lemma HintsClaimIs(input: Input)
    ensures HintsClaim(input) == SetOf(Flatten<nat>(ClaimedHints(input, input.hints)))
  {
  }

  lemma ClaimedStarts(input: Input, cached: seq<Chunk>)
    ensures cached == cached + ClaimedOf(input, [])
  {
  }

  lemma ClaimedNext(input: Input, cached: seq<Chunk>, tried: seq<Chunk>, chunk: Chunk)
    ensures cached + ClaimedOf(input, tried + [chunk]) ==
              cached + ClaimedOf(input, tried) + if input.answer(chunk) == Claimed then [chunk] else []
  {
    assert Init(tried + [chunk]) == tried;
  }

  lemma UnderwayEnds(input: Input, cached: seq<Chunk>, tried: seq<Chunk>, claimed: set<nat>)
    requires Underway(input, tried, [], claimed) && cached == ClaimedHints(input, input.hints)
    ensures tried == TriedAll(input, PlannedChunks(input))
    ensures cached + ClaimedOf(input, tried) == AllClaimed(input)
    ensures claimed == SetOf(Flatten<nat>(cached + ClaimedOf(input, tried)))
  {
    hide Flatten, PlannedChunks, TriedAll;
    NothingAdded(tried);
    FlattenAppend<nat>(cached, ClaimedOf(input, tried));
  }

  /** The database a strict run leaves: one candidate for each claimed group, and every source as often as before. */
  lemma StrictCoverageKept(input: Input, members: Members)
    requires Rearranges(input.arrange) && HintsFit(input) && |members| == |input.entries|
    ensures [] !in AllClaimed(input)
    ensures multiset(Cover(members, Background(AcceptAll(AllClaimed(input)), |members|))) == multiset(Flatten(members))
  {
    hide AllClaimed, Rearranges, HintsFit;
    ClaimedAreApart(input);
    CoverageKept(members, AllClaimed(input));
  }
}
