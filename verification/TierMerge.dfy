/** `_accelerate_tier2`: module chunks first, then Tier 1 over what is left, and the merge of both. */
module TierMerge {
  import opened Prelude
  import opened Batching
  import opened FallbackWorklist
  import opened TierAcceleration
  import Planning = UnityChunks
  import Strict = StrictChunks

  /** The planned module chunks with arbitrary verdicts, the Tier 1 run over the rest with its own, and the receipts that
      originals already carry. */
  datatype Tiers = Tiers(entries: seq<Planning.Entry>, members: Members, options: Planning.Options, chunks: seq<Chunk>,
                         prove2: Chunk -> Verdict, prove1: Job -> Verdict, carried: nat -> Option<string>)

  predicate Planned(t: Tiers) {
    |t.members| == |t.entries| && InRange(|t.entries|, t.chunks) && Distinct(Flatten(t.chunks))
  }

  function Accepted2(t: Tiers, chunks: seq<Chunk>): seq<Chunk> {
    if chunks == [] then []
    else Accepted2(t, Init(chunks)) + if t.prove2(Last(chunks)).Accepted? then [Last(chunks)] else []
  }

  lemma {:induction false} Accepted2IsPart(t: Tiers, chunks: seq<Chunk>)
    ensures multiset(Flatten(Accepted2(t, chunks))) <= multiset(Flatten(chunks))
    ensures forall c :: c in Accepted2(t, chunks) ==> c in chunks
  {
    hide Flatten;
    if chunks == [] {
      NothingFlattened();
    } else {
      assert chunks == Init(chunks) + [Last(chunks)];
      Accepted2IsPart(t, Init(chunks));
      FlattenLast(chunks);
      FlattenSnoc(Accepted2(t, Init(chunks)), Last(chunks));
      PartGrows(Flatten(Accepted2(t, Init(chunks))), Flatten(Init(chunks)), Last(chunks));
      NothingAdded(Accepted2(t, Init(chunks)));
    }
  }

  lemma Accepted2Apart(t: Tiers)
    requires Planned(t)
    ensures InRange(|t.entries|, Accepted2(t, t.chunks)) && Distinct(Flatten(Accepted2(t, t.chunks)))
  {
    hide Distinct, Flatten;
    Accepted2IsPart(t, t.chunks);
    DistinctIsMultiset(Flatten(t.chunks));
    DistinctIsMultiset(Flatten(Accepted2(t, t.chunks)));
    forall x ensures multiset(Flatten(Accepted2(t, t.chunks)))[x] <= 1 {
      assert multiset(Flatten(Accepted2(t, t.chunks)))[x] <= multiset(Flatten(t.chunks))[x];
    }
  }

  // ---- what the merge holds ---------------------------------------------------------------------

  /** The replacements of these acceptances, and every entry they stand for. */
  function Shown(accepted: seq<Chunk>): map<nat, Output>
    requires [] !in accepted
  {
    map i | i in AcceptAll(accepted).replacements :: Batch(AcceptAll(accepted).replacements[i])
  }

  function Gone(accepted: seq<Chunk>): set<nat> {
    set c, i | c in accepted && i in c :: i
  }

  lemma GoneIs(accepted: seq<Chunk>, i: nat)
    ensures i in Gone(accepted) <==> i in Flatten(accepted)
  {
    FlattenMember(accepted, i);
  }

  lemma ShownNext(accepted: seq<Chunk>, c: Chunk)
    requires [] !in accepted && c != []
    ensures [] !in accepted + [c]
    ensures Shown(accepted + [c]) == Shown(accepted)[Anchor(c) := Batch(c)]
    ensures Gone(accepted + [c]) == Gone(accepted) + set i | i in c
  {
    assert Init(accepted + [c]) == accepted;
  }

  /** `[index for index in range(n) if index not in consumed]`. */
  function Residual(n: nat, consumed: set<nat>): (r: seq<nat>) {
    if n == 0 then [] else Residual(n - 1, consumed) + if n - 1 in consumed then [] else [n - 1]
  }

  lemma {:induction false} ResidualIs(n: nat, consumed: set<nat>)
    ensures Distinct(Residual(n, consumed))
    ensures forall i: nat :: i in Residual(n, consumed) <==> i < n && i !in consumed
  {
    if n > 0 {
      ResidualIs(n - 1, consumed);
      DistinctSnoc(Residual(n - 1, consumed), n - 1);
      NothingAdded(Residual(n - 1, consumed));
    }
  }

  function MembersAt(members: Members, indexes: seq<nat>): (r: Members)
    ensures |r| == |indexes|
  {
    seq(|indexes|, k requires 0 <= k < |indexes| => At(members, indexes[k]))
  }

  /** The Tier 1 run over the residual entries. */
  function Residue(t: Tiers, residual: seq<nat>): Input {
    Input(Planning.At(t.entries, residual), MembersAt(t.members, residual), t.options, t.prove1)
  }

  /** The acceptances of both tiers, in the indexes of the whole database. */
  function AllAccepted(t: Tiers): seq<Chunk> {
    var first := Accepted2(t, t.chunks);
    var residual := Residual(|t.entries|, Gone(first));
    first + Strict.RenameAll(residual, AcceptedOf(Residue(t, residual), AllJobs(Residue(t, residual))))
  }

  lemma AllAcceptedApart(t: Tiers)
    requires Planned(t)
    ensures InRange(|t.entries|, AllAccepted(t)) && Distinct(Flatten(AllAccepted(t)))
  {
    hide Distinct, Flatten, Planned, AcceptedOf, AllJobs;
    var first := Accepted2(t, t.chunks);
    var residual := Residual(|t.entries|, Gone(first));
    var input := Residue(t, residual);
    var second := AcceptedOf(input, AllJobs(input));
    Accepted2Apart(t);
    ResidualIs(|t.entries|, Gone(first));
    AcceptedInRange(input);
    AcceptedAreApart(input);
    RenamedApart(residual, second);
    var renamed := Strict.RenameAll(residual, second);
    var flat := Flatten<nat>(renamed);
    FlattenAppend<nat>(first, renamed);
    DistinctConcat<nat>(Flatten(first), flat);
    forall k | 0 <= k < |flat| ensures flat[k] !in Flatten(first) && flat[k] < |t.entries| {
      GoneIs(first, flat[k]);
      assert flat[k] in flat;
      InResidual(residual, second, flat[k]);
    }
    forall c | c in renamed ensures c != [] && forall i :: i in c ==> i < |t.entries| {
      var k :| 0 <= k < |renamed| && renamed[k] == c;
      assert second[k] in second;
      forall i | i in c ensures i < |t.entries| {
        FlattenMember<nat>(renamed, i);
        assert i in flat;
      }
    }
  }

  lemma InResidual(residual: seq<nat>, parts: seq<Chunk>, x: nat)
    requires Distinct(residual) && InRange(|residual|, parts) && Distinct(Flatten(parts))
    requires x in Flatten(Strict.RenameAll(residual, parts))
    ensures x in residual
  {
    RenamedApart(residual, parts);
  }

  /** The database of the merge: an entry with a replacement shows it, a consumed one shows nothing. */
  function MergedAt(replacements: map<nat, Output>, consumed: set<nat>, i: nat): seq<Output> {
    if i in replacements then [replacements[i]] else if i in consumed then [] else [Kept(i)]
  }

  function Merged(replacements: map<nat, Output>, consumed: set<nat>, n: nat): seq<Output> {
    if n == 0 then [] else Merged(replacements, consumed, n - 1) + MergedAt(replacements, consumed, n - 1)
  }

  lemma {:induction false} AnchorsFree(accepted: seq<Chunk>, i: nat)
    requires [] !in accepted && Distinct(Flatten(accepted)) && i in AcceptAll(accepted).replacements
    ensures i !in AcceptAll(accepted).consumed
  {
    hide Flatten, Distinct;
    if accepted != [] {
      InitApart(accepted);
      var chunk := Last(accepted);
      assert chunk in accepted && forall c :: c in Init(accepted) ==> c in accepted;
      if i == Anchor(chunk) {
        AnchorIsFree(accepted);
      } else {
        AnchorsFree(Init(accepted), i);
        ConsumedIn(Init(accepted), i);
      }
    }
  }

  lemma {:induction false} GoneAndShown(accepted: seq<Chunk>, i: nat)
    requires [] !in accepted
    ensures i in Gone(accepted) <==> i in AcceptAll(accepted).replacements || i in AcceptAll(accepted).consumed
  {
    if accepted != [] {
      assert accepted == Init(accepted) + [Last(accepted)];
      assert forall c :: c in Init(accepted) ==> c in accepted;
      assert Last(accepted) in accepted;
      GoneAndShown(Init(accepted), i);
      ShownNext(Init(accepted), Last(accepted));
    }
  }

  lemma {:induction false} MergedIsBackground(accepted: seq<Chunk>, n: nat)
    requires [] !in accepted && Distinct(Flatten(accepted))
    ensures Merged(Shown(accepted), Gone(accepted), n) == Background(AcceptAll(accepted), n)
  {
    hide AcceptAll, Distinct, Flatten, Gone;
    if n > 0 {
      MergedIsBackground(accepted, n - 1);
      GoneAndShown(accepted, n - 1);
      if n - 1 in AcceptAll(accepted).replacements { AnchorsFree(accepted, n - 1); }
    }
  }

  // ---- receipts ---------------------------------------------------------------------------------

  /** The receipt of the accepted job with this chunk. */
  function ReceiptOf(input: Input, jobs: seq<Job>, c: Chunk): Option<string> {
    if jobs == [] then None
    else if Last(jobs).chunk == c && input.prove(Last(jobs)).Accepted? then Some(input.prove(Last(jobs)).receipt)
    else ReceiptOf(input, Init(jobs), c)
  }

  /** An accepted chunk is accepted once, so the receipt found for it is the one it was given. */
  lemma {:induction false} ReceiptIsOwn(input: Input, jobs: seq<Job>, k: nat)
    requires k < |jobs| && input.prove(jobs[k]).Accepted? && jobs[k].chunk != []
    requires Distinct(Flatten(AcceptedOf(input, jobs)))
    ensures ReceiptOf(input, jobs, jobs[k].chunk) == Some(input.prove(jobs[k]).receipt)
    ensures jobs[k].chunk in AcceptedOf(input, jobs)
  {
    hide Distinct, Flatten;
    if k < |jobs| - 1 {
      var before, last := AcceptedOf(input, Init(jobs)), Last(jobs);
      if input.prove(last).Accepted? {
        assert Init(before + [last.chunk]) == before;
        InitApart(AcceptedOf(input, jobs));
        ReceiptIsOwn(input, Init(jobs), k);
        FlattenMember<nat>(before, jobs[k].chunk[0]);
        assert jobs[k].chunk[0] in Flatten<nat>(before);
        assert jobs[k].chunk != last.chunk;
      } else {
        NothingAdded(before);
        ReceiptIsOwn(input, Init(jobs), k);
      }
    }
  }

  /** The receipt an entry of the Tier 1 output carries: a candidate its own, an original whatever it had before. */
  function OutputReceipt(t: Tiers, residual: seq<nat>, jobs: seq<Job>, o: Output): Option<string> {
    match o
    case Kept(i) => if i < |residual| then t.carried(residual[i]) else None
    case Batch(c) => ReceiptOf(Residue(t, residual), jobs, c)
  }

  /** No two entries carry the same receipt. */
  predicate ReceiptsDiffer(t: Tiers, residual: seq<nat>, jobs: seq<Job>, outputs: seq<Output>) {
    forall i, j :: 0 <= i < j < |outputs| && OutputReceipt(t, residual, jobs, outputs[i]).Some? ==>
      OutputReceipt(t, residual, jobs, outputs[i]) != OutputReceipt(t, residual, jobs, outputs[j])
  }

  /** `by_receipt`: a later entry with the same receipt hides an earlier one. */
  function ByReceipt(t: Tiers, residual: seq<nat>, jobs: seq<Job>, outputs: seq<Output>): map<string, Output> {
    if outputs == [] then map[] else
    match OutputReceipt(t, residual, jobs, Last(outputs))
    case None => ByReceipt(t, residual, jobs, Init(outputs))
    case Some(r) => ByReceipt(t, residual, jobs, Init(outputs))[r := Last(outputs)]
  }

  lemma {:induction false} ByReceiptFinds(t: Tiers, residual: seq<nat>, jobs: seq<Job>, outputs: seq<Output>, o: Output, r: string)
    requires o in outputs && OutputReceipt(t, residual, jobs, o) == Some(r)
    ensures r in ByReceipt(t, residual, jobs, outputs)
    ensures ReceiptsDiffer(t, residual, jobs, outputs) ==> ByReceipt(t, residual, jobs, outputs)[r] == o
  {
    hide OutputReceipt;
    var k :| 0 <= k < |outputs| && outputs[k] == o;
    if k < |outputs| - 1 {
      assert Init(outputs)[k] == o;
      ByReceiptFinds(t, residual, jobs, Init(outputs), o, r);
      if ReceiptsDiffer(t, residual, jobs, outputs) {
        assert OutputReceipt(t, residual, jobs, outputs[k]) != OutputReceipt(t, residual, jobs, outputs[|outputs| - 1]);
        forall i, j | 0 <= i < j < |Init(outputs)| && OutputReceipt(t, residual, jobs, Init(outputs)[i]).Some?
          ensures OutputReceipt(t, residual, jobs, Init(outputs)[i]) != OutputReceipt(t, residual, jobs, Init(outputs)[j])
        {
          assert Init(outputs)[i] == outputs[i] && Init(outputs)[j] == outputs[j];
        }
      }
    }
  }

  lemma {:induction false} AnchorShows(accepted: seq<Chunk>, c: Chunk)
    requires [] !in accepted && Distinct(Flatten(accepted)) && c in accepted
    ensures c != [] && Anchor(c) in AcceptAll(accepted).replacements && AcceptAll(accepted).replacements[Anchor(c)] == c
  {
    hide Distinct, Flatten;
    var chunk, before := Last(accepted), Init(accepted);
    assert chunk in accepted && forall x :: x in before ==> x in accepted;
    assert accepted == before + [chunk];
    InitApart(accepted);
    if c in before {
      AnchorShows(before, c);
      FlattenMember<nat>(before, Anchor(c));
      assert Anchor(c) in Flatten<nat>(before);
    }
  }

  lemma {:induction false} BackgroundHas(s: Selection, n: nat, i: nat)
    requires i < n && i in s.replacements && i !in s.consumed
    ensures Batch(s.replacements[i]) in Background(s, n)
  {
    if i < n - 1 { BackgroundHas(s, n - 1, i); }
  }

  /** Every accepted chunk has its candidate in the database. */
  lemma BatchIsShown(accepted: seq<Chunk>, n: nat, c: Chunk)
    requires InRange(n, accepted) && Distinct(Flatten(accepted)) && c in accepted
    ensures [] !in accepted && Batch(c) in Background(AcceptAll(accepted), n)
  {
    hide Distinct, Flatten, AcceptAll, Background;
    AnchorShows(accepted, c);
    AnchorsFree(accepted, Anchor(c));
    BackgroundHas(AcceptAll(accepted), n, Anchor(c));
  }

  function Rebase(residual: seq<nat>, o: Output): Output {
    match o
    case Kept(i) => Kept(if i < |residual| then residual[i] else i)
    case Batch(c) => Batch(Strict.Rename(residual, c))
  }

  lemma {:induction false} LastReceiptWins(t: Tiers, residual: seq<nat>, jobs: seq<Job>, outputs: seq<Output>, k: nat, r: string)
    requires k < |outputs| && OutputReceipt(t, residual, jobs, outputs[k]) == Some(r)
    requires forall l :: k < l < |outputs| ==> OutputReceipt(t, residual, jobs, outputs[l]) != Some(r)
    ensures r in ByReceipt(t, residual, jobs, outputs) && ByReceipt(t, residual, jobs, outputs)[r] == outputs[k]
  {
    hide OutputReceipt;
    if k < |outputs| - 1 {
      assert forall l :: 0 <= l < |Init(outputs)| ==> Init(outputs)[l] == outputs[l];
      LastReceiptWins(t, residual, jobs, Init(outputs), k, r);
    }
  }

  /** Receipts have to differ: a later original that already carries a chunk's receipt takes the place of its candidate. */
  lemma OriginalTakesReceipt(t: Tiers, residual: seq<nat>, jobs: seq<Job>, outputs: seq<Output>, k: nat, i: nat, r: string)
    requires k < |outputs| && outputs[k] == Kept(i) && i < |residual| && t.carried(residual[i]) == Some(r)
    requires forall l :: k < l < |outputs| ==> OutputReceipt(t, residual, jobs, outputs[l]) != Some(r)
    ensures r in ByReceipt(t, residual, jobs, outputs)
    ensures Rebase(residual, ByReceipt(t, residual, jobs, outputs)[r]) == Kept(residual[i])
  {
    hide ByReceipt;
    LastReceiptWins(t, residual, jobs, outputs, k, r);
  }

  // ---- the run ----------------------------------------------------------------------------------

  /** The first loop: an accepted module chunk is consumed as a whole. */
  method QualifyModules(t: Tiers) returns (replacements: map<nat, Output>, consumed: set<nat>)
    requires Planned(t)
    ensures [] !in Accepted2(t, t.chunks)
    ensures replacements == Shown(Accepted2(t, t.chunks)) && consumed == Gone(Accepted2(t, t.chunks))
  {
    hide Shown, Gone, Distinct, Flatten;
    replacements, consumed := map[], {};
    NothingShown();
    for k := 0 to |t.chunks|
      invariant [] !in Accepted2(t, t.chunks[..k])
      invariant replacements == Shown(Accepted2(t, t.chunks[..k])) && consumed == Gone(Accepted2(t, t.chunks[..k]))
    {
      var chunk := t.chunks[k];
      assert chunk in t.chunks;
      ghost var before := Accepted2(t, t.chunks[..k]);
      assert Init(t.chunks[..k + 1]) == t.chunks[..k];
      ShownNext(before, chunk);
      NothingAdded(before);
      if t.prove2(chunk).Accepted? {
        replacements := replacements[Anchor(chunk) := Batch(chunk)];
        consumed := consumed + set i | i in chunk;
      }
    }
    assert t.chunks[..|t.chunks|] == t.chunks;
  }

  lemma NothingShown()
    ensures Shown([]) == map[] && Gone([]) == {}
  {
  }

  method IndexReceipts(t: Tiers, residual: seq<nat>, jobs: seq<Job>, outputs: seq<Output>) returns (byReceipt: map<string, Output>)
    ensures byReceipt == ByReceipt(t, residual, jobs, outputs)
  {
    hide OutputReceipt;
    byReceipt := map[];
    for k := 0 to |outputs|
      invariant byReceipt == ByReceipt(t, residual, jobs, outputs[..k])
    {
      assert Init(outputs[..k + 1]) == outputs[..k];
      match OutputReceipt(t, residual, jobs, outputs[k]) {
        case None =>
        case Some(r) => byReceipt := byReceipt[r := outputs[k]];
      }
    }
    assert outputs[..|outputs|] == outputs;
  }

  /** The acceptances of the first `k` Tier 1 jobs, in the indexes of the whole database. */
  function Rebased(t: Tiers, residual: seq<nat>, k: nat): seq<Chunk>
    requires k <= |AllJobs(Residue(t, residual))|
  {
    var input := Residue(t, residual);
    Accepted2(t, t.chunks) + Strict.RenameAll(residual, AcceptedOf(input, AllJobs(input)[..k]))
  }

  lemma RebasedNext(t: Tiers, residual: seq<nat>, k: nat)
    requires k < |AllJobs(Residue(t, residual))|
    ensures var input := Residue(t, residual);
            var job := AllJobs(input)[k];
            Rebased(t, residual, k + 1) == Rebased(t, residual, k)
              + if input.prove(job).Accepted? then [Strict.Rename(residual, job.chunk)] else []
  {
    var input := Residue(t, residual);
    var jobs := AllJobs(input);
    assert Init(jobs[..k + 1]) == jobs[..k];
    var before := AcceptedOf(input, jobs[..k]);
    if input.prove(jobs[k]).Accepted? {
      assert Strict.RenameAll(residual, before + [jobs[k].chunk])
             == Strict.RenameAll(residual, before) + [Strict.Rename(residual, jobs[k].chunk)];
    } else {
      NothingAdded(before);
      NothingAdded(Rebased(t, residual, k));
    }
  }

  /** The candidate that `by_receipt` gives for an accepted job. */
  lemma CandidateFound(t: Tiers, residual: seq<nat>, outputs: seq<Output>, k: nat)
    requires var input := Residue(t, residual);
             && k < |AllJobs(input)| && input.prove(AllJobs(input)[k]).Accepted?
             && [] !in AcceptedOf(input, AllJobs(input))
             && outputs == Background(AcceptAll(AcceptedOf(input, AllJobs(input))), |input.entries|)
    ensures var jobs := AllJobs(Residue(t, residual));
            var r := t.prove1(jobs[k]).receipt;
            && r in ByReceipt(t, residual, jobs, outputs)
            && (ReceiptsDiffer(t, residual, jobs, outputs) ==> ByReceipt(t, residual, jobs, outputs)[r] == Batch(jobs[k].chunk))
  {
    hide AllJobs, AcceptedOf, Background, AcceptAll, ByReceipt, ReceiptsDiffer, Distinct, Flatten;
    var input := Residue(t, residual);
    var jobs := AllJobs(input);
    JobsNotEmpty(input);
    AcceptedAreApart(input);
    AcceptedInRange(input);
    ReceiptIsOwn(input, jobs, k);
    BatchIsShown(AcceptedOf(input, jobs), |input.entries|, jobs[k].chunk);
    ByReceiptFinds(t, residual, jobs, outputs, Batch(jobs[k].chunk), t.prove1(jobs[k]).receipt);
  }

  /** The second loop: each accepted Tier 1 record is rebased and its candidate attached to its least entry. */
  method AttachCandidates(t: Tiers, residual: seq<nat>, outputs: seq<Output>, first: map<nat, Output>, gone: set<nat>)
    returns (replacements: map<nat, Output>, consumed: set<nat>)
    requires var input := Residue(t, residual);
             && [] !in AcceptedOf(input, AllJobs(input))
             && outputs == Background(AcceptAll(AcceptedOf(input, AllJobs(input))), |input.entries|)
    requires [] !in Accepted2(t, t.chunks) && first == Shown(Accepted2(t, t.chunks)) && gone == Gone(Accepted2(t, t.chunks))
    ensures var all := Rebased(t, residual, |AllJobs(Residue(t, residual))|);
            && [] !in all && consumed == Gone(all)
            && (ReceiptsDiffer(t, residual, AllJobs(Residue(t, residual)), outputs) ==> replacements == Shown(all))
  {
    hide *;
    var input := Residue(t, residual);
    var jobs := AllJobs(input);
    var byReceipt := IndexReceipts(t, residual, jobs, outputs);
    replacements, consumed := first, gone;
    RebasedStarts(t, residual);
    for k := 0 to |jobs|
      invariant [] !in Rebased(t, residual, k) && consumed == Gone(Rebased(t, residual, k))
      invariant ReceiptsDiffer(t, residual, jobs, outputs) ==> replacements == Shown(Rebased(t, residual, k))
    {
      RebasedNext(t, residual, k);
      NothingAdded(Rebased(t, residual, k));
      ResidueProves(t, residual, jobs[k]);
      if t.prove1(jobs[k]).Accepted? {
        CandidateFound(t, residual, outputs, k);
        var candidate := byReceipt[t.prove1(jobs[k]).receipt];
        var chunk := Strict.Rename(residual, jobs[k].chunk);
        RebaseBatch(residual, jobs[k].chunk);
        JobsNotEmpty(input);
        ShownNext(Rebased(t, residual, k), chunk);
        replacements := replacements[Anchor(chunk) := Rebase(residual, candidate)];
        consumed := consumed + set i | i in chunk;
      }
    }
  }

  lemma ResidueProves(t: Tiers, residual: seq<nat>, job: Job)
    ensures Residue(t, residual).prove(job) == t.prove1(job)
  {
  }

  lemma RebaseBatch(residual: seq<nat>, c: Chunk)
    ensures Rebase(residual, Batch(c)) == Batch(Strict.Rename(residual, c))
  {
  }

  lemma RebasedStarts(t: Tiers, residual: seq<nat>)
    ensures Rebased(t, residual, 0) == Accepted2(t, t.chunks)
  {
    NothingAdded(Accepted2(t, t.chunks));
    assert AllJobs(Residue(t, residual))[..0] == [];
  }

  lemma RebasedEnds(t: Tiers)
    ensures Rebased(t, Residual(|t.entries|, Gone(Accepted2(t, t.chunks))),
                    |AllJobs(Residue(t, Residual(|t.entries|, Gone(Accepted2(t, t.chunks)))))|) == AllAccepted(t)
  {
    hide AllJobs;
    var jobs := AllJobs(Residue(t, Residual(|t.entries|, Gone(Accepted2(t, t.chunks)))));
    assert jobs[..|jobs|] == jobs;
  }

  /** The Tier 1 output over what the module chunks left. */
  function ResidualOutput(t: Tiers): seq<Output> {
    var residual := Residual(|t.entries|, Gone(Accepted2(t, t.chunks)));
    var input := Residue(t, residual);
    if [] in AcceptedOf(input, AllJobs(input)) then []
    else Background(AcceptAll(AcceptedOf(input, AllJobs(input))), |input.entries|)
  }

  predicate ReceiptsDistinct(t: Tiers) {
    var residual := Residual(|t.entries|, Gone(Accepted2(t, t.chunks)));
    ReceiptsDiffer(t, residual, AllJobs(Residue(t, residual)), ResidualOutput(t))
  }

  /** `_accelerate_tier2`: the output always covers what the input covers; with distinct receipts it is the merge of all
      acceptances, and the final check never discards them. */
  method AccelerateTier2(t: Tiers) returns (background: seq<Output>, invalidated: bool)
    requires |t.members| == |t.entries| && InRange(|t.entries|, t.chunks) && Distinct(Flatten(t.chunks))
    ensures multiset(Cover(t.members, background)) == multiset(Flatten(t.members))
    ensures ReceiptsDistinct(t) ==> !invalidated && [] !in AllAccepted(t)
                                    && background == Background(AcceptAll(AllAccepted(t)), |t.entries|)
  {
    hide *;
    IsPlanned(t);
    var replacements, consumed := QualifyModules(t);
    ghost var first := Accepted2(t, t.chunks);
    var residual := Residual(|t.entries|, consumed);
    ResidueSizes(t, residual);
    var tier1 := AccelerateTier1(Residue(t, residual));
    OutputIs(t, tier1.background);
    replacements, consumed := AttachCandidates(t, residual, tier1.background, replacements, consumed);
    RebasedEnds(t);
    background, invalidated := Merged(replacements, consumed, |t.entries|), false;
    AllAcceptedApart(t);
    PlannedSizes(t);
    CoverageKept(t.members, AllAccepted(t));
    MergedIsBackground(AllAccepted(t), |t.entries|);
    var originals := Background(NOTHING, |t.entries|);
    NothingChanges(t.members);
    if multiset(Flatten(t.members)) != multiset(Cover(t.members, background)) {
      background, invalidated := originals, true;
    }
  }

  lemma IsPlanned(t: Tiers)
    requires |t.members| == |t.entries| && InRange(|t.entries|, t.chunks) && Distinct(Flatten(t.chunks))
    ensures Planned(t)
  {
  }

  lemma PlannedSizes(t: Tiers)
    requires Planned(t)
    ensures |t.members| == |t.entries|
  {
  }

  lemma ResidueSizes(t: Tiers, residual: seq<nat>)
    ensures |Residue(t, residual).members| == |Residue(t, residual).entries|
  {
  }

  lemma OutputIs(t: Tiers, output: seq<Output>)
    requires var input := Residue(t, Residual(|t.entries|, Gone(Accepted2(t, t.chunks))));
             [] !in AcceptedOf(input, AllJobs(input))
             && output == Background(AcceptAll(AcceptedOf(input, AllJobs(input))), |input.entries|)
    ensures output == ResidualOutput(t)
    ensures ReceiptsDistinct(t) == ReceiptsDiffer(t, Residual(|t.entries|, Gone(Accepted2(t, t.chunks))),
              AllJobs(Residue(t, Residual(|t.entries|, Gone(Accepted2(t, t.chunks))))), output)
  {
    hide AllJobs, AcceptedOf, Background, AcceptAll, ReceiptsDiffer, Residual, Gone;
  }

  lemma NothingChanges(members: Members)
    ensures multiset(Cover(members, Background(NOTHING, |members|))) == multiset(Flatten(members))
  {
    hide Background, Cover, Flatten;
    NothingFlattened();
    CoverageKept(members, []);
    assert AcceptAll([]) == NOTHING;
  }
}
