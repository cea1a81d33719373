/** Which chunks a run accepts and what database they leave, said of the verdicts and of the chunks themselves. */
module BatchMeaning {
  import opened Prelude
  import opened Batching
  import Planning = UnityChunks
  import Strict = StrictChunks
  import Fallback = FallbackWorklist
  import Bisection = BisectionWorklist
  import Tiers = TierMerge

  // ---- what is accepted -------------------------------------------------------------------------

  /** A job of the run was accepted with this chunk. */
  ghost predicate AcceptedJob(input: Fallback.Input, jobs: seq<Fallback.Job>, c: Chunk) {
    exists k :: 0 <= k < |jobs| && jobs[k].chunk == c && input.prove(jobs[k]).Accepted?
  }

  lemma {:induction false} AcceptedAre(input: Fallback.Input, jobs: seq<Fallback.Job>, c: Chunk)
    ensures c in Fallback.AcceptedOf(input, jobs) <==> AcceptedJob(input, jobs, c)
  {
    if jobs != [] {
      var n := |jobs| - 1;
      AcceptedAre(input, Init(jobs), c);
      assert forall k :: 0 <= k < n ==> Init(jobs)[k] == jobs[k];
      assert jobs[n] == Last(jobs);
    }
  }

  /** This planned chunk was rejected by a gate, so its fallback chunks are tried. */
  ghost predicate Retried(input: Fallback.Input, c: Chunk) {
    c in Planning.Plan(input.options, input.entries) && input.prove(Fallback.Job(c, false)) == Fallback.Rejected(true)
  }

  lemma {:induction false} ChildJobs(input: Fallback.Input, jobs: seq<Fallback.Job>, job: Fallback.Job)
    ensures job in Fallback.AllChildren(input, jobs) <==> exists p :: p in jobs && job in Fallback.Children(input, p)
  {
    hide Fallback.Children;
    if jobs != [] {
      ChildJobs(input, Init(jobs), job);
      assert jobs == Init(jobs) + [Last(jobs)];
      assert Last(jobs) in jobs;
      if p :| p in jobs && job in Fallback.Children(input, p) {
        assert p in Init(jobs) || p == Last(jobs);
      }
    }
  }

  lemma PlannedJob(input: Fallback.Input, job: Fallback.Job)
    ensures job in Fallback.PlannedJobs(input) <==> !job.fallback && job.chunk in Planning.Plan(input.options, input.entries)
  {
    hide Planning.Plan;
    var plan := Planning.Plan(input.options, input.entries);
    if !job.fallback && job.chunk in plan {
      var k :| 0 <= k < |plan| && plan[k] == job.chunk;
      assert Fallback.PlannedJobs(input)[k] == job;
    }
  }

  lemma ChildOf(input: Fallback.Input, p: Fallback.Job, job: Fallback.Job)
    ensures job in Fallback.Children(input, p)
            <==> job.fallback && !p.fallback && input.prove(p) == Fallback.Rejected(true)
                 && job.chunk in Fallback.FallbackChunks(input, p.chunk)
  {
    hide Fallback.FallbackChunks;
    var chunks := Fallback.FallbackChunks(input, p.chunk);
    if job.fallback && job.chunk in chunks {
      var k :| 0 <= k < |chunks| && chunks[k] == job.chunk;
      assert Fallback.FallbackJobs(chunks)[k] == job;
    }
  }

  /** The jobs of a run are the planned chunks and the fallback chunks of those a gate rejected. */
  lemma JobsAre(input: Fallback.Input, job: Fallback.Job)
    ensures job in Fallback.AllJobs(input) <==>
              if job.fallback then exists c :: Retried(input, c) && job.chunk in Fallback.FallbackChunks(input, c)
              else job.chunk in Planning.Plan(input.options, input.entries)
  {
    hide Fallback.FallbackChunks, Planning.Plan, Fallback.PlannedJobs, Fallback.AllChildren, Fallback.Children;
    var planned := Fallback.PlannedJobs(input);
    ChildJobs(input, planned, job);
    forall p ensures p in planned <==> !p.fallback && p.chunk in Planning.Plan(input.options, input.entries) {
      PlannedJob(input, p);
    }
    forall p ensures job in Fallback.Children(input, p)
                     <==> job.fallback && !p.fallback && input.prove(p) == Fallback.Rejected(true)
                          && job.chunk in Fallback.FallbackChunks(input, p.chunk)
    {
      ChildOf(input, p, job);
    }
    if job.fallback {
      if c :| Retried(input, c) && job.chunk in Fallback.FallbackChunks(input, c) {
        assert Fallback.Job(c, false) in planned;
      }
      if p :| p in planned && job in Fallback.Children(input, p) {
        assert p == Fallback.Job(p.chunk, false);
        assert Retried(input, p.chunk);
      }
    }
  }

  // ---- what they leave --------------------------------------------------------------------------

  /** The entry gave way to the candidate of a chunk: the chunk has it and a smaller one. */
  ghost predicate Dropped(accepted: seq<Chunk>, i: nat) {
    exists c :: c in accepted && GivesWay(c, i)
  }

  ghost predicate GivesWay(c: Chunk, i: nat) {
    i in c && exists j :: j in c && j < i
  }

  /** Here stands the candidate of this chunk. */
  ghost predicate StandsHere(accepted: seq<Chunk>, c: Chunk, i: nat) {
    c in accepted && i in c && forall j :: j in c ==> i <= j
  }

  lemma {:induction false} ConsumedAre(accepted: seq<Chunk>, i: nat)
    requires [] !in accepted
    ensures i in AcceptAll(accepted).consumed <==> Dropped(accepted, i)
  {
    if accepted != [] {
      var chunk, before := Last(accepted), Init(accepted);
      assert chunk in accepted && forall c :: c in before ==> c in accepted;
      assert accepted == before + [chunk];
      ConsumedAre(before, i);
      assert GivesWay(chunk, i) <==> i in chunk && i != Anchor(chunk);
    }
  }

  lemma {:induction false} ReplacementsAre(accepted: seq<Chunk>, i: nat, c: Chunk)
    requires [] !in accepted && Distinct(Flatten(accepted))
    ensures i in AcceptAll(accepted).replacements && AcceptAll(accepted).replacements[i] == c <==> StandsHere(accepted, c, i)
  {
    hide Flatten, Distinct;
    if accepted != [] {
      var chunk, before := Last(accepted), Init(accepted);
      assert chunk in accepted && forall x :: x in before ==> x in accepted;
      assert accepted == before + [chunk];
      InitApart(accepted);
      ReplacementsAre(before, i, c);
      if StandsHere(before, c, i) {
        FlattenMember<nat>(before, i);
        assert i in Flatten<nat>(before);
      }
    }
  }

  /** How many of the entries before `n` are still there. */
  ghost function LeftBelow(accepted: seq<Chunk>, n: nat): nat {
    |set i: nat | i < n && !Dropped(accepted, i)|
  }

  lemma LeftStep(accepted: seq<Chunk>, n: nat)
    ensures LeftBelow(accepted, 0) == 0
    ensures LeftBelow(accepted, n + 1) == LeftBelow(accepted, n) + if Dropped(accepted, n) then 0 else 1
  {
    hide Dropped;
    var left := set i: nat | i < n && !Dropped(accepted, i);
    var next := set i: nat | i < n + 1 && !Dropped(accepted, i);
    assert next == left + if Dropped(accepted, n) then {} else {n};
  }

  lemma {:induction false} BackgroundLength(accepted: seq<Chunk>, n: nat)
    requires [] !in accepted
    ensures |Background(AcceptAll(accepted), n)| == LeftBelow(accepted, n)
  {
    hide AcceptAll, Dropped, LeftBelow;
    if n == 0 {
      LeftStep(accepted, 0);
    } else {
      BackgroundLength(accepted, n - 1);
      ConsumedAre(accepted, n - 1);
      LeftStep(accepted, n - 1);
    }
  }

  lemma {:induction false} BackgroundPrefix(s: Selection, m: nat, n: nat)
    requires m <= n
    ensures Background(s, m) <= Background(s, n)
  {
    if m < n { BackgroundPrefix(s, m, n - 1); }
  }

  /** The database after a run: in order, every entry that gave way to none, with the candidate of a chunk at its least
      entry. */
  lemma BackgroundMeans(accepted: seq<Chunk>, n: nat, i: nat)
    requires [] !in accepted && Distinct(Flatten(accepted)) && i < n
    ensures |Background(AcceptAll(accepted), n)| == LeftBelow(accepted, n)
    ensures !Dropped(accepted, i) ==> LeftBelow(accepted, i) < LeftBelow(accepted, n)
    ensures forall c :: StandsHere(accepted, c, i) ==>
              !Dropped(accepted, i) && Background(AcceptAll(accepted), n)[LeftBelow(accepted, i)] == Batch(c)
    ensures !Dropped(accepted, i) && (forall c :: !StandsHere(accepted, c, i)) ==>
              Background(AcceptAll(accepted), n)[LeftBelow(accepted, i)] == Kept(i)
  {
    hide AcceptAll, Dropped, LeftBelow, StandsHere, Flatten, Distinct;
    var s := AcceptAll(accepted);
    BackgroundLength(accepted, n);
    BackgroundLength(accepted, i);
    BackgroundLength(accepted, i + 1);
    BackgroundPrefix(s, i + 1, n);
    ConsumedAre(accepted, i);
    LeftStep(accepted, i);
    forall c ensures i in s.replacements && s.replacements[i] == c <==> StandsHere(accepted, c, i) {
      ReplacementsAre(accepted, i, c);
    }
    if i in s.replacements {
      AnchorStays(accepted, s.replacements[i], i);
    }
  }

  /** A candidate's place is never one that gave way to another chunk. */
  lemma AnchorStays(accepted: seq<Chunk>, c: Chunk, i: nat)
    requires [] !in accepted && Distinct(Flatten(accepted)) && StandsHere(accepted, c, i)
    ensures !Dropped(accepted, i)
  {
    hide Flatten, Distinct;
    if Dropped(accepted, i) {
      var d :| d in accepted && GivesWay(d, i);
      var k :| 0 <= k < |accepted| && accepted[k] == c;
      var l :| 0 <= l < |accepted| && accepted[l] == d;
      if k < l {
        DistinctParts<nat>(accepted, k, l, i);
      } else if l < k {
        DistinctParts<nat>(accepted, l, k, i);
      }
    }
  }

  /** The candidate of a chunk holds the members of its entries, entry by entry. */
  lemma {:induction false} MembersAreJoined(members: Members, chunk: Chunk, parts: seq<seq<string>>)
    requires |parts| == |chunk| && forall k :: 0 <= k < |chunk| ==> chunk[k] < |members| && parts[k] == members[chunk[k]]
    ensures MembersOf(members, chunk) == Flatten(parts)
  {
    if chunk != [] { MembersAreJoined(members, Init(chunk), Init(parts)); }
  }

  // ---- two tiers --------------------------------------------------------------------------------

  ghost predicate ModuleAccepted(t: Tiers.Tiers, c: Chunk) {
    c in t.chunks && t.prove2(c).Accepted?
  }

  lemma {:induction false} ModulesAre(t: Tiers.Tiers, chunks: seq<Chunk>, c: Chunk)
    ensures c in Tiers.Accepted2(t, chunks) <==> c in chunks && t.prove2(c).Accepted?
  {
    if chunks != [] {
      ModulesAre(t, Init(chunks), c);
      assert chunks == Init(chunks) + [Last(chunks)];
    }
  }

  /** The entries that no accepted module chunk has, in ascending order. */
  ghost predicate IsResidual(t: Tiers.Tiers, residual: seq<nat>) {
    && (forall i, j :: 0 <= i < j < |residual| ==> residual[i] < residual[j])
    && forall i: nat :: i in residual <==> i < |t.entries| && !InModule(t, i)
  }

  ghost predicate InModule(t: Tiers.Tiers, i: nat) {
    exists c :: ModuleAccepted(t, c) && i in c
  }

  lemma {:induction false} ResidualAscends(n: nat, consumed: set<nat>)
    ensures forall i, j :: 0 <= i < j < |Tiers.Residual(n, consumed)| ==>
              Tiers.Residual(n, consumed)[i] < Tiers.Residual(n, consumed)[j]
    ensures forall i: nat :: i in Tiers.Residual(n, consumed) <==> i < n && i !in consumed
  {
    Tiers.ResidualIs(n, consumed);
    if n > 0 {
      ResidualAscends(n - 1, consumed);
      var before := Tiers.Residual(n - 1, consumed);
      forall i | 0 <= i < |before| ensures before[i] < n - 1 { assert before[i] in before; }
      var r := Tiers.Residual(n, consumed);
      assert r == if n - 1 in consumed then before else before + [n - 1];
      forall i, j | 0 <= i < j < |r| ensures r[i] < r[j] {
        assert r[i] == before[i];
        if j < |before| { assert r[j] == before[j]; }
      }
    }
  }

  lemma ResidualMeans(t: Tiers.Tiers)
    ensures IsResidual(t, Tiers.Residual(|t.entries|, Tiers.Gone(Tiers.Accepted2(t, t.chunks))))
  {
    hide Tiers.Residual;
    var gone := Tiers.Gone(Tiers.Accepted2(t, t.chunks));
    ResidualAscends(|t.entries|, gone);
    forall c ensures c in Tiers.Accepted2(t, t.chunks) <==> ModuleAccepted(t, c) { ModulesAre(t, t.chunks, c); }
    forall i: nat ensures i in gone <==> InModule(t, i) {
    }
  }

  /** A run of both tiers accepts the accepted module chunks and what a Tier 1 run over the rest accepts. */
  lemma BothTiersAre(t: Tiers.Tiers, residual: seq<nat>, c: Chunk)
    requires residual == Tiers.Residual(|t.entries|, Tiers.Gone(Tiers.Accepted2(t, t.chunks)))
    ensures var input := Fallback.Input(Planning.At(t.entries, residual), Tiers.MembersAt(t.members, residual),
                                        t.options, t.prove1);
            IsResidual(t, residual)
            && (c in Tiers.AllAccepted(t) <==>
                  ModuleAccepted(t, c)
                  || exists d :: AcceptedJob(input, Fallback.AllJobs(input), d) && c == Strict.Rename(residual, d))
  {
    hide Tiers.Residual, Tiers.Accepted2, Tiers.Gone, Fallback.AllJobs, Fallback.AcceptedOf, Strict.Rename;
    hide IsResidual, AcceptedJob;
    ResidualMeans(t);
    ModulesAre(t, t.chunks, c);
    var input := Tiers.Residue(t, residual);
    var first, second := Tiers.Accepted2(t, t.chunks), Fallback.AcceptedOf(input, Fallback.AllJobs(input));
    forall d ensures d in second <==> AcceptedJob(input, Fallback.AllJobs(input), d) {
      AcceptedAre(input, Fallback.AllJobs(input), d);
    }
    RenamedAre(residual, second, c);
    assert Tiers.AllAccepted(t) == first + Strict.RenameAll(residual, second);
  }

  lemma RenamedAre(residual: seq<nat>, chunks: seq<Chunk>, c: Chunk)
    ensures c in Strict.RenameAll(residual, chunks) <==> exists d :: d in chunks && c == Strict.Rename(residual, d)
  {
    hide Strict.Rename;
    if d :| d in chunks && c == Strict.Rename(residual, d) {
      var k :| 0 <= k < |chunks| && chunks[k] == d;
      assert Strict.RenameAll(residual, chunks)[k] == c;
    }
  }

  // ---- halving ----------------------------------------------------------------------------------

  ghost predicate Meet(c: Chunk, d: Chunk) {
    exists i :: i in c && i in d
  }

  /** A cached group is claimed when it is proven; one that is proven but not claimed meets one that is. */
  lemma {:induction false} HintsMean(input: Bisection.Input, hints: seq<Chunk>, c: Chunk)
    ensures c in Bisection.ClaimedHints(input, hints) ==> c in hints && input.answerHint(c) == Bisection.Claimed
    ensures c in hints && input.answerHint(c) == Bisection.Claimed ==>
              c in Bisection.ClaimedHints(input, hints)
              || exists d :: d in Bisection.ClaimedHints(input, hints) && Meet(c, d)
  {
    if hints != [] {
      var hint, before := Last(hints), Bisection.ClaimedHints(input, Init(hints));
      HintsMean(input, Init(hints), c);
      assert hints == Init(hints) + [hint];
      if c == hint && SetOf(hint) * SetOf(Flatten<nat>(before)) != {} {
        var i :| i in SetOf(hint) * SetOf(Flatten<nat>(before));
        FlattenMember<nat>(before, i);
        var k :| 0 <= k < |before| && i in before[k];
        assert Meet(c, before[k]);
      }
    }
  }

  lemma {:induction false} ProvenAre(input: Bisection.Input, tried: seq<Chunk>, c: Chunk)
    ensures c in Bisection.ClaimedOf(input, tried) <==> c in tried && input.answer(c) == Bisection.Claimed
  {
    if tried != [] {
      ProvenAre(input, Init(tried), c);
      assert tried == Init(tried) + [Last(tried)];
    }
  }

  lemma {:induction false} TriedAre(input: Bisection.Input, chunks: seq<Chunk>, c: Chunk)
    ensures c in Bisection.TriedAll(input, chunks) <==> exists p :: p in chunks && c in Bisection.Tried(input, p)
  {
    hide Bisection.Tried;
    if chunks != [] {
      TriedAre(input, chunks[1..], c);
      assert chunks == [chunks[0]] + chunks[1..];
      if p :| p in chunks && c in Bisection.Tried(input, p) {
        assert p == chunks[0] || p in chunks[1..];
      }
    }
  }

  /** This group was tried for this planned chunk, and proven. */
  ghost predicate ProvenFor(input: Bisection.Input, p: Chunk, c: Chunk) {
    p in Bisection.PlannedChunks(input) && c in Bisection.Tried(input, p) && input.answer(c) == Bisection.Claimed
  }

  /** What is claimed: cached groups as above, and every tried group that is proven. */
  lemma ClaimedAre(input: Bisection.Input, c: Chunk)
    ensures c in Bisection.AllClaimed(input) <==>
              c in Bisection.ClaimedHints(input, input.hints) || exists p :: ProvenFor(input, p, c)
  {
    hide Bisection.ClaimedHints, Bisection.TriedAll, Bisection.ClaimedOf, Bisection.PlannedChunks, Bisection.Tried;
    var planned := Bisection.PlannedChunks(input);
    ProvenAre(input, Bisection.TriedAll(input, planned), c);
    TriedAre(input, planned, c);
    if p :| p in planned && c in Bisection.Tried(input, p) && input.answer(c) == Bisection.Claimed {
      assert ProvenFor(input, p, c);
    }
  }
}
