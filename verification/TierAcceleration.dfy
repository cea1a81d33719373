/** `_accelerate_tier1` and `_accelerate_tier2`: their worklists, and the final member count that can never differ. */
module TierAcceleration {
  import opened Prelude
  import opened Batching
  import opened FallbackWorklist
  import Planning = UnityChunks
  import Strict = StrictChunks

  datatype Record = Record(job: Job, verdict: Verdict)

  datatype Outcome = Outcome(background: seq<Output>, records: seq<Record>, invalidated: bool)

  function RecordsOf(input: Input, jobs: seq<Job>): (r: seq<Record>)
    ensures |r| == |jobs|
  {
    seq(|jobs|, k requires 0 <= k < |jobs| => Record(jobs[k], input.prove(jobs[k])))
  }

  function KeptAll(n: nat): (r: seq<Output>)
    ensures |r| == n
  {
    seq(n, i requires 0 <= i < n => Kept(i))
  }

  /** The worklist after `k` steps: fallback jobs only ever come from planned ones. */
  function Pending(input: Input, k: nat): seq<Job> {
    PlannedJobs(input) + AllChildren(input, PlannedJobs(input)[..if k <= |PlannedJobs(input)| then k else |PlannedJobs(input)|])
  }

  lemma PendingGrows(input: Input, k: nat)
    requires k < |Pending(input, k)|
    ensures Pending(input, k + 1) == Pending(input, k) + Children(input, Pending(input, k)[k])
    ensures k >= |PlannedJobs(input)| ==> Pending(input, k + 1) == Pending(input, k)
  {
    hide Children;
    var planned := PlannedJobs(input);
    if k < |planned| {
      assert Init(planned[..k + 1]) == planned[..k];
      assert Pending(input, k)[k] == planned[k];
      Associates(planned, AllChildren(input, planned[..k]), Children(input, planned[k]));
    } else {
      JobsNotEmpty(input);
      ChildrenNotEmpty(input, planned);
      assert planned[..|planned|] == planned;
      assert Pending(input, k)[k] == AllChildren(input, planned)[k - |planned|];
      FallbackHasNoChildren(input, Pending(input, k)[k]);
      NothingAdded(Pending(input, k));
    }
  }

  lemma FallbackHasNoChildren(input: Input, job: Job)
    requires job.fallback
    ensures Children(input, job) == []
  {
  }

  lemma PendingEnds(input: Input, k: nat)
    requires k >= |Pending(input, k)|
    ensures Pending(input, k) == AllJobs(input)
  {
    assert PlannedJobs(input)[..|PlannedJobs(input)|] == PlannedJobs(input);
  }

  lemma PendingStarts(input: Input)
    ensures Pending(input, 0) == PlannedJobs(input)
  {
    assert PlannedJobs(input)[..0] == [];
    assert PlannedJobs(input) + [] == PlannedJobs(input);
  }

  lemma AcceptedSnoc(input: Input, jobs: seq<Job>, job: Job)
    requires [] !in AcceptedOf(input, jobs) && job.chunk != []
    ensures [] !in AcceptedOf(input, jobs + [job])
    ensures AcceptAll(AcceptedOf(input, jobs + [job])) ==
              if input.prove(job).Accepted? then Accept(AcceptAll(AcceptedOf(input, jobs)), job.chunk)
              else AcceptAll(AcceptedOf(input, jobs))
  {
    hide Accept;
    assert Init(jobs + [job]) == jobs;
    var before := AcceptedOf(input, jobs);
    if input.prove(job).Accepted? {
      assert Init(before + [job.chunk]) == before;
    } else {
      NothingAdded(before);
    }
  }

  lemma PendingNotEmpty(input: Input, k: nat, j: Job)
    requires j in Pending(input, k)
    ensures j.chunk != []
  {
    hide FallbackChunks;
    var planned := PlannedJobs(input);
    var n := if k <= |planned| then k else |planned|;
    JobsNotEmpty(input);
    assert forall x :: x in planned[..n] ==> x in planned;
    ChildrenNotEmpty(input, planned[..n]);
    if j in planned { assert j in AllJobs(input); }
  }

  /** `_accelerate_tier1`: whatever the verdicts, the run ends, tries every planned chunk and every fallback chunk once,
      and its final check finds every source as often as in the input. */
  method AccelerateTier1(input: Input) returns (o: Outcome)
    requires |input.members| == |input.entries|
    ensures o.records == RecordsOf(input, AllJobs(input))
    ensures [] !in AcceptedOf(input, AllJobs(input))
    ensures o.background == Background(AcceptAll(AcceptedOf(input, AllJobs(input))), |input.entries|)
    ensures multiset(Cover(input.members, o.background)) == multiset(Flatten(input.members)) && !o.invalidated
  {
    hide *;
    var pending, selection := PlannedJobs(input), NOTHING;
    var records: seq<Record> := [];
    var k := 0;
    PendingStarts(input);
    NothingAccepted(input);
    while k < |pending|
      invariant 0 <= k <= |pending| && pending == Pending(input, k)
      invariant |PlannedJobs(input)| <= |pending|
      invariant [] !in AcceptedOf(input, pending[..k]) && selection == AcceptAll(AcceptedOf(input, pending[..k]))
      invariant records == RecordsOf(input, pending[..k])
      decreases if k < |PlannedJobs(input)| then |PlannedJobs(input)| - k else 0, |pending| - k
    {
      var job := pending[k];
      var verdict := input.prove(job);
      ghost var done := pending[..k];
      PendingNotEmpty(input, k, job);
      AcceptedSnoc(input, done, job);
      if verdict.Accepted? { selection := Accept(selection, job.chunk); }
      RecordsSnoc(input, done, job);
      records := records + [Record(job, verdict)];
      PendingGrows(input, k);
      PrefixGrows(pending, Children(input, job), k);
      pending := pending + Children(input, job);
      k := k + 1;
    }
    PendingEnds(input, k);
    assert pending[..k] == pending;
    var background := Background(selection, |input.entries|);
    AcceptedInRange(input);
    AcceptedAreApart(input);
    CoverageKept(input.members, AcceptedOf(input, AllJobs(input)));
    var originals, invalidated := KeptAll(|input.entries|), false;
    if multiset(Flatten(input.members)) != multiset(Cover(input.members, background)) {
      background, invalidated := originals, true;
    }
    o := Outcome(background, records, invalidated);
  }

  lemma PrefixGrows<T>(s: seq<T>, more: seq<T>, k: nat)
    requires k < |s|
    ensures (s + more)[..k + 1] == s[..k] + [s[k]]
  {
  }

  lemma NothingAccepted(input: Input)
    ensures AcceptedOf(input, []) == [] && AcceptAll([]) == NOTHING && RecordsOf(input, []) == []
    ensures Pending(input, 0)[..0] == []
  {
  }

  lemma RecordsSnoc(input: Input, jobs: seq<Job>, job: Job)
    ensures RecordsOf(input, jobs + [job]) == RecordsOf(input, jobs) + [Record(job, input.prove(job))]
  {
  }
}
