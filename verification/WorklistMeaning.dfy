/** What the worklists try, said of the entries and of the verdicts. */
module WorklistMeaning {
  import opened Prelude
  import opened Batching
  import Planning = UnityChunks
  import Strict = StrictChunks
  import Fallback = FallbackWorklist
  import Bisection = BisectionWorklist
  import Meaning = UnityMeaning

  // ---- fallback chunks --------------------------------------------------------------------------

  /** Two entries of the group are of different member classes. */
  ghost predicate Crosses(group: seq<Planning.Entry>) {
    exists i, j :: 0 <= i < j < |group| && !Meaning.SameClass(group[i], group[j])
  }

  lemma ClassMeans(d: Planning.Entry, e: Planning.Entry)
    requires d.members != [] && e.members != []
    ensures Fallback.SourceClass(d) == Fallback.SourceClass(e) <==> Meaning.SameClass(d, e)
  {
    assert d.members[0] in d.members && e.members[0] in e.members;
  }

  lemma CrossesMeans(group: seq<Planning.Entry>)
    requires forall i :: 0 <= i < |group| ==> group[i].members != []
    ensures Fallback.CrossesClasses(group) <==> Crosses(group)
  {
    hide Fallback.SourceClass, Meaning.SameClass;
    forall i, j | 0 <= i < |group| && 0 <= j < |group|
      ensures Fallback.SourceClass(group[i]) == Fallback.SourceClass(group[j]) <==> Meaning.SameClass(group[i], group[j])
    {
      ClassMeans(group[i], group[j]);
    }
    if i, j :| 0 <= i < |group| && 0 <= j < |group| && Fallback.SourceClass(group[i]) != Fallback.SourceClass(group[j]) {
      if j < i { assert !Meaning.SameClass(group[j], group[i]); }
    }
  }

  /** A chunk across classes falls back to what the class-split planner makes of it alone, without a limit on sources. */
  lemma FallbackMeans(input: Fallback.Input, chunk: Chunk)
    requires forall i :: 0 <= i < |chunk| ==> Planning.EntryAt(input.entries, chunk[i]).members != []
    ensures var o, group := input.options, Planning.At(input.entries, chunk);
            Fallback.FallbackChunks(input, chunk)
            == if Crosses(group) then
                 Strict.RenameAll(chunk, Planning.Plan(
                   Planning.Options(o.byteBudget, o.maxUnities, None, true, false, o.includeExact), group))
               else []
  {
    hide Fallback.CrossesClasses, Crosses, Planning.Plan;
    CrossesMeans(Planning.At(input.entries, chunk));
  }

  /** A job is followed by fallback jobs exactly when it is a planned one that a gate rejected: one for each chunk. */
  lemma ChildrenMean(input: Fallback.Input, job: Fallback.Job)
    ensures var chunks := Fallback.FallbackChunks(input, job.chunk);
            var children := Fallback.Children(input, job);
            && (children != [] ==> !job.fallback && input.prove(job).Rejected? && input.prove(job).retry)
            && (!job.fallback && input.prove(job).Rejected? && input.prove(job).retry ==>
                  |children| == |chunks| && forall k :: 0 <= k < |chunks| ==> children[k] == Fallback.Job(chunks[k], true))
  {
    hide Fallback.FallbackChunks;
  }

  // ---- halving ----------------------------------------------------------------------------------

  /** One half of a group that admission rejected; a half of one entry is not tried. */
  ghost predicate HalfOf(input: Bisection.Input, parent: Chunk, g: Chunk) {
    && input.verifyMissing && |parent| > 2 && input.answer(parent).AdmissionRejected? && |g| > 1
    && (g == parent[..|parent| / 2] || g == parent[|parent| / 2..])
  }

  ghost predicate SomeHalf(input: Bisection.Input, tried: seq<Chunk>, g: Chunk) {
    exists parent :: parent in tried && HalfOf(input, parent, g)
  }

  /** What is tried of a planned chunk is the chunk itself and every half of a group that was tried and rejected. */
  lemma {:induction false} TriedMeans(input: Bisection.Input, chunk: Chunk, g: Chunk)
    requires |chunk| > 1
    ensures g in Bisection.Tried(input, chunk) <==> g == chunk || SomeHalf(input, Bisection.Tried(input, chunk), g)
    decreases |chunk|
  {
    hide HalfOf;
    var all := Bisection.Tried(input, chunk);
    var front, back := Bisection.Front(chunk), Bisection.Back(chunk);
    HalvesOf(input, chunk, g);
    assert chunk in all;
    if Bisection.Splits(input, chunk) {
      if |front| > 1 { TriedMeans(input, front, g); }
      TriedMeans(input, back, g);
      var tried := if |front| > 1 then Bisection.Tried(input, front) else [];
      assert all == [chunk] + tried + Bisection.Tried(input, back);
      assert forall x :: x in all <==> x == chunk || x in tried || x in Bisection.Tried(input, back);
      assert back in Bisection.Tried(input, back) && (|front| > 1 ==> front in tried);
    } else {
      assert all == [chunk];
    }
  }

  lemma HalvesOf(input: Bisection.Input, chunk: Chunk, g: Chunk)
    requires |chunk| > 1
    ensures HalfOf(input, chunk, g) <==>
              Bisection.Splits(input, chunk) && |g| > 1 && (g == Bisection.Front(chunk) || g == Bisection.Back(chunk))
  {
  }
}
