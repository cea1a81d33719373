/** Two runs of the transaction that fail: what the caller is not told, and what stays behind. */
module FailedPublication {
  import opened Prelude
  import opened FaultyDisk
  import opened Transaction

  // ---- a recovery list that nobody sees -------------------------------------------------------

  function TwoNewFiles(): seq<Replacement> {
    [FromBytes("a", "x"), FromBytes("b", "y")]
  }

  function SecondFails(n: nat): bool {
    7 <= n <= 9
  }

  /** Operation `n` of the log fails exactly when the plan says so. */
  predicate Answers(log: seq<Event>, fails: nat -> bool) {
    forall n :: 0 <= n < |log| ==> (log[n].ok <==> !fails(n))
  }

  predicate NewFiles(rs: seq<Replacement>) {
    forall r :: r in rs ==> r.FromBytes?
  }

  lemma NewFileOps(r: Replacement, p: Prepared)
    requires r.FromBytes?
    ensures |StageOps(map[], r, p)| == 3 && forall op :: op in StageOps(map[], r, p) ==> !op.CopyFile?
  {
  }

  lemma {:induction false} NewFilesOps(rs: seq<Replacement>, prepared: seq<Prepared>)
    requires |prepared| <= |rs| && NewFiles(rs)
    ensures |StagingOps(map[], rs, prepared)| == 3 * |prepared|
  {
    hide StageOps;
    if prepared != [] {
      NewFilesOps(rs, Init(prepared));
      NewFileOps(rs[|prepared| - 1], Last(prepared));
    }
  }

  lemma PhaseAt(log: seq<Event>, a: seq<Event>, b: seq<Event>, c: seq<Event>)
    requires log == a + b + c
    ensures forall k :: 0 <= k < |b| ==> b[k] == log[|a| + k]
  {
  }

  /** A phase that is tried in order stops where the plan says, or is complete and the plan spares it. */
  lemma PhaseAnswers(a: seq<Event>, events: seq<Event>, c: seq<Event>, ops: seq<Op>, fails: nat -> bool)
    requires Attempt(events, ops) && Answers(a + events + c, fails)
    ensures !AllOk(events) ==> events != [] && fails(|a| + |events| - 1)
    ensures AllOk(events) ==> |events| == |ops| && forall n :: |a| <= n < |a| + |events| ==> !fails(n)
  {
    var log := a + events + c;
    PhaseAt(log, a, events, c);
    if AllOk(events) {
      forall n | |a| <= n < |a| + |events| ensures !fails(n) { assert events[n - |a|] == log[n]; }
    } else {
      assert events[|events| - 1] == log[|a| + |events| - 1];
    }
  }

  lemma HalfAnswers(run: Run, rs: seq<Replacement>, fails: nat -> bool)
    requires Follows(run, map[], rs) && NewFiles(rs) && Answers(run.Log(), fails)
    ensures |run.staged| == 3 * |run.prepared| && forall n :: 0 <= n < |run.staged| ==> !fails(n)
    ensures |run.prepared| < |rs| ==> 0 < |run.half| <= 3 && fails(|run.staged| + |run.half| - 1)
    ensures |run.prepared| == |rs| ==> run.half == []
  {
    hide OwnTemps, CleanupOps, AllTemps, StagingOps, StageOps, Publishing, Unrestored, Created, Attempt, AllOk, NewFiles;
    NewFilesOps(rs, run.prepared);
    var rest := run.publishing + run.restoring + run.cleaning;
    assert run.Log() == [] + run.staged + (run.half + rest) && run.Log() == run.staged + run.half + rest;
    PhaseAnswers([], run.staged, run.half + rest, StagingOps(map[], rs, run.prepared), fails);
    if |run.prepared| < |rs| {
      var ops := StageOps(map[], rs[|run.prepared|], run.next);
      assert |ops| == 3 by { OneOfNewFiles(rs, |run.prepared|); NewFileOps(rs[|run.prepared|], run.next); }
      PhaseAnswers(run.staged, run.half, rest, ops, fails);
      AttemptLength(run.half, ops);
    }
  }

  lemma OneOfNewFiles(rs: seq<Replacement>, i: nat)
    requires NewFiles(rs) && i < |rs|
    ensures rs[i].FromBytes?
  {
  }

  lemma AttemptLength(events: seq<Event>, ops: seq<Op>)
    requires Attempt(events, ops)
    ensures |events| <= |ops|
  {
  }

  /** The six operations of the staging succeed. */
  lemma BothStaged(run: Run)
    requires Follows(run, map[], TwoNewFiles()) && Answers(run.Log(), SecondFails)
    ensures run.half == [] && |run.prepared| == 2 && |run.staged| == 6
  {
    hide Follows, Answers, SecondFails;
    BothAreNew();
    HalfAnswers(run, TwoNewFiles(), SecondFails);
    PreparedAtMost(run, TwoNewFiles());
    if |run.prepared| < 2 { EarlyIsFine(|run.staged| + |run.half| - 1); }
  }

  lemma PreparedAtMost(run: Run, rs: seq<Replacement>)
    requires Follows(run, map[], rs)
    ensures |run.prepared| <= |rs|
  {
  }

  lemma EarlyIsFine(n: nat)
    requires n < 7
    ensures !SecondFails(n)
  {
  }

  lemma {:induction false} SecondNotPublished(run: Run)
    requires Follows(run, map[], TwoNewFiles()) && Answers(run.Log(), SecondFails)
    requires run.half == [] && |run.prepared| == 2 && |run.staged| == 6
    ensures |run.publishing| == 2 && !AllOk(run.publishing) && run.Count() == 1 && |run.restoring| == 1 && !run.restoring[0].ok
  {
    hide OwnTemps, CleanupOps, AllTemps, StagingOps, StageOps, Unrestored, Created, PublishOps, RestoreOp, Staging;
    var log := run.Log();
    PhaseAt(log, run.staged, run.publishing, run.restoring + run.cleaning);
    assert |run.publishing| > 0 by { NothingTried(); }
    assert run.publishing[0] == log[6] && log[6].ok;
    assert |run.publishing| == 2;
    assert run.publishing[1] == log[7] && !log[7].ok;
    PhaseAt(log, run.staged + run.publishing, run.restoring, run.cleaning);
    assert run.restoring[0] == log[8] && !log[8].ok;
  }

  lemma CleanupFails(run: Run)
    requires Follows(run, map[], TwoNewFiles()) && Answers(run.Log(), SecondFails) && |run.prepared| == 2
    requires |run.staged| + |run.half| + |run.publishing| + |run.restoring| == 9
    ensures !AllOk(run.cleaning)
  {
    hide OwnTemps, AllTemps, StagingOps, StageOps, Unrestored, Created, PublishOps, RestoreOp, Staging, Publishing;
    assert CleanupOps(run.prepared, run.Recovery()) != [];
    PhaseAt(run.Log(), run.staged + run.half + run.publishing + run.restoring, run.cleaning, []);
    assert run.cleaning != [] by { NothingTried(); }
    assert run.cleaning[0] == run.Log()[9] && !run.cleaning[0].ok;
  }

  lemma OneIsListed(run: Run)
    requires Follows(run, map[], TwoNewFiles()) && |run.prepared| == 2
    requires run.Count() == 1 && |run.restoring| == 1 && !run.restoring[0].ok
    ensures run.Recovery() == [Recovery("a", None)]
    ensures !AllOk(run.publishing) ==> run.Verdict() == RecoveryRequired([Recovery("a", None)])
  {
    hide OwnTemps, CleanupOps, AllTemps, StagingOps, StageOps, Created, PublishOps, RestoreOp, Staging, Publishing, Attempt;
    assert run.restoring == [run.restoring[0]];
    UnrestoredNext(run.prepared, 1, [], run.restoring[0]);
    NoRestores(run.prepared, 1);
    assert run.prepared[0].dest == TwoNewFiles()[0].dest && run.prepared[0].backup.None?;
  }

  /** New files are written from bytes, so no copy can miss its source, and the plan alone decides. */
  lemma AnswersOf(disk: Disk, run: Run, rs: seq<Replacement>)
    requires disk.Valid() && disk.log == run.Log() && Follows(run, map[], rs) && NewFiles(rs)
    ensures Answers(run.Log(), disk.faults)
  {
    hide OwnTemps, AllTemps, StagingOps, StageOps, Unrestored, Created, CleanupOps, PublishOps, RestoreOp, Staging,
      Publishing, Attempt, NewFiles;
    forall e | e in run.Log() ensures !e.op.CopyFile? { NoCopies(run, rs, e); }
  }

  lemma NoCopies(run: Run, rs: seq<Replacement>, e: Event)
    requires Follows(run, map[], rs) && NewFiles(rs) && e in run.Log()
    ensures !e.op.CopyFile?
  {
    hide OwnTemps, AllTemps, StagingOps, StageOps, Unrestored, Created, CleanupOps;
    var staged, half, publishing, restoring, cleaning :=
      run.staged, run.half, run.publishing, run.restoring, run.cleaning;
    if e in staged {
      AttemptedOp(staged, StagingOps(map[], rs, run.prepared), e);
      NewFilesDoNotCopy(rs, run.prepared, e.op);
    } else if e in half {
      AttemptedOp(half, StageOps(map[], rs[|run.prepared|], run.next), e);
      NewFileOps(rs[|run.prepared|], run.next);
    } else if e in publishing {
      AttemptedOp(publishing, PublishOps(run.prepared), e);
    } else if e in restoring {
      var k :| 0 <= k < |restoring| && restoring[k] == e;
    } else {
      AttemptedOp(cleaning, CleanupOps(run.prepared, run.Recovery()), e);
      CleanupHas(run.prepared, run.Recovery(), e.op);
    }
  }

  lemma AttemptedOp(events: seq<Event>, ops: seq<Op>, e: Event)
    requires Attempt(events, ops) && e in events
    ensures e.op in ops
  {
    var k :| 0 <= k < |events| && events[k] == e;
    assert ops[k] == e.op;
  }

  lemma NewFilesDoNotCopy(rs: seq<Replacement>, prepared: seq<Prepared>, op: Op)
    requires |prepared| <= |rs| && NewFiles(rs) && op in StagingOps(map[], rs, prepared)
    ensures !op.CopyFile?
  {
    hide StageOps;
    if prepared != [] {
      NewFileOps(rs[|prepared| - 1], Last(prepared));
      if op in StagingOps(map[], rs, Init(prepared)) { NewFilesDoNotCopy(rs, Init(prepared), op); }
    }
  }

  lemma OneStaysNew(live: Files, temps: map<nat, Content>, run: Run)
    requires Ends(RecoveryRequired([Recovery("a", None)]), map[], TwoNewFiles(), live, temps)
    requires ShowsAll(live, map[], TwoNewFiles(), 1, run.restoring) && |run.restoring| == 1 && !run.restoring[0].ok
    ensures live == map["a" := "x"]
  {
    assert Shows(live, map[], TwoNewFiles()[0], StaysNew(0, 1, run.restoring));
    forall path | path in live ensures path == "a" {
      assert Listed([Recovery("a", None)], path) || SameAt(live, map[], path);
    }
  }

  lemma BothAreNew()
    ensures NewFiles(TwoNewFiles())
  {
  }

  lemma NewFilesApart()
    ensures Distinct(Dests(TwoNewFiles()))
  {
    var d := Dests(TwoNewFiles());
    assert d[0] == "a" && d[1] == "b";
    assert d[0][0] != d[1][0];
  }

  lemma HiddenEnds(outcome: Outcome, live: Files, temps: map<nat, Content>)
    requires Ends(CleanupFailed(outcome), map[], TwoNewFiles(), live, temps)
    ensures Ends(outcome, map[], TwoNewFiles(), live, temps)
  {
  }

  /** Two new files: publishing the second fails, removing the first fails, and so does the first unlink of the cleanup.
      The caller learns of the failed cleanup only, while one destination stays new. */
  method LostRecovery(garbage: nat -> Content) returns (outcome: Outcome, live: Files)
    ensures outcome == CleanupFailed(RecoveryRequired([Recovery("a", None)]))
    ensures live == map["a" := "x"]
  {
    hide *;
    var disk := new Disk(map[], SecondFails, garbage);
    ghost var run;
    outcome, run := Commit(disk, TwoNewFiles());
    BothAreNew();
    AnswersOf(disk, run, TwoNewFiles());
    BothStaged(run);
    SecondNotPublished(run);
    CleanupFails(run);
    OneIsListed(run);
    live := disk.live;
    NewFilesApart();
    HiddenEnds(RecoveryRequired([Recovery("a", None)]), live, disk.temps);
    OneStaysNew(live, disk.temps, run);
  }

  // ---- a temporary file that nobody removes ---------------------------------------------------

  function OneNewFile(): seq<Replacement> {
    [FromBytes("a", "x")]
  }

  function WriteFails(n: nat): bool {
    n == 2
  }

  /** The directory is made and the file created, but the bytes are not written. */
  lemma WriteIsLast(run: Run)
    requires Follows(run, map[], OneNewFile()) && Answers(run.Log(), WriteFails)
    ensures run.prepared == [] && |run.half| == 3 && Last(run.half).op.WriteFile? && run.Verdict() == RolledBack
  {
    hide OwnTemps, CleanupOps, AllTemps, Publishing, Created, StagingOps, StageOps, Answers, NewFiles;
    OneIsNew();
    HalfAnswers(run, OneNewFile(), WriteFails);
    assert WriteFails(2);
    ThirdIsWrite(OneNewFile()[0], run.next);
  }

  lemma ThirdIsWrite(r: Replacement, p: Prepared)
    requires r.FromBytes?
    ensures |StageOps(map[], r, p)| == 3 && StageOps(map[], r, p)[2].WriteFile?
  {
  }

  lemma NothingToClean(run: Run)
    requires Follows(run, map[], OneNewFile()) && run.prepared == []
    ensures AllOk(run.cleaning)
  {
    hide OwnTemps, AllTemps, StagingOps, StageOps, Publishing, Staging;
  }

  /** Writing the one temporary file fails: nothing is published, and the file stays, since it was not recorded yet. */
  method LeakedTemporary(garbage: nat -> Content) returns (outcome: Outcome, temps: map<nat, Content>)
    ensures outcome == RolledBack && temps != map[]
  {
    hide *;
    var disk := new Disk(map[], WriteFails, garbage);
    ghost var run;
    outcome, run := Commit(disk, OneNewFile());
    OneIsNew();
    AnswersOf(disk, run, OneNewFile());
    WriteIsLast(run);
    NothingToClean(run);
    HalfStaged(run, map[], OneNewFile());
    StaysBehind(run, map[], OneNewFile());
    temps := disk.temps;
  }

  lemma OneIsNew()
    ensures NewFiles(OneNewFile())
  {
  }
}
