/** `commit`: stage every replacement, publish them in order, and roll back when an operation fails. */
module Transaction {
  import opened Prelude
  import opened FaultyDisk

  /** One entry of the replacement list: a destination, and either a source file or prepared bytes. */
  datatype Replacement = FromFile(source: string, dest: string) | FromBytes(dest: string, data: Content)

  /** A staged replacement: its temporary file and, when the destination existed, the file with its old bytes. */
  datatype Prepared = Prepared(temporary: nat, dest: string, backup: Option<nat>)

  /** A destination that the rollback could not restore. */
  datatype Recovery = Recovery(dest: string, backup: Option<nat>)

  /** How `commit` ends. A failure while cleaning up hides the outcome it interrupts. */
  datatype Outcome =
    | Published
    | RolledBack
    | RecoveryRequired(recovery: seq<Recovery>)
    | CleanupFailed(hidden: Outcome)

  // ---- what readers of the destinations see -------------------------------------------------

  function NewContent(old': Files, r: Replacement): Option<Content> {
    match r
    case FromBytes(_, data) => Some(data)
    case FromFile(source, _) => if source in old' then Some(old'[source]) else None
  }

  /** The destinations after the first `k` replacements were published. */
  function After(old': Files, rs: seq<Replacement>, k: nat): Files
    requires k <= |rs|
  {
    if k == 0 then old' else
      match NewContent(old', rs[k - 1])
      case Some(content) => After(old', rs, k - 1)[rs[k - 1].dest := content]
      case None => After(old', rs, k - 1)
  }

  predicate SameAt(a: Files, b: Files, path: string) {
    (path in a <==> path in b) && (path in a ==> a[path] == b[path])
  }

  function Dests(rs: seq<Replacement>): (r: seq<string>)
    ensures |r| == |rs|
  {
    seq(|rs|, k requires 0 <= k < |rs| => rs[k].dest)
  }

  lemma {:induction false} AfterUntouched(old': Files, rs: seq<Replacement>, k: nat, path: string)
    requires k <= |rs| && forall i :: 0 <= i < k ==> rs[i].dest != path
    ensures SameAt(After(old', rs, k), old', path)
  {
    if k > 0 { AfterUntouched(old', rs, k - 1, path); }
  }

  /** Published last: while any replacement is missing, the last destination is still as it was. */
  lemma CommitPoint(old': Files, rs: seq<Replacement>, k: nat)
    requires rs != [] && k < |rs| && Distinct(Dests(rs))
    ensures SameAt(After(old', rs, k), old', Last(rs).dest)
  {
    forall i | 0 <= i < k ensures rs[i].dest != Last(rs).dest {
      assert Dests(rs)[i] != Dests(rs)[|rs| - 1];
    }
    AfterUntouched(old', rs, k, Last(rs).dest);
  }

  /** The first `k` destinations are new and the others old: what one published prefix means. */
  lemma {:induction false} PrefixIs(old': Files, rs: seq<Replacement>, k: nat, i: nat)
    requires k <= |rs| && i < |rs| && Distinct(Dests(rs))
    requires forall j :: 0 <= j < k ==> NewContent(old', rs[j]).Some?
    ensures i < k ==> rs[i].dest in After(old', rs, k)
                      && Some(After(old', rs, k)[rs[i].dest]) == NewContent(old', rs[i])
    ensures i >= k ==> SameAt(After(old', rs, k), old', rs[i].dest)
  {
    if i >= k {
      forall j | 0 <= j < k ensures rs[j].dest != rs[i].dest { assert Dests(rs)[j] != Dests(rs)[i]; }
      AfterUntouched(old', rs, k, rs[i].dest);
    } else if i < k - 1 {
      PrefixIs(old', rs, k - 1, i);
      assert Dests(rs)[i] != Dests(rs)[k - 1];
    }
  }

  // ---- staging ------------------------------------------------------------------------------

  /** The temporary holds the new bytes and the backup, exactly when there is something to back up, the old ones. */
  predicate Staged(old': Files, temps: map<nat, Content>, r: Replacement, p: Prepared) {
    && p.dest == r.dest && p.temporary in temps && NewContent(old', r) == Some(temps[p.temporary])
    && (p.backup.Some? <==> r.dest in old')
    && (p.backup.Some? ==> p.backup.value in temps && temps[p.backup.value] == old'[r.dest]
                           && p.backup.value != p.temporary)
  }

  function TempsOf(p: Prepared): set<nat> {
    {p.temporary} + if p.backup.Some? then {p.backup.value} else {}
  }

  function AllTemps(prepared: seq<Prepared>): set<nat> {
    if prepared == [] then {} else AllTemps(Init(prepared)) + TempsOf(Last(prepared))
  }

  lemma {:induction false} AllTempsHas(prepared: seq<Prepared>, t: nat)
    ensures t in AllTemps(prepared) <==> exists i :: 0 <= i < |prepared| && t in TempsOf(prepared[i])
  {
    hide TempsOf;
    if prepared != [] {
      AllTempsHas(Init(prepared), t);
      assert forall i :: 0 <= i < |prepared| - 1 ==> Init(prepared)[i] == prepared[i];
      assert Last(prepared) == prepared[|prepared| - 1];
    }
  }

  /** No temporary file is used for two purposes, and all of them are newer than `start`. */
  predicate OwnTemps(prepared: seq<Prepared>, before: set<nat>) {
    && (forall i :: 0 <= i < |prepared| ==> TempsOf(prepared[i]) !! before)
    && (forall i :: 0 <= i < |prepared| ==> prepared[i].backup != Some(prepared[i].temporary))
    && forall i, j :: 0 <= i < j < |prepared| ==> TempsOf(prepared[i]) !! TempsOf(prepared[j])
  }

  predicate AllStaged(old': Files, temps: map<nat, Content>, rs: seq<Replacement>, prepared: seq<Prepared>) {
    |prepared| <= |rs| && forall i :: 0 <= i < |prepared| ==> Staged(old', temps, rs[i], prepared[i])
  }

  lemma StagedStays(old': Files, before: map<nat, Content>, after: map<nat, Content>, rs: seq<Replacement>,
                    prepared: seq<Prepared>)
    requires AllStaged(old', before, rs, prepared)
    requires Extends(before, after)
    ensures AllStaged(old', after, rs, prepared)
  {
    forall i | 0 <= i < |prepared| ensures Staged(old', after, rs[i], prepared[i]) {
      assert Staged(old', before, rs[i], prepared[i]);
    }
  }

  function FillOp(old': Files, r: Replacement, t: nat): Op {
    match r
    case FromFile(source, _) => CopyFile(source, t, source in old')
    case FromBytes(_, _) => WriteFile(t)
  }

  function FileOps(old': Files, r: Replacement, t: nat): seq<Op> {
    [MakeDirectory(r.dest), CreateTemp(t, false), FillOp(old', r, t)]
  }

  function BackupOps(dest: string, backup: nat): seq<Op> {
    [CreateTemp(backup, true), CopyFile(dest, backup, true)]
  }

  /** The operations that stage one replacement, in their order. */
  function StageOps(old': Files, r: Replacement, p: Prepared): seq<Op> {
    FileOps(old', r, p.temporary)
    + if r.dest in old' then BackupOps(r.dest, if p.backup.Some? then p.backup.value else 0) else []
  }

  function StagingOps(old': Files, rs: seq<Replacement>, plan: seq<Prepared>): seq<Op>
    requires |plan| <= |rs|
  {
    if plan == [] then [] else StagingOps(old', rs, Init(plan)) + StageOps(old', rs[|plan| - 1], Last(plan))
  }

  /** The destination's directory and an empty temporary file in it. */
  method OpenFile(disk: Disk, dest: string) returns (ok: bool, t: nat, ghost events: seq<Event>)
    requires disk.Valid()
    modifies disk
    ensures disk.Valid() && disk.live == old(disk.live) && disk.history == old(disk.history)
    ensures disk.log == old(disk.log) + events && (ok <==> AllOk(events))
    ensures Attempt(events, [MakeDirectory(dest), CreateTemp(t, false)])
    ensures ok ==> t !in old(disk.temps) && disk.temps == old(disk.temps)[t := ""]
    ensures !ok ==> disk.temps == old(disk.temps)
    ensures Created(events) == if ok then {t} else {}
    ensures disk.Healthy() ==> ok
  {
    hide Attempt, AllOk, Created;
    t := 0;
    NothingTried();
    ok := disk.Mkdir(dest);
    ghost var e := Event(MakeDirectory(dest), ok);
    ghost var create := CreateTemp(t, false);
    AttemptStep([], [], e, [create]);
    events := [] + [e];
    assert [e.op, create] == [] + ([e.op] + [create]);
    if !ok { return; }
    ok, t := disk.MakeTemp(false);
    create := CreateTemp(t, false);
    AttemptStep(events, [] + [e.op], Event(create, ok), []);
    events := events + [Event(create, ok)];
    assert [e.op, create] == [] + [e.op] + [create];
  }

  method FillFile(disk: Disk, r: Replacement, t: nat) returns (ok: bool)
    requires disk.Valid() && t in disk.temps
    modifies disk
    ensures disk.Valid() && disk.live == old(disk.live) && disk.history == old(disk.history)
    ensures disk.log == old(disk.log) + [Event(FillOp(disk.live, r, t), ok)]
    ensures disk.temps.Keys == old(disk.temps).Keys
    ensures forall u :: u in disk.temps && u != t ==> disk.temps[u] == old(disk.temps)[u]
    ensures ok ==> NewContent(disk.live, r) == Some(disk.temps[t])
    ensures disk.Healthy() && NewContent(disk.live, r).Some? ==> ok
  {
    match r {
      case FromFile(source, _) => ok := disk.CopyToTemp(source, t);
      case FromBytes(_, data) => ok := disk.WriteTemp(t, data);
    }
  }

  /** The temporary file with the new bytes. */
  method StageFile(disk: Disk, r: Replacement) returns (ok: bool, t: nat, ghost events: seq<Event>)
    requires disk.Valid()
    modifies disk
    ensures disk.Valid() && disk.live == old(disk.live) && disk.history == old(disk.history)
    ensures disk.log == old(disk.log) + events && Attempt(events, FileOps(disk.live, r, t)) && (ok <==> AllOk(events))
    ensures Extends(old(disk.temps), disk.temps) && disk.temps.Keys == old(disk.temps).Keys + Created(events)
    ensures Created(events) !! old(disk.temps).Keys
    ensures ok ==> t in disk.temps && NewContent(disk.live, r) == Some(disk.temps[t]) && Created(events) == {t}
    ensures disk.Healthy() && NewContent(disk.live, r).Some? ==> ok
  {
    hide Attempt, AllOk, Created, NewContent, FillOp;
    ok, t, events := OpenFile(disk, r.dest);
    ghost var first := [MakeDirectory(r.dest), CreateTemp(t, false)];
    ghost var fill := FillOp(disk.live, r, t);
    assert FileOps(disk.live, r, t) == first + [fill];
    if !ok {
      AttemptMore(events, first, [fill]);
      return;
    }
    ok := FillFile(disk, r, t);
    AttemptStep(events, first, Event(fill, ok), []);
    FillCreates(disk.live, r, t);
    events := events + [Event(fill, ok)];
  }

  lemma FillCreates(old': Files, r: Replacement, t: nat)
    ensures !FillOp(old', r, t).CreateTemp?
  {
  }

  /** The file with the old bytes. */
  method StageBackup(disk: Disk, dest: string) returns (ok: bool, backup: nat, ghost events: seq<Event>)
    requires disk.Valid() && dest in disk.live
    modifies disk
    ensures disk.Valid() && disk.live == old(disk.live) && disk.history == old(disk.history)
    ensures disk.log == old(disk.log) + events && Attempt(events, BackupOps(dest, backup)) && (ok <==> AllOk(events))
    ensures Extends(old(disk.temps), disk.temps) && disk.temps.Keys == old(disk.temps).Keys + Created(events)
    ensures Created(events) !! old(disk.temps).Keys
    ensures ok ==> backup in disk.temps && disk.temps[backup] == disk.live[dest] && Created(events) == {backup}
    ensures disk.Healthy() ==> ok
  {
    hide Attempt, AllOk, Created;
    NothingTried();
    ok, backup := disk.MakeTemp(true);
    ghost var e := Event(CreateTemp(backup, true), ok);
    ghost var copy := CopyFile(dest, backup, true);
    AttemptStep([], [], e, [copy]);
    events := [] + [e];
    assert BackupOps(dest, backup) == [] + ([e.op] + [copy]);
    if !ok { return; }
    ok := disk.CopyToTemp(dest, backup);
    AttemptStep(events, [] + [e.op], Event(copy, ok), []);
    events := events + [Event(copy, ok)];
    assert BackupOps(dest, backup) == [] + [e.op] + [copy];
  }

  /** Stages one replacement; whatever fails, the live files are untouched. */
  method StageOne(disk: Disk, r: Replacement) returns (ok: bool, p: Prepared, ghost events: seq<Event>)
    requires disk.Valid()
    modifies disk
    ensures disk.Valid() && disk.live == old(disk.live) && disk.history == old(disk.history)
    ensures disk.log == old(disk.log) + events && Attempt(events, StageOps(disk.live, r, p)) && (ok <==> AllOk(events))
    ensures Extends(old(disk.temps), disk.temps) && disk.temps.Keys == old(disk.temps).Keys + Created(events)
    ensures Created(events) !! old(disk.temps).Keys
    ensures ok ==> Staged(disk.live, disk.temps, r, p) && Created(events) == TempsOf(p)
    ensures disk.Healthy() && NewContent(disk.live, r).Some? ==> ok
  {
    hide FileOps, BackupOps, Attempt, AllOk, Created;
    var t, backup;
    ghost var more;
    ok, t, events := StageFile(disk, r);
    p := Prepared(t, r.dest, None);
    ghost var first := FileOps(disk.live, r, t);
    if !ok {
      AttemptMore(events, first, StageOps(disk.live, r, p)[|first|..]);
      assert StageOps(disk.live, r, p) == first + StageOps(disk.live, r, p)[|first|..];
      return;
    }
    if r.dest !in disk.live {
      assert StageOps(disk.live, r, p) == first;
      return;
    }
    ghost var done := events;
    ok, backup, more := StageBackup(disk, r.dest);
    p := Prepared(t, r.dest, Some(backup));
    events := done + more;
    AttemptJoin(done, first, more, BackupOps(r.dest, backup));
    LogJoin(done, more);
  }

  predicate Extends(before: map<nat, Content>, after: map<nat, Content>) {
    forall t :: t in before ==> t in after && after[t] == before[t]
  }

  lemma OwnTempsNext(prepared: seq<Prepared>, p: Prepared, before: set<nat>, now: set<nat>)
    requires OwnTemps(prepared, before) && before <= now && TempsOf(p) !! now
    requires forall i :: 0 <= i < |prepared| ==> TempsOf(prepared[i]) <= now
    requires p.backup != Some(p.temporary)
    ensures OwnTemps(prepared + [p], before)
  {
  }

  /** The first loop of `commit`: nothing a reader sees changes, however it ends. What is half staged is not recorded. */
  method StageAll(disk: Disk, rs: seq<Replacement>)
    returns (ok: bool, prepared: seq<Prepared>, ghost next: Prepared, ghost staged: seq<Event>, ghost half: seq<Event>)
    requires disk.Valid()
    modifies disk
    ensures disk.Valid() && disk.live == old(disk.live) && disk.history == old(disk.history)
    ensures Extends(old(disk.temps), disk.temps)
    ensures AllStaged(disk.live, disk.temps, rs, prepared) && OwnTemps(prepared, old(disk.temps).Keys)
    ensures disk.log == old(disk.log) + staged + half
    ensures Staging(disk.live, rs, prepared, next, staged, half) && (ok <==> half == [])
    ensures disk.temps.Keys == old(disk.temps).Keys + Created(staged) + Created(half)
    ensures Created(half) !! old(disk.temps).Keys
    ensures disk.Healthy() && (forall i :: 0 <= i < |rs| ==> NewContent(disk.live, rs[i]).Some?) ==> ok
  {
    hide *;
    ok, prepared, staged, half := true, [], [], [];
    next := Prepared(0, "", None);
    ghost var old' := disk.live;
    var i := 0;
    NothingStaged(old', disk.temps, rs);
    while i < |rs|
      invariant 0 <= i <= |rs| && i == |prepared|
      invariant disk.Valid() && disk.live == old' && disk.history == old(disk.history)
      invariant Extends(old(disk.temps), disk.temps)
      invariant AllStaged(old', disk.temps, rs, prepared) && OwnTemps(prepared, old(disk.temps).Keys)
      invariant disk.log == old(disk.log) + staged
      invariant Attempt(staged, StagingOps(old', rs, prepared)) && AllOk(staged) && Created(staged) == AllTemps(prepared)
      invariant disk.temps.Keys == old(disk.temps).Keys + Created(staged)
    {
      ghost var before, events := disk.temps, [];
      var p;
      ok, p, events := StageOne(disk, rs[i]);
      StagedStays(old', before, disk.temps, rs, prepared);
      if !ok {
        next, half := p, events;
        HalfStaging(old', rs, prepared, next, staged, half, before.Keys);
        ExtendsOn(old(disk.temps), before, disk.temps);
        return;
      }
      BackupIsOther(old', disk.temps, rs[i], p);
      ExtendsOn(old(disk.temps), before, disk.temps);
      AllStagedNext(old', disk.temps, rs, prepared, p);
      TempsInside(prepared, before.Keys);
      OwnTempsNext(prepared, p, old(disk.temps).Keys, before.Keys);
      AttemptJoin(staged, StagingOps(old', rs, prepared), events, StageOps(old', rs[i], p));
      LogJoin(staged, events);
      PlanNext(old', rs, prepared, p);
      prepared := prepared + [p];
      staged := staged + events;
      i := i + 1;
    }
    NothingTried();
    WholeStaging(old', rs, prepared, next, staged);
  }

  /** How staging goes: everything that is recorded was staged without a failure, and the next one failed. */
  predicate Staging(old': Files, rs: seq<Replacement>, prepared: seq<Prepared>, next: Prepared, staged: seq<Event>,
                    half: seq<Event>)
  {
    && |prepared| <= |rs|
    && Attempt(staged, StagingOps(old', rs, prepared)) && AllOk(staged) && Created(staged) == AllTemps(prepared)
    && Created(half) !! AllTemps(prepared)
    && if |prepared| == |rs| then half == []
       else Attempt(half, StageOps(old', rs[|prepared|], next)) && !AllOk(half)
  }

  lemma NothingStaged(old': Files, temps: map<nat, Content>, rs: seq<Replacement>)
    ensures Attempt([], StagingOps(old', rs, [])) && AllOk([]) && Created([]) == AllTemps([]) == {}
    ensures Extends(temps, temps) && AllStaged(old', temps, rs, []) && OwnTemps([], temps.Keys)
  {
  }

  lemma ExtendsOn(a: map<nat, Content>, b: map<nat, Content>, c: map<nat, Content>)
    requires Extends(a, b) && Extends(b, c)
    ensures Extends(a, c)
  {
  }

  lemma AllStagedNext(old': Files, temps: map<nat, Content>, rs: seq<Replacement>, prepared: seq<Prepared>, p: Prepared)
    requires AllStaged(old', temps, rs, prepared) && |prepared| < |rs| && Staged(old', temps, rs[|prepared|], p)
    ensures AllStaged(old', temps, rs, prepared + [p])
  {
    hide Staged;
  }

  lemma WholeStaging(old': Files, rs: seq<Replacement>, prepared: seq<Prepared>, next: Prepared, staged: seq<Event>)
    requires |prepared| == |rs| && Attempt(staged, StagingOps(old', rs, prepared)) && AllOk(staged)
    requires Created(staged) == AllTemps(prepared)
    ensures Staging(old', rs, prepared, next, staged, [])
  {
    NothingTried();
  }

  lemma HalfStaging(old': Files, rs: seq<Replacement>, prepared: seq<Prepared>, next: Prepared, staged: seq<Event>,
                    half: seq<Event>, before: set<nat>)
    requires |prepared| < |rs| && Attempt(staged, StagingOps(old', rs, prepared)) && AllOk(staged)
    requires Created(staged) == AllTemps(prepared) <= before && Created(half) !! before
    requires Attempt(half, StageOps(old', rs[|prepared|], next)) && !AllOk(half)
    ensures Staging(old', rs, prepared, next, staged, half) && half != []
  {
  }

  lemma TempsInside(prepared: seq<Prepared>, keys: set<nat>)
    requires AllTemps(prepared) <= keys
    ensures forall i :: 0 <= i < |prepared| ==> TempsOf(prepared[i]) <= keys
  {
    forall i | 0 <= i < |prepared| ensures TempsOf(prepared[i]) <= keys {
      forall t | t in TempsOf(prepared[i]) ensures t in keys { AllTempsHas(prepared, t); }
    }
  }

  lemma PlanNext(old': Files, rs: seq<Replacement>, prepared: seq<Prepared>, p: Prepared)
    requires |prepared| < |rs|
    ensures StagingOps(old', rs, prepared + [p]) == StagingOps(old', rs, prepared) + StageOps(old', rs[|prepared|], p)
    ensures AllTemps(prepared + [p]) == AllTemps(prepared) + TempsOf(p)
  {
    hide StageOps, TempsOf;
    assert Init(prepared + [p]) == prepared;
  }

  lemma BackupIsOther(old': Files, temps: map<nat, Content>, r: Replacement, p: Prepared)
    requires Staged(old', temps, r, p)
    ensures p.backup != Some(p.temporary) && TempsOf(p) <= temps.Keys
  {
  }

  // ---- publishing ---------------------------------------------------------------------------

  /** Each of these states shows some prefix of the replacements. */
  ghost predicate Prefixes(old': Files, rs: seq<Replacement>, states: seq<Files>) {
    forall s :: s in states ==> exists k :: 0 <= k <= |rs| && s == After(old', rs, k)
  }

  function PublishOps(prepared: seq<Prepared>): (r: seq<Op>)
    ensures |r| == |prepared|
  {
    seq(|prepared|, k requires 0 <= k < |prepared| => MoveOver(prepared[k].temporary, prepared[k].dest))
  }

  /** How many of the operations tried in order succeeded. */
  function Finished(events: seq<Event>): nat {
    if events == [] || Last(events).ok then |events| else |events| - 1
  }

  predicate PublishedSoFar(prepared: seq<Prepared>, events: seq<Event>) {
    |events| <= |prepared| && forall k :: 0 <= k < |events| ==> events[k].op == PublishOps(prepared)[k]
  }

  lemma NothingPublished(prepared: seq<Prepared>)
    ensures PublishedSoFar(prepared, []) && AllOk([]) && Finished([]) == 0
    ensures prepared == [] ==> Attempt([], PublishOps(prepared))
  {
  }

  lemma MovedAre(prepared: seq<Prepared>, events: seq<Event>, t: nat)
    requires PublishedSoFar(prepared, events) && t in Moved(events)
    ensures exists k :: 0 <= k < |events| && events[k].ok && prepared[k].temporary == t
  {
    var e :| e in events && e.ok && e.op.MoveOver? && e.op.t == t;
    var k :| 0 <= k < |events| && events[k] == e;
  }

  /** What is published next is still there. */
  lemma TemporaryWaits(prepared: seq<Prepared>, events: seq<Event>, count: nat)
    requires PublishedSoFar(prepared, events) && |events| == count < |prepared| && OwnTemps(prepared, {})
    ensures prepared[count].temporary !in Moved(events)
  {
    forall k | 0 <= k < count ensures prepared[k].temporary != prepared[count].temporary {
      assert prepared[k].temporary in TempsOf(prepared[k]) && prepared[count].temporary in TempsOf(prepared[count]);
    }
    if prepared[count].temporary in Moved(events) { MovedAre(prepared, events, prepared[count].temporary); }
  }

  lemma StagedIs(old': Files, temps: map<nat, Content>, rs: seq<Replacement>, prepared: seq<Prepared>, i: nat)
    requires AllStaged(old', temps, rs, prepared) && i < |prepared|
    ensures prepared[i].dest == rs[i].dest && prepared[i].temporary in temps
    ensures NewContent(old', rs[i]) == Some(temps[prepared[i].temporary])
  {
    hide NewContent;
    assert Staged(old', temps, rs[i], prepared[i]);
  }

  lemma PublishNext(prepared: seq<Prepared>, count: nat, events: seq<Event>, ok: bool)
    requires count < |prepared| && |events| == count && AllOk(events) && PublishedSoFar(prepared, events)
    ensures var next := events + [Event(MoveOver(prepared[count].temporary, prepared[count].dest), ok)];
            && PublishedSoFar(prepared, next)
            && (AllOk(next) <==> ok) && Finished(next) == (if ok then count + 1 else count)
            && (!ok || count + 1 == |prepared| ==> Attempt(next, PublishOps(prepared)))
            && Moved(next) == Moved(events) + if ok then {prepared[count].temporary} else {}
  {
    var e := Event(MoveOver(prepared[count].temporary, prepared[count].dest), ok);
    LogJoin(events, [e]);
    LogOne(e);
    assert (events + [e])[count] == e;
    assert forall k :: 0 <= k < count ==> (events + [e])[k] == events[k];
  }

  /** The second loop: one atomic replacement after another. */
  method PublishAll(disk: Disk, rs: seq<Replacement>, prepared: seq<Prepared>)
    returns (ok: bool, count: nat, ghost events: seq<Event>)
    requires disk.Valid() && |prepared| == |rs| && AllStaged(disk.live, disk.temps, rs, prepared)
    requires OwnTemps(prepared, {})
    modifies disk
    ensures disk.Valid() && count <= |rs| && (ok <==> count == |rs|) && (disk.Healthy() ==> ok)
    ensures disk.log == old(disk.log) + events && Attempt(events, PublishOps(prepared)) && (ok <==> AllOk(events))
    ensures count == Finished(events) && disk.temps.Keys == old(disk.temps).Keys - Moved(events)
    ensures disk.live == After(old(disk.live), rs, count)
    ensures forall t :: t in disk.temps ==> disk.temps[t] == old(disk.temps)[t]
    ensures |disk.history| >= |old(disk.history)| && disk.history[..|old(disk.history)|] == old(disk.history)
    ensures Prefixes(old(disk.live), rs, disk.history[|old(disk.history)|..])
  {
    hide After, Moved, Staged, AllStaged, OwnTemps, Attempt, PublishOps, Finished, AllOk, NewContent;
    ok, count, events := true, 0, [];
    NothingMoved();
    ghost var h := |old(disk.history)|;
    NoneAfter(disk.live, rs);
    NothingPublished(prepared);
    while count < |prepared|
      invariant 0 <= count <= |prepared| && |events| == count && AllOk(events) && Finished(events) == count
      invariant disk.log == old(disk.log) + events && disk.temps.Keys == old(disk.temps).Keys - Moved(events)
      invariant PublishedSoFar(prepared, events)
      invariant count == |prepared| ==> Attempt(events, PublishOps(prepared))
      invariant disk.Valid() && disk.live == After(old(disk.live), rs, count)
      invariant forall t :: t in disk.temps ==> disk.temps[t] == old(disk.temps)[t]
      invariant |disk.history| >= h && disk.history[..h] == old(disk.history)
      invariant Prefixes(old(disk.live), rs, disk.history[h..])
    {
      var p := prepared[count];
      TemporaryWaits(prepared, events, count);
      StagedIs(old(disk.live), old(disk.temps), rs, prepared, count);
      ghost var before := disk.history;
      ok := disk.Replace(p.temporary, p.dest);
      PublishNext(prepared, count, events, ok);
      events := events + [Event(MoveOver(p.temporary, p.dest), ok)];
      if !ok { return; }
      NextAfter(old(disk.live), rs, count, old(disk.temps)[p.temporary]);
      count := count + 1;
      assert disk.history[h..] == before[h..] + [disk.live];
    }
  }

  lemma NothingMoved()
    ensures Moved([]) == {}
  {
  }

  lemma NoneAfter(old': Files, rs: seq<Replacement>)
    ensures After(old', rs, 0) == old'
  {
  }

  lemma NextAfter(old': Files, rs: seq<Replacement>, k: nat, content: Content)
    requires k < |rs| && NewContent(old', rs[k]) == Some(content)
    ensures After(old', rs, k + 1) == After(old', rs, k)[rs[k].dest := content]
  {
  }

  // ---- rolling back -------------------------------------------------------------------------

  /** What a rollback needs of one published replacement: its backup holds the old bytes, if there were any. */
  predicate Intact(old': Files, temps: map<nat, Content>, r: Replacement, p: Prepared) {
    && p.dest == r.dest && (p.backup.Some? <==> r.dest in old')
    && (p.backup.Some? ==> p.backup.value in temps && temps[p.backup.value] == old'[r.dest])
  }

  /** A destination the caller is told about: what it held is in the backup, or it did not exist. */
  predicate Kept(old': Files, temps: map<nat, Content>, e: Recovery) {
    && (e.backup.Some? <==> e.dest in old')
    && (e.backup.Some? ==> e.backup.value in temps && temps[e.backup.value] == old'[e.dest])
  }

  ghost predicate Listed(recovery: seq<Recovery>, path: string) {
    exists e :: e in recovery && e.dest == path
  }

  ghost predicate Awaits(rs: seq<Replacement>, j: nat, path: string) {
    exists i :: 0 <= i < j && i < |rs| && rs[i].dest == path
  }

  /** Every path is as before, or listed, or still waits for its turn in the rollback. */
  ghost predicate Restored(old': Files, live: Files, rs: seq<Replacement>, j: nat, recovery: seq<Recovery>) {
    forall path :: Awaits(rs, j, path) || Listed(recovery, path) || SameAt(live, old', path)
  }

  /** The last destination never changes in these states. */
  predicate LastKept(old': Files, rs: seq<Replacement>, states: seq<Files>)
    requires rs != []
  {
    forall s :: s in states ==> SameAt(s, old', Last(rs).dest)
  }

  lemma RestoreStep(old': Files, rs: seq<Replacement>, j: nat)
    requires j < |rs| && Distinct(Dests(rs)) && NewContent(old', rs[j]).Some?
    ensures rs[j].dest in old' ==> After(old', rs, j + 1)[rs[j].dest := old'[rs[j].dest]] == After(old', rs, j)
    ensures rs[j].dest !in old' ==> After(old', rs, j + 1) - {rs[j].dest} == After(old', rs, j)
  {
    forall i | 0 <= i < j ensures rs[i].dest != rs[j].dest { assert Dests(rs)[i] != Dests(rs)[j]; }
    AfterUntouched(old', rs, j, rs[j].dest);
  }

  lemma PublishedAwait(old': Files, rs: seq<Replacement>, count: nat)
    requires count <= |rs|
    ensures Restored(old', After(old', rs, count), rs, count, [])
  {
    forall path | !Awaits(rs, count, path) ensures SameAt(After(old', rs, count), old', path) {
      AfterUntouched(old', rs, count, path);
    }
  }

  /** One turn of the rollback: either the destination is as before, or it joins the list. */
  lemma RestoredNext(old': Files, live: Files, live': Files, rs: seq<Replacement>, j: nat, recovery: seq<Recovery>,
                     recovery': seq<Recovery>)
    requires j < |rs| && Restored(old', live, rs, j + 1, recovery) && recovery <= recovery'
    requires SameAt(live', old', rs[j].dest) || Listed(recovery', rs[j].dest)
    requires forall path :: path != rs[j].dest ==> SameAt(live', live, path)
    ensures Restored(old', live', rs, j, recovery')
  {
    forall path | !Awaits(rs, j, path) ensures Listed(recovery', path) || SameAt(live', old', path) {
      if path != rs[j].dest {
        assert !Awaits(rs, j + 1, path);
        if Listed(recovery, path) {
          var e :| e in recovery && e.dest == path;
          assert e in recovery';
        } else {
          assert SameAt(live', live, path);
        }
      }
    }
  }

  lemma AllRestored(old': Files, live: Files, rs: seq<Replacement>)
    requires Restored(old', live, rs, 0, [])
    ensures live == old'
  {
    forall path ensures SameAt(live, old', path) {
      assert !Awaits(rs, 0, path) && !Listed([], path);
    }
    assert forall path :: path in live ==> SameAt(live, old', path);
    assert forall path :: path in old' ==> SameAt(live, old', path);
  }

  /** What undoes one published replacement. */
  function RestoreOp(p: Prepared): Op {
    match p.backup
    case Some(backup) => MoveOver(backup, p.dest)
    case None => UnlinkDest(p.dest)
  }

  /** The destinations whose restore failed, in the order of the rollback: from the last published one back. */
  function Unrestored(prepared: seq<Prepared>, count: nat, restoring: seq<Event>): seq<Recovery>
    requires |restoring| <= count <= |prepared|
  {
    if restoring == [] then [] else
      Unrestored(prepared, count, Init(restoring))
      + if Last(restoring).ok then [] else [Entry(prepared[count - |restoring|])]
  }

  /** Replacement `i` was published and is not undone. */
  predicate StaysNew(i: nat, count: nat, restoring: seq<Event>) {
    i < count && (count - 1 - i < |restoring| ==> !restoring[count - 1 - i].ok)
  }

  predicate Shows(live: Files, old': Files, r: Replacement, isNew: bool) {
    if isNew then r.dest in live && NewContent(old', r) == Some(live[r.dest]) else SameAt(live, old', r.dest)
  }

  /** Each destination holds the new bytes when its replacement stays, and is as before otherwise. */
  predicate ShowsAll(live: Files, old': Files, rs: seq<Replacement>, count: nat, restoring: seq<Event>) {
    forall i :: 0 <= i < |rs| ==> Shows(live, old', rs[i], StaysNew(i, count, restoring))
  }

  lemma PublishedShow(old': Files, rs: seq<Replacement>, count: nat)
    requires count <= |rs| && Distinct(Dests(rs))
    requires forall i :: 0 <= i < |rs| ==> NewContent(old', rs[i]).Some?
    ensures ShowsAll(After(old', rs, count), old', rs, count, [])
  {
    hide After, SameAt, NewContent;
    forall i | 0 <= i < |rs| ensures Shows(After(old', rs, count), old', rs[i], StaysNew(i, count, [])) {
      PrefixIs(old', rs, count, i);
    }
  }

  lemma NextShow(old': Files, rs: seq<Replacement>, count: nat, restoring: seq<Event>, live: Files, live': Files, e: Event)
    requires |restoring| < count <= |rs| && Distinct(Dests(rs)) && ShowsAll(live, old', rs, count, restoring)
    requires var r := rs[count - 1 - |restoring|];
             live' == if !e.ok then live else if r.dest in old' then live[r.dest := old'[r.dest]] else live - {r.dest}
    ensures ShowsAll(live', old', rs, count, restoring + [e])
  {
    hide NewContent;
    var j := count - 1 - |restoring|;
    forall i | 0 <= i < |rs| ensures Shows(live', old', rs[i], StaysNew(i, count, restoring + [e])) {
      assert Shows(live, old', rs[i], StaysNew(i, count, restoring));
      if i != j { assert Dests(rs)[i] != Dests(rs)[j]; }
    }
  }

  lemma UnrestoredNext(prepared: seq<Prepared>, count: nat, restoring: seq<Event>, e: Event)
    requires |restoring| < count <= |prepared|
    ensures Unrestored(prepared, count, restoring + [e])
            == Unrestored(prepared, count, restoring) + if e.ok then [] else [Entry(prepared[count - 1 - |restoring|])]
  {
    assert Init(restoring + [e]) == restoring;
  }

  predicate RestoresAre(prepared: seq<Prepared>, count: nat, restoring: seq<Event>)
    requires count <= |prepared|
  {
    |restoring| <= count && forall k :: 0 <= k < |restoring| ==> restoring[k].op == RestoreOp(prepared[count - 1 - k])
  }

  /** Undoes one published replacement: the destination is as before, or nothing changed. */
  method RestoreOne(disk: Disk, ghost old': Files, ghost r: Replacement, p: Prepared) returns (ok: bool)
    requires disk.Valid() && Intact(old', disk.temps, r, p)
    modifies disk
    ensures disk.Valid()
    ensures disk.log == old(disk.log) + [Event(RestoreOp(p), ok)]
    ensures disk.temps.Keys == old(disk.temps).Keys - Moved([Event(RestoreOp(p), ok)])
    ensures ok ==> disk.live == (if r.dest in old' then old(disk.live)[r.dest := old'[r.dest]] else old(disk.live) - {r.dest})
    ensures ok ==> disk.history == old(disk.history) + [disk.live]
    ensures ok ==> disk.temps == if p.backup.Some? then old(disk.temps) - {p.backup.value} else old(disk.temps)
    ensures !ok ==> disk.live == old(disk.live) && disk.history == old(disk.history) && disk.temps == old(disk.temps)
  {
    match p.backup {
      case Some(backup) => ok := disk.Replace(backup, p.dest);
      case None => ok := disk.UnlinkLive(p.dest);
    }
    LogOne(Event(RestoreOp(p), ok));
  }

  function Entry(p: Prepared): Recovery {
    Recovery(p.dest, p.backup)
  }

  /** The list names published replacements that are past, each with its backup intact. */
  predicate ListIs(old': Files, temps: map<nat, Content>, rs: seq<Replacement>, prepared: seq<Prepared>, j: nat,
                   failed: seq<nat>, recovery: seq<Recovery>)
    requires |prepared| == |rs|
  {
    && |failed| == |recovery|
    && forall k :: 0 <= k < |failed| ==>
         j <= failed[k] < |rs| && recovery[k] == Entry(prepared[failed[k]])
         && Intact(old', temps, rs[failed[k]], prepared[failed[k]])
  }

  predicate PendingIntact(old': Files, temps: map<nat, Content>, rs: seq<Replacement>, prepared: seq<Prepared>, j: nat)
    requires |prepared| == |rs|
  {
    forall i :: 0 <= i < j && i < |rs| ==> Intact(old', temps, rs[i], prepared[i])
  }

  /** Restoring one destination uses up its own backup and no other. */
  lemma OthersIntact(old': Files, temps: map<nat, Content>, temps': map<nat, Content>, rs: seq<Replacement>,
                     prepared: seq<Prepared>, i: nat, j: nat)
    requires |prepared| == |rs| && i < |rs| && j < |rs| && i != j
    requires OwnTemps(prepared, {}) && Intact(old', temps, rs[i], prepared[i])
    requires temps' == if prepared[j].backup.Some? then temps - {prepared[j].backup.value} else temps
    ensures Intact(old', temps', rs[i], prepared[i])
  {
    if prepared[i].backup.Some? && prepared[j].backup.Some? {
      assert prepared[i].backup.value in TempsOf(prepared[i]) && prepared[j].backup.value in TempsOf(prepared[j]);
      assert TempsOf(prepared[i]) !! TempsOf(prepared[j]);
    }
  }

  lemma StillIntact(old': Files, temps: map<nat, Content>, temps': map<nat, Content>, rs: seq<Replacement>,
                    prepared: seq<Prepared>, j: nat, failed: seq<nat>, recovery: seq<Recovery>)
    requires |prepared| == |rs| && j < |rs| && OwnTemps(prepared, {})
    requires temps' == if prepared[j].backup.Some? then temps - {prepared[j].backup.value} else temps
    requires PendingIntact(old', temps, rs, prepared, j + 1)
    requires ListIs(old', temps, rs, prepared, j + 1, failed, recovery)
    ensures PendingIntact(old', temps', rs, prepared, j)
    ensures ListIs(old', temps', rs, prepared, j, failed, recovery)
  {
    hide Intact, OwnTemps;
    forall i | 0 <= i < j ensures Intact(old', temps', rs[i], prepared[i]) {
      OthersIntact(old', temps, temps', rs, prepared, i, j);
    }
    forall k | 0 <= k < |failed| ensures Intact(old', temps', rs[failed[k]], prepared[failed[k]]) {
      OthersIntact(old', temps, temps', rs, prepared, failed[k], j);
    }
  }

  lemma OnePrefix(old': Files, rs: seq<Replacement>, states: seq<Files>, k: nat)
    requires Prefixes(old', rs, states) && k <= |rs|
    ensures Prefixes(old', rs, states + [After(old', rs, k)])
  {
  }

  /** The `except` branch: the published replacements in reverse, going on after a failed restore. */
  method Rollback(disk: Disk, ghost old': Files, rs: seq<Replacement>, prepared: seq<Prepared>, count: nat)
    returns (recovery: seq<Recovery>, ghost failed: seq<nat>, ghost restoring: seq<Event>)
    requires disk.Valid() && |prepared| == |rs| && count < |rs| && OwnTemps(prepared, {})
    requires PendingIntact(old', disk.temps, rs, prepared, count)
    requires forall i :: 0 <= i < |rs| ==> NewContent(old', rs[i]).Some?
    requires disk.live == After(old', rs, count)
    modifies disk
    ensures disk.Valid()
    ensures disk.log == old(disk.log) + restoring && |restoring| == count && RestoresAre(prepared, count, restoring)
    ensures recovery == Unrestored(prepared, count, restoring)
    ensures disk.temps.Keys == old(disk.temps).Keys - Moved(restoring)
    ensures Distinct(Dests(rs)) ==> ShowsAll(disk.live, old', rs, count, restoring)
    ensures Restored(old', disk.live, rs, 0, recovery)
    ensures ListIs(old', disk.temps, rs, prepared, 0, failed, recovery)
    ensures forall t :: t in disk.temps ==> t in old(disk.temps) && disk.temps[t] == old(disk.temps)[t]
    ensures |disk.history| >= |old(disk.history)| && disk.history[..|old(disk.history)|] == old(disk.history)
    ensures Distinct(Dests(rs)) ==> LastKept(old', rs, disk.history[|old(disk.history)|..])
    ensures Distinct(Dests(rs)) && recovery == [] ==> Prefixes(old', rs, disk.history[|old(disk.history)|..])
  {
    hide *;
    recovery, failed, restoring := [], [], [];
    ghost var h := |old(disk.history)|;
    var j := count;
    RollbackStarts(old', rs, prepared, count, disk.temps);
    assert disk.history[h..] == [];
    NothingMoved();
    NoRestores(prepared, count);
    if Distinct(Dests(rs)) { PublishedShow(old', rs, count); }
    while j > 0
      invariant 0 <= j <= count && disk.Valid()
      invariant disk.log == old(disk.log) + restoring && |restoring| == count - j
      invariant RestoresAre(prepared, count, restoring) && recovery == Unrestored(prepared, count, restoring)
      invariant disk.temps.Keys == old(disk.temps).Keys - Moved(restoring)
      invariant Distinct(Dests(rs)) ==> ShowsAll(disk.live, old', rs, count, restoring)
      invariant Restored(old', disk.live, rs, j, recovery)
      invariant PendingIntact(old', disk.temps, rs, prepared, j)
      invariant ListIs(old', disk.temps, rs, prepared, j, failed, recovery)
      invariant forall t :: t in disk.temps ==> t in old(disk.temps) && disk.temps[t] == old(disk.temps)[t]
      invariant |disk.history| >= h && disk.history[..h] == old(disk.history)
      invariant Distinct(Dests(rs)) ==> SameAt(disk.live, old', Last(rs).dest)
      invariant Distinct(Dests(rs)) ==> LastKept(old', rs, disk.history[h..])
      invariant Distinct(Dests(rs)) && recovery == [] ==> disk.live == After(old', rs, j) && Prefixes(old', rs, disk.history[h..])
    {
      j := j - 1;
      ghost var live, temps, history := disk.live, disk.temps, disk.history;
      NextIntact(old', disk.temps, rs, prepared, j);
      var ok := RestoreOne(disk, old', rs[j], prepared[j]);
      ghost var e := Event(RestoreOp(prepared[j]), ok);
      if Distinct(Dests(rs)) { NextShow(old', rs, count, restoring, live, disk.live, e); }
      UnrestoredNext(prepared, count, restoring, e);
      RestoresNext(prepared, count, restoring, e);
      LogJoin(restoring, [e]);
      restoring := restoring + [e];
      if ok {
        RestoreKeeps(old', live, disk.live, rs, j, recovery);
        StillIntact(old', temps, disk.temps, rs, prepared, j, failed, recovery);
        assert disk.history[h..] == history[h..] + [disk.live];
        if Distinct(Dests(rs)) {
          RestoreKeepsLast(old', live, disk.live, rs, j, history[h..]);
          if recovery == [] {
            RestoreStep(old', rs, j);
            OnePrefix(old', rs, history[h..], j);
          }
        }
      } else {
        FailureListed(old', temps, live, rs, prepared, j, failed, recovery);
        recovery := recovery + [Entry(prepared[j])];
        failed := failed + [j];
      }
    }
  }

  lemma NoRestores(prepared: seq<Prepared>, count: nat)
    requires count <= |prepared|
    ensures RestoresAre(prepared, count, []) && Unrestored(prepared, count, []) == []
  {
  }

  lemma RestoresNext(prepared: seq<Prepared>, count: nat, restoring: seq<Event>, e: Event)
    requires |restoring| < count <= |prepared| && RestoresAre(prepared, count, restoring)
    requires e.op == RestoreOp(prepared[count - 1 - |restoring|])
    ensures RestoresAre(prepared, count, restoring + [e])
  {
    hide RestoreOp;
  }

  lemma RollbackStarts(old': Files, rs: seq<Replacement>, prepared: seq<Prepared>, count: nat, temps: map<nat, Content>)
    requires |prepared| == |rs| && count < |rs|
    ensures Restored(old', After(old', rs, count), rs, count, [])
    ensures ListIs(old', temps, rs, prepared, count, [], [])
    ensures LastKept(old', rs, []) && Prefixes(old', rs, [])
    ensures Distinct(Dests(rs)) ==> SameAt(After(old', rs, count), old', Last(rs).dest)
  {
    PublishedAwait(old', rs, count);
    if Distinct(Dests(rs)) { CommitPoint(old', rs, count); }
  }

  lemma NextIntact(old': Files, temps: map<nat, Content>, rs: seq<Replacement>, prepared: seq<Prepared>, j: nat)
    requires |prepared| == |rs| && j < |rs| && PendingIntact(old', temps, rs, prepared, j + 1)
    ensures Intact(old', temps, rs[j], prepared[j])
  {
  }

  lemma RestoreKeeps(old': Files, live: Files, live': Files, rs: seq<Replacement>, j: nat, recovery: seq<Recovery>)
    requires j < |rs| && Restored(old', live, rs, j + 1, recovery)
    requires live' == if rs[j].dest in old' then live[rs[j].dest := old'[rs[j].dest]] else live - {rs[j].dest}
    ensures Restored(old', live', rs, j, recovery)
  {
    hide Restored;
    RestoredNext(old', live, live', rs, j, recovery, recovery);
  }

  lemma RestoreKeepsLast(old': Files, live: Files, live': Files, rs: seq<Replacement>, j: nat, states: seq<Files>)
    requires j < |rs| - 1 && Distinct(Dests(rs))
    requires SameAt(live, old', Last(rs).dest) && LastKept(old', rs, states)
    requires live' == if rs[j].dest in old' then live[rs[j].dest := old'[rs[j].dest]] else live - {rs[j].dest}
    ensures SameAt(live', old', Last(rs).dest) && LastKept(old', rs, states + [live'])
  {
    assert Dests(rs)[j] != Dests(rs)[|rs| - 1];
  }

  lemma FailureListed(old': Files, temps: map<nat, Content>, live: Files, rs: seq<Replacement>, prepared: seq<Prepared>,
                      j: nat, failed: seq<nat>, recovery: seq<Recovery>)
    requires |prepared| == |rs| && j < |rs|
    requires PendingIntact(old', temps, rs, prepared, j + 1)
    requires ListIs(old', temps, rs, prepared, j + 1, failed, recovery)
    requires Restored(old', live, rs, j + 1, recovery)
    ensures PendingIntact(old', temps, rs, prepared, j)
    ensures ListIs(old', temps, rs, prepared, j, failed + [j], recovery + [Entry(prepared[j])])
    ensures Restored(old', live, rs, j, recovery + [Entry(prepared[j])])
  {
    hide Restored;
    var recovery' := recovery + [Entry(prepared[j])];
    assert Intact(old', temps, rs[j], prepared[j]);
    assert recovery'[|recovery|] in recovery';
    RestoredNext(old', live, live, rs, j, recovery, recovery');
  }

  // ---- cleaning up --------------------------------------------------------------------------

  ghost predicate Needed(recovery: seq<Recovery>, backup: nat) {
    exists e :: e in recovery && e.backup == Some(backup)
  }

  method IsNeeded(recovery: seq<Recovery>, backup: nat) returns (needed: bool)
    ensures needed == Needed(recovery, backup)
  {
    var k := 0;
    while k < |recovery|
      invariant 0 <= k <= |recovery|
      invariant forall i :: 0 <= i < k ==> recovery[i].backup != Some(backup)
    {
      if recovery[k].backup == Some(backup) {
        assert recovery[k] in recovery;
        return true;
      }
      k := k + 1;
    }
    return false;
  }

  /** No staging temporary is a backup the list names. */
  ghost predicate Unlisted(prepared: seq<Prepared>, recovery: seq<Recovery>) {
    forall i :: 0 <= i < |prepared| ==> !Needed(recovery, prepared[i].temporary)
  }

  /** The unlinks of the cleanup, in their order. */
  ghost function CleanupOps(prepared: seq<Prepared>, recovery: seq<Recovery>): seq<Op> {
    if prepared == [] then [] else CleanupOps(Init(prepared), recovery) + OneCleanup(Last(prepared), recovery)
  }

  ghost function OneCleanup(p: Prepared, recovery: seq<Recovery>): seq<Op> {
    [UnlinkTemp(p.temporary)]
    + if p.backup.Some? && !Needed(recovery, p.backup.value) then [UnlinkTemp(p.backup.value)] else []
  }

  lemma CleanupNext(prepared: seq<Prepared>, recovery: seq<Recovery>, k: nat)
    requires k < |prepared|
    ensures CleanupOps(prepared[..k + 1], recovery) == CleanupOps(prepared[..k], recovery) + OneCleanup(prepared[k], recovery)
  {
    hide OneCleanup;
    assert Init(prepared[..k + 1]) == prepared[..k];
  }

  lemma {:induction false} CleanupPrefix(prepared: seq<Prepared>, recovery: seq<Recovery>, k: nat)
    requires k <= |prepared|
    ensures CleanupOps(prepared[..k], recovery) <= CleanupOps(prepared, recovery)
    decreases |prepared| - k
  {
    hide OneCleanup, CleanupOps;
    if k == |prepared| {
      assert prepared[..k] == prepared;
    } else {
      CleanupNext(prepared, recovery, k);
      CleanupPrefix(prepared, recovery, k + 1);
    }
  }

  /** The unlinks for one staged replacement. */
  method CleanOne(disk: Disk, p: Prepared, recovery: seq<Recovery>) returns (ok: bool, ghost events: seq<Event>)
    requires disk.Valid() && !Needed(recovery, p.temporary)
    modifies disk
    ensures disk.Valid() && disk.live == old(disk.live) && disk.history == old(disk.history)
    ensures disk.log == old(disk.log) + events && Attempt(events, OneCleanup(p, recovery)) && (ok <==> AllOk(events))
    ensures forall t :: t in disk.temps ==> t in old(disk.temps) && disk.temps[t] == old(disk.temps)[t]
    ensures disk.temps.Keys == old(disk.temps).Keys - Unlinked(events)
    ensures Unlinked(events) <= TempsOf(p) && forall t :: t in Unlinked(events) ==> !Needed(recovery, t)
    ensures disk.Healthy() ==> ok
  {
    hide Attempt, AllOk, Unlinked;
    NothingTried();
    ok := disk.UnlinkTemporary(p.temporary);
    ghost var e := Event(UnlinkTemp(p.temporary), ok);
    ghost var ops := OneCleanup(p, recovery);
    AttemptStep([], [], e, ops[1..]);
    events := [] + [e];
    assert ops == [] + ([e.op] + ops[1..]);
    if !ok { return; }
    var needed := p.backup.Some?;
    if needed { needed := IsNeeded(recovery, p.backup.value); }
    if p.backup.None? || needed {
      assert ops == [] + [e.op];
      return;
    }
    ok := disk.UnlinkTemporary(p.backup.value);
    ghost var e' := Event(UnlinkTemp(p.backup.value), ok);
    AttemptStep(events, [] + [e.op], e', []);
    events := events + [e'];
    assert ops == [] + [e.op] + [e'.op];
  }

  /** The `finally` branch: removes every temporary and every backup the list does not name. */
  method Cleanup(disk: Disk, prepared: seq<Prepared>, recovery: seq<Recovery>)
    returns (ok: bool, ghost events: seq<Event>)
    requires disk.Valid() && Unlisted(prepared, recovery)
    modifies disk
    ensures disk.Valid() && disk.live == old(disk.live) && disk.history == old(disk.history)
    ensures disk.log == old(disk.log) + events && Attempt(events, CleanupOps(prepared, recovery)) && (ok <==> AllOk(events))
    ensures forall t :: t in disk.temps ==> t in old(disk.temps) && disk.temps[t] == old(disk.temps)[t]
    ensures disk.temps.Keys == old(disk.temps).Keys - Unlinked(events)
    ensures Unlinked(events) <= AllTemps(prepared) && forall t :: t in Unlinked(events) ==> !Needed(recovery, t)
    ensures disk.Healthy() ==> ok
  {
    hide Needed, Unlisted, OneCleanup, CleanupOps, Attempt, AllOk, Unlinked, TempsOf, AllTemps;
    ok, events := true, [];
    var k := 0;
    NothingCleaned(prepared, recovery);
    while k < |prepared|
      invariant 0 <= k <= |prepared| && disk.Valid() && ok
      invariant disk.live == old(disk.live) && disk.history == old(disk.history)
      invariant disk.log == old(disk.log) + events
      invariant Attempt(events, CleanupOps(prepared[..k], recovery)) && AllOk(events)
      invariant forall t :: t in disk.temps ==> t in old(disk.temps) && disk.temps[t] == old(disk.temps)[t]
      invariant disk.temps.Keys == old(disk.temps).Keys - Unlinked(events)
      invariant Unlinked(events) <= AllTemps(prepared) && forall t :: t in Unlinked(events) ==> !Needed(recovery, t)
    {
      ghost var done, more := events, [];
      TemporaryUnlisted(prepared, recovery, k);
      ok, more := CleanOne(disk, prepared[k], recovery);
      events := done + more;
      LogJoin(done, more);
      CleanupNext(prepared, recovery, k);
      AttemptJoin(done, CleanupOps(prepared[..k], recovery), more, OneCleanup(prepared[k], recovery));
      OneOfAllTemps(prepared, k);
      k := k + 1;
      if !ok {
        CleanupPrefix(prepared, recovery, k);
        ghost var now, all := CleanupOps(prepared[..k], recovery), CleanupOps(prepared, recovery);
        assert all == now + all[|now|..];
        AttemptMore(events, now, all[|now|..]);
        return;
      }
    }
    assert prepared[..k] == prepared;
  }

  lemma NothingCleaned(prepared: seq<Prepared>, recovery: seq<Recovery>)
    ensures Attempt([], CleanupOps(prepared[..0], recovery)) && AllOk([]) && Unlinked([]) == {}
  {
  }

  lemma OneOfAllTemps(prepared: seq<Prepared>, k: nat)
    requires k < |prepared|
    ensures TempsOf(prepared[k]) <= AllTemps(prepared)
  {
    forall t | t in TempsOf(prepared[k]) ensures t in AllTemps(prepared) { AllTempsHas(prepared, t); }
  }

  lemma TemporaryUnlisted(prepared: seq<Prepared>, recovery: seq<Recovery>, k: nat)
    requires Unlisted(prepared, recovery) && k < |prepared|
    ensures !Needed(recovery, prepared[k].temporary)
  {
  }

  // ---- the transaction ----------------------------------------------------------------------

  /** What the caller of `commit` may rely on after each outcome. */
  ghost predicate Ends(outcome: Outcome, old': Files, rs: seq<Replacement>, live: Files, temps: map<nat, Content>) {
    match outcome
    case Published => live == After(old', rs, |rs|)
    case RolledBack => live == old'
    case RecoveryRequired(recovery) =>
      && recovery != []
      && (forall path :: Listed(recovery, path) || SameAt(live, old', path))
      && (forall e :: e in recovery ==> Kept(old', temps, e) && Replaced(rs, e.dest))
    case CleanupFailed(hidden) => Ends(hidden, old', rs, live, temps)
  }

  ghost predicate Replaced(rs: seq<Replacement>, path: string) {
    exists i :: 0 <= i < |rs| && rs[i].dest == path
  }

  /** The outcome before the cleanup. */
  function Decided(outcome: Outcome): Outcome {
    match outcome
    case CleanupFailed(hidden) => Decided(hidden)
    case _ => outcome
  }

  /** What the caller may rely on, whether or not a failed cleanup hides the outcome: what is published, that everything is as
      before, or that everything not listed is and every listed path that existed has its old bytes in its backup. */
  lemma {:induction false} EndsMeans(outcome: Outcome, old': Files, rs: seq<Replacement>, live: Files,
                                     temps: map<nat, Content>)
    requires Ends(outcome, old', rs, live, temps)
    ensures Decided(outcome).Published? ==> live == After(old', rs, |rs|)
    ensures Decided(outcome).RolledBack? ==> live == old'
    ensures Decided(outcome).RecoveryRequired? ==>
              && Decided(outcome).recovery != []
              && (forall path :: (forall e :: e in Decided(outcome).recovery ==> e.dest != path) ==> SameAt(live, old', path))
              && forall e :: e in Decided(outcome).recovery ==>
                   && (e.backup.Some? <==> e.dest in old')
                   && (e.backup.Some? ==> e.backup.value in temps && temps[e.backup.value] == old'[e.dest])
    decreases outcome
  {
    hide After, SameAt;
    if outcome.CleanupFailed? { EndsMeans(outcome.hidden, old', rs, live, temps); }
  }

  lemma OwnAnywhere(prepared: seq<Prepared>, before: set<nat>)
    requires OwnTemps(prepared, before)
    ensures OwnTemps(prepared, {})
  {
  }

  /** Publishing moves staged temporaries away and leaves every backup where it was. */
  lemma PublishedIntact(old': Files, staged: map<nat, Content>, temps: map<nat, Content>, rs: seq<Replacement>,
                        prepared: seq<Prepared>, publishing: seq<Event>, count: nat)
    requires |prepared| == |rs| && count < |rs| && AllStaged(old', staged, rs, prepared) && OwnTemps(prepared, {})
    requires temps.Keys == staged.Keys - Moved(publishing) && PublishedSoFar(prepared, publishing)
    requires forall t :: t in temps ==> temps[t] == staged[t]
    ensures PendingIntact(old', temps, rs, prepared, count)
    ensures forall i :: 0 <= i < |rs| ==> NewContent(old', rs[i]).Some?
  {
    hide NewContent;
    forall i | 0 <= i < |rs| ensures NewContent(old', rs[i]).Some? { assert Staged(old', staged, rs[i], prepared[i]); }
    forall i | 0 <= i < count ensures Intact(old', temps, rs[i], prepared[i]) {
      assert Staged(old', staged, rs[i], prepared[i]);
      if prepared[i].backup.Some? {
        BackupWaits(prepared, publishing, i);
      }
    }
  }

  lemma BackupWaits(prepared: seq<Prepared>, publishing: seq<Event>, i: nat)
    requires OwnTemps(prepared, {}) && i < |prepared| && prepared[i].backup.Some? && PublishedSoFar(prepared, publishing)
    ensures prepared[i].backup.value !in Moved(publishing)
  {
    forall k | 0 <= k < |publishing| ensures prepared[k].temporary != prepared[i].backup.value {
      TemporaryIsNoBackup(prepared, k, i);
    }
    if prepared[i].backup.value in Moved(publishing) { MovedAre(prepared, publishing, prepared[i].backup.value); }
  }

  lemma TemporaryIsNoBackup(prepared: seq<Prepared>, k: nat, i: nat)
    requires OwnTemps(prepared, {}) && k < |prepared| && i < |prepared|
    ensures prepared[i].backup != Some(prepared[k].temporary)
  {
    if i != k && prepared[i].backup.Some? {
      assert prepared[k].temporary in TempsOf(prepared[k]) && prepared[i].backup.value in TempsOf(prepared[i]);
      assert TempsOf(prepared[k]) !! TempsOf(prepared[i]);
    }
  }

  lemma BackupsUnlisted(old': Files, temps: map<nat, Content>, rs: seq<Replacement>, prepared: seq<Prepared>,
                        failed: seq<nat>, recovery: seq<Recovery>)
    requires |prepared| == |rs| && OwnTemps(prepared, {}) && ListIs(old', temps, rs, prepared, 0, failed, recovery)
    ensures Unlisted(prepared, recovery)
  {
    hide Intact, OwnTemps;
    forall i | 0 <= i < |prepared| ensures !Needed(recovery, prepared[i].temporary) {
      forall e | e in recovery ensures e.backup != Some(prepared[i].temporary) {
        var k :| 0 <= k < |recovery| && recovery[k] == e;
        TemporaryIsNoBackup(prepared, i, failed[k]);
      }
    }
  }

  lemma RecoveryEnds(old': Files, live: Files, temps: map<nat, Content>, rs: seq<Replacement>, prepared: seq<Prepared>,
                     failed: seq<nat>, recovery: seq<Recovery>)
    requires |prepared| == |rs| && recovery != [] && ListIs(old', temps, rs, prepared, 0, failed, recovery)
    requires Restored(old', live, rs, 0, recovery)
    ensures Ends(RecoveryRequired(recovery), old', rs, live, temps)
  {
    hide SameAt, Listed;
    forall path ensures Listed(recovery, path) || SameAt(live, old', path) { assert !Awaits(rs, 0, path); }
    forall e | e in recovery ensures Kept(old', temps, e) && Replaced(rs, e.dest) {
      var k :| 0 <= k < |recovery| && recovery[k] == e;
      assert Intact(old', temps, rs[failed[k]], prepared[failed[k]]);
    }
  }

  /** The cleanup keeps what the outcome promises. */
  lemma EndsSurvive(outcome: Outcome, old': Files, rs: seq<Replacement>, live: Files, temps: map<nat, Content>,
                    temps': map<nat, Content>)
    requires Ends(outcome, old', rs, live, temps) && !outcome.CleanupFailed?
    requires forall t :: t in temps' ==> t in temps && temps'[t] == temps[t]
    requires outcome.RecoveryRequired? ==> forall t :: t in temps && Needed(outcome.recovery, t) ==> t in temps'
    ensures Ends(outcome, old', rs, live, temps') && Ends(CleanupFailed(outcome), old', rs, live, temps')
  {
    hide SameAt, Listed, Replaced, After;
    if outcome.RecoveryRequired? {
      forall e | e in outcome.recovery ensures Kept(old', temps', e) {
        assert Kept(old', temps, e);
        if e.backup.Some? { assert Needed(outcome.recovery, e.backup.value); }
      }
    }
  }

  /** In these states the last destination is as before, unless everything is published. */
  ghost predicate CommitsLast(old': Files, rs: seq<Replacement>, states: seq<Files>)
    requires rs != []
  {
    forall s :: s in states ==> s == After(old', rs, |rs|) || SameAt(s, old', Last(rs).dest)
  }

  lemma PrefixesCommitLast(old': Files, rs: seq<Replacement>, states: seq<Files>)
    requires rs != [] && Distinct(Dests(rs)) && Prefixes(old', rs, states)
    ensures CommitsLast(old', rs, states)
  {
    hide After, SameAt, Distinct;
    forall s | s in states ensures s == After(old', rs, |rs|) || SameAt(s, old', Last(rs).dest) {
      var k :| 0 <= k <= |rs| && s == After(old', rs, k);
      if k < |rs| { CommitPoint(old', rs, k); }
    }
  }

  lemma StatesJoin(old': Files, rs: seq<Replacement>, a: seq<Files>, b: seq<Files>)
    requires rs != []
    ensures CommitsLast(old', rs, a) && LastKept(old', rs, b) ==> CommitsLast(old', rs, a + b)
    ensures Prefixes(old', rs, a) && Prefixes(old', rs, b) ==> Prefixes(old', rs, a + b)
  {
    hide After, SameAt;
  }

  /** How publishing and the rollback after a failure go. */
  predicate Publishing(prepared: seq<Prepared>, publishing: seq<Event>, restoring: seq<Event>) {
    && Attempt(publishing, PublishOps(prepared)) && Finished(publishing) <= |prepared|
    && RestoresAre(prepared, Finished(publishing), restoring)
    && |restoring| == if AllOk(publishing) then 0 else Finished(publishing)
  }

  /** Publishes staged replacements, and rolls back when one of them fails. */
  method PublishOrRollBack(disk: Disk, rs: seq<Replacement>, prepared: seq<Prepared>)
    returns (outcome: Outcome, recovery: seq<Recovery>, ghost publishing: seq<Event>, ghost restoring: seq<Event>)
    requires disk.Valid() && |prepared| == |rs| && AllStaged(disk.live, disk.temps, rs, prepared)
    requires OwnTemps(prepared, {})
    modifies disk
    ensures disk.Valid() && Ends(outcome, old(disk.live), rs, disk.live, disk.temps)
    ensures disk.log == old(disk.log) + publishing + restoring && Publishing(prepared, publishing, restoring)
    ensures recovery == Unrestored(prepared, Finished(publishing), restoring)
    ensures outcome == if AllOk(publishing) then Published else if recovery == [] then RolledBack else RecoveryRequired(recovery)
    ensures disk.temps.Keys == old(disk.temps).Keys - Moved(publishing) - Moved(restoring)
    ensures Distinct(Dests(rs)) ==> ShowsAll(disk.live, old(disk.live), rs, Finished(publishing), restoring)
    ensures disk.Healthy() ==> outcome == Published
    ensures Unlisted(prepared, recovery)
    ensures forall t :: t in disk.temps ==> t in old(disk.temps) && disk.temps[t] == old(disk.temps)[t]
    ensures |disk.history| >= |old(disk.history)| && disk.history[..|old(disk.history)|] == old(disk.history)
    ensures Distinct(Dests(rs)) && rs != [] ==> CommitsLast(old(disk.live), rs, disk.history[|old(disk.history)|..])
    ensures Distinct(Dests(rs)) && !outcome.RecoveryRequired? ==>
              Prefixes(old(disk.live), rs, disk.history[|old(disk.history)|..])
  {
    hide *;
    ghost var old', staged, h := disk.live, disk.temps, |disk.history|;
    recovery, restoring := [], [];
    var ok, count;
    ok, count, publishing := PublishAll(disk, rs, prepared);
    ghost var history, published := disk.history, disk.temps;
    NewIsThere(old', staged, rs, prepared);
    NothingMoved();
    if Distinct(Dests(rs)) && rs != [] { PrefixesCommitLast(old', rs, history[h..]); }
    if ok {
      outcome := Published;
      PublishedEnds(old', rs, disk.live, disk.temps, prepared);
      if Distinct(Dests(rs)) { PublishedShow(old', rs, count); }
      NoRestores(prepared, count);
      PublishedWhole(prepared, publishing);
    } else {
      AttemptedSoFar(prepared, publishing);
      PublishedIntact(old', staged, disk.temps, rs, prepared, publishing, count);
      ghost var failed;
      recovery, failed, restoring := Rollback(disk, old', rs, prepared, count);
      outcome := if recovery == [] then RolledBack else RecoveryRequired(recovery);
      PublishedPart(prepared, publishing, restoring);
      BackupsUnlisted(old', disk.temps, rs, prepared, failed, recovery);
      if recovery == [] {
        RolledBackEnds(old', rs, disk.live, disk.temps);
      } else {
        RecoveryEnds(old', disk.live, disk.temps, rs, prepared, failed, recovery);
      }
      assert disk.history[h..] == history[h..] + disk.history[|history|..];
      StatesJoin(old', rs, history[h..], disk.history[|history|..]);
    }
  }

  lemma NewIsThere(old': Files, staged: map<nat, Content>, rs: seq<Replacement>, prepared: seq<Prepared>)
    requires |prepared| == |rs| && AllStaged(old', staged, rs, prepared)
    ensures forall i :: 0 <= i < |rs| ==> NewContent(old', rs[i]).Some?
  {
    hide NewContent;
    forall i | 0 <= i < |rs| ensures NewContent(old', rs[i]).Some? { assert Staged(old', staged, rs[i], prepared[i]); }
  }

  lemma AttemptedSoFar(prepared: seq<Prepared>, publishing: seq<Event>)
    requires Attempt(publishing, PublishOps(prepared))
    ensures PublishedSoFar(prepared, publishing)
  {
  }

  lemma PublishedWhole(prepared: seq<Prepared>, publishing: seq<Event>)
    requires Attempt(publishing, PublishOps(prepared)) && AllOk(publishing)
    ensures Publishing(prepared, publishing, [])
  {
  }

  lemma PublishedPart(prepared: seq<Prepared>, publishing: seq<Event>, restoring: seq<Event>)
    requires Attempt(publishing, PublishOps(prepared)) && !AllOk(publishing) && Finished(publishing) <= |prepared|
    requires RestoresAre(prepared, Finished(publishing), restoring) && |restoring| == Finished(publishing)
    ensures Publishing(prepared, publishing, restoring)
  {
  }

  lemma PublishedEnds(old': Files, rs: seq<Replacement>, live: Files, temps: map<nat, Content>, prepared: seq<Prepared>)
    requires live == After(old', rs, |rs|)
    ensures Ends(Published, old', rs, live, temps) && Unlisted(prepared, [])
  {
  }

  lemma RolledBackEnds(old': Files, rs: seq<Replacement>, live: Files, temps: map<nat, Content>)
    requires Restored(old', live, rs, 0, [])
    ensures Ends(RolledBack, old', rs, live, temps)
  {
    AllRestored(old', live, rs);
  }

  // ---- one run of the transaction -------------------------------------------------------------

  /** What happened, phase by phase: the recorded replacements and the operations with their answers. */
  datatype Run = Run(prepared: seq<Prepared>, next: Prepared, staged: seq<Event>, half: seq<Event>,
                     publishing: seq<Event>, restoring: seq<Event>, cleaning: seq<Event>)
  {
    function Log(): seq<Event> {
      staged + half + publishing + restoring + cleaning
    }

    /** How many replacements were published before the first failure. */
    function Count(): nat {
      Finished(publishing)
    }

    function Recovery(): seq<Recovery>
      requires |restoring| <= Count() <= |prepared|
    {
      Unrestored(prepared, Count(), restoring)
    }

    /** The outcome before the cleanup. */
    function Verdict(): Outcome
      requires |restoring| <= Count() <= |prepared|
    {
      if half == [] && AllOk(publishing) then Published
      else if Recovery() == [] then RolledBack
      else RecoveryRequired(Recovery())
    }

    function LeftBehind(): set<nat> {
      Created(staged) + Created(half) - Moved(publishing) - Moved(restoring) - Unlinked(cleaning)
    }
  }

  /** The run is one of `commit`: each phase goes as the code has it, up to the failures. */
  ghost predicate Follows(run: Run, old': Files, rs: seq<Replacement>) {
    && Staging(old', rs, run.prepared, run.next, run.staged, run.half)
    && OwnTemps(run.prepared, {})
    && |run.prepared| <= |rs|
    && (forall i :: 0 <= i < |run.prepared| ==>
          run.prepared[i].dest == rs[i].dest && (run.prepared[i].backup.Some? <==> rs[i].dest in old'))
    && (if run.half == [] then Publishing(run.prepared, run.publishing, run.restoring)
        else run.publishing == [] && run.restoring == [])
    && |run.restoring| <= run.Count() <= |run.prepared|
    && Attempt(run.cleaning, CleanupOps(run.prepared, run.Recovery()))
  }

  /** Commits the replacements; whichever operations fail, readers see what the outcome says. */
  method Commit(disk: Disk, rs: seq<Replacement>) returns (outcome: Outcome, ghost run: Run)
    requires disk.Valid()
    modifies disk
    ensures disk.Valid() && Ends(outcome, old(disk.live), rs, disk.live, disk.temps)
    ensures disk.log == old(disk.log) + run.Log() && Follows(run, old(disk.live), rs)
    ensures outcome == if AllOk(run.cleaning) then run.Verdict() else CleanupFailed(run.Verdict())
    ensures Distinct(Dests(rs)) ==> ShowsAll(disk.live, old(disk.live), rs, run.Count(), run.restoring)
    ensures Extends(old(disk.temps), disk.temps) && run.LeftBehind() !! old(disk.temps).Keys
    ensures disk.temps.Keys == old(disk.temps).Keys + run.LeftBehind()
    ensures outcome.Published? ==> disk.temps == old(disk.temps)
    ensures disk.Healthy() && (forall i :: 0 <= i < |rs| ==> NewContent(old(disk.live), rs[i]).Some?) ==> outcome == Published
    ensures |disk.history| >= |old(disk.history)| && disk.history[..|old(disk.history)|] == old(disk.history)
    ensures Distinct(Dests(rs)) && rs != [] ==> forall s :: s in disk.history[|old(disk.history)|..] ==>
              s == After(old(disk.live), rs, |rs|) || SameAt(s, old(disk.live), Last(rs).dest)
    ensures Distinct(Dests(rs)) && !Decided(outcome).RecoveryRequired? ==>
              Prefixes(old(disk.live), rs, disk.history[|old(disk.history)|..])
  {
    hide *;
    ghost var old', start := disk.live, disk.temps;
    var recovery := [];
    var ok, prepared, clean;
    ghost var next, staged, half, publishing, restoring, cleaning;
    ok, prepared, next, staged, half := StageAll(disk, rs);
    OwnAnywhere(prepared, start.Keys);
    PreparedIs(old', disk.temps, rs, prepared);
    StagedWhole(old', rs, prepared, next, staged, half);
    ghost var temps0 := disk.temps;
    if ok {
      outcome, recovery, publishing, restoring := PublishOrRollBack(disk, rs, prepared);
    } else {
      outcome, publishing, restoring := RolledBack, [], [];
      NothingHappened(old', rs, disk.live, disk.temps, prepared, disk.history);
      NothingMoved();
    }
    ghost var temps1 := disk.temps;
    clean, cleaning := Cleanup(disk, prepared, recovery);
    run := Run(prepared, next, staged, half, publishing, restoring, cleaning);
    RunFollows(old', rs, run);
    MovedInside(old', rs, run);
    EarlierStay(start, temps0, temps1, disk.temps, old', rs, run);
    RunVerdict(old', rs, run);
    DecidedIs(outcome);
    if Distinct(Dests(rs)) && rs != [] { StatesAre(old', rs, disk.history[|old(disk.history)|..]); }
    EndsSurvive(outcome, old', rs, disk.live, temps1, disk.temps);
    if clean && outcome.Published? {
      PublishedLeavesNothing(run, old', rs);
      SameFiles(start, disk.temps);
    }
    if !clean { outcome := CleanupFailed(outcome); }
  }

  lemma StatesAre(old': Files, rs: seq<Replacement>, states: seq<Files>)
    requires rs != [] && CommitsLast(old', rs, states)
    ensures forall s :: s in states ==> s == After(old', rs, |rs|) || SameAt(s, old', Last(rs).dest)
  {
    hide After, SameAt;
  }

  lemma DecidedIs(outcome: Outcome)
    requires !outcome.CleanupFailed?
    ensures Decided(outcome) == outcome && Decided(CleanupFailed(outcome)) == outcome
  {
  }

  lemma PreparedIs(old': Files, temps: map<nat, Content>, rs: seq<Replacement>, prepared: seq<Prepared>)
    requires AllStaged(old', temps, rs, prepared)
    ensures |prepared| <= |rs| && forall i :: 0 <= i < |prepared| ==>
              prepared[i].dest == rs[i].dest && (prepared[i].backup.Some? <==> rs[i].dest in old')
  {
    hide NewContent;
    forall i | 0 <= i < |prepared| ensures prepared[i].dest == rs[i].dest && (prepared[i].backup.Some? <==> rs[i].dest in old') {
      assert Staged(old', temps, rs[i], prepared[i]);
    }
  }

  lemma StagedWhole(old': Files, rs: seq<Replacement>, prepared: seq<Prepared>, next: Prepared, staged: seq<Event>,
                    half: seq<Event>)
    requires Staging(old', rs, prepared, next, staged, half)
    ensures half == [] <==> |prepared| == |rs|
  {
  }

  lemma NothingHappened(old': Files, rs: seq<Replacement>, live: Files, temps: map<nat, Content>, prepared: seq<Prepared>,
                        history: seq<Files>)
    requires live == old'
    ensures Ends(RolledBack, old', rs, live, temps) && Unlisted(prepared, [])
    ensures Finished([]) == 0 && Unrestored(prepared, 0, []) == [] && ShowsAll(live, old', rs, 0, [])
    ensures rs != [] ==> CommitsLast(old', rs, history[|history|..])
    ensures Prefixes(old', rs, history[|history|..])
  {
    hide NewContent;
  }

  lemma RunFollows(old': Files, rs: seq<Replacement>, run: Run)
    requires Staging(old', rs, run.prepared, run.next, run.staged, run.half)
    requires OwnTemps(run.prepared, {}) && |run.prepared| <= |rs|
    requires forall i :: 0 <= i < |run.prepared| ==>
               run.prepared[i].dest == rs[i].dest && (run.prepared[i].backup.Some? <==> rs[i].dest in old')
    requires if run.half == [] then Publishing(run.prepared, run.publishing, run.restoring)
             else run.publishing == [] && run.restoring == []
    requires Finished(run.publishing) <= |run.prepared| ==> |run.restoring| <= Finished(run.publishing) ==>
               Attempt(run.cleaning, CleanupOps(run.prepared, Unrestored(run.prepared, Finished(run.publishing), run.restoring)))
    ensures Follows(run, old', rs)
  {
    hide Staging, OwnTemps, Attempt, CleanupOps, Unrestored;
  }

  lemma RunVerdict(old': Files, rs: seq<Replacement>, run: Run)
    requires Follows(run, old', rs)
    ensures var recovery := Unrestored(run.prepared, Finished(run.publishing), run.restoring);
            run.Verdict() == if run.half == [] && AllOk(run.publishing) then Published
                             else if recovery == [] then RolledBack else RecoveryRequired(recovery)
    ensures run.Count() == Finished(run.publishing)
    ensures run.Log() == run.staged + run.half + run.publishing + run.restoring + run.cleaning
  {
    hide Staging, OwnTemps, Attempt, CleanupOps, Unrestored;
  }

  /** Publishing and rolling back only move files of this run. */
  lemma MovedInside(old': Files, rs: seq<Replacement>, run: Run)
    requires Follows(run, old', rs)
    ensures Moved(run.publishing) + Moved(run.restoring) <= AllTemps(run.prepared)
  {
    hide Staging, OwnTemps, CleanupOps, Unrestored, AllTemps;
    forall t | t in Moved(run.publishing) ensures t in AllTemps(run.prepared) {
      var e :| e in run.publishing && e.ok && e.op.MoveOver? && e.op.t == t;
      var k :| 0 <= k < |run.publishing| && run.publishing[k] == e;
      assert e.op == PublishOps(run.prepared)[k];
      OneOfAllTemps(run.prepared, k);
    }
    forall t | t in Moved(run.restoring) ensures t in AllTemps(run.prepared) {
      var e :| e in run.restoring && e.ok && e.op.MoveOver? && e.op.t == t;
      var k :| 0 <= k < |run.restoring| && run.restoring[k] == e;
      assert e.op == RestoreOp(run.prepared[run.Count() - 1 - k]);
      OneOfAllTemps(run.prepared, run.Count() - 1 - k);
    }
  }

  lemma NoneOfBefore(prepared: seq<Prepared>, before: set<nat>)
    requires OwnTemps(prepared, before)
    ensures AllTemps(prepared) !! before
  {
    forall t | t in AllTemps(prepared) ensures t !in before { AllTempsHas(prepared, t); }
  }

  /** Files of earlier owners are untouched; of this run exactly those left behind are there. */
  lemma EarlierStay(start: map<nat, Content>, temps0: map<nat, Content>, temps1: map<nat, Content>, end: map<nat, Content>,
                    old': Files, rs: seq<Replacement>, run: Run)
    requires Follows(run, old', rs) && Extends(start, temps0) && OwnTemps(run.prepared, start.Keys)
    requires Moved(run.publishing) + Moved(run.restoring) <= AllTemps(run.prepared)
    requires Unlinked(run.cleaning) <= AllTemps(run.prepared) && Created(run.half) !! start.Keys
    requires temps0.Keys == start.Keys + Created(run.staged) + Created(run.half)
    requires temps1.Keys == temps0.Keys - Moved(run.publishing) - Moved(run.restoring)
    requires end.Keys == temps1.Keys - Unlinked(run.cleaning)
    requires forall t :: t in temps1 ==> t in temps0 && temps1[t] == temps0[t]
    requires forall t :: t in end ==> t in temps1 && end[t] == temps1[t]
    ensures Extends(start, end) && run.LeftBehind() !! start.Keys && end.Keys == start.Keys + run.LeftBehind()
  {
    hide OwnTemps, CleanupOps, Unrestored, AllTemps, Moved, Unlinked, Created, Attempt, StagingOps, StageOps, Publishing;
    NoneOfBefore(run.prepared, start.Keys);
  }

  // ---- what the outcome means -----------------------------------------------------------------

  lemma {:induction false} NoneFailed(prepared: seq<Prepared>, count: nat, restoring: seq<Event>)
    requires |restoring| <= count <= |prepared|
    ensures Unrestored(prepared, count, restoring) == [] <==> AllOk(restoring)
  {
    hide Entry;
    if restoring != [] {
      NoneFailed(prepared, count, Init(restoring));
      assert Init(restoring) + [Last(restoring)] == restoring;
      assert AllOk(restoring) <==> AllOk(Init(restoring)) && Last(restoring).ok by {
        if AllOk(restoring) {
          forall k | 0 <= k < |restoring| - 1 ensures Init(restoring)[k].ok { assert restoring[k].ok; }
        }
      }
    }
  }

  /** Before the cleanup: published exactly when nothing failed while staging and publishing; otherwise rolled back exactly
      when no restore failed, and recovery is required exactly when one did. */
  lemma VerdictMeans(run: Run, old': Files, rs: seq<Replacement>)
    requires Follows(run, old', rs)
    ensures run.Verdict() == Published <==> AllOk(run.staged + run.half + run.publishing)
    ensures run.Verdict() == RolledBack <==> !AllOk(run.staged + run.half + run.publishing) && AllOk(run.restoring)
    ensures run.Verdict().RecoveryRequired? <==> !AllOk(run.restoring)
    ensures run.Verdict().RecoveryRequired? ==> !AllOk(run.publishing) && run.Verdict().recovery == run.Recovery()
  {
    hide OwnTemps, CleanupOps, Unrestored, AllTemps, StagingOps, StageOps, PublishOps, RestoreOp, Created;
    NoneFailed(run.prepared, run.Count(), run.restoring);
    var all := run.staged + run.half + run.publishing;
    assert AllOk(all) <==> AllOk(run.staged) && AllOk(run.half) && AllOk(run.publishing) by {
      AllOkJoin(run.staged, run.half);
      AllOkJoin(run.staged + run.half, run.publishing);
    }
  }

  /** The `k`-th restore failed, and its destination is listed like this. */
  predicate FailedAs(prepared: seq<Prepared>, count: nat, restoring: seq<Event>, k: nat, e: Recovery) {
    && k < |restoring| && k < count <= |prepared| && !restoring[k].ok && Entry(prepared[count - 1 - k]) == e
  }

  lemma FailedBefore(prepared: seq<Prepared>, count: nat, restoring: seq<Event>, k: nat, e: Recovery)
    requires restoring != []
    ensures FailedAs(prepared, count, restoring, k, e) <==>
              FailedAs(prepared, count, Init(restoring), k, e)
              || (k == |restoring| - 1 && k < count <= |prepared| && !Last(restoring).ok && Entry(prepared[count - 1 - k]) == e)
  {
    hide Entry;
  }

  lemma {:induction false} FailedAreListed(prepared: seq<Prepared>, count: nat, restoring: seq<Event>, e: Recovery)
    requires |restoring| <= count <= |prepared|
    ensures e in Unrestored(prepared, count, restoring) <==> exists k :: FailedAs(prepared, count, restoring, k, e)
  {
    hide Entry, FailedAs;
    if restoring == [] {
      NoneRestored(prepared, count, e);
    } else {
      var n: nat := |restoring| - 1;
      FailedAreListed(prepared, count, Init(restoring), e);
      forall k: nat
        ensures FailedAs(prepared, count, restoring, k, e) <==>
                  FailedAs(prepared, count, Init(restoring), k, e)
                  || (k == n && !Last(restoring).ok && Entry(prepared[count - 1 - n]) == e)
      {
        FailedBefore(prepared, count, restoring, k, e);
      }
      if !Last(restoring).ok && Entry(prepared[count - 1 - n]) == e { assert FailedAs(prepared, count, restoring, n, e); }
    }
  }

  lemma NoneRestored(prepared: seq<Prepared>, count: nat, e: Recovery)
    ensures forall k :: !FailedAs(prepared, count, [], k, e)
  {
  }

  /** The list names exactly the published replacements whose restore failed. */
  lemma ListedMeans(run: Run, old': Files, rs: seq<Replacement>, i: nat)
    requires Follows(run, old', rs) && run.Verdict().RecoveryRequired? && Distinct(Dests(rs)) && i < |rs|
    ensures Listed(run.Recovery(), rs[i].dest) <==> StaysNew(i, run.Count(), run.restoring)
  {
    hide *;
    RunShape(run, old', rs);
    VerdictMeans(run, old', rs);
    StaysNewMeans(i, run.Count(), run.restoring);
    if StaysNew(i, run.Count(), run.restoring) { NamedIfFailed(run.prepared, run.restoring, i); }
    if Listed(run.Recovery(), rs[i].dest) {
      var k := FailedIfNamed(run.prepared, run.restoring, rs[i].dest);
      SameDest(rs, k, i);
    }
  }

  lemma StaysNewMeans(i: nat, count: nat, restoring: seq<Event>)
    requires |restoring| == count
    ensures StaysNew(i, count, restoring) <==> i < count && !restoring[count - 1 - i].ok
  {
  }

  /** What `Follows` says about the sizes and the order of the restores. */
  lemma RunShape(run: Run, old': Files, rs: seq<Replacement>)
    requires Follows(run, old', rs)
    ensures |run.restoring| <= run.Count() <= |run.prepared| <= |rs|
    ensures run.Recovery() == Unrestored(run.prepared, run.Count(), run.restoring)
    ensures run.Verdict().RecoveryRequired? ==> |run.restoring| == run.Count() && run.Count() <= |rs|
    ensures forall i :: 0 <= i < |run.prepared| ==> run.prepared[i].dest == rs[i].dest
    ensures OwnTemps(run.prepared, {}) && PublishedSoFar(run.prepared, run.publishing)
    ensures RestoresAre(run.prepared, run.Count(), run.restoring)
    ensures Created(run.staged) == AllTemps(run.prepared) && Created(run.half) !! AllTemps(run.prepared)
    ensures Attempt(run.cleaning, CleanupOps(run.prepared, run.Recovery()))
  {
    hide OwnTemps, CleanupOps, AllTemps, StagingOps, StageOps, PublishOps, RestoreOp, Created;
    NoneFailed(run.prepared, run.Count(), run.restoring);
  }

  lemma NamedIfFailed(prepared: seq<Prepared>, restoring: seq<Event>, i: nat)
    requires i < |restoring| <= |prepared| && !restoring[|restoring| - 1 - i].ok
    ensures Listed(Unrestored(prepared, |restoring|, restoring), prepared[i].dest)
  {
    hide Unrestored;
    var count, k := |restoring|, |restoring| - 1 - i;
    FailedAreListed(prepared, count, restoring, Entry(prepared[i]));
    assert FailedAs(prepared, count, restoring, k, Entry(prepared[i]));
    assert Entry(prepared[i]) in Unrestored(prepared, count, restoring);
  }

  lemma FailedIfNamed(prepared: seq<Prepared>, restoring: seq<Event>, dest: string) returns (i: nat)
    requires |restoring| <= |prepared| && Listed(Unrestored(prepared, |restoring|, restoring), dest)
    ensures i < |restoring| && !restoring[|restoring| - 1 - i].ok && prepared[i].dest == dest
  {
    hide Unrestored;
    var e :| e in Unrestored(prepared, |restoring|, restoring) && e.dest == dest;
    FailedAreListed(prepared, |restoring|, restoring, e);
    var k :| FailedAs(prepared, |restoring|, restoring, k, e);
    i := |restoring| - 1 - k;
  }

  lemma SameDest(rs: seq<Replacement>, k: nat, i: nat)
    requires Distinct(Dests(rs)) && k < |rs| && i < |rs| && rs[k].dest == rs[i].dest
    ensures k == i
  {
    assert Dests(rs)[k] == Dests(rs)[i];
  }

  // ---- what stays behind ----------------------------------------------------------------------

  function Backups(recovery: seq<Recovery>): set<nat> {
    set e | e in recovery && e.backup.Some? :: e.backup.value
  }

  lemma {:induction false} CleanupHas(prepared: seq<Prepared>, recovery: seq<Recovery>, op: Op)
    ensures op in CleanupOps(prepared, recovery) <==> exists i :: 0 <= i < |prepared| && op in OneCleanup(prepared[i], recovery)
  {
    hide OneCleanup;
    if prepared != [] {
      CleanupHas(Init(prepared), recovery, op);
      assert Last(prepared) == prepared[|prepared| - 1];
      assert forall i :: 0 <= i < |prepared| - 1 ==> Init(prepared)[i] == prepared[i];
    }
  }

  /** The cleanup unlinks temporaries, and backups the list does not name. */
  lemma UnlinkedAre(prepared: seq<Prepared>, recovery: seq<Recovery>, cleaning: seq<Event>, t: nat)
    requires Attempt(cleaning, CleanupOps(prepared, recovery))
    ensures t in Unlinked(cleaning) ==> UnlinkTemp(t) in CleanupOps(prepared, recovery)
    ensures AllOk(cleaning) && UnlinkTemp(t) in CleanupOps(prepared, recovery) ==> t in Unlinked(cleaning)
  {
    var ops := CleanupOps(prepared, recovery);
    if AllOk(cleaning) && UnlinkTemp(t) in ops {
      var k :| 0 <= k < |ops| && ops[k] == UnlinkTemp(t);
      assert cleaning[k] in cleaning && cleaning[k].ok;
    }
    if t in Unlinked(cleaning) {
      var e :| e in cleaning && e.ok && e.op.UnlinkTemp? && e.op.t == t;
      var k :| 0 <= k < |cleaning| && cleaning[k] == e;
      assert ops[k] == e.op;
    }
  }

  lemma CleanedIs(prepared: seq<Prepared>, recovery: seq<Recovery>, t: nat)
    ensures UnlinkTemp(t) in CleanupOps(prepared, recovery) ==> t in AllTemps(prepared)
    ensures t in AllTemps(prepared) && !Needed(recovery, t) ==> UnlinkTemp(t) in CleanupOps(prepared, recovery)
  {
    hide Needed, CleanupOps, AllTemps;
    CleanupHas(prepared, recovery, UnlinkTemp(t));
    AllTempsHas(prepared, t);
    if UnlinkTemp(t) in CleanupOps(prepared, recovery) {
      var i :| 0 <= i < |prepared| && UnlinkTemp(t) in OneCleanup(prepared[i], recovery);
      assert t in TempsOf(prepared[i]);
    }
    if t in AllTemps(prepared) && !Needed(recovery, t) {
      var i :| 0 <= i < |prepared| && t in TempsOf(prepared[i]);
      assert UnlinkTemp(t) in OneCleanup(prepared[i], recovery);
    }
  }

  /** A backup on the list is not moved and not unlinked. */
  lemma BackupStays(run: Run, old': Files, rs: seq<Replacement>, t: nat)
    requires Follows(run, old', rs) && t in Backups(run.Recovery())
    ensures t in AllTemps(run.prepared) && t !in Moved(run.publishing) && t !in Moved(run.restoring)
    ensures t !in Unlinked(run.cleaning) && Needed(run.Recovery(), t)
  {
    hide Follows, CleanupOps, Unrestored, OwnTemps, AllTemps, Attempt, Moved, Unlinked;
    RunShape(run, old', rs);
    var e :| e in run.Recovery() && e.backup == Some(t);
    FailedAreListed(run.prepared, run.Count(), run.restoring, e);
    var k :| FailedAs(run.prepared, run.Count(), run.restoring, k, e);
    var i := run.Count() - 1 - k;
    assert run.prepared[i].backup == Some(t) by { EntryIs(run.prepared[i]); }
    OneOfAllTemps(run.prepared, i);
    BackupWaits(run.prepared, run.publishing, i);
    BackupNotMoved(run.prepared, run.Count(), run.restoring, k, t);
    ListedNotCleaned(run.prepared, run.Recovery(), i, t);
    UnlinkedAre(run.prepared, run.Recovery(), run.cleaning, t);
  }

  lemma EntryIs(p: Prepared)
    ensures Entry(p).backup == p.backup && Entry(p).dest == p.dest
  {
  }

  lemma BackupNotMoved(prepared: seq<Prepared>, count: nat, restoring: seq<Event>, k: nat, t: nat)
    requires count <= |prepared| && RestoresAre(prepared, count, restoring) && OwnTemps(prepared, {})
    requires k < |restoring| && !restoring[k].ok && prepared[count - 1 - k].backup == Some(t)
    ensures t !in Moved(restoring)
  {
    forall e | e in restoring && e.ok && e.op.MoveOver? ensures e.op.t != t {
      var l :| 0 <= l < |restoring| && restoring[l] == e;
      OtherBackup(prepared, count - 1 - l, count - 1 - k);
    }
  }

  lemma OtherBackup(prepared: seq<Prepared>, i: nat, j: nat)
    requires OwnTemps(prepared, {}) && i < |prepared| && j < |prepared| && i != j && prepared[j].backup.Some?
    ensures prepared[i].backup != prepared[j].backup
  {
    if prepared[i].backup.Some? {
      assert prepared[i].backup.value in TempsOf(prepared[i]) && prepared[j].backup.value in TempsOf(prepared[j]);
      assert TempsOf(prepared[i]) !! TempsOf(prepared[j]);
    }
  }

  lemma ListedNotCleaned(prepared: seq<Prepared>, recovery: seq<Recovery>, i: nat, t: nat)
    requires OwnTemps(prepared, {}) && i < |prepared| && prepared[i].backup == Some(t) && Needed(recovery, t)
    ensures UnlinkTemp(t) !in CleanupOps(prepared, recovery)
  {
    hide Needed, CleanupOps, OwnTemps;
    CleanupHas(prepared, recovery, UnlinkTemp(t));
    forall j | 0 <= j < |prepared| ensures UnlinkTemp(t) !in OneCleanup(prepared[j], recovery) {
      TemporaryIsNoBackup(prepared, j, i);
    }
  }

  /** A cleanup without failures leaves exactly the backups on the list and what was half staged when staging failed. */
  lemma StaysBehind(run: Run, old': Files, rs: seq<Replacement>)
    requires Follows(run, old', rs) && AllOk(run.cleaning)
    ensures run.LeftBehind() == Created(run.half) + Backups(run.Recovery())
  {
    hide Follows, CleanupOps, Unrestored, OwnTemps, AllTemps, Attempt, Created, Moved, Unlinked, AllOk, RestoresAre, PublishedSoFar;
    RunShape(run, old', rs);
    MovedInside(old', rs, run);
    forall t ensures t in run.LeftBehind() <==> t in Created(run.half) || t in Backups(run.Recovery()) {
      CleanedIs(run.prepared, run.Recovery(), t);
      UnlinkedAre(run.prepared, run.Recovery(), run.cleaning, t);
      if t in Backups(run.Recovery()) { BackupStays(run, old', rs, t); }
      if Needed(run.Recovery(), t) { NeededIsBackup(run.Recovery(), t); }
    }
  }

  lemma NeededIsBackup(recovery: seq<Recovery>, t: nat)
    requires Needed(recovery, t)
    ensures t in Backups(recovery)
  {
  }

  /** Something half staged stays behind exactly when staging failed after it had created a file: not at the directory and
      not at the first `mkstemp`. */
  lemma HalfStaged(run: Run, old': Files, rs: seq<Replacement>)
    requires Follows(run, old', rs)
    ensures Created(run.half) != {} <==>
            run.half != [] && !Last(run.half).op.MakeDirectory? && !(Last(run.half).op.CreateTemp? && !Last(run.half).op.rollback)
  {
    hide OwnTemps, CleanupOps, AllTemps, StagingOps, Publishing, Unrestored;
    if run.half != [] {
      HalfCreates(run.half, old', rs[|run.prepared|], run.next);
    } else {
      NothingTried();
    }
  }

  lemma HalfCreates(half: seq<Event>, old': Files, r: Replacement, p: Prepared)
    requires Attempt(half, StageOps(old', r, p)) && !AllOk(half)
    ensures half != []
    ensures Created(half) != {} <==>
            !Last(half).op.MakeDirectory? && !(Last(half).op.CreateTemp? && !Last(half).op.rollback)
  {
    var ops := StageOps(old', r, p);
    assert ops[..3] == FileOps(old', r, p.temporary);
    assert ops[0] == MakeDirectory(r.dest) && ops[1] == CreateTemp(p.temporary, false) && ops[2] == FillOp(old', r, p.temporary);
    assert !Last(half).ok;
    if |half| == 1 {
      assert half == [half[0]];
    } else if |half| == 2 {
      assert half == [half[0], half[1]];
    } else {
      assert half[1] in half && half[1].ok;
      assert half[1].op.t in Created(half);
      assert Last(half).op == ops[|half| - 1];
    }
  }

  lemma PublishedLeavesNothing(run: Run, old': Files, rs: seq<Replacement>)
    requires Follows(run, old', rs) && AllOk(run.cleaning) && run.Verdict() == Published
    ensures run.LeftBehind() == {}
  {
    hide Follows, Created;
    StaysBehind(run, old', rs);
    VerdictMeans(run, old', rs);
    NothingTried();
    PublishedUndoesNothing(run, old', rs);
  }

  lemma PublishedUndoesNothing(run: Run, old': Files, rs: seq<Replacement>)
    requires Follows(run, old', rs) && run.Verdict() == Published
    ensures run.half == [] && Backups(run.Recovery()) == {}
  {
    hide Staging, OwnTemps, CleanupOps, Attempt, RestoresAre;
  }

  lemma SameFiles(start: map<nat, Content>, end: map<nat, Content>)
    requires Extends(start, end) && end.Keys == start.Keys
    ensures end == start
  {
  }
}
