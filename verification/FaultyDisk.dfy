/** The disk of the publication transaction: every file operation is logged, and any of them may fail. */
module FaultyDisk {
  import opened Prelude

  type Content = string
  type Files = map<string, Content>

  /** One file operation. A copy also says whether its source is there. */
  datatype Op =
    | MakeDirectory(dest: string)
    | CreateTemp(t: nat, rollback: bool)
    | CopyFile(source: string, t: nat, exists': bool)
    | WriteFile(t: nat)
    | MoveOver(t: nat, dest: string)
    | UnlinkDest(dest: string)
    | UnlinkTemp(t: nat)

  datatype Event = Event(op: Op, ok: bool)

  // ---- logs -----------------------------------------------------------------------------------

  predicate AllOk(events: seq<Event>) {
    forall k :: 0 <= k < |events| ==> events[k].ok
  }

  /** The operations were tried in order up to the first failure. */
  predicate Attempt(events: seq<Event>, ops: seq<Op>) {
    && |events| <= |ops|
    && (forall k :: 0 <= k < |events| ==> events[k].op == ops[k])
    && (forall k :: 0 <= k < |events| - 1 ==> events[k].ok)
    && (AllOk(events) ==> |events| == |ops|)
  }

  lemma AttemptJoin(a: seq<Event>, x: seq<Op>, b: seq<Event>, y: seq<Op>)
    requires Attempt(a, x) && AllOk(a) && Attempt(b, y)
    ensures Attempt(a + b, x + y) && (AllOk(a + b) <==> AllOk(b))
  {
    var e := a + b;
    forall k | 0 <= k < |e| - 1 ensures e[k].ok {
      if k >= |a| { assert e[k] == b[k - |a|]; }
    }
    if AllOk(e) {
      forall k | 0 <= k < |b| ensures b[k].ok { assert e[|a| + k].ok; }
    }
  }

  lemma AllOkJoin(a: seq<Event>, b: seq<Event>)
    ensures AllOk(a + b) <==> AllOk(a) && AllOk(b)
  {
    if AllOk(a + b) {
      forall k | 0 <= k < |a| ensures a[k].ok { assert (a + b)[k].ok; }
      forall k | 0 <= k < |b| ensures b[k].ok { assert (a + b)[|a| + k].ok; }
    }
  }

  /** What was not reached does not matter. */
  lemma AttemptMore(events: seq<Event>, ops: seq<Op>, rest: seq<Op>)
    requires Attempt(events, ops) && !AllOk(events)
    ensures Attempt(events, ops + rest)
  {
  }

  function Created(events: seq<Event>): set<nat> {
    set e | e in events && e.ok && e.op.CreateTemp? :: e.op.t
  }

  function Moved(events: seq<Event>): set<nat> {
    set e | e in events && e.ok && e.op.MoveOver? :: e.op.t
  }

  function Unlinked(events: seq<Event>): set<nat> {
    set e | e in events && e.ok && e.op.UnlinkTemp? :: e.op.t
  }

  lemma LogJoin(a: seq<Event>, b: seq<Event>)
    ensures Created(a + b) == Created(a) + Created(b)
    ensures Moved(a + b) == Moved(a) + Moved(b)
    ensures Unlinked(a + b) == Unlinked(a) + Unlinked(b)
  {
    assert forall e :: e in a + b <==> e in a || e in b;
  }

  lemma LogOne(e: Event)
    ensures Created([e]) == if e.ok && e.op.CreateTemp? then {e.op.t} else {}
    ensures Moved([e]) == if e.ok && e.op.MoveOver? then {e.op.t} else {}
    ensures Unlinked([e]) == if e.ok && e.op.UnlinkTemp? then {e.op.t} else {}
  {
    assert e in [e];
  }

  lemma NothingTried()
    ensures Attempt([], []) && AllOk([]) && Created([]) == {} && Moved([]) == {} && Unlinked([]) == {}
  {
  }

  /** One more operation; after a failure nothing else is tried. */
  lemma AttemptStep(events: seq<Event>, ops: seq<Op>, e: Event, rest: seq<Op>)
    requires Attempt(events, ops) && AllOk(events)
    ensures Attempt(events + [e], ops + [e.op]) && (AllOk(events + [e]) <==> e.ok)
    ensures !e.ok ==> Attempt(events + [e], ops + ([e.op] + rest))
    ensures Created(events + [e]) == Created(events) + if e.ok && e.op.CreateTemp? then {e.op.t} else {}
    ensures Unlinked(events + [e]) == Unlinked(events) + if e.ok && e.op.UnlinkTemp? then {e.op.t} else {}
  {
    hide Created, Moved, Unlinked;
    assert [e][0] == e;
    assert AllOk([e]) <==> e.ok;
    AttemptJoin(events, ops, [e], [e.op]);
    LogJoin(events, [e]);
    LogOne(e);
    if !e.ok {
      AttemptMore(events + [e], ops + [e.op], rest);
      assert ops + ([e.op] + rest) == ops + [e.op] + rest;
    }
  }

  // ---- the disk -------------------------------------------------------------------------------

  /** Live files, temporary files, and which file operations fail. */
  class Disk {
    var live: Files
    var temps: map<nat, Content>
    var nextTemp: nat
    var clock: nat
    const faults: nat -> bool
    const garbage: nat -> Content
    /** Every operation so far and how it ended. */
    ghost var log: seq<Event>
    /** Every state of the live files that a reader could have seen. */
    ghost var history: seq<Files>

    /** An operation fails exactly when the fault plan says so or the source of a copy is missing. */
    ghost predicate Answered()
      reads this
    {
      && |log| == clock
      && forall n :: 0 <= n < |log| ==> (log[n].ok <==> !faults(n) && (log[n].op.CopyFile? ==> log[n].op.exists'))
    }

    ghost predicate Valid()
      reads this
    {
      Answered() && forall t :: t in temps ==> t < nextTemp
    }

    /** No operation fails. */
    ghost predicate Healthy() {
      forall n :: !faults(n)
    }

    constructor (live: Files, faults: nat -> bool, garbage: nat -> Content)
      ensures Valid() && this.live == live && this.faults == faults && temps == map[] && history == [] && log == []
    {
      this.live, this.faults, this.garbage := live, faults, garbage;
      temps, nextTemp, clock, history, log := map[], 0, 0, [], [];
    }

    /** One operation passes and is logged. */
    method Do(op: Op) returns (ok: bool)
      requires Valid()
      modifies this`clock, this`log
      ensures Valid() && log == old(log) + [Event(op, ok)]
      ensures ok == (!faults(old(clock)) && (op.CopyFile? ==> op.exists'))
    {
      ok := !faults(clock) && (op.CopyFile? ==> op.exists');
      log := log + [Event(op, ok)];
      clock := clock + 1;
    }

    /** `mkdir` of a destination's directory. */
    method Mkdir(dest: string) returns (ok: bool)
      requires Valid()
      modifies this
      ensures Valid() && live == old(live) && temps == old(temps) && history == old(history)
      ensures log == old(log) + [Event(MakeDirectory(dest), ok)]
      ensures Healthy() ==> ok
    {
      ok := Do(MakeDirectory(dest));
    }

    /** `mkstemp`: a new empty file under a name nothing else has. */
    method MakeTemp(rollback: bool) returns (ok: bool, t: nat)
      requires Valid()
      modifies this
      ensures Valid() && live == old(live) && history == old(history)
      ensures log == old(log) + [Event(CreateTemp(t, rollback), ok)]
      ensures ok ==> t !in old(temps) && temps == old(temps)[t := ""]
      ensures !ok ==> temps == old(temps)
      ensures Healthy() ==> ok
    {
      t := nextTemp;
      ok := Do(CreateTemp(t, rollback));
      if ok {
        temps := temps[t := ""];
        nextTemp := nextTemp + 1;
      }
    }

    /** `copy2` into a temporary file; a failed copy may leave anything there. */
    method CopyToTemp(source: string, t: nat) returns (ok: bool)
      requires Valid() && t in temps
      modifies this
      ensures Valid() && live == old(live) && history == old(history) && temps.Keys == old(temps).Keys
      ensures log == old(log) + [Event(CopyFile(source, t, source in live), ok)]
      ensures forall u :: u in temps && u != t ==> temps[u] == old(temps)[u]
      ensures ok ==> source in live && temps[t] == live[source]
      ensures Healthy() && source in live ==> ok
    {
      ok := Do(CopyFile(source, t, source in live));
      temps := temps[t := if ok then live[source] else garbage(clock)];
    }

    /** `write_bytes` into a temporary file. */
    method WriteTemp(t: nat, data: Content) returns (ok: bool)
      requires Valid() && t in temps
      modifies this
      ensures Valid() && live == old(live) && history == old(history) && temps.Keys == old(temps).Keys
      ensures log == old(log) + [Event(WriteFile(t), ok)]
      ensures forall u :: u in temps && u != t ==> temps[u] == old(temps)[u]
      ensures ok ==> temps[t] == data
      ensures Healthy() ==> ok
    {
      ok := Do(WriteFile(t));
      temps := temps[t := if ok then data else garbage(clock)];
    }

    /** `os.replace` of a temporary file over a destination: all or nothing. */
    method Replace(t: nat, dest: string) returns (ok: bool)
      requires Valid() && t in temps
      modifies this
      ensures Valid() && log == old(log) + [Event(MoveOver(t, dest), ok)]
      ensures ok ==> live == old(live)[dest := old(temps)[t]] && temps == old(temps) - {t} && history == old(history) + [live]
      ensures !ok ==> live == old(live) && temps == old(temps) && history == old(history)
      ensures Healthy() ==> ok
    {
      ok := Do(MoveOver(t, dest));
      if ok {
        live := live[dest := temps[t]];
        temps := temps - {t};
        history := history + [live];
      }
    }

    /** `unlink(missing_ok=True)` of a destination. */
    method UnlinkLive(dest: string) returns (ok: bool)
      requires Valid()
      modifies this
      ensures Valid() && temps == old(temps) && log == old(log) + [Event(UnlinkDest(dest), ok)]
      ensures ok ==> live == old(live) - {dest} && history == old(history) + [live]
      ensures !ok ==> live == old(live) && history == old(history)
    {
      ok := Do(UnlinkDest(dest));
      if ok {
        live := live - {dest};
        history := history + [live];
      }
    }

    /** `unlink(missing_ok=True)` of a temporary file. */
    method UnlinkTemporary(t: nat) returns (ok: bool)
      requires Valid()
      modifies this
      ensures Valid() && live == old(live) && history == old(history) && log == old(log) + [Event(UnlinkTemp(t), ok)]
      ensures temps == if ok then old(temps) - {t} else old(temps)
      ensures Healthy() ==> ok
    {
      ok := Do(UnlinkTemp(t));
      if ok { temps := temps - {t}; }
    }
  }
}
