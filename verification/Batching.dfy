/** Accepted chunks and the database they leave: every source of the input is in the output, as often as before. */
module Batching {
  import opened Prelude

  /** The member sources of each entry; an entry without members counts as its own file. */
  type Members = seq<seq<string>>

  type Chunk = seq<nat>

  /** An entry of the new database: an original, or the candidate that replaces a chunk. */
  datatype Output = Kept(index: nat) | Batch(chunk: Chunk)

  function At(members: Members, i: nat): seq<string> {
    if i < |members| then members[i] else []
  }

  /** The candidate of a chunk lists the members of its entries in order. */
  function MembersOf(members: Members, chunk: Chunk): seq<string> {
    if chunk == [] then [] else MembersOf(members, Init(chunk)) + At(members, Last(chunk))
  }

  function CoverOf(members: Members, o: Output): seq<string> {
    match o
    case Kept(i) => At(members, i)
    case Batch(chunk) => MembersOf(members, chunk)
  }

  function Cover(members: Members, outputs: seq<Output>): seq<string> {
    if outputs == [] then [] else Cover(members, Init(outputs)) + CoverOf(members, Last(outputs))
  }

  // ---- the state a run of acceptances leaves ----------------------------------------------------

  /** Where candidates go, and which entries they stand for. */
  datatype Selection = Selection(replacements: map<nat, Chunk>, consumed: set<nat>)

  const NOTHING := Selection(map[], {})

  /** `min(chunk)`. */
  function Anchor(chunk: Chunk): (r: nat)
    requires chunk != []
    ensures r in chunk && forall i :: i in chunk ==> r <= i
  {
    assert chunk == Init(chunk) + [Last(chunk)];
    if |chunk| == 1 then Last(chunk)
    else
      var before := Anchor(Init(chunk));
      if before <= Last(chunk) then before else Last(chunk)
  }

  /** A chunk is accepted: its candidate goes to its least entry, the others are dropped. */
  function Accept(s: Selection, chunk: Chunk): Selection
    requires chunk != []
  {
    Selection(s.replacements[Anchor(chunk) := chunk], s.consumed + set i | i in chunk && i != Anchor(chunk))
  }

  function AcceptAll(accepted: seq<Chunk>): Selection
    requires [] !in accepted
  {
    if accepted == [] then NOTHING
    else assert forall c :: c in Init(accepted) ==> c in accepted; Accept(AcceptAll(Init(accepted)), Last(accepted))
  }

  /** What entry `i` contributes to the new database. */
  function OutputAt(s: Selection, i: nat): seq<Output> {
    if i in s.consumed then [] else if i in s.replacements then [Batch(s.replacements[i])] else [Kept(i)]
  }

  function Background(s: Selection, n: nat): seq<Output> {
    if n == 0 then [] else Background(s, n - 1) + OutputAt(s, n - 1)
  }

  predicate InRange(n: nat, accepted: seq<Chunk>) {
    forall c :: c in accepted ==> c != [] && forall i :: i in c ==> i < n
  }

  // ---- conservation -----------------------------------------------------------------------------

  /** The entries of the chunk give up their members. */
  function Emptied(parts: seq<seq<string>>, chunk: Chunk): (r: seq<seq<string>>)
    ensures |r| == |parts|
  {
    seq(|parts|, i requires 0 <= i < |parts| => if i in chunk then [] else parts[i])
  }

  /** The members of the chunk are moved to its least entry. */
  function Moved(parts: seq<seq<string>>, chunk: Chunk): (r: seq<seq<string>>)
    requires chunk != [] && forall i :: i in chunk ==> i < |parts|
    ensures |r| == |parts|
  {
    Emptied(parts, chunk)[Anchor(chunk) := MembersOf(parts, chunk)]
  }

  lemma {:induction false} EmptiedKeeps(parts: seq<seq<string>>, chunk: Chunk)
    requires (forall i :: i in chunk ==> i < |parts|) && Distinct(chunk)
    ensures multiset(Flatten(Emptied(parts, chunk))) + multiset(MembersOf(parts, chunk)) == multiset(Flatten(parts))
  {
    hide Flatten, Distinct, At;
    if chunk == [] {
      assert Emptied(parts, chunk) == parts;
    } else {
      var before, i := Init(chunk), Last(chunk);
      assert chunk == before + [i] && i in chunk && forall x :: x in before ==> x in chunk;
      DistinctSnoc(before, i);
      EmptiedKeeps(parts, before);
      var emptied := Emptied(parts, before);
      assert Emptied(parts, chunk) == emptied[i := []];
      FlattenReplace(emptied, i, []);
      assert emptied[i] == parts[i] == At(parts, i) by { Holds(parts, i); }
      EmptiesBalance(Flatten(parts), Flatten(emptied), Flatten(emptied[i := []]), MembersOf(parts, before), parts[i]);
    }
  }

  lemma Holds(members: Members, i: nat)
    requires i < |members|
    ensures At(members, i) == members[i]
  {
  }

  lemma EmptiesBalance(all: seq<string>, left: seq<string>, rest: seq<string>, moved: seq<string>, more: seq<string>)
    requires multiset(left) + multiset(moved) == multiset(all)
    requires multiset(rest) + multiset(more) == multiset(left) + multiset([])
    ensures multiset(rest) + multiset(moved + more) == multiset(all)
  {
    assert multiset(moved + more) == multiset(more) + multiset(moved);
    assert multiset(left) + multiset([]) == multiset(left);
  }

  lemma MovedKeeps(parts: seq<seq<string>>, chunk: Chunk)
    requires chunk != [] && (forall i :: i in chunk ==> i < |parts|) && Distinct(chunk)
    ensures multiset(Flatten(Moved(parts, chunk))) == multiset(Flatten(parts))
  {
    hide Flatten, MembersOf;
    EmptiedKeeps(parts, chunk);
    FlattenReplace(Emptied(parts, chunk), Anchor(chunk), MembersOf(parts, chunk));
  }

  /** What each entry's place holds after these acceptances. */
  function Parts(members: Members, accepted: seq<Chunk>): (r: seq<seq<string>>)
    requires InRange(|members|, accepted)
    ensures |r| == |members|
  {
    if accepted == [] then members else
    assert forall c :: c in Init(accepted) ==> c in accepted;
    assert Last(accepted) in accepted;
    Moved(Parts(members, Init(accepted)), Last(accepted))
  }

  lemma InitApart(accepted: seq<Chunk>)
    requires accepted != [] && Distinct(Flatten(accepted))
    ensures Distinct(Flatten(Init(accepted))) && Distinct(Last(accepted))
    ensures forall i :: i in Last(accepted) ==> i !in Flatten(Init(accepted))
  {
    hide Distinct;
    assert Flatten(accepted) == Flatten(Init(accepted)) + Last(accepted);
    DistinctConcat(Flatten(Init(accepted)), Last(accepted));
  }

  lemma {:induction false} PartsKeep(members: Members, accepted: seq<Chunk>)
    requires InRange(|members|, accepted) && Distinct(Flatten(accepted))
    ensures multiset(Flatten(Parts(members, accepted))) == multiset(Flatten(members))
  {
    hide Flatten, Moved;
    if accepted != [] {
      InitApart(accepted);
      assert forall c :: c in Init(accepted) ==> c in accepted;
      PartsKeep(members, Init(accepted));
      assert Last(accepted) in accepted;
      MovedKeeps(Parts(members, Init(accepted)), Last(accepted));
    }
  }

  lemma {:induction false} SameMembers(members: Members, parts: seq<seq<string>>, chunk: Chunk)
    requires forall i :: i in chunk ==> i < |members| && i < |parts| && parts[i] == members[i]
    ensures MembersOf(parts, chunk) == MembersOf(members, chunk)
  {
    if chunk != [] {
      assert forall i :: i in Init(chunk) ==> i in chunk;
      assert Last(chunk) in chunk;
      SameMembers(members, parts, Init(chunk));
    }
  }

  lemma {:induction false} UntouchedPart(members: Members, accepted: seq<Chunk>, i: nat)
    requires InRange(|members|, accepted) && Distinct(Flatten(accepted)) && i < |members| && i !in Flatten(accepted)
    ensures Parts(members, accepted)[i] == members[i]
  {
    hide Flatten, Distinct, MembersOf;
    if accepted != [] {
      InitApart(accepted);
      NotInParts(accepted, i);
      assert forall c :: c in Init(accepted) ==> c in accepted;
      assert Last(accepted) in accepted;
      UntouchedPart(members, Init(accepted), i);
    }
  }

  lemma NotInParts(accepted: seq<Chunk>, i: nat)
    requires accepted != [] && i !in Flatten(accepted)
    ensures i !in Flatten(Init(accepted)) && i !in Last(accepted)
  {
  }

  /** The place of an entry holds exactly what its outputs cover. */
  lemma {:induction false} PartIsCovered(members: Members, accepted: seq<Chunk>, i: nat)
    requires InRange(|members|, accepted) && Distinct(Flatten(accepted)) && i < |members|
    ensures [] !in accepted && Parts(members, accepted)[i] == Cover(members, OutputAt(AcceptAll(accepted), i))
  {
    hide Flatten, Distinct, MembersOf;
    if accepted == [] {
      OneOutput(members, Kept(i));
    } else {
      var chunk, before := Last(accepted), Init(accepted);
      InitApart(accepted);
      assert forall c :: c in before ==> c in accepted;
      assert chunk in accepted;
      PartIsCovered(members, before, i);
      var parts := Parts(members, before);
      if i == Anchor(chunk) {
        forall k | k in chunk ensures parts[k] == members[k] { UntouchedPart(members, before, k); }
        SameMembers(members, parts, chunk);
        OneOutput(members, Batch(chunk));
        AnchorIsFree(accepted);
      }
    }
  }

  lemma OneOutput(members: Members, o: Output)
    ensures Cover(members, [o]) == CoverOf(members, o) && Cover(members, []) == []
  {
    assert Init([o]) == [];
  }

  lemma {:induction false} ConsumedIn(accepted: seq<Chunk>, i: nat)
    requires [] !in accepted && (i in AcceptAll(accepted).consumed || i in AcceptAll(accepted).replacements)
    ensures i in Flatten(accepted)
  {
    if accepted != [] {
      assert forall c :: c in Init(accepted) ==> c in accepted;
      var chunk := Last(accepted);
      assert chunk in accepted;
      if i in AcceptAll(Init(accepted)).consumed || i in AcceptAll(Init(accepted)).replacements {
        ConsumedIn(Init(accepted), i);
      } else {
        assert i in chunk;
      }
    }
  }

  lemma AnchorIsFree(accepted: seq<Chunk>)
    requires accepted != [] && [] !in accepted && Distinct(Flatten(accepted))
    ensures Last(accepted) != [] && Anchor(Last(accepted)) !in AcceptAll(accepted).consumed
  {
    hide Flatten, Distinct;
    var chunk := Last(accepted);
    assert chunk in accepted;
    assert forall c :: c in Init(accepted) ==> c in accepted;
    InitApart(accepted);
    if Anchor(chunk) in AcceptAll(Init(accepted)).consumed { ConsumedIn(Init(accepted), Anchor(chunk)); }
  }

  lemma {:induction false} CoverAppend(members: Members, a: seq<Output>, b: seq<Output>)
    ensures Cover(members, a + b) == Cover(members, a) + Cover(members, b)
  {
    hide CoverOf;
    if b == [] {
      assert a + b == a && Cover(members, a) + [] == Cover(members, a);
    } else {
      CoverAppend(members, a, Init(b));
      assert Init(a + b) == a + Init(b) && Last(a + b) == Last(b);
      CoverJoin(Cover(members, a), Cover(members, Init(b)), CoverOf(members, Last(b)));
    }
  }

  lemma CoverJoin(a: seq<string>, b: seq<string>, c: seq<string>)
    ensures (a + b) + c == a + (b + c)
  {
  }

  lemma {:induction false} BackgroundCovers(members: Members, accepted: seq<Chunk>, n: nat)
    requires InRange(|members|, accepted) && Distinct(Flatten(accepted)) && n <= |members|
    ensures [] !in accepted
    ensures Cover(members, Background(AcceptAll(accepted), n)) == Flatten(Parts(members, accepted)[..n])
  {
    hide Parts, AcceptAll, OutputAt, Cover;
    if n == 0 {
      OneOutput(members, Kept(0));
    } else {
      BackgroundCovers(members, accepted, n - 1);
      PartIsCovered(members, accepted, n - 1);
      CoverAppend(members, Background(AcceptAll(accepted), n - 1), OutputAt(AcceptAll(accepted), n - 1));
      var parts := Parts(members, accepted);
      assert Init(parts[..n]) == parts[..n - 1] && Last(parts[..n]) == parts[n - 1];
    }
  }

  /** Any acceptances of disjoint chunks leave a database that covers every source as often as the input did. */
  lemma CoverageKept(members: Members, accepted: seq<Chunk>)
    requires InRange(|members|, accepted) && Distinct(Flatten(accepted))
    ensures [] !in accepted
    ensures multiset(Cover(members, Background(AcceptAll(accepted), |members|))) == multiset(Flatten(members))
  {
    hide Parts, AcceptAll, Cover, Background, Flatten;
    BackgroundCovers(members, accepted, |members|);
    assert Parts(members, accepted)[..|members|] == Parts(members, accepted);
    PartsKeep(members, accepted);
  }
}
