/** When an upgrade or an adoption takes effect, and what it leaves, in terms of who owns which original. */
module OwnerOutcome {
  import opened Prelude
  import opened OwnerSelection
  import opened OwnerUpgrade

  // ---- who owns the originals -------------------------------------------------------------------

  ghost predicate Meets(r: Record, indexes: seq<int>) {
    r.accepted && exists i :: i in r.indexes && i in indexes
  }

  /** The accepted owners of any of these originals. */
  ghost function OwnersIn(records: seq<Record>, indexes: seq<int>): set<nat> {
    set k: nat | k < |records| && Meets(records[k], indexes)
  }

  /** The originals among these that no accepted owner has. */
  ghost function UnownedIn(records: seq<Record>, indexes: seq<int>): set<int> {
    set i | i in indexes && forall k :: 0 <= k < |records| && records[k].accepted ==> i !in records[k].indexes
  }

  /** Some owner of these originals has another one as well. */
  ghost predicate ReachesOut(records: seq<Record>, indexes: seq<int>) {
    exists k: nat, j :: k in OwnersIn(records, indexes) && j in records[k].indexes && j !in indexes
  }

  /** How many translation units these originals are now. */
  ghost function Units(records: seq<Record>, indexes: seq<int>): nat {
    |OwnersIn(records, indexes)| + |UnownedIn(records, indexes)|
  }

  lemma TouchesMeans(r: Record, indexes: seq<int>)
    ensures Touches(r, Owned(indexes)) <==> Meets(r, indexes)
  {
    if i :| i in r.indexes && i in indexes { assert i in Owned(indexes) * Owned(r.indexes); }
    if r.accepted && !Meets(r, indexes) {
      assert forall i :: i !in Owned(indexes) * Owned(r.indexes);
    }
  }

  lemma {:induction false} KeepMember(records: seq<Record>, selected: set<int>, touching: bool, r: Record)
    ensures r in Keep(records, selected, touching) <==> r in records && Touches(r, selected) == touching
  {
    hide Touches;
    if records != [] {
      assert records == Init(records) + [Last(records)];
      KeepMember(Init(records), selected, touching, r);
    }
  }

  lemma OwnersSnoc(records: seq<Record>, indexes: seq<int>)
    requires records != []
    ensures OwnersIn(records, indexes)
            == OwnersIn(Init(records), indexes) + if Meets(Last(records), indexes) then {|records| - 1} else {}
    ensures |records| - 1 !in OwnersIn(Init(records), indexes)
  {
    hide Meets;
    var n := |records| - 1;
    assert forall k :: 0 <= k < n ==> Init(records)[k] == records[k];
    forall k: nat ensures k in OwnersIn(records, indexes) <==>
                            k in OwnersIn(Init(records), indexes) || (k == n && Meets(Last(records), indexes)) {
    }
  }

  lemma {:induction false} KeepCount(records: seq<Record>, indexes: seq<int>)
    ensures |Keep(records, Owned(indexes), true)| == |OwnersIn(records, indexes)|
    ensures |Keep(records, Owned(indexes), false)| == |records| - |OwnersIn(records, indexes)|
  {
    hide Touches, Meets, OwnersIn;
    if records == [] {
      assert OwnersIn(records, indexes) == {} by { NoOwners(indexes); }
    } else {
      KeepCount(Init(records), indexes);
      OwnersSnoc(records, indexes);
      TouchesMeans(Last(records), indexes);
    }
  }

  lemma NoOwners(indexes: seq<int>)
    ensures OwnersIn([], indexes) == {}
  {
  }

  lemma {:induction false} KeepOnly(records: seq<Record>, indexes: seq<int>, k: nat)
    requires OwnersIn(records, indexes) == {k} && k < |records|
    ensures Keep(records, Owned(indexes), true) == [records[k]]
  {
    hide Touches, Meets;
    if records != [] {
      OwnersSnoc(records, indexes);
      TouchesMeans(Last(records), indexes);
      if k == |records| - 1 {
        forall i ensures i !in OwnersIn(Init(records), indexes) {
          assert i in OwnersIn(Init(records), indexes) ==> i in OwnersIn(records, indexes) && i != k;
        }
        assert OwnersIn(Init(records), indexes) == {};
        KeepCount(Init(records), indexes);
      } else {
        assert k in OwnersIn(Init(records), indexes);
        forall i ensures i in OwnersIn(Init(records), indexes) <==> i == k {
          assert i in OwnersIn(Init(records), indexes) ==> i in OwnersIn(records, indexes);
        }
        assert OwnersIn(Init(records), indexes) == {k};
        KeepOnly(Init(records), indexes, k);
        assert |records| - 1 !in OwnersIn(records, indexes);
      }
    }
  }

  lemma {:induction false} ClaimsAre(records: seq<Record>, i: int)
    ensures i in Claims(records) <==> exists k :: 0 <= k < |records| && records[k].accepted && i in records[k].indexes
  {
    if records != [] {
      ClaimsAre(Init(records), i);
      assert forall k :: 0 <= k < |records| - 1 ==> Init(records)[k] == records[k];
    }
  }

  lemma WholeMeans(records: seq<Record>, indexes: seq<int>)
    ensures Whole(records, Owned(indexes)) <==> !ReachesOut(records, indexes)
  {
    hide Touches, Meets;
    forall k | 0 <= k < |records| ensures Touches(records[k], Owned(indexes)) <==> Meets(records[k], indexes) {
      TouchesMeans(records[k], indexes);
    }
    if !Whole(records, Owned(indexes)) {
      var k: nat :| k < |records| && Touches(records[k], Owned(indexes)) && !(Owned(records[k].indexes) <= Owned(indexes));
      assert k in OwnersIn(records, indexes);
      if !ReachesOut(records, indexes) {
        assert forall j :: j in Owned(records[k].indexes) ==> j in Owned(indexes);
      }
    }
    if ReachesOut(records, indexes) {
      var k: nat, j :| k in OwnersIn(records, indexes) && j in records[k].indexes && j !in indexes;
      assert j in Owned(records[k].indexes) && j !in Owned(indexes);
    }
  }

  lemma UnitsMeans(records: seq<Record>, indexes: seq<int>)
    ensures Previous(records, indexes) == Units(records, indexes)
  {
    hide Keep, OwnersIn, Claims;
    var touched := Keep(records, Owned(indexes), true);
    KeepCount(records, indexes);
    KeepClaims(records, Owned(indexes));
    forall i ensures i in Owned(indexes) - Claims(touched) <==> i in UnownedIn(records, indexes) { ClaimsAre(records, i); }
    assert Owned(indexes) - Claims(touched) == UnownedIn(records, indexes);
  }

  // ---- what the proof store answered ------------------------------------------------------------

  /** Record `g` is the only admitted one, and it is of all `n` originals. */
  ghost predicate OnlyWhole(groups: seq<Record>, n: nat, g: nat) {
    && g < |groups| && groups[g].accepted && |groups[g].indexes| == n
    && (forall i :: 0 <= i < n ==> groups[g].indexes[i] == i)
    && forall h :: 0 <= h < |groups| && h != g ==> !groups[h].accepted
  }

  lemma {:induction false} AdmittedNone(groups: seq<Record>)
    ensures Admitted(groups) == [] <==> forall h :: 0 <= h < |groups| ==> !groups[h].accepted
  {
    if groups != [] {
      AdmittedNone(Init(groups));
      assert forall h :: 0 <= h < |groups| - 1 ==> Init(groups)[h] == groups[h];
    }
  }

  lemma {:induction false} AdmittedOne(groups: seq<Record>) returns (g: nat)
    requires |Admitted(groups)| == 1
    ensures g < |groups| && groups[g].accepted && groups[g] == Admitted(groups)[0]
    ensures forall h :: 0 <= h < |groups| && h != g ==> !groups[h].accepted
  {
    assert forall h :: 0 <= h < |groups| - 1 ==> Init(groups)[h] == groups[h];
    if Last(groups).accepted {
      AdmittedNone(Init(groups));
      g := |groups| - 1;
    } else {
      g := AdmittedOne(Init(groups));
    }
  }

  lemma {:induction false} OneAdmitted(groups: seq<Record>, g: nat)
    requires g < |groups| && groups[g].accepted && forall h :: 0 <= h < |groups| && h != g ==> !groups[h].accepted
    ensures Admitted(groups) == [groups[g]]
  {
    assert forall h :: 0 <= h < |groups| - 1 ==> Init(groups)[h] == groups[h];
    if g == |groups| - 1 {
      AdmittedNone(Init(groups));
    } else {
      assert !groups[|groups| - 1].accepted;
      OneAdmitted(Init(groups), g);
    }
  }

  /** The answer is one candidate for all `n` originals together. */
  ghost predicate Exact(n: nat, local: map<int, Entry>, claimed: set<int>, groups: seq<Record>) {
    && 0 in local && (forall i :: i in local ==> i == 0) && (forall i :: i in claimed <==> 0 <= i < n)
    && exists g: nat :: OnlyWhole(groups, n, g)
  }

  lemma ExactMeans(n: nat, local: map<int, Entry>, claimed: set<int>, groups: seq<Record>)
    ensures ExactlyQualified(n, local, claimed, groups) <==> Exact(n, local, claimed, groups)
    ensures forall g: nat :: OnlyWhole(groups, n, g) ==> Admitted(groups) == [groups[g]]
  {
    hide Admitted;
    assert local.Keys == {0} <==> 0 in local && forall i :: i in local ==> i == 0 by {
      assert forall i :: i in local.Keys <==> i in local;
      if 0 in local && forall i :: i in local ==> i == 0 { assert forall i :: i in local.Keys <==> i in {0}; }
    }
    assert claimed == Owned(Upto(n)) <==> forall i :: i in claimed <==> 0 <= i < n by {
      forall i ensures i in Owned(Upto(n)) <==> 0 <= i < n {
        if 0 <= i < n { assert Upto(n)[i] == i; }
      }
    }
    forall g: nat | OnlyWhole(groups, n, g) ensures Admitted(groups) == [groups[g]] { OneAdmitted(groups, g); }
    if |Admitted(groups)| == 1 {
      var g := AdmittedOne(groups);
      if Admitted(groups)[0].indexes == Upto(n) { assert OnlyWhole(groups, n, g); }
    }
    if g: nat :| OnlyWhole(groups, n, g) { assert groups[g].indexes == Upto(n); }
  }

  // ---- the present owner ------------------------------------------------------------------------

  /** One owner has any of these originals. */
  ghost predicate OnlyOwner(records: seq<Record>, indexes: seq<int>, k: nat) {
    k < |records| && OwnersIn(records, indexes) == {k}
  }

  /** It is the proof with this identity. */
  ghost predicate OwnedAs(entries: seq<Entry>, records: seq<Record>, indexes: seq<int>, id: Identity) {
    exists k: nat :: OnlyOwner(records, indexes, k) && IsProof(entries, records[k], id)
  }

  ghost predicate IsProof(entries: seq<Entry>, r: Record, id: Identity) {
    && r.recipe == id.recipe && |r.indexes| == |id.originals|
    && forall j :: 0 <= j < |r.indexes| ==> 0 <= r.indexes[j] < |entries| && entries[r.indexes[j]] == id.originals[j]
  }

  /** It has exactly these originals, and no recipe. */
  ghost predicate OwnedFlat(records: seq<Record>, indexes: seq<int>) {
    exists k: nat :: OnlyOwner(records, indexes, k) && IsFlat(records[k], indexes)
  }

  ghost predicate IsFlat(r: Record, indexes: seq<int>) {
    r.recipe == None && forall i :: i in r.indexes <==> i in indexes
  }

  lemma {:induction false} IdentitiesSize(entries: seq<Entry>, records: seq<Record>)
    ensures |Identities(entries, records)| == |records|
  {
    if records != [] { IdentitiesSize(entries, Init(records)); }
  }

  lemma OneIdentity(entries: seq<Entry>, r: Record)
    ensures Identities(entries, [r]) == [IdentityOf(entries, r)]
  {
    assert Init([r]) == [];
  }

  lemma IsProofMeans(entries: seq<Entry>, r: Record, id: Identity)
    requires forall i :: i in r.indexes ==> 0 <= i < |entries|
    ensures IdentityOf(entries, r) == id <==> IsProof(entries, r, id)
  {
    assert forall j :: 0 <= j < |r.indexes| ==> r.indexes[j] in r.indexes;
    if IsProof(entries, r, id) { assert At(entries, r.indexes) == id.originals; }
  }

  lemma {:induction false} OwnerInRange(n: nat, records: seq<Record>, k: nat)
    requires Disjoint(n, records) && k < |records| && records[k].accepted
    ensures ValidOwner(n, records[k].indexes)
  {
    if k < |records| - 1 {
      assert Init(records)[k] == records[k];
      OwnerInRange(n, Init(records), k);
    }
  }

  lemma OnlyOwnerMeans(records: seq<Record>, indexes: seq<int>) returns (k: nat)
    requires |Keep(records, Owned(indexes), true)| == 1
    ensures OnlyOwner(records, indexes, k) && Keep(records, Owned(indexes), true) == [records[k]] && records[k].accepted
  {
    hide Keep;
    KeepCount(records, indexes);
    var owners := OwnersIn(records, indexes);
    k :| k in owners;
    assert owners - {k} == {} by { assert |owners - {k}| == 0; }
    assert owners == {k};
    KeepOnly(records, indexes, k);
  }

  lemma SameOriginals(a: seq<int>, b: seq<int>)
    ensures Owned(a) == Owned(b) <==> forall i :: i in a <==> i in b
  {
    if Owned(a) == Owned(b) {
      forall i ensures i in a <==> i in b { assert i in Owned(a) <==> i in Owned(b); }
    }
    if forall i :: i in a <==> i in b { assert Owned(a) == Owned(b); }
  }

  lemma OwnedMeans(entries: seq<Entry>, records: seq<Record>, indexes: seq<int>, id: Identity)
    requires Disjoint(|entries|, records)
    ensures var touched := Keep(records, Owned(indexes), true);
            && (Identities(entries, touched) == [id] <==> OwnedAs(entries, records, indexes, id))
            && (WholeFlatOwner(indexes, records) <==> OwnedFlat(records, indexes))
  {
    hide Keep, OwnersIn, IsProof, IdentityOf, Identities, Disjoint;
    var touched := Keep(records, Owned(indexes), true);
    IdentitiesSize(entries, touched);
    if |touched| == 1 {
      var k := OnlyOwnerMeans(records, indexes);
      OwnerInRange(|entries|, records, k);
      OneIdentity(entries, records[k]);
      IsProofMeans(entries, records[k], id);
      SameOriginals(records[k].indexes, indexes);
      forall l: nat | OnlyOwner(records, indexes, l) ensures l == k { assert l in OwnersIn(records, indexes); }
    } else {
      forall l: nat ensures !OnlyOwner(records, indexes, l) {
        if OnlyOwner(records, indexes, l) { KeepOnly(records, indexes, l); }
      }
    }
  }

  // ---- what a replacement leaves ----------------------------------------------------------------

  /** The candidate is at the least of these originals, no other one of them has a replacement, and their owners gave way to
      this one; nothing else changed. */
  ghost predicate IsReplaced(sel: Selection, indexes: seq<int>, candidate: Entry, owner: Record, after: Selection)
    requires indexes != []
  {
    && (forall i :: i in after.replacements <==> i == Min(indexes) || (i in sel.replacements && i !in indexes))
    && (forall i :: i in after.replacements ==>
          after.replacements[i] == if i == Min(indexes) then candidate else sel.replacements[i])
    && (forall r :: r in after.records <==> r == owner || (r in sel.records && !Meets(r, indexes)))
    && |after.records| == |sel.records| - |OwnersIn(sel.records, indexes)| + 1
  }

  lemma ReplacedMeans(n: nat, sel: Selection, indexes: seq<int>, candidate: Entry, proof: Record)
    requires Valid(n, sel) && indexes != [] && !ReachesOut(sel.records, indexes)
    ensures Replace(sel, indexes, candidate, proof).Ok?
    ensures IsReplaced(sel, indexes, candidate, proof.(indexes := indexes), Replace(sel, indexes, candidate, proof).value)
  {
    hide Whole, Keep, PopAnchors, Anchors, Claims, Disjoint, Saved, ReachesOut, OwnersIn, Touches, Meets;
    var selected := Owned(indexes);
    var kept, removed := Keep(sel.records, selected, false), Keep(sel.records, selected, true);
    WholeMeans(sel.records, indexes);
    OwnersPop(n, sel, selected);
    KeptIsValid(n, sel, selected);
    AnchorsClaimed(kept);
    AnchorsClaimed(removed);
    KeepCount(sel.records, indexes);
    forall r ensures r in kept <==> r in sel.records && !Meets(r, indexes) {
      KeepMember(sel.records, selected, false, r);
      TouchesMeans(r, indexes);
    }
    forall i | i in sel.replacements ensures i in Anchors(removed) <==> i in indexes {
      assert i in Anchors(kept) || i in Anchors(removed);
      assert i in Anchors(kept) ==> i !in selected;
    }
  }

  // ---- upgrades ---------------------------------------------------------------------------------

  /** Nothing forbids this upgrade: no owner reaches out of the group, a group with a recipe is persisted, or already owned by
      itself or as a whole, and the proof store admitted exactly the whole group. */
  ghost predicate Permitted(entries: seq<Entry>, group: Group, proof: Result<Proof>, persisted: bool, sel: Selection) {
    && group.indexes != [] && !ReachesOut(sel.records, group.indexes)
    && (group.recipe == None || persisted || OwnedAs(entries, sel.records, group.indexes, group.id)
        || OwnedFlat(sel.records, group.indexes))
    && proof.Ok? && proof.value.outputLength == 1
    && Exact(|group.indexes|, proof.value.local, proof.value.claimed, proof.value.groups)
  }

  /** The candidate is what the group is compiled as now. */
  ghost predicate InPlace(entries: seq<Entry>, group: Group, proof: Proof, sel: Selection)
    requires group.indexes != [] && 0 in proof.local
  {
    && Units(sel.records, group.indexes) <= 1 && OwnedAs(entries, sel.records, group.indexes, group.id)
    && Min(group.indexes) in sel.replacements && sel.replacements[Min(group.indexes)] == proof.local[0]
  }

  /** An upgrade takes effect: without a recipe, when it merges at least two units; with one, unless it is in place. */
  ghost predicate Takes(entries: seq<Entry>, group: Group, proof: Result<Proof>, persisted: bool, sel: Selection) {
    && Permitted(entries, group, proof, persisted, sel)
    && (Units(sel.records, group.indexes) >= 2 || (group.recipe.Some? && !InPlace(entries, group, proof.value, sel)))
  }

  /** Why an upgrade is not permitted: the first thing that forbids it. */
  ghost function Refusal(entries: seq<Entry>, group: Group, proof: Result<Proof>, persisted: bool, sel: Selection): string {
    if ReachesOut(sel.records, group.indexes) then "background-proof-upgrade-partial-owner"
    else if group.recipe.Some? && !persisted && !OwnedAs(entries, sel.records, group.indexes, group.id)
            && !OwnedFlat(sel.records, group.indexes) then
      "background-proof-recipe-current-flat-owner-required"
    else if proof.Err? then proof.reason
    else "background-proof-upgrade-not-exactly-qualified"
  }

  /** What is not permitted changes nothing. */
  lemma NotPermitted(entries: seq<Entry>, group: Group, proof: Result<Proof>, persisted: bool, sel: Selection)
    requires Valid(|entries|, sel) && !Permitted(entries, group, proof, persisted, sel)
    ensures var (after, seen) := ApplyUpgrade(entries, group, proof, persisted, sel);
            && after == sel && !seen.accepted
            && (group.indexes != [] ==> seen.reason == Refusal(entries, group, proof, persisted, sel))
  {
    hide Whole, Keep, ReachesOut, Exact, OwnedAs, OwnedFlat, Identities, Disjoint, ExactlyQualified, WholeFlatOwner, Replace;
    if group.indexes != [] {
      WholeMeans(sel.records, group.indexes);
      OwnedMeans(entries, sel.records, group.indexes, group.id);
      if proof.Ok? { ExactMeans(|group.indexes|, proof.value.local, proof.value.claimed, proof.value.groups); }
    }
  }

  /** What is permitted is selected, in place already, or saves nothing. */
  lemma WhenPermitted(entries: seq<Entry>, group: Group, proof: Result<Proof>, persisted: bool, sel: Selection, g: nat)
    requires Valid(|entries|, sel) && Permitted(entries, group, proof, persisted, sel)
    requires 0 in proof.value.local && g < |proof.value.groups| && OnlyWhole(proof.value.groups, |group.indexes|, g)
    ensures var p := proof.value;
            ApplyUpgrade(entries, group, proof, persisted, sel)
            == if InPlace(entries, group, p, sel) then
                 (sel, Observation(true, "background-proof-upgrade-already-selected"))
               else if Units(sel.records, group.indexes) <= 1 && group.recipe == None then
                 (sel, Observation(false, "background-proof-upgrade-does-not-reduce-tus"))
               else match Replace(sel, group.indexes, p.local[0], p.groups[g])
                 case Err(reason) => (sel, Observation(false, reason))
                 case Ok(after) => (after, Observation(true, "background-proof-upgrade-selected"))
  {
    hide Whole, Keep, ReachesOut, Exact, OwnedAs, OwnedFlat, Units, Identities, Disjoint, WholeFlatOwner, Replace, Admitted;
    var p := proof.value;
    WholeMeans(sel.records, group.indexes);
    UnitsMeans(sel.records, group.indexes);
    OwnedMeans(entries, sel.records, group.indexes, group.id);
    KeysOfExact(|group.indexes|, p.local, p.claimed, p.groups);
    ExactMeans(|group.indexes|, p.local, p.claimed, p.groups);
  }

  /** Exactly when an upgrade takes effect and what it leaves then, when it is reported as accepted, and why it is not. */
  lemma UpgradeOutcome(entries: seq<Entry>, group: Group, proof: Result<Proof>, persisted: bool, sel: Selection)
    requires Valid(|entries|, sel)
    ensures var (after, seen) := ApplyUpgrade(entries, group, proof, persisted, sel);
            && (seen.accepted <==> Takes(entries, group, proof, persisted, sel)
                                   || (Permitted(entries, group, proof, persisted, sel)
                                       && InPlace(entries, group, proof.value, sel)))
            && (!Takes(entries, group, proof, persisted, sel) ==> after == sel)
            && (Takes(entries, group, proof, persisted, sel) ==>
                  && seen.reason == "background-proof-upgrade-selected"
                  && forall g: nat :: OnlyWhole(proof.value.groups, |group.indexes|, g) ==>
                       IsReplaced(sel, group.indexes, proof.value.local[0],
                                  proof.value.groups[g].(indexes := group.indexes), after))
            && (group.indexes != [] && !Permitted(entries, group, proof, persisted, sel) ==>
                  seen.reason == Refusal(entries, group, proof, persisted, sel))
            && (Permitted(entries, group, proof, persisted, sel) && !Takes(entries, group, proof, persisted, sel) ==>
                  seen.reason == if InPlace(entries, group, proof.value, sel) then "background-proof-upgrade-already-selected"
                                 else "background-proof-upgrade-does-not-reduce-tus")
  {
    hide ApplyUpgrade, OwnersIn, ReachesOut, Exact, OnlyWhole, IsReplaced, OwnedAs, OwnedFlat, Units, Disjoint, Replace;
    hide Admitted, Refusal;
    if Permitted(entries, group, proof, persisted, sel) {
      var p := proof.value;
      var g := WholeRecord(|group.indexes|, p.local, p.claimed, p.groups);
      WhenPermitted(entries, group, proof, persisted, sel, g);
      ReplacedMeans(|entries|, sel, group.indexes, p.local[0], p.groups[g]);
    } else {
      NotPermitted(entries, group, proof, persisted, sel);
    }
  }

  /** An upgrade without a recipe changes the selection exactly when it is permitted and merges at least two units. */
  lemma FlatUpgradeOutcome(entries: seq<Entry>, group: Group, proof: Result<Proof>, persisted: bool, sel: Selection)
    requires Valid(|entries|, sel) && Checked(|entries|, Upgrade(group, proof, persisted)) && group.recipe == None
    ensures var after := ApplyUpgrade(entries, group, proof, persisted, sel).0;
            after != sel <==>
              && group.indexes != [] && !ReachesOut(sel.records, group.indexes)
              && proof.Ok? && proof.value.outputLength == 1
              && Exact(|group.indexes|, proof.value.local, proof.value.claimed, proof.value.groups)
              && |OwnersIn(sel.records, group.indexes)| + |UnownedIn(sel.records, group.indexes)| >= 2
  {
    hide ApplyUpgrade, ReachesOut, Exact, IsReplaced, OwnedAs, OwnedFlat, Disjoint, OwnersIn, UnownedIn, OnlyWhole, Rendered, Valid;
    hide NeverSplits, ValidOwner, Min, Replace;
    UpgradeOutcome(entries, group, proof, persisted, sel);
    UnitsMeans(sel.records, group.indexes);
    if Takes(entries, group, proof, persisted, sel) {
      var p := proof.value;
      var indexes := group.indexes;
      var g := WholeRecord(|group.indexes|, p.local, p.claimed, p.groups);
      GroupIsOwner(|entries|, group, p, g);
      WhenPermitted(entries, group, proof, persisted, sel, g);
      WholeMeans(sel.records, indexes);
      ReplacedMeans(|entries|, sel, indexes, p.local[0], p.groups[g]);
      ReplaceEffect(entries, indexes, p.local[0], p.groups[g], sel);
    }
  }

  lemma WholeRecord(n: nat, local: map<int, Entry>, claimed: set<int>, groups: seq<Record>) returns (g: nat)
    requires Exact(n, local, claimed, groups)
    ensures 0 in local && g < |groups| && OnlyWhole(groups, n, g) && groups[g].accepted
    ensures Admitted(groups) == [groups[g]] && forall h: nat :: OnlyWhole(groups, n, h) ==> h == g
  {
    hide Admitted;
    g :| OnlyWhole(groups, n, g);
    ExactMeans(n, local, claimed, groups);
  }

  lemma GroupIsOwner(n: nat, group: Group, p: Proof, g: nat)
    requires g < |p.groups| && Admitted(p.groups) == [p.groups[g]] && OnlyWhole(p.groups, |group.indexes|, g)
    requires Disjoint(|group.indexes|, p.groups)
    requires Distinct(group.indexes) && forall i :: i in group.indexes ==> 0 <= i < n
    ensures ValidOwner(n, group.indexes)
  {
    hide Admitted, Disjoint;
    AdmittedValid(|group.indexes|, p.groups);
    assert ValidOwner(|group.indexes|, Admitted(p.groups)[0].indexes);
  }

  lemma KeysOfExact(n: nat, local: map<int, Entry>, claimed: set<int>, groups: seq<Record>)
    ensures Exact(n, local, claimed, groups) ==> 0 in local && ExactlyQualified(n, local, claimed, groups) && Admitted(groups) != []
  {
    hide OnlyWhole, Admitted;
    ExactMeans(n, local, claimed, groups);
  }

  // ---- adoptions --------------------------------------------------------------------------------

  /** All these originals may be merged, in this module and context. */
  ghost predicate InOnePlace(entries: seq<Entry>, indexes: seq<int>, place: (string, string)) {
    forall i :: i in indexes ==> 0 <= i < |entries| && entries[i].tupleKey == Some(place)
  }

  /** A planned chunk of one module and context that no owner reaches out of, admitted as a whole, in Tier 1 without recipe. */
  ghost predicate Adoptable(entries: seq<Entry>, indexes: seq<int>, local: map<int, Entry>, localClaimed: set<int>,
                            checked: seq<Record>, sel: Selection, chunks: seq<seq<int>>) {
    && indexes in chunks && indexes != [] && !ReachesOut(sel.records, indexes)
    && (exists place :: InOnePlace(entries, indexes, place))
    && Exact(|indexes|, local, localClaimed, checked) && 0 in local && local[0].tier == 1 && local[0].recipe == None
    && forall g: nat :: OnlyWhole(checked, |indexes|, g) ==> checked[g].tier == 1 && checked[g].recipe == None
  }

  lemma LocalMeans(entries: seq<Entry>, indexes: seq<int>)
    ensures LocalChunk(entries, indexes) <==> indexes != [] && exists place :: InOnePlace(entries, indexes, place)
  {
    if LocalChunk(entries, indexes) {
      assert indexes[0] in indexes && InOnePlace(entries, indexes, EntryAt(entries, indexes[0]).tupleKey.value);
    }
  }

  lemma NotAdoptable(entries: seq<Entry>, indexes: seq<int>, local: map<int, Entry>, localClaimed: set<int>,
                     checked: seq<Record>, sel: Selection, chunks: seq<seq<int>>)
    requires Valid(|entries|, sel) && !Adoptable(entries, indexes, local, localClaimed, checked, sel, chunks)
    ensures AdoptOrdinary(entries, indexes, local, localClaimed, checked, sel, chunks) == (sel, false)
  {
    hide Whole, Keep, ReachesOut, OnlyWhole, Exact, ExactlyQualified, Admitted, Disjoint, Replace, LocalChunk, InOnePlace, Identities, Valid;
    LocalMeans(entries, indexes);
    WholeMeans(sel.records, indexes);
    ExactMeans(|indexes|, local, localClaimed, checked);
    if Exact(|indexes|, local, localClaimed, checked) {
      var g := WholeRecord(|indexes|, local, localClaimed, checked);
    }
  }

  lemma WhenAdoptable(entries: seq<Entry>, indexes: seq<int>, local: map<int, Entry>, localClaimed: set<int>,
                      checked: seq<Record>, sel: Selection, chunks: seq<seq<int>>, g: nat)
    requires Valid(|entries|, sel) && Adoptable(entries, indexes, local, localClaimed, checked, sel, chunks)
    requires 0 in local && g < |checked| && OnlyWhole(checked, |indexes|, g)
    ensures AdoptOrdinary(entries, indexes, local, localClaimed, checked, sel, chunks)
            == if Units(sel.records, indexes) <= 1 then
                 (sel, HasOwner(sel.records, indexes)
                       && Lookup(sel.replacements, Min(indexes)) == Some(local[0]))
               else match Replace(sel, indexes, local[0], checked[g])
                 case Err(_) => (sel, false)
                 case Ok(after) => if Valid(|entries|, after) then (after, true) else (sel, false)
  {
    hide Whole, Keep, ReachesOut, OnlyWhole, Exact, ExactlyQualified, Admitted, Disjoint, Replace, LocalChunk, InOnePlace, Identities, Valid;
    hide Units, HasOwner, Lookup;
    LocalMeans(entries, indexes);
    WholeMeans(sel.records, indexes);
    UnitsMeans(sel.records, indexes);
    ExactMeans(|indexes|, local, localClaimed, checked);
    assert LocalChunk(entries, indexes) && ExactlyQualified(|indexes|, local, localClaimed, checked);
    assert Admitted(checked) == [checked[g]] && checked[g].tier == 1 && checked[g].recipe == None;
  }

  /** Exactly when an adoption takes effect and what it leaves then, and when it is reported. */
  lemma AdoptionOutcome(entries: seq<Entry>, indexes: seq<int>, local: map<int, Entry>, localClaimed: set<int>,
                        checked: seq<Record>, sel: Selection, chunks: seq<seq<int>>)
    requires Valid(|entries|, sel)
    ensures var (after, adopted) := AdoptOrdinary(entries, indexes, local, localClaimed, checked, sel, chunks);
            var takes := Adoptable(entries, indexes, local, localClaimed, checked, sel, chunks)
                         && Units(sel.records, indexes) >= 2 && |indexes| >= 2 && Distinct(indexes);
            && (after != sel <==> takes)
            && (takes ==> adopted && forall g: nat :: OnlyWhole(checked, |indexes|, g) ==>
                            IsReplaced(sel, indexes, local[0], checked[g].(indexes := indexes), after))
            && (adopted && !takes <==>
                  && Adoptable(entries, indexes, local, localClaimed, checked, sel, chunks) && Units(sel.records, indexes) <= 1
                  && (exists r :: r in sel.records && r.accepted && r.indexes == indexes)
                  && Min(indexes) in sel.replacements && sel.replacements[Min(indexes)] == local[0])
  {
    hide AdoptOrdinary, Valid, IsReplaced, OnlyWhole, Exact, Units, ReachesOut, Replace, Rendered, ValidOwner, NeverSplits, Distinct;
    if Adoptable(entries, indexes, local, localClaimed, checked, sel, chunks) {
      var g := WholeRecord(|indexes|, local, localClaimed, checked);
      WhenAdoptable(entries, indexes, local, localClaimed, checked, sel, chunks, g);
      WholeMeans(sel.records, indexes);
      UnitsMeans(sel.records, indexes);
      ReplacedMeans(|entries|, sel, indexes, local[0], checked[g]);
      OwnersAreValid(entries, indexes, sel, local[0], checked[g]);
    } else {
      NotAdoptable(entries, indexes, local, localClaimed, checked, sel, chunks);
    }
  }

  lemma OwnersAreValid(entries: seq<Entry>, indexes: seq<int>, sel: Selection, candidate: Entry, proof: Record)
    requires Valid(|entries|, sel) && indexes != [] && proof.accepted && !ReachesOut(sel.records, indexes)
    requires forall i :: i in indexes ==> 0 <= i < |entries|
    requires Replace(sel, indexes, candidate, proof).Ok?
    ensures var after := Replace(sel, indexes, candidate, proof).value;
            && (Valid(|entries|, after) <==> |indexes| >= 2 && Distinct(indexes))
            && (Valid(|entries|, after) && Units(sel.records, indexes) >= 2 ==> after != sel)
  {
    hide Valid, Units, ReachesOut, Replace, Rendered, NeverSplits, Distinct;
    var after := Replace(sel, indexes, candidate, proof).value;
    WholeMeans(sel.records, indexes);
    UnitsMeans(sel.records, indexes);
    if Valid(|entries|, after) { NewOwnerIsValid(|entries|, sel, indexes, candidate, proof); }
    if ValidOwner(|entries|, indexes) { ReplaceEffect(entries, indexes, candidate, proof, sel); }
  }
}
