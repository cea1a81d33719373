/** `_adopt_ordinary` and `_apply_upgrade` as steps of a state machine over the accepted owners. */
module OwnerUpgrade {
  import opened Prelude
  import opened OwnerSelection

  /** What the proof store answered for the selected originals alone, already checked by `_replacements`. */
  datatype Proof = Proof(outputLength: nat, local: map<int, Entry>, claimed: set<int>, groups: seq<Record>)

  /** One candidate upgrade from the catalog. */
  datatype Group = Group(indexes: seq<int>, id: Identity, recipe: Option<string>)

  datatype Observation = Observation(accepted: bool, reason: string)

  function Admitted(records: seq<Record>): seq<Record> {
    if records == [] then [] else Admitted(Init(records)) + if Last(records).accepted then [Last(records)] else []
  }

  /** Exactly the whole group was admitted, as one owner. */
  predicate ExactlyQualified(n: nat, local: map<int, Entry>, claimed: set<int>, groups: seq<Record>) {
    && local.Keys == {0} && claimed == Owned(Upto(n))
    && |Admitted(groups)| == 1 && Admitted(groups)[0].indexes == Upto(n)
  }

  /** The one accepted owner of exactly these originals has no recipe. */
  predicate WholeFlatOwner(indexes: seq<int>, records: seq<Record>) {
    var owners := Keep(records, Owned(indexes), true);
    |owners| == 1 && Owned(owners[0].indexes) == Owned(indexes) && owners[0].recipe == None
  }

  function Lookup(m: map<int, Entry>, i: int): Option<Entry> {
    if i in m then Some(m[i]) else None
  }

  /** `proposed.pop` raises when an owner has no replacement; the caller then keeps what it had. */
  function Replace(sel: Selection, indexes: seq<int>, candidate: Entry, proof: Record): Result<Selection>
    requires indexes != []
  {
    match PopAnchors(sel.replacements, Keep(sel.records, Owned(indexes), true))
    case None => Err("KeyError")
    case Some(anchors) => Ok(Replaced(sel, indexes, candidate, proof, anchors))
  }

  /** `_apply_upgrade`: either the whole group becomes one owner, or nothing changes. */
  function ApplyUpgrade(entries: seq<Entry>, group: Group, proof: Result<Proof>, persisted: bool, sel: Selection)
      : (Selection, Observation)
  {
    var indexes, n := group.indexes, |group.indexes|;
    if indexes == [] then (sel, Observation(false, "min() arg is an empty sequence")) else
    match UpgradeOwners(entries, indexes, sel.records)
    case Err(reason) => (sel, Observation(false, reason))
    case Ok((owners, previous)) =>
      if group.recipe.Some? && !persisted && owners != [group.id] && !WholeFlatOwner(indexes, sel.records) then
        (sel, Observation(false, "background-proof-recipe-current-flat-owner-required"))
      else match proof
      case Err(reason) => (sel, Observation(false, reason))
      case Ok(p) =>
        if p.outputLength != 1 || !ExactlyQualified(n, p.local, p.claimed, p.groups) then
          (sel, Observation(false, "background-proof-upgrade-not-exactly-qualified"))
        else if previous <= 1 && owners == [group.id]
                && Lookup(sel.replacements, Min(indexes)) == Some(p.local[0]) then
          (sel, Observation(true, "background-proof-upgrade-already-selected"))
        else if previous <= 1 && group.recipe == None then
          (sel, Observation(false, "background-proof-upgrade-does-not-reduce-tus"))
        else match Replace(sel, indexes, p.local[0], Admitted(p.groups)[0])
        case Err(reason) => (sel, Observation(false, reason))
        case Ok(after) => (after, Observation(true, "background-proof-upgrade-selected"))
  }

  /** All originals of the chunk share one module and context. */
  predicate LocalChunk(entries: seq<Entry>, indexes: seq<int>) {
    && indexes != []
    && (forall i :: i in indexes ==> EntryAt(entries, i).tupleKey.Some?)
    && forall i :: i in indexes ==> EntryAt(entries, i).tupleKey == EntryAt(entries, indexes[0]).tupleKey
  }

  predicate HasOwner(records: seq<Record>, indexes: seq<int>) {
    exists r :: r in records && r.accepted && r.indexes == indexes
  }

  /** `_adopt_ordinary`: a currently planned chunk may replace whole live owners; the result is rendered first. */
  function AdoptOrdinary(entries: seq<Entry>, indexes: seq<int>, local: map<int, Entry>, localClaimed: set<int>,
                         checked: seq<Record>, sel: Selection, chunks: seq<seq<int>>): (Selection, bool)
  {
    if indexes !in chunks || !LocalChunk(entries, indexes) then (sel, false) else
    match UpgradeOwners(entries, indexes, sel.records)
    case Err(_) => (sel, false)
    case Ok((_, previous)) =>
      if !ExactlyQualified(|indexes|, local, localClaimed, checked) then (sel, false)
      else
        var admitted := Admitted(checked)[0];
        if admitted.tier != 1 || admitted.recipe.Some? || local[0].tier != 1 || local[0].recipe.Some? then (sel, false)
        else if previous <= 1 then
          (sel, HasOwner(sel.records, indexes)
                && Lookup(sel.replacements, Min(indexes)) == Some(local[0]))
        else match Replace(sel, indexes, local[0], admitted)
        case Err(_) => (sel, false)
        case Ok(after) => if Valid(|entries|, after) then (after, true) else (sel, false)
  }

  // ---- runs ---------------------------------------------------------------------------------

  datatype Step =
    | Adopt(indexes: seq<int>, local: map<int, Entry>, localClaimed: set<int>, checked: seq<Record>,
            chunks: seq<seq<int>>)
    | Upgrade(group: Group, proof: Result<Proof>, persisted: bool)

  /** What `_group` and `_replacements` have checked before an upgrade is applied. */
  predicate Checked(n: nat, step: Step) {
    step.Upgrade? ==>
      && Distinct(step.group.indexes)
      && (forall i :: i in step.group.indexes ==> 0 <= i < n)
      && (step.proof.Ok? ==> Disjoint(|step.group.indexes|, step.proof.value.groups))
  }

  /** Every accepted owner before is inside one accepted owner after. */
  predicate NeverSplits(before: Selection, after: Selection) {
    forall r :: r in before.records && r.accepted ==>
      exists s :: s in after.records && s.accepted && Owned(r.indexes) <= Owned(s.indexes)
  }

  lemma {:induction false} AdmittedValid(n: nat, groups: seq<Record>)
    requires Disjoint(n, groups)
    ensures forall k :: 0 <= k < |Admitted(groups)| ==>
              Admitted(groups)[k].accepted && ValidOwner(n, Admitted(groups)[k].indexes)
  {
    if groups != [] { AdmittedValid(n, Init(groups)); }
  }

  lemma {:induction false} AdmittedAreAccepted(groups: seq<Record>)
    ensures forall k :: 0 <= k < |Admitted(groups)| ==> Admitted(groups)[k].accepted
  {
    if groups != [] { AdmittedAreAccepted(Init(groups)); }
  }

  lemma {:induction false} KeptRecord(records: seq<Record>, selected: set<int>, r: Record)
    requires r in records && !Touches(r, selected)
    ensures r in Keep(records, selected, false)
  {
    if r != Last(records) { KeptRecord(Init(records), selected, r); }
  }

  /** An owner either gives way to one that contains it, or stays as it is. */
  lemma ReplaceNeverSplits(sel: Selection, indexes: seq<int>, candidate: Entry, proof: Record)
    requires indexes != [] && proof.accepted && Whole(sel.records, Owned(indexes))
    requires Replace(sel, indexes, candidate, proof).Ok?
    ensures NeverSplits(sel, Replace(sel, indexes, candidate, proof).value)
  {
    hide PopAnchors, Keep, Touches;
    var after := Replace(sel, indexes, candidate, proof).value;
    var owner := proof.(indexes := indexes);
    assert owner in after.records;
    forall r | r in sel.records && r.accepted
      ensures exists s :: s in after.records && s.accepted && Owned(r.indexes) <= Owned(s.indexes)
    {
      if Touches(r, Owned(indexes)) {
        var k :| 0 <= k < |sel.records| && sel.records[k] == r;
        assert Owned(sel.records[k].indexes) <= Owned(owner.indexes);
      } else {
        KeptRecord(sel.records, Owned(indexes), r);
        assert r in after.records;
      }
    }
  }

  /** How many translation units the selected originals are now. */
  function Previous(records: seq<Record>, indexes: seq<int>): nat {
    var touched := Keep(records, Owned(indexes), true);
    |touched| + |Owned(indexes) - Claims(touched)|
  }

  lemma SomethingMerges(records: seq<Record>, indexes: seq<int>)
    requires indexes != []
    ensures Previous(records, indexes) >= 1
  {
    var touched := Keep(records, Owned(indexes), true);
    if touched == [] {
      assert indexes[0] in Owned(indexes) - Claims(touched);
    }
  }

  lemma SelectionChanged(entries: seq<Entry>, group: Group, proof: Result<Proof>, persisted: bool, sel: Selection)
    requires ApplyUpgrade(entries, group, proof, persisted, sel).0 != sel
    ensures group.indexes != [] && proof.Ok? && proof.value.local.Keys == {0} && |Admitted(proof.value.groups)| == 1
    ensures Admitted(proof.value.groups)[0].indexes == Upto(|group.indexes|)
    ensures Whole(sel.records, Owned(group.indexes))
    ensures Replace(sel, group.indexes, proof.value.local[0], Admitted(proof.value.groups)[0])
            == Ok(ApplyUpgrade(entries, group, proof, persisted, sel).0)
    ensures group.recipe == None ==> Previous(sel.records, group.indexes) >= 2
  {
    hide Replaced, PopAnchors, Keep, Whole, WholeFlatOwner;
  }

  /** Replacing whole owners by one: what becomes of the selection and of the rendered database. */
  lemma ReplaceEffect(entries: seq<Entry>, indexes: seq<int>, candidate: Entry, proof: Record, sel: Selection)
    requires Valid(|entries|, sel) && ValidOwner(|entries|, indexes) && proof.accepted
    requires Whole(sel.records, Owned(indexes)) && Replace(sel, indexes, candidate, proof).Ok?
    ensures var after := Replace(sel, indexes, candidate, proof).value;
            && Valid(|entries|, after) && NeverSplits(sel, after)
            && |Rendered(entries, after)| == |Rendered(entries, sel)| - (Previous(sel.records, indexes) - 1)
  {
    hide Replaced, PopAnchors, Keep, Whole, Valid, NeverSplits, Rendered;
    ReplacedIsValid(|entries|, sel, indexes, candidate, proof);
    ReplaceNeverSplits(sel, indexes, candidate, proof);
    RenderedLength(entries, sel);
    RenderedLength(entries, Replace(sel, indexes, candidate, proof).value);
  }

  /** An upgrade that takes effect merges whole owners and newcomers into one unit, and shrinks the database by the rest. */
  lemma UpgradeEffect(entries: seq<Entry>, group: Group, proof: Result<Proof>, persisted: bool, sel: Selection)
    requires Valid(|entries|, sel) && Checked(|entries|, Upgrade(group, proof, persisted))
    requires ApplyUpgrade(entries, group, proof, persisted, sel).0 != sel
    ensures var after := ApplyUpgrade(entries, group, proof, persisted, sel).0;
            var merged := Previous(sel.records, group.indexes);
            && Valid(|entries|, after) && NeverSplits(sel, after)
            && |Rendered(entries, after)| == |Rendered(entries, sel)| - (merged - 1)
            && merged >= 1 && (group.recipe == None ==> merged >= 2)
  {
    hide ApplyUpgrade, Replace, Valid, NeverSplits, Rendered, Previous, Whole;
    SelectionChanged(entries, group, proof, persisted, sel);
    AdmittedValid(|group.indexes|, proof.value.groups);
    assert ValidOwner(|group.indexes|, Admitted(proof.value.groups)[0].indexes);
    ReplaceEffect(entries, group.indexes, proof.value.local[0], Admitted(proof.value.groups)[0], sel);
    SomethingMerges(sel.records, group.indexes);
  }

  lemma AdoptionChanged(entries: seq<Entry>, indexes: seq<int>, local: map<int, Entry>, claimed: set<int>,
                        checked: seq<Record>, sel: Selection, chunks: seq<seq<int>>)
    requires AdoptOrdinary(entries, indexes, local, claimed, checked, sel, chunks).0 != sel
    ensures indexes != [] && local.Keys == {0} && |Admitted(checked)| == 1 && Whole(sel.records, Owned(indexes))
    ensures Replace(sel, indexes, local[0], Admitted(checked)[0])
            == Ok(AdoptOrdinary(entries, indexes, local, claimed, checked, sel, chunks).0)
    ensures Valid(|entries|, AdoptOrdinary(entries, indexes, local, claimed, checked, sel, chunks).0)
    ensures Previous(sel.records, indexes) >= 2
  {
    hide Replaced, PopAnchors, Keep, Whole, Valid;
  }

  lemma NewOwnerIsValid(n: nat, sel: Selection, indexes: seq<int>, candidate: Entry, proof: Record)
    requires indexes != [] && proof.accepted && Replace(sel, indexes, candidate, proof).Ok?
    requires Valid(n, Replace(sel, indexes, candidate, proof).value)
    ensures ValidOwner(n, indexes)
  {
    hide Keep, PopAnchors, ValidOwner;
    var after := Replace(sel, indexes, candidate, proof).value;
    assert Last(after.records) == proof.(indexes := indexes);
  }

  /** An adoption that takes effect always shrinks the rendered database. */
  lemma AdoptionEffect(entries: seq<Entry>, indexes: seq<int>, local: map<int, Entry>, claimed: set<int>,
                       checked: seq<Record>, sel: Selection, chunks: seq<seq<int>>)
    requires Valid(|entries|, sel)
    requires AdoptOrdinary(entries, indexes, local, claimed, checked, sel, chunks).0 != sel
    ensures var after := AdoptOrdinary(entries, indexes, local, claimed, checked, sel, chunks).0;
            var merged := Previous(sel.records, indexes);
            && Valid(|entries|, after) && NeverSplits(sel, after)
            && |Rendered(entries, after)| == |Rendered(entries, sel)| - (merged - 1) && merged >= 2
  {
    hide AdoptOrdinary, Replace, Valid, NeverSplits, Rendered, Previous, Whole;
    AdoptionChanged(entries, indexes, local, claimed, checked, sel, chunks);
    AdmittedAreAccepted(checked);
    NewOwnerIsValid(|entries|, sel, indexes, local[0], Admitted(checked)[0]);
    ReplaceEffect(entries, indexes, local[0], Admitted(checked)[0], sel);
  }

  lemma StepKeeps(entries: seq<Entry>, before: Selection, step: Step, after: Selection)
    requires Valid(|entries|, before) && Checked(|entries|, step)
    requires after == match step
             case Adopt(indexes, local, claimed, checked, chunks) =>
               AdoptOrdinary(entries, indexes, local, claimed, checked, before, chunks).0
             case Upgrade(group, proof, persisted) => ApplyUpgrade(entries, group, proof, persisted, before).0
    ensures Valid(|entries|, after) && NeverSplits(before, after)
    ensures |Rendered(entries, after)| <= |Rendered(entries, before)|
  {
    hide AdoptOrdinary, ApplyUpgrade, Valid, NeverSplits, Rendered;
    if after == before {
      SplitsNothing(before);
    } else {
      match step
      case Adopt(indexes, local, claimed, checked, chunks) =>
        AdoptionEffect(entries, indexes, local, claimed, checked, before, chunks);
      case Upgrade(group, proof, persisted) =>
        UpgradeEffect(entries, group, proof, persisted, before);
    }
  }

  lemma SplitsNothing(sel: Selection)
    ensures NeverSplits(sel, sel)
  {
  }

  lemma NeverSplitsTransitive(a: Selection, b: Selection, c: Selection)
    requires NeverSplits(a, b) && NeverSplits(b, c)
    ensures NeverSplits(a, c)
  {
    forall r | r in a.records && r.accepted
      ensures exists s :: s in c.records && s.accepted && Owned(r.indexes) <= Owned(s.indexes)
    {
      var s :| s in b.records && s.accepted && Owned(r.indexes) <= Owned(s.indexes);
      var t :| t in c.records && t.accepted && Owned(s.indexes) <= Owned(t.indexes);
    }
  }

  /** Any run of adoptions and upgrades keeps the invariant in every state, and between any two states splits no accepted owner
      and does not grow the database. */
  lemma {:induction false} RunKeeps(entries: seq<Entry>, states: seq<Selection>, steps: seq<Step>, i: nat, j: nat)
    requires |states| == |steps| + 1 && i <= j < |states| && Valid(|entries|, states[i])
    requires forall k :: 0 <= k < |steps| ==> Checked(|entries|, steps[k])
    requires forall k :: 0 <= k < |steps| ==>
               states[k + 1] == match steps[k]
               case Adopt(indexes, local, claimed, checked, chunks) =>
                 AdoptOrdinary(entries, indexes, local, claimed, checked, states[k], chunks).0
               case Upgrade(group, proof, persisted) => ApplyUpgrade(entries, group, proof, persisted, states[k]).0
    ensures Valid(|entries|, states[j]) && NeverSplits(states[i], states[j])
    ensures |Rendered(entries, states[j])| <= |Rendered(entries, states[i])|
    decreases j - i
  {
    hide AdoptOrdinary, ApplyUpgrade, Valid, NeverSplits, Rendered, Checked;
    if i == j {
      SplitsNothing(states[i]);
    } else {
      RunKeeps(entries, states, steps, i, j - 1);
      StepKeeps(entries, states[j - 1], steps[j - 1], states[j]);
      NeverSplitsTransitive(states[i], states[j - 1], states[j]);
    }
  }
}
