/** Owners: groups of original commands that one candidate replaces in the rendered database. */
module OwnerSelection {
  import opened Prelude

  /** What the selection reads of a compile command. `tupleKey` is `None` for commands no candidate may merge. */
  datatype Entry = Entry(directory: string, file: string, arguments: seq<string>, output: Option<string>,
                         isUbt: bool, isExact: bool, tupleKey: Option<(string, string)>,
                         tier: nat, recipe: Option<string>, receipt: Option<string>)

  /** One proof record: the originals of a group and what the gate said about them. */
  datatype Record = Record(accepted: bool, indexes: seq<int>, tier: nat, recipe: Option<string>,
                           cached: bool, deferred: bool)

  datatype Selection = Selection(replacements: map<int, Entry>, records: seq<Record>)

  function Owned(indexes: seq<int>): set<int> {
    set i | i in indexes
  }

  /** `min(indexes)`. */
  function Min(indexes: seq<int>): (m: int)
    requires indexes != []
    ensures m in indexes && forall i :: i in indexes ==> m <= i
  {
    if |indexes| == 1 then indexes[0] else
      var m := Min(Init(indexes));
      assert forall i :: i in indexes <==> i in Init(indexes) || i == Last(indexes);
      if Last(indexes) < m then Last(indexes) else m
  }

  predicate ValidOwner(n: nat, indexes: seq<int>) {
    |indexes| >= 2 && Distinct(indexes) && forall i :: i in indexes ==> 0 <= i < n
  }

  function Claims(records: seq<Record>): set<int> {
    if records == [] then {}
    else Claims(Init(records)) + if Last(records).accepted then Owned(Last(records).indexes) else {}
  }

  /** Every accepted record owns at least two originals, and no original has two owners. */
  predicate Disjoint(n: nat, records: seq<Record>) {
    records != [] ==>
      && Disjoint(n, Init(records))
      && (Last(records).accepted ==> ValidOwner(n, Last(records).indexes)
                                     && Owned(Last(records).indexes) !! Claims(Init(records)))
  }

  function AnchorOf(r: Record): set<int> {
    if r.accepted && r.indexes != [] then {Min(r.indexes)} else {}
  }

  function Anchors(records: seq<Record>): set<int> {
    if records == [] then {} else Anchors(Init(records)) + AnchorOf(Last(records))
  }

  /** The owned originals that the candidate at the anchor stands for. */
  function Consumed(records: seq<Record>): set<int> {
    Claims(records) - Anchors(records)
  }

  /** The invariant of the state machine: disjoint accepted groups whose anchors are the replacement keys. */
  predicate Valid(n: nat, sel: Selection) {
    Disjoint(n, sel.records) && Anchors(sel.records) == sel.replacements.Keys
  }

  // ---- rendering ----------------------------------------------------------------------------

  function RenderUpTo(entries: seq<Entry>, replacements: map<int, Entry>, consumed: set<int>, n: nat): seq<Entry>
    requires n <= |entries|
  {
    if n == 0 then [] else
      RenderUpTo(entries, replacements, consumed, n - 1)
      + if n - 1 in consumed then []
        else [if n - 1 in replacements then replacements[n - 1] else entries[n - 1]]
  }

  function Rendered(entries: seq<Entry>, sel: Selection): seq<Entry>
    requires Valid(|entries|, sel)
  {
    RenderUpTo(entries, sel.replacements, Consumed(sel.records), |entries|)
  }

  /** Translation units saved: one candidate for each owner instead of its originals. */
  function Saved(records: seq<Record>): int {
    if records == [] then 0
    else Saved(Init(records)) + if Last(records).accepted then |Last(records).indexes| - 1 else 0
  }

  lemma {:induction false} OwnedSize(indexes: seq<int>)
    requires Distinct(indexes)
    ensures |Owned(indexes)| == |indexes|
  {
    if indexes != [] {
      OwnedSize(Init(indexes));
      assert Owned(indexes) == Owned(Init(indexes)) + {Last(indexes)};
    }
  }

  lemma {:induction false} AnchorsClaimed(records: seq<Record>)
    ensures Anchors(records) <= Claims(records)
  {
    if records != [] {
      AnchorsClaimed(Init(records));
    }
  }

  lemma {:induction false} ClaimsInRange(n: nat, records: seq<Record>)
    requires Disjoint(n, records)
    ensures forall i :: i in Claims(records) ==> 0 <= i < n
  {
    if records != [] { ClaimsInRange(n, Init(records)); }
  }

  lemma OwnedSizeOf(n: nat, indexes: seq<int>)
    requires ValidOwner(n, indexes)
    ensures indexes != [] && |Owned(indexes) - {Min(indexes)}| == |indexes| - 1
  {
    OwnedSize(indexes);
  }

  lemma ConsumedStep(n: nat, records: seq<Record>)
    requires records != [] && Disjoint(n, records) && Last(records).accepted
    ensures var indexes := Last(records).indexes;
            && indexes != []
            && Consumed(records) == Consumed(Init(records)) + (Owned(indexes) - {Min(indexes)})
            && Consumed(Init(records)) !! (Owned(indexes) - {Min(indexes)})
            && |Owned(indexes) - {Min(indexes)}| == |indexes| - 1
  {
    hide ValidOwner;
    AnchorsClaimed(Init(records));
    OwnedSizeOf(n, Last(records).indexes);
  }

  lemma {:induction false} ConsumedSize(n: nat, records: seq<Record>)
    requires Disjoint(n, records)
    ensures |Consumed(records)| == Saved(records)
  {
    if records != [] {
      ConsumedSize(n, Init(records));
      if Last(records).accepted {
        ConsumedStep(n, records);
      } else {
        assert Consumed(records) == Consumed(Init(records));
      }
    }
  }

  lemma {:induction false} RenderLength(entries: seq<Entry>, replacements: map<int, Entry>, consumed: set<int>, n: nat)
    requires n <= |entries|
    ensures |RenderUpTo(entries, replacements, consumed, n)| == n - |set i | i in consumed && 0 <= i < n|
  {
    var below := set i | i in consumed && 0 <= i < n;
    if n == 0 {
      assert below == {};
    } else {
      RenderLength(entries, replacements, consumed, n - 1);
      var before := set i | i in consumed && 0 <= i < n - 1;
      assert below == before + if n - 1 in consumed then {n - 1} else {};
    }
  }

  /** The rendered database is shorter than the original by exactly what the owners save. */
  lemma RenderedLength(entries: seq<Entry>, sel: Selection)
    requires Valid(|entries|, sel)
    ensures |Rendered(entries, sel)| == |entries| - Saved(sel.records)
  {
    var consumed := Consumed(sel.records);
    RenderLength(entries, sel.replacements, consumed, |entries|);
    ClaimsInRange(|entries|, sel.records);
    assert consumed == set i | i in consumed && 0 <= i < |entries|;
    ConsumedSize(|entries|, sel.records);
  }

  lemma {:induction false} ClaimsSize(n: nat, records: seq<Record>)
    requires Disjoint(n, records)
    ensures |Claims(records)| - |Anchors(records)| == Saved(records)
  {
    AnchorsClaimed(records);
    ConsumedSize(n, records);
    assert Claims(records) == Consumed(records) + Anchors(records);
  }

  /** `_merge_metrics`: `output_entries` is the length of the rendered database. */
  lemma OutputEntries(entries: seq<Entry>, sel: Selection)
    requires Valid(|entries|, sel)
    ensures |Rendered(entries, sel)| == |entries| - |Claims(sel.records)| + |sel.replacements|
  {
    RenderedLength(entries, sel);
    ClaimsSize(|entries|, sel.records);
    assert |sel.replacements| == |sel.replacements.Keys|;
  }

  // ---- replacing whole owners ---------------------------------------------------------------

  predicate Touches(r: Record, selected: set<int>) {
    r.accepted && r.indexes != [] && selected * Owned(r.indexes) != {}
  }

  /** The records that do (`touching`) or do not touch the selected originals. */
  function Keep(records: seq<Record>, selected: set<int>, touching: bool): seq<Record> {
    if records == [] then []
    else Keep(Init(records), selected, touching)
         + if Touches(Last(records), selected) == touching then [Last(records)] else []
  }

  /** No touched owner reaches outside the selected originals. */
  predicate Whole(records: seq<Record>, selected: set<int>) {
    forall k :: 0 <= k < |records| && Touches(records[k], selected) ==> Owned(records[k].indexes) <= selected
  }

  lemma {:induction false} KeepClaims(records: seq<Record>, selected: set<int>)
    ensures Claims(Keep(records, selected, false)) !! selected
    ensures Claims(Keep(records, selected, false)) + Claims(Keep(records, selected, true)) == Claims(records)
    ensures Saved(Keep(records, selected, false)) + Saved(Keep(records, selected, true)) == Saved(records)
  {
    if records != [] {
      KeepClaims(Init(records), selected);
      var r := Last(records);
      KeepOne(Keep(Init(records), selected, false), r);
      KeepOne(Keep(Init(records), selected, true), r);
      assert Touches(r, selected) ==> Keep(records, selected, false) == Keep(Init(records), selected, false);
      assert !Touches(r, selected) ==> Keep(records, selected, true) == Keep(Init(records), selected, true);
      if !Touches(r, selected) && r.accepted { UntouchedIsApart(r, selected); }
    }
  }

  lemma KeepOne(kept: seq<Record>, r: Record)
    ensures Claims(kept + [r]) == Claims(kept) + if r.accepted then Owned(r.indexes) else {}
    ensures Saved(kept + [r]) == Saved(kept) + if r.accepted then |r.indexes| - 1 else 0
  {
    assert Init(kept + [r]) == kept;
  }

  lemma UntouchedIsApart(r: Record, selected: set<int>)
    requires !Touches(r, selected) && r.accepted
    ensures Owned(r.indexes) !! selected
  {
    forall i | i in Owned(r.indexes) ensures i !in selected {
      assert i in selected ==> i in selected * Owned(r.indexes);
    }
  }

  lemma {:induction false} RemovedWithin(records: seq<Record>, selected: set<int>)
    requires Whole(records, selected)
    ensures Claims(Keep(records, selected, true)) <= selected
  {
    if records != [] {
      assert forall k :: 0 <= k < |records| - 1 ==> Init(records)[k] == records[k];
      RemovedWithin(Init(records), selected);
      KeepOne(Keep(Init(records), selected, true), Last(records));
      assert Touches(records[|records| - 1], selected) ==> Owned(Last(records).indexes) <= selected;
      assert !Touches(Last(records), selected) ==>
        Keep(records, selected, true) == Keep(Init(records), selected, true);
    }
  }

  lemma {:induction false} KeepDisjoint(n: nat, records: seq<Record>, selected: set<int>, touching: bool)
    requires Disjoint(n, records)
    ensures Disjoint(n, Keep(records, selected, touching))
  {
    if records != [] {
      var kept, r := Keep(Init(records), selected, touching), Last(records);
      KeepDisjoint(n, Init(records), selected, touching);
      KeepClaims(Init(records), selected);
      if Touches(r, selected) == touching {
        assert Keep(records, selected, touching) == kept + [r] && Init(kept + [r]) == kept;
      } else {
        assert Keep(records, selected, touching) == kept;
      }
    }
  }

  lemma {:induction false} KeepAnchors(records: seq<Record>, selected: set<int>)
    ensures Anchors(Keep(records, selected, false)) + Anchors(Keep(records, selected, true)) == Anchors(records)
  {
    hide AnchorOf;
    if records != [] {
      var r := Last(records);
      KeepAnchors(Init(records), selected);
      AnchorsOne(Keep(Init(records), selected, false), r);
      AnchorsOne(Keep(Init(records), selected, true), r);
      assert Touches(r, selected) ==> Keep(records, selected, false) == Keep(Init(records), selected, false);
      assert !Touches(r, selected) ==> Keep(records, selected, true) == Keep(Init(records), selected, true);
    }
  }

  lemma AnchorsOne(kept: seq<Record>, r: Record)
    ensures Anchors(kept + [r]) == Anchors(kept) + AnchorOf(r)
  {
    assert Init(kept + [r]) == kept;
  }

  // ---- `_upgrade_owners` --------------------------------------------------------------------

  /** The identity of a proof is the content it hashes: the originals and the recipe. */
  datatype Identity = Identity(originals: seq<Entry>, recipe: Option<string>)

  function EntryAt(entries: seq<Entry>, i: int): Entry {
    if 0 <= i < |entries| then entries[i] else Entry("", "", [], None, false, false, None, 0, None, None)
  }

  function At(entries: seq<Entry>, indexes: seq<int>): (r: seq<Entry>)
    ensures |r| == |indexes|
  {
    seq(|indexes|, k requires 0 <= k < |indexes| => EntryAt(entries, indexes[k]))
  }

  function IdentityOf(entries: seq<Entry>, r: Record): Identity {
    Identity(At(entries, r.indexes), r.recipe)
  }

  function Identities(entries: seq<Entry>, records: seq<Record>): seq<Identity> {
    if records == [] then [] else Identities(entries, Init(records)) + [IdentityOf(entries, Last(records))]
  }

  /** The owners that lie within `indexes`, and how many translation units those originals are now. */
  function UpgradeOwners(entries: seq<Entry>, indexes: seq<int>, records: seq<Record>): Result<(seq<Identity>, int)> {
    var selected := Owned(indexes);
    var touched := Keep(records, selected, true);
    if !Whole(records, selected) then Err("background-proof-upgrade-partial-owner")
    else Ok((Identities(entries, touched), |touched| + |selected - Claims(touched)|))
  }

  /** The owners that touch `indexes` give way to one owner of all of them. */
  function Replaced(sel: Selection, indexes: seq<int>, candidate: Entry, proof: Record, removedAnchors: set<int>): Selection
    requires indexes != []
  {
    Selection((sel.replacements - removedAnchors)[Min(indexes) := candidate],
              Keep(sel.records, Owned(indexes), false) + [proof.(indexes := indexes)])
  }

  /** The anchors that are popped; `None` when an owner has no replacement to pop. */
  function PopAnchors(replacements: map<int, Entry>, removed: seq<Record>): Option<set<int>>
  {
    if removed == [] then Some({}) else
      match PopAnchors(replacements, Init(removed))
      case None => None
      case Some(before) =>
        var last := Last(removed).indexes;
        if last == [] || Min(last) in before || Min(last) !in replacements then None
        else Some(before + {Min(last)})
  }

  lemma {:induction false} PopsAnchors(n: nat, replacements: map<int, Entry>, removed: seq<Record>)
    requires Disjoint(n, removed) && Anchors(removed) <= replacements.Keys
    requires forall k :: 0 <= k < |removed| ==> removed[k].accepted
    ensures PopAnchors(replacements, removed) == Some(Anchors(removed))
  {
    if removed != [] {
      assert removed[|removed| - 1].accepted;
      PopsAnchors(n, replacements, Init(removed));
      AnchorsClaimed(Init(removed));
    }
  }

  lemma {:induction false} RemovedAreAccepted(records: seq<Record>, selected: set<int>)
    ensures forall k :: 0 <= k < |Keep(records, selected, true)| ==>
              Touches(Keep(records, selected, true)[k], selected)
  {
    if records != [] { RemovedAreAccepted(Init(records), selected); }
  }

  lemma OwnersPop(n: nat, sel: Selection, selected: set<int>)
    requires Valid(n, sel)
    ensures var removed := Keep(sel.records, selected, true);
            PopAnchors(sel.replacements, removed) == Some(Anchors(removed)) && |Anchors(removed)| == |removed|
  {
    var removed := Keep(sel.records, selected, true);
    KeepDisjoint(n, sel.records, selected, true);
    KeepAnchors(sel.records, selected);
    RemovedAreAccepted(sel.records, selected);
    PopsAnchors(n, sel.replacements, removed);
    AnchorsSize(n, removed);
  }

  /** What is kept when whole owners go: a valid selection apart from the selected originals. */
  lemma KeptIsValid(n: nat, sel: Selection, selected: set<int>)
    requires Valid(n, sel) && Whole(sel.records, selected)
    ensures var kept, removed := Keep(sel.records, selected, false), Keep(sel.records, selected, true);
            && Disjoint(n, kept) && Claims(kept) !! selected && Claims(removed) <= selected
            && Anchors(kept) == sel.replacements.Keys - Anchors(removed)
            && |Claims(removed)| - |Anchors(removed)| == Saved(removed)
  {
    hide Whole, Keep;
    var kept, removed := Keep(sel.records, selected, false), Keep(sel.records, selected, true);
    KeepDisjoint(n, sel.records, selected, false);
    KeepDisjoint(n, sel.records, selected, true);
    KeepAnchors(sel.records, selected);
    KeepClaims(sel.records, selected);
    RemovedWithin(sel.records, selected);
    AnchorsClaimed(kept);
    AnchorsClaimed(removed);
    ClaimsSize(n, removed);
  }

  /** Replacing whole owners keeps the invariant and saves one unit less than the owners and newcomers merged. */
  lemma ReplacedIsValid(n: nat, sel: Selection, indexes: seq<int>, candidate: Entry, proof: Record)
    requires Valid(n, sel) && ValidOwner(n, indexes) && proof.accepted && Whole(sel.records, Owned(indexes))
    ensures PopAnchors(sel.replacements, Keep(sel.records, Owned(indexes), true)).Some?
    ensures var removed := Keep(sel.records, Owned(indexes), true);
            var after := Replaced(sel, indexes, candidate, proof, PopAnchors(sel.replacements, removed).value);
            && Valid(n, after)
            && Saved(after.records) == Saved(sel.records) + |removed| + |Owned(indexes) - Claims(removed)| - 1
  {
    hide Whole, Keep, PopAnchors, Anchors, Claims, Disjoint, Saved;
    var selected := Owned(indexes);
    var kept, removed := Keep(sel.records, selected, false), Keep(sel.records, selected, true);
    OwnersPop(n, sel, selected);
    KeptIsValid(n, sel, selected);
    KeepClaims(sel.records, selected);
    OwnedSize(indexes);
    AddOwner(n, kept, proof.(indexes := indexes));
    SavedArithmetic(selected, Claims(removed));
  }

  lemma SavedArithmetic(selected: set<int>, covered: set<int>)
    requires covered <= selected
    ensures |selected - covered| == |selected| - |covered|
  {
  }

  lemma AddOwner(n: nat, kept: seq<Record>, r: Record)
    requires Disjoint(n, kept) && r.accepted && ValidOwner(n, r.indexes) && Claims(kept) !! Owned(r.indexes)
    ensures Disjoint(n, kept + [r])
    ensures Anchors(kept + [r]) == Anchors(kept) + {Min(r.indexes)}
    ensures Saved(kept + [r]) == Saved(kept) + |r.indexes| - 1
  {
    assert Init(kept + [r]) == kept;
  }

  lemma {:induction false} AnchorsSize(n: nat, removed: seq<Record>)
    requires Disjoint(n, removed) && forall k :: 0 <= k < |removed| ==> removed[k].accepted
    ensures |Anchors(removed)| == |removed|
  {
    if removed != [] {
      assert removed[|removed| - 1].accepted;
      AnchorsSize(n, Init(removed));
      AnchorsClaimed(Init(removed));
    }
  }
}
