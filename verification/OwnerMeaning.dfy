/** Valid selections and their renderings, said of the owners and originals one by one. */
module OwnerMeaning {
  import opened Prelude
  import opened OwnerSelection
  import opened OwnerRender
  import opened OwnerOutcome

  // ---- valid selections -------------------------------------------------------------------------

  ghost predicate Owns(records: seq<Record>, k: nat, i: int) {
    k < |records| && records[k].accepted && i in records[k].indexes
  }

  /** At least two different originals of the database. */
  ghost predicate LawfulOwner(n: nat, r: Record) {
    && |r.indexes| >= 2 && (forall p, q :: 0 <= p < q < |r.indexes| ==> r.indexes[p] != r.indexes[q])
    && forall i :: i in r.indexes ==> 0 <= i && i < n
  }

  ghost predicate LawfulOwners(n: nat, records: seq<Record>) {
    && (forall k :: 0 <= k < |records| && records[k].accepted ==> LawfulOwner(n, records[k]))
    && forall k: nat, l: nat, i :: Owns(records, k, i) && Owns(records, l, i) ==> k == l
  }

  /** Original `i` is the least one of an accepted owner. */
  ghost predicate IsAnchor(records: seq<Record>, i: int) {
    exists k: nat :: Owns(records, k, i) && forall j :: j in records[k].indexes ==> i <= j
  }

  lemma {:induction false} DisjointMeans(n: nat, records: seq<Record>)
    ensures Disjoint(n, records) <==> LawfulOwners(n, records)
  {
    if records != [] {
      var before := Init(records);
      var m: nat := |records| - 1;
      DisjointMeans(n, before);
      assert forall k :: 0 <= k < m ==> before[k] == records[k];
      forall i ensures i in Claims(before) <==> exists k: nat :: k < m && Owns(records, k, i) {
        ClaimsAre(before, i);
        if k: nat :| k < m && Owns(records, k, i) { assert before[k].accepted && i in before[k].indexes; }
        if k :| 0 <= k < m && before[k].accepted && i in before[k].indexes { assert Owns(records, k, i); }
      }
      LawfulNext(n, records, m);
      LastApart(records, m);
    }
  }

  lemma LawfulNext(n: nat, records: seq<Record>, m: nat)
    requires |records| == m + 1
    ensures LawfulOwners(n, records) <==>
              && LawfulOwners(n, Init(records)) && (Last(records).accepted ==> LawfulOwner(n, Last(records)))
              && forall k: nat, i :: k < m && Owns(records, k, i) ==> !Owns(records, m, i)
  {
    var before := Init(records);
    forall k: nat, i ensures Owns(before, k, i) <==> k < m && Owns(records, k, i) {
      if k < m { assert before[k] == records[k]; }
    }
    if LawfulOwners(n, records) {
      forall k | 0 <= k < m && before[k].accepted ensures LawfulOwner(n, before[k]) { assert before[k] == records[k]; }
      forall k: nat, l: nat, i | Owns(before, k, i) && Owns(before, l, i) ensures k == l {
        assert Owns(records, k, i) && Owns(records, l, i);
      }
    }
    if LawfulOwners(n, before) {
      forall k | 0 <= k < m && records[k].accepted ensures LawfulOwner(n, records[k]) { assert before[k] == records[k]; }
      forall k: nat, l: nat, i | k < m && l < m && Owns(records, k, i) && Owns(records, l, i) ensures k == l {
        assert Owns(before, k, i) && Owns(before, l, i);
      }
    }
  }

  lemma LastApart(records: seq<Record>, m: nat)
    requires |records| == m + 1
    requires forall i :: i in Claims(Init(records)) <==> exists k: nat :: k < m && Owns(records, k, i)
    ensures Last(records).accepted ==>
              (Owned(Last(records).indexes) !! Claims(Init(records)) <==>
                 forall k: nat, i :: k < m && Owns(records, k, i) ==> !Owns(records, m, i))
    ensures !Last(records).accepted ==> forall i :: !Owns(records, m, i)
  {
    if Last(records).accepted && Owned(Last(records).indexes) !! Claims(Init(records)) {
      forall k: nat, i | k < m && Owns(records, k, i) ensures !Owns(records, m, i) {
        assert i in Claims(Init(records));
      }
    }
    if Last(records).accepted && forall k: nat, i :: k < m && Owns(records, k, i) ==> !Owns(records, m, i) {
      forall i | i in Claims(Init(records)) ensures i !in Owned(Last(records).indexes) {
        var k: nat :| k < m && Owns(records, k, i);
      }
    }
  }

  lemma {:induction false} AnchorsMean(records: seq<Record>, i: int)
    ensures i in Anchors(records) <==> IsAnchor(records, i)
  {
    if records != [] {
      var before, m := Init(records), |records| - 1;
      AnchorsMean(before, i);
      assert forall k :: 0 <= k < m ==> before[k] == records[k];
      if IsAnchor(records, i) {
        var k: nat :| Owns(records, k, i) && forall j :: j in records[k].indexes ==> i <= j;
        if k < m { assert Owns(before, k, i); } else { assert Min(Last(records).indexes) == i; }
      }
      if IsAnchor(before, i) {
        var k: nat :| Owns(before, k, i) && forall j :: j in before[k].indexes ==> i <= j;
        assert Owns(records, k, i);
      }
      if i in AnchorOf(Last(records)) { assert Owns(records, m, i); }
    }
  }

  /** A selection is valid exactly when its owners are lawful and share no original, and its replacements stand at the least
      original of each owner and nowhere else. */
  lemma ValidMeans(n: nat, sel: Selection)
    ensures Valid(n, sel) <==>
              LawfulOwners(n, sel.records) && forall i :: i in sel.replacements <==> IsAnchor(sel.records, i)
  {
    DisjointMeans(n, sel.records);
    forall i ensures i in Anchors(sel.records) <==> IsAnchor(sel.records, i) { AnchorsMean(sel.records, i); }
    if forall i :: i in sel.replacements <==> IsAnchor(sel.records, i) {
      forall i ensures i in Anchors(sel.records) <==> i in sel.replacements.Keys {
        assert i in sel.replacements <==> IsAnchor(sel.records, i);
      }
      assert Anchors(sel.records) == sel.replacements.Keys;
    }
  }

  // ---- rendering --------------------------------------------------------------------------------

  /** An original shows unless an owner has it that also has a smaller one. */
  ghost predicate Shows(records: seq<Record>, i: int) {
    forall k: nat :: Owns(records, k, i) ==> forall j :: j in records[k].indexes ==> i <= j
  }

  /** How many of the originals before `n` show. */
  ghost function ShownBelow(records: seq<Record>, n: nat): nat {
    |set i | 0 <= i < n && Shows(records, i)|
  }

  lemma ConsumedMeans(n: nat, records: seq<Record>, i: int)
    requires LawfulOwners(n, records)
    ensures i in Consumed(records) <==> !Shows(records, i)
  {
    ClaimsAre(records, i);
    AnchorsMean(records, i);
    if i in Consumed(records) {
      var k :| 0 <= k < |records| && records[k].accepted && i in records[k].indexes;
      assert Owns(records, k, i);
      assert !(forall j :: j in records[k].indexes ==> i <= j);
    }
    if !Shows(records, i) {
      var k: nat :| Owns(records, k, i) && !(forall j :: j in records[k].indexes ==> i <= j);
      assert i in Claims(records);
    }
  }

  lemma ShownOrGone(records: seq<Record>, consumed: set<int>, n: nat)
    requires forall i :: i in consumed <==> !Shows(records, i)
    ensures n - |set i | i in consumed && 0 <= i < n| == ShownBelow(records, n)
  {
    hide Shows;
    var gone, shown := set i | i in consumed && 0 <= i < n, set i | 0 <= i < n && Shows(records, i);
    var all := Owned(Upto(n));
    OwnedSize(Upto(n));
    forall i ensures i in all <==> 0 <= i < n {
      if 0 <= i < n { assert Upto(n)[i] == i; }
    }
    assert all == gone + shown && gone !! shown;
  }

  lemma RenderedBelow(entries: seq<Entry>, sel: Selection, n: nat)
    requires Valid(|entries|, sel) && n <= |entries|
    ensures |RenderUpTo(entries, sel.replacements, Consumed(sel.records), n)| == ShownBelow(sel.records, n)
  {
    hide RenderUpTo, Consumed, Shows, ShownBelow, Valid;
    RenderLength(entries, sel.replacements, Consumed(sel.records), n);
    ValidMeans(|entries|, sel);
    forall i ensures i in Consumed(sel.records) <==> !Shows(sel.records, i) { ConsumedMeans(|entries|, sel.records, i); }
    ShownOrGone(sel.records, Consumed(sel.records), n);
  }

  /** The rendered database is the originals that show, in order, each replaced where a replacement stands. */
  lemma RenderedMeans(entries: seq<Entry>, sel: Selection, i: nat)
    requires Valid(|entries|, sel) && i < |entries|
    ensures |Rendered(entries, sel)| == ShownBelow(sel.records, |entries|)
    ensures Shows(sel.records, i) ==>
              ShownBelow(sel.records, i) < |Rendered(entries, sel)|
              && Rendered(entries, sel)[ShownBelow(sel.records, i)]
                 == if i in sel.replacements then sel.replacements[i] else entries[i]
  {
    hide Valid, ShownBelow, RenderUpTo;
    RenderedBelow(entries, sel, |entries|);
    RenderedBelow(entries, sel, i);
    ValidMeans(|entries|, sel);
    ConsumedMeans(|entries|, sel.records, i);
    if Shows(sel.records, i) { RenderAt(entries, sel.replacements, Consumed(sel.records), |entries|, i); }
  }

  // ---- reading back -----------------------------------------------------------------------------

  lemma {:induction false} OwnerAtIs(n: nat, records: seq<Record>, k: nat)
    requires Disjoint(n, records) && k < |records| && records[k].accepted
    ensures records[k].indexes != [] && OwnerAt(records, Min(records[k].indexes)) == records[k].indexes
  {
    OwnerInRange(n, records, k);
    var m: nat := |records| - 1;
    if k < m {
      var a := Min(records[k].indexes);
      assert Init(records)[k] == records[k];
      OwnerAtIs(n, Init(records), k);
      ClaimsAre(Init(records), a);
      if records[m].accepted {
        assert a !in Owned(records[m].indexes);
        assert records[m].indexes != [] ==> Min(records[m].indexes) in records[m].indexes;
      }
    }
  }

  /** The candidate of an owner carries its receipt, which, in Tier 1, proves it for exactly those originals. */
  ghost predicate Backed(entries: seq<Entry>, proven: (seq<Entry>, Entry) -> bool, tier1: bool, r: Record,
                         replacements: map<int, Entry>) {
    forall a :: a in r.indexes && (forall j :: j in r.indexes ==> a <= j) && a in replacements ==>
      && replacements[a].receipt.Some? && replacements[a].receipt.value != ""
      && (tier1 ==> proven(At(entries, r.indexes), replacements[a]))
  }

  /** An output reads back exactly when it renders a valid selection whose owners merge only unities (in Tier 1 also exact
      sources) and whose candidates are backed. */
  lemma ReadsBackMeans(entries: seq<Entry>, output: seq<Entry>, records: seq<Record>, tier1: bool,
                       proven: (seq<Entry>, Entry) -> bool, replacements: map<int, Entry>)
    ensures ReadsBack(entries, output, records, tier1, proven, replacements) <==>
              && Valid(|entries|, Selection(replacements, records)) && output == Rendered(entries, Selection(replacements, records))
              && (forall k: nat, i :: Owns(records, k, i) && 0 <= i < |entries| ==>
                    entries[i].isUbt || (tier1 && entries[i].isExact))
              && forall k :: 0 <= k < |records| && records[k].accepted ==>
                   Backed(entries, proven, tier1, records[k], replacements)
  {
    hide Rendered, At;
    if Valid(|entries|, Selection(replacements, records)) {
      MergeMeans(entries, records, tier1);
      BackedMeans(entries, records, tier1, proven, replacements);
    }
  }

  lemma MergeMeans(entries: seq<Entry>, records: seq<Record>, tier1: bool)
    requires Disjoint(|entries|, records)
    ensures AllMayMerge(entries, records, Some(tier1)) <==>
              forall k: nat, i :: Owns(records, k, i) && 0 <= i < |entries| ==> entries[i].isUbt || (tier1 && entries[i].isExact)
  {
    hide Disjoint;
    forall k | 0 <= k < |records| && records[k].accepted
      ensures forall i :: i in records[k].indexes ==> 0 <= i < |entries|
    {
      OwnerInRange(|entries|, records, k);
    }
    if forall k: nat, i :: Owns(records, k, i) && 0 <= i < |entries| ==> entries[i].isUbt || (tier1 && entries[i].isExact) {
      forall k | 0 <= k < |records| && records[k].accepted ensures MayMerge(entries, records[k].indexes, tier1) {
        forall i | i in records[k].indexes ensures EntryAt(entries, i).isUbt || (tier1 && EntryAt(entries, i).isExact) {
          assert Owns(records, k, i);
        }
      }
    }
  }

  lemma BackedMeans(entries: seq<Entry>, records: seq<Record>, tier1: bool, proven: (seq<Entry>, Entry) -> bool,
                    replacements: map<int, Entry>)
    requires Valid(|entries|, Selection(replacements, records))
    ensures (forall a :: a in replacements ==> Proven(entries, proven, tier1, OwnerAt(records, a), replacements[a])) <==>
              forall k :: 0 <= k < |records| && records[k].accepted ==>
                Backed(entries, proven, tier1, records[k], replacements)
  {
    hide Valid, OwnerAt, Proven, Backed, Min;
    forall k | 0 <= k < |records| && records[k].accepted
      ensures records[k].indexes != [] && Min(records[k].indexes) in replacements
      ensures OwnerAt(records, Min(records[k].indexes)) == records[k].indexes
      ensures Backed(entries, proven, tier1, records[k], replacements)
              <==> Proven(entries, proven, tier1, records[k].indexes, replacements[Min(records[k].indexes)])
    {
      OwnerHasAnchor(|entries|, records, replacements, k);
      BackedOne(entries, proven, tier1, records[k], replacements);
    }
    forall a | a in replacements
      ensures exists k :: 0 <= k < |records| && records[k].accepted && records[k].indexes != [] && Min(records[k].indexes) == a
    {
      var _ := AnchorHasOwner(|entries|, records, replacements, a);
    }
  }

  lemma BackedOne(entries: seq<Entry>, proven: (seq<Entry>, Entry) -> bool, tier1: bool, r: Record,
                  replacements: map<int, Entry>)
    requires r.indexes != [] && Min(r.indexes) in replacements
    ensures Backed(entries, proven, tier1, r, replacements)
            <==> Proven(entries, proven, tier1, r.indexes, replacements[Min(r.indexes)])
  {
    hide At;
    assert forall a :: a in r.indexes && (forall j :: j in r.indexes ==> a <= j) ==> a == Min(r.indexes);
  }

  lemma OwnerHasAnchor(n: nat, records: seq<Record>, replacements: map<int, Entry>, k: nat)
    requires Valid(n, Selection(replacements, records)) && k < |records| && records[k].accepted
    ensures records[k].indexes != [] && Min(records[k].indexes) in replacements
    ensures OwnerAt(records, Min(records[k].indexes)) == records[k].indexes
  {
    hide Disjoint, Anchors, OwnerAt;
    OwnerAtIs(n, records, k);
    ValidMeans(n, Selection(replacements, records));
    assert Owns(records, k, Min(records[k].indexes));
  }

  lemma AnchorHasOwner(n: nat, records: seq<Record>, replacements: map<int, Entry>, a: int) returns (k: nat)
    requires Valid(n, Selection(replacements, records)) && a in replacements
    ensures k < |records| && records[k].accepted && records[k].indexes != [] && Min(records[k].indexes) == a
  {
    hide Disjoint, Anchors;
    ValidMeans(n, Selection(replacements, records));
    k :| Owns(records, k, a) && forall j :: j in records[k].indexes ==> a <= j;
  }
}
