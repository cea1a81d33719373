/** Which rendered selections pass the coverage gate. */
module CoverageOfSelection {
  import opened Prelude
  import opened OwnerSelection
  import opened OwnerRender
  import opened CoverageGate

  /** A proof receipt names its originals by directory, file and arguments only. */
  function Stripped(e: Entry): Entry {
    e.(output := None)
  }

  function StripAll(entries: seq<Entry>): (r: seq<Entry>)
    ensures |r| == |entries|
  {
    seq(|entries|, k requires 0 <= k < |entries| => Stripped(entries[k]))
  }

  /** Candidates are new, distinct and without output, and exactly one receipt names each one's group. */
  ghost predicate Receipted(entries: seq<Entry>, sel: Selection, receipts: seq<Receipt>) {
    && Consistent(entries, receipts)
    && CandidateKeys(receipts) == (set a | a in sel.replacements :: KeyOf(sel.replacements[a]))
    && (forall a, b :: a in sel.replacements && b in sel.replacements && a != b ==>
          KeyOf(sel.replacements[a]) != KeyOf(sel.replacements[b]))
    && forall a :: a in sel.replacements ==>
         Find(receipts, KeyOf(sel.replacements[a])).Some?
         && Find(receipts, KeyOf(sel.replacements[a])).value.originals
            == StripAll(At(entries, OwnerAt(sel.records, a)))
  }

  /** The originals that the entry rendered for index `i` stands for. */
  function Block(records: seq<Record>, i: int): seq<int> {
    if i in Consumed(records) then []
    else if i in Anchors(records) then OwnerAt(records, i)
    else [i]
  }

  function Blocks(records: seq<Record>, n: nat): seq<int> {
    if n == 0 then [] else Blocks(records, n - 1) + Block(records, n - 1)
  }

  /** How original `i` shows in the expansion: owned originals are named by their receipt. */
  function Shown(entries: seq<Entry>, records: seq<Record>, i: int): Entry {
    if i in Claims(records) then Stripped(EntryAt(entries, i)) else EntryAt(entries, i)
  }

  function ShowAll(entries: seq<Entry>, records: seq<Record>, indexes: seq<int>): (r: seq<Entry>)
    ensures |r| == |indexes|
  {
    seq(|indexes|, k requires 0 <= k < |indexes| => Shown(entries, records, indexes[k]))
  }

  // ---- blocks partition the originals -------------------------------------------------------

  lemma {:induction false} OwnerIs(n: nat, records: seq<Record>, a: int)
    requires Disjoint(n, records) && a in Anchors(records)
    ensures var owner := OwnerAt(records, a);
            ValidOwner(n, owner) && Min(owner) == a && Owned(owner) <= Claims(records)
  {
    if a !in AnchorOf(Last(records)) { OwnerIs(n, Init(records), a); }
  }

  lemma {:induction false} ClaimHasOwner(n: nat, records: seq<Record>, i: int) returns (a: int)
    requires Disjoint(n, records) && i in Claims(records)
    ensures a in Anchors(records) && i in OwnerAt(records, a)
  {
    var r := Last(records);
    if r.accepted && i in Owned(r.indexes) {
      a := Min(r.indexes);
    } else {
      a := ClaimHasOwner(n, Init(records), i);
      AnchorsClaimed(Init(records));
      if r.accepted { assert a !in Owned(r.indexes); }
    }
  }

  lemma EarlierOwner(n: nat, records: seq<Record>, b: int, i: int)
    requires Disjoint(n, records) && b in Anchors(records) && b !in AnchorOf(Last(records)) && i in OwnerAt(records, b)
    ensures i in Claims(Init(records))
  {
    OwnerIs(n, Init(records), b);
    assert i in Owned(OwnerAt(Init(records), b));
  }

  lemma {:induction false} OwnersApart(n: nat, records: seq<Record>, a: int, b: int, i: int)
    requires Disjoint(n, records) && a in Anchors(records) && b in Anchors(records)
    requires i in OwnerAt(records, a) && i in OwnerAt(records, b)
    ensures a == b
  {
    var r := Last(records);
    AnchorsClaimed(Init(records));
    if a in AnchorOf(r) {
      if b !in AnchorOf(r) { EarlierOwner(n, records, b, i); }
    } else {
      EarlierOwner(n, records, a, i);
      if b !in AnchorOf(r) { OwnersApart(n, Init(records), a, b, i); }
    }
  }

  lemma BlocksApart(n: nat, records: seq<Record>, a: int, b: int, i: int)
    requires Disjoint(n, records) && i in Block(records, a) && i in Block(records, b)
    ensures a == b
  {
    hide Disjoint, Claims, Anchors, OwnerAt;
    if a in Anchors(records) { OwnerIs(n, records, a); }
    if b in Anchors(records) { OwnerIs(n, records, b); }
    if a in Anchors(records) && b in Anchors(records) { OwnersApart(n, records, a, b, i); }
  }

  lemma BlockDistinct(n: nat, records: seq<Record>, a: int)
    requires Disjoint(n, records)
    ensures Distinct(Block(records, a))
  {
    hide Disjoint, Claims, Anchors, OwnerAt;
    if a in Anchors(records) { OwnerIs(n, records, a); }
  }

  lemma {:induction false} BlocksHave(records: seq<Record>, m: nat, i: int)
    ensures i in Blocks(records, m) <==> exists a: int :: 0 <= a < m && i in Block(records, a)
  {
    hide Block;
    if m > 0 { BlocksHave(records, m - 1, i); }
  }

  lemma {:induction false} BlocksDistinct(n: nat, records: seq<Record>, m: nat)
    requires Disjoint(n, records)
    ensures Distinct(Blocks(records, m))
  {
    hide Disjoint, Block;
    if m > 0 {
      BlocksDistinct(n, records, m - 1);
      BlockDistinct(n, records, m - 1);
      var before, mine := Blocks(records, m - 1), Block(records, m - 1);
      forall i | i in before ensures i !in mine {
        BlocksHave(records, m - 1, i);
        var a: int :| 0 <= a < m - 1 && i in Block(records, a);
        if i in mine { BlocksApart(n, records, a, m - 1, i); }
      }
      DistinctConcat(before, mine);
    }
  }

  /** Every original is in exactly one block. */
  lemma BlocksCover(n: nat, records: seq<Record>, i: int)
    requires Disjoint(n, records)
    ensures i in Blocks(records, n) <==> 0 <= i < n
  {
    hide Disjoint, Claims, Anchors, OwnerAt;
    BlocksHave(records, n, i);
    ClaimsInRange(n, records);
    AnchorsClaimed(records);
    if 0 <= i < n {
      if i in Claims(records) {
        var a := ClaimHasOwner(n, records, i);
        assert i in Block(records, a);
      } else {
        assert i in Block(records, i);
      }
    }
    if a: int :| 0 <= a < n && i in Block(records, a) {
      if a in Anchors(records) { OwnerIs(n, records, a); }
    }
  }

  // ---- the expansion of a rendered selection ------------------------------------------------

  lemma {:induction false} ExpandAppend(a: seq<Entry>, e: Entry, receipts: seq<Receipt>)
    ensures Expand(a + [e], receipts) == Expand(a, receipts) + Members(receipts, e)
    ensures Used(a + [e], receipts) == Used(a, receipts) + if Find(receipts, KeyOf(e)).Some? then [KeyOf(e)] else []
  {
    assert Init(a + [e]) == a;
  }

  lemma MembersAre(entries: seq<Entry>, sel: Selection, receipts: seq<Receipt>, i: nat)
    requires Valid(|entries|, sel) && Receipted(entries, sel, receipts) && i < |entries| && i !in Consumed(sel.records)
    ensures Members(receipts, ShownAt(entries, sel.replacements, i)) == ShowAll(entries, sel.records, Block(sel.records, i))
    ensures Find(receipts, KeyOf(ShownAt(entries, sel.replacements, i))).Some? <==> i in sel.replacements
  {
    hide Disjoint, Claims, Anchors, OwnerAt, Consistent;
    AnchorsClaimed(sel.records);
    if i in sel.replacements {
      OwnerIs(|entries|, sel.records, i);
      assert StripAll(At(entries, OwnerAt(sel.records, i))) == ShowAll(entries, sel.records, OwnerAt(sel.records, i));
    } else {
      OriginalIsNoCandidate(entries, receipts, i);
      FindIs(receipts, KeyOf(entries[i]));
      assert [entries[i]] == ShowAll(entries, sel.records, [i]);
    }
  }

  lemma OriginalIsNoCandidate(entries: seq<Entry>, receipts: seq<Receipt>, i: nat)
    requires Consistent(entries, receipts) && i < |entries|
    ensures KeyOf(entries[i]) !in CandidateKeys(receipts)
  {
    assert Keys(entries)[i] == KeyOf(entries[i]);
  }

  lemma ShowAppend(entries: seq<Entry>, records: seq<Record>, a: seq<int>, b: seq<int>)
    ensures ShowAll(entries, records, a + b) == ShowAll(entries, records, a) + ShowAll(entries, records, b)
  {
  }

  /** One more index renders to its entry, or to nothing when its owner's anchor stands for it. */
  lemma RenderStep(entries: seq<Entry>, sel: Selection, m: nat)
    requires 0 < m <= |entries|
    ensures RenderUpTo(entries, sel.replacements, Consumed(sel.records), m)
            == RenderUpTo(entries, sel.replacements, Consumed(sel.records), m - 1)
               + if m - 1 in Consumed(sel.records) then [] else [ShownAt(entries, sel.replacements, m - 1)]
    ensures Blocks(sel.records, m) == Blocks(sel.records, m - 1) + Block(sel.records, m - 1)
    ensures m - 1 in Consumed(sel.records) ==> Block(sel.records, m - 1) == []
  {
    hide Consumed, Anchors, OwnerAt;
  }

  lemma NothingRendered(entries: seq<Entry>, sel: Selection, receipts: seq<Receipt>)
    ensures Expand(RenderUpTo(entries, sel.replacements, Consumed(sel.records), 0), receipts)
            == ShowAll(entries, sel.records, Blocks(sel.records, 0))
  {
    hide Consumed;
  }

  /** Expanding the rendered commands lists the blocks, each original as its owner's receipt names it. */
  lemma {:induction false} ExpansionIs(entries: seq<Entry>, sel: Selection, receipts: seq<Receipt>, m: nat)
    requires Valid(|entries|, sel) && Receipted(entries, sel, receipts) && m <= |entries|
    ensures Expand(RenderUpTo(entries, sel.replacements, Consumed(sel.records), m), receipts)
            == ShowAll(entries, sel.records, Blocks(sel.records, m))
  {
    hide Valid, Receipted, Consumed, ShowAll, Members, Expand, RenderUpTo, Blocks, Block;
    if m == 0 {
      NothingRendered(entries, sel, receipts);
    } else {
      ExpansionIs(entries, sel, receipts, m - 1);
      RenderStep(entries, sel, m);
      var before := RenderUpTo(entries, sel.replacements, Consumed(sel.records), m - 1);
      ShowAppend(entries, sel.records, Blocks(sel.records, m - 1), Block(sel.records, m - 1));
      if m - 1 !in Consumed(sel.records) {
        MembersAre(entries, sel, receipts, m - 1);
        ExpandAppend(before, ShownAt(entries, sel.replacements, m - 1), receipts);
      } else {
        assert before + [] == before && Blocks(sel.records, m - 1) + [] == Blocks(sel.records, m - 1);
      }
    }
  }

  // ---- the gate -----------------------------------------------------------------------------

  lemma SameKeyIsSame(entries: seq<Entry>, i: int, j: int)
    requires Distinct(Keys(entries)) && 0 <= i < |entries| && 0 <= j < |entries| && KeyOf(entries[i]) == KeyOf(entries[j])
    ensures i == j
  {
    assert Keys(entries)[i] == KeyOf(entries[i]) && Keys(entries)[j] == KeyOf(entries[j]);
  }

  predicate NoOutput(entries: seq<Entry>, records: seq<Record>) {
    forall i :: i in Claims(records) ==> EntryAt(entries, i).output == None
  }

  /** With no output field on owned originals, the expansion lists every original command exactly once. */
  lemma ExpansionCovers(entries: seq<Entry>, sel: Selection, indexes: seq<int>)
    requires Valid(|entries|, sel) && NoOutput(entries, sel.records) && Distinct(Keys(entries))
    requires Distinct(indexes) && forall i: int :: i in indexes <==> 0 <= i < |entries|
    ensures var all := ShowAll(entries, sel.records, indexes);
            Distinct(Keys(all)) && KeySet(all) == KeySet(entries)
  {
    hide Disjoint, Claims, Anchors;
    var all := ShowAll(entries, sel.records, indexes);
    forall k | 0 <= k < |indexes|
      ensures indexes[k] in indexes && Keys(all)[k] == KeyOf(entries[indexes[k]]) == Keys(entries)[indexes[k]]
    {
    }
    forall j, k | 0 <= j < k < |indexes| ensures Keys(all)[j] != Keys(all)[k] {
      if Keys(all)[j] == Keys(all)[k] { SameKeyIsSame(entries, indexes[j], indexes[k]); }
    }
    forall key ensures key in Keys(all) <==> key in Keys(entries) {
      if key in Keys(entries) {
        var i :| 0 <= i < |entries| && Keys(entries)[i] == key;
        assert i in indexes;
        var k :| 0 <= k < |indexes| && indexes[k] == i;
        assert Keys(all)[k] == key;
      }
    }
  }

  /** An owned original with an output field is not named by any receipt, so nothing covers it. */
  lemma OutputIsUncovered(entries: seq<Entry>, sel: Selection, indexes: seq<int>, i: int)
    requires Valid(|entries|, sel) && Distinct(Keys(entries))
    requires forall j: int :: j in indexes ==> 0 <= j < |entries|
    requires i in Claims(sel.records) && EntryAt(entries, i).output.Some?
    ensures KeyOf(EntryAt(entries, i)) !in KeySet(ShowAll(entries, sel.records, indexes))
    ensures KeyOf(EntryAt(entries, i)) in KeySet(entries)
  {
    hide Disjoint, Claims, Anchors;
    ClaimsInRange(|entries|, sel.records);
    var all := ShowAll(entries, sel.records, indexes);
    assert Keys(entries)[i] == KeyOf(entries[i]);
    forall k | 0 <= k < |all| ensures Keys(all)[k] != KeyOf(entries[i]) {
      var j := indexes[k];
      assert j in indexes;
      if j !in Claims(sel.records) && KeyOf(entries[j]) == KeyOf(entries[i]) { SameKeyIsSame(entries, i, j); }
    }
  }

  function UsedUpTo(entries: seq<Entry>, sel: Selection, receipts: seq<Receipt>, m: nat): seq<Key>
    requires m <= |entries|
  {
    Used(RenderUpTo(entries, sel.replacements, Consumed(sel.records), m), receipts)
  }

  /** One more index uses the batch anchored there, if there is one. */
  lemma UsedStep(entries: seq<Entry>, sel: Selection, receipts: seq<Receipt>, m: nat)
    requires Valid(|entries|, sel) && Receipted(entries, sel, receipts) && 0 < m <= |entries|
    ensures UsedUpTo(entries, sel, receipts, m) == UsedUpTo(entries, sel, receipts, m - 1)
            + if m - 1 in sel.replacements then [KeyOf(sel.replacements[m - 1])] else []
  {
    hide Receipted, Disjoint, Claims, Anchors, Expand, Used, RenderUpTo, Blocks, Block, Members, ShowAll, Find;
    RenderStep(entries, sel, m);
    var before := RenderUpTo(entries, sel.replacements, Consumed(sel.records), m - 1);
    if m - 1 !in Consumed(sel.records) {
      MembersAre(entries, sel, receipts, m - 1);
      ExpandAppend(before, ShownAt(entries, sel.replacements, m - 1), receipts);
    } else {
      assert before + [] == before;
    }
  }

  /** Every candidate is published once, and nothing else is a batch. */
  lemma {:induction false} UsedAre(entries: seq<Entry>, sel: Selection, receipts: seq<Receipt>, m: nat, key: Key)
    requires Valid(|entries|, sel) && Receipted(entries, sel, receipts) && m <= |entries|
    ensures var used := UsedUpTo(entries, sel, receipts, m);
            && (key in used <==> exists a :: a in sel.replacements && a < m && KeyOf(sel.replacements[a]) == key)
            && Distinct(used)
  {
    hide Valid, Receipted, KeyOf, UsedUpTo, Distinct;
    AnchorsInRange(|entries|, sel);
    if m == 0 {
      NothingUsed(entries, sel, receipts);
    } else {
      UsedAre(entries, sel, receipts, m - 1, key);
      UsedStep(entries, sel, receipts, m);
      if m - 1 in sel.replacements {
        var mine := KeyOf(sel.replacements[m - 1]);
        UsedAre(entries, sel, receipts, m - 1, mine);
        CandidatesDiffer(entries, sel, receipts, m - 1);
        DistinctSnoc(UsedUpTo(entries, sel, receipts, m - 1), mine);
      } else {
        assert UsedUpTo(entries, sel, receipts, m - 1) + [] == UsedUpTo(entries, sel, receipts, m - 1);
      }
    }
  }

  lemma AnchorsInRange(n: nat, sel: Selection)
    requires Valid(n, sel)
    ensures forall a :: a in sel.replacements ==> 0 <= a < n
  {
    hide Disjoint, Claims, Anchors;
    AnchorsClaimed(sel.records);
    ClaimsInRange(n, sel.records);
    assert forall a :: a in sel.replacements ==> a in Anchors(sel.records);
  }

  lemma NothingUsed(entries: seq<Entry>, sel: Selection, receipts: seq<Receipt>)
    ensures UsedUpTo(entries, sel, receipts, 0) == [] && Distinct(UsedUpTo(entries, sel, receipts, 0))
  {
  }

  lemma CandidatesDiffer(entries: seq<Entry>, sel: Selection, receipts: seq<Receipt>, b: int)
    requires Receipted(entries, sel, receipts) && b in sel.replacements
    ensures forall a :: a in sel.replacements && a < b ==> KeyOf(sel.replacements[a]) != KeyOf(sel.replacements[b])
  {
    hide Consistent, OwnerAt;
  }

  lemma {:induction false} BatchesNonEmpty(entries: seq<Entry>, sel: Selection, receipts: seq<Receipt>, m: nat)
    requires Valid(|entries|, sel) && Receipted(entries, sel, receipts) && m <= |entries|
    ensures NonEmptyBatches(RenderUpTo(entries, sel.replacements, Consumed(sel.records), m), receipts)
  {
    hide Disjoint, Claims, Anchors, OwnerAt, Consistent, Receipted;
    if m > 0 {
      BatchesNonEmpty(entries, sel, receipts, m - 1);
      if m - 1 !in Consumed(sel.records) {
        MembersAre(entries, sel, receipts, m - 1);
        if m - 1 in Anchors(sel.records) { OwnerIs(|entries|, sel.records, m - 1); }
      }
    }
  }

  /**
   * Every rendered selection whose candidates are new, distinct and receipted passes the gate
   * exactly when no owned original carries an output field.
   */
  lemma RenderedPasses(entries: seq<Entry>, sel: Selection, receipts: seq<Receipt>)
    requires Valid(|entries|, sel) && Receipted(entries, sel, receipts) && Distinct(Keys(entries))
    ensures Passes(entries, Rendered(entries, sel), receipts) <==> NoOutput(entries, sel.records)
  {
    hide Disjoint, Claims, Anchors, OwnerAt, Consistent, NonEmptyBatches, Blocks, Keys, KeySet;
    var n := |entries|;
    var blocks := Blocks(sel.records, n);
    var frozen := Rendered(entries, sel);
    ExpansionIs(entries, sel, receipts, n);
    BlocksDistinct(n, sel.records, n);
    forall i: int ensures i in blocks <==> 0 <= i < n { BlocksCover(n, sel.records, i); }
    BatchesNonEmpty(entries, sel, receipts, n);
    AllUsed(entries, sel, receipts);
    if NoOutput(entries, sel.records) {
      ExpansionCovers(entries, sel, blocks);
    } else {
      var i :| i in Claims(sel.records) && EntryAt(entries, i).output != None;
      OutputIsUncovered(entries, sel, blocks, i);
    }
  }

  lemma AllUsed(entries: seq<Entry>, sel: Selection, receipts: seq<Receipt>)
    requires Valid(|entries|, sel) && Receipted(entries, sel, receipts)
    ensures var used := Used(Rendered(entries, sel), receipts);
            Distinct(used) && forall key :: key in used <==> key in CandidateKeys(receipts)
  {
    hide Disjoint, Claims, Anchors, OwnerAt, Consistent, CandidateKeys;
    AnchorsClaimed(sel.records);
    ClaimsInRange(|entries|, sel.records);
    var used := Used(Rendered(entries, sel), receipts);
    UsedAre(entries, sel, receipts, |entries|, Key("", "", [], None));
    forall key ensures key in used <==> key in CandidateKeys(receipts) {
      UsedAre(entries, sel, receipts, |entries|, key);
      assert forall a :: a in sel.replacements ==> a in Anchors(sel.records) && a < |entries|;
    }
  }

  // ---- a selection that is refused ------------------------------------------------------------

  function Command(file: string, output: Option<string>): Entry {
    Entry("d", file, ["cc", file], output, true, false, None, 0, None, None)
  }

  /** Two originals, the first with an output field. */
  function WithOutput(): seq<Entry> {
    [Command("a", Some("a.o")), Command("b", None)]
  }

  /** One owner of both, and its candidate. */
  function BothMerged(): Selection {
    Selection(map[0 := Command("m", None)], [Record(true, [0, 1], 1, None, false, false)])
  }

  function ReceiptOfBoth(): Receipt {
    Receipt(Command("m", None), StripAll(At(WithOutput(), [0, 1])), "")
  }

  lemma BothMergedIsValid()
    ensures Valid(2, BothMerged()) && Claims(BothMerged().records) == {0, 1} && OwnerAt(BothMerged().records, 0) == [0, 1]
    ensures Distinct(Keys(WithOutput()))
  {
    var records := BothMerged().records;
    assert Init(records) == [] && Last(records).indexes == [0, 1];
    assert Min([0, 1]) == 0 by { assert 0 in [0, 1] && 1 in [0, 1]; }
    assert Owned([0, 1]) == {0, 1};
    var keys := Keys(WithOutput());
    assert keys[0] == KeyOf(Command("a", Some("a.o"))) && keys[1] == KeyOf(Command("b", None));
    assert keys[0].file[0] != keys[1].file[0];
  }

  lemma BothMergedIsReceipted()
    ensures Receipted(WithOutput(), BothMerged(), [ReceiptOfBoth()])
  {
    hide Claims, Anchors, StripAll, At;
    BothMergedIsValid();
    var entries, receipts := WithOutput(), [ReceiptOfBoth()];
    var key := KeyOf(Command("m", None));
    assert Last(receipts) == ReceiptOfBoth();
    assert CandidateKeys(receipts) == {key} by { assert receipts[0] == ReceiptOfBoth(); }
    assert key !in KeySet(entries) by {
      var keys := Keys(entries);
      assert keys[0] == KeyOf(entries[0]) && keys[1] == KeyOf(entries[1]);
      assert key.file[0] != keys[0].file[0] && key.file[0] != keys[1].file[0];
    }
    assert BothMerged().replacements.Keys == {0};
    assert (set a | a in BothMerged().replacements :: KeyOf(BothMerged().replacements[a])) == {key} by {
      assert 0 in BothMerged().replacements;
    }
  }

  /** A valid selection with a new candidate and its receipt, which the gate refuses for the output field alone. */
  lemma OutputIsRefused()
    ensures Valid(2, BothMerged()) && Receipted(WithOutput(), BothMerged(), [ReceiptOfBoth()]) && Distinct(Keys(WithOutput()))
    ensures !Passes(WithOutput(), Rendered(WithOutput(), BothMerged()), [ReceiptOfBoth()])
  {
    hide Passes, Rendered, Receipted, Valid, Keys;
    BothMergedIsValid();
    BothMergedIsReceipted();
    RenderedPasses(WithOutput(), BothMerged(), [ReceiptOfBoth()]);
    assert EntryAt(WithOutput(), 0).output != None;
  }
}
