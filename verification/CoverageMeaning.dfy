/** What the coverage gate accepts, said of the commands and receipts themselves. */
module CoverageMeaning {
  import opened Prelude
  import opened OwnerSelection
  import opened CoverageGate

  /** The same command, output field included. */
  ghost predicate Same(a: Entry, b: Entry) {
    a.directory == b.directory && a.file == b.file && a.arguments == b.arguments && a.output == b.output
  }

  lemma SameMeans(a: Entry, b: Entry)
    ensures KeyOf(a) == KeyOf(b) <==> Same(a, b)
  {
  }

  // ---- receipts ---------------------------------------------------------------------------------

  /** Receipt `k` is of this published command. */
  ghost predicate IsBatch(receipts: seq<Receipt>, k: nat, e: Entry) {
    k < |receipts| && Same(receipts[k].candidate, e)
  }

  /** Receipts of one candidate are equal, and none is of an original command. */
  ghost predicate Agree(original: seq<Entry>, receipts: seq<Receipt>) {
    && (forall j: nat, k: nat :: k < |receipts| && IsBatch(receipts, j, receipts[k].candidate) ==> receipts[j] == receipts[k])
    && forall k: nat, i :: 0 <= i < |original| ==> !IsBatch(receipts, k, original[i])
  }

  lemma KeyIn(entries: seq<Entry>, e: Entry)
    ensures KeyOf(e) in KeySet(entries) <==> exists i :: 0 <= i < |entries| && Same(e, entries[i])
  {
    if KeyOf(e) in KeySet(entries) {
      var i :| 0 <= i < |entries| && Keys(entries)[i] == KeyOf(e);
      SameMeans(e, entries[i]);
    }
    if i :| 0 <= i < |entries| && Same(e, entries[i]) {
      SameMeans(e, entries[i]);
      assert Keys(entries)[i] == KeyOf(e);
    }
  }

  lemma CandidateIn(receipts: seq<Receipt>, e: Entry)
    ensures KeyOf(e) in CandidateKeys(receipts) <==> exists k :: IsBatch(receipts, k, e)
  {
    if k: nat :| k < |receipts| && KeyOf(receipts[k].candidate) == KeyOf(e) { assert IsBatch(receipts, k, e); }
  }

  lemma AgreeMeans(original: seq<Entry>, receipts: seq<Receipt>)
    ensures Consistent(original, receipts) <==> Agree(original, receipts)
  {
    hide KeyOf, KeySet;
    forall a, b ensures KeyOf(a) == KeyOf(b) <==> Same(a, b) { SameMeans(a, b); }
    forall e ensures KeyOf(e) in KeySet(original) <==> exists i :: 0 <= i < |original| && Same(e, original[i]) {
      KeyIn(original, e);
    }
    if Agree(original, receipts) {
      forall i, j | 0 <= i < j < |receipts| && KeyOf(receipts[i].candidate) == KeyOf(receipts[j].candidate)
        ensures receipts[i] == receipts[j]
      {
        assert IsBatch(receipts, i, receipts[j].candidate);
      }
      forall k | 0 <= k < |receipts| ensures KeyOf(receipts[k].candidate) !in KeySet(original) {
        assert forall i :: 0 <= i < |original| ==> !IsBatch(receipts, k, original[i]);
      }
    }
  }

  // ---- what is published ------------------------------------------------------------------------

  /** Published command `i` is a batch whose `m`-th original this is, or is this command itself. */
  ghost predicate Stands(frozen: seq<Entry>, receipts: seq<Receipt>, i: nat, m: nat, e: Entry) {
    && i < |frozen|
    && (forall k: nat :: IsBatch(receipts, k, frozen[i]) ==> m < |receipts[k].originals| && e == receipts[k].originals[m])
    && ((forall k: nat :: !IsBatch(receipts, k, frozen[i])) ==> m == 0 && e == frozen[i])
  }

  ghost predicate MemberAt(frozen: seq<Entry>, receipts: seq<Receipt>, i: nat, m: nat, e: Entry) {
    i < |frozen| && m < |Members(receipts, frozen[i])| && Members(receipts, frozen[i])[m] == e
  }

  lemma StandsMeans(original: seq<Entry>, frozen: seq<Entry>, receipts: seq<Receipt>, i: nat, m: nat, e: Entry)
    requires Agree(original, receipts)
    ensures Stands(frozen, receipts, i, m, e) <==> MemberAt(frozen, receipts, i, m, e)
  {
    hide KeyOf, Find;
    if i < |frozen| {
      var found := Find(receipts, KeyOf(frozen[i]));
      FindIs(receipts, KeyOf(frozen[i]));
      CandidateIn(receipts, frozen[i]);
      if found.Some? {
        var k: nat :| k < |receipts| && receipts[k] == found.value;
        SameMeans(receipts[k].candidate, frozen[i]);
        assert IsBatch(receipts, k, frozen[i]);
        forall j: nat | IsBatch(receipts, j, frozen[i]) ensures receipts[j] == found.value {
          assert IsBatch(receipts, j, receipts[k].candidate);
        }
      }
    }
  }

  lemma {:induction false} ExpandHas(frozen: seq<Entry>, receipts: seq<Receipt>, e: Entry)
    ensures e in Expand(frozen, receipts) <==> exists i, m :: MemberAt(frozen, receipts, i, m, e)
  {
    hide Members;
    if frozen != [] {
      var n: nat := |frozen| - 1;
      var before, mine := Expand(Init(frozen), receipts), Members(receipts, frozen[n]);
      ExpandHas(Init(frozen), receipts, e);
      if e in before {
        var i, m :| MemberAt(Init(frozen), receipts, i, m, e);
        assert MemberAt(frozen, receipts, i, m, e);
      }
      if e in mine {
        var m: nat :| m < |mine| && mine[m] == e;
        assert MemberAt(frozen, receipts, n, m, e);
      }
      if i: nat, m: nat :| MemberAt(frozen, receipts, i, m, e) {
        if i < n { assert MemberAt(Init(frozen), receipts, i, m, e); }
      }
    }
  }

  /** No command stands at two places. */
  ghost predicate ApartFrom(frozen: seq<Entry>, receipts: seq<Receipt>, i: nat, m: nat, e: Entry) {
    forall j, l, e' :: MemberAt(frozen, receipts, j, l, e') && Same(e, e') ==> i == j && m == l
  }

  ghost predicate AllApart(frozen: seq<Entry>, receipts: seq<Receipt>) {
    forall i, m, e :: MemberAt(frozen, receipts, i, m, e) ==> ApartFrom(frozen, receipts, i, m, e)
  }

  lemma KeyListed(entries: seq<Entry>, e: Entry)
    ensures KeyOf(e) in Keys(entries) <==> exists x :: x in entries && Same(e, x)
  {
    if k :| 0 <= k < |entries| && Keys(entries)[k] == KeyOf(e) {
      SameMeans(e, entries[k]);
      assert entries[k] in entries;
    }
    if x :| x in entries && Same(e, x) {
      var k :| 0 <= k < |entries| && entries[k] == x;
      assert Keys(entries)[k] == KeyOf(e);
    }
  }

  /** No command is listed twice. */
  ghost predicate Apart(entries: seq<Entry>) {
    forall i, j :: 0 <= i < |entries| && 0 <= j < |entries| && Same(entries[i], entries[j]) ==> i == j
  }

  lemma MembersApart(mine: seq<Entry>)
    ensures Distinct(Keys(mine)) <==> Apart(mine)
  {
    forall a, b ensures KeyOf(a) == KeyOf(b) <==> Same(a, b) { SameMeans(a, b); }
    if Distinct(Keys(mine)) {
      forall m, l | 0 <= m < |mine| && 0 <= l < |mine| && Same(mine[m], mine[l]) ensures m == l {
        assert Keys(mine)[m] == Keys(mine)[l];
      }
    }
    if Apart(mine) {
      forall m, l | 0 <= m < l < |Keys(mine)| ensures Keys(mine)[m] != Keys(mine)[l] {
        assert !Same(mine[m], mine[l]);
      }
    }
  }

  ghost predicate Clash(frozen: seq<Entry>, receipts: seq<Receipt>, mine: seq<Entry>) {
    exists i, m, e, l :: MemberAt(frozen, receipts, i, m, e) && 0 <= l < |mine| && Same(e, mine[l])
  }

  lemma MemberBefore(frozen: seq<Entry>, receipts: seq<Receipt>, i: nat, m: nat, e: Entry)
    requires frozen != []
    ensures MemberAt(Init(frozen), receipts, i, m, e) <==> i < |frozen| - 1 && MemberAt(frozen, receipts, i, m, e)
  {
  }

  lemma ApartStep(frozen: seq<Entry>, receipts: seq<Receipt>)
    requires frozen != []
    ensures var mine := Members(receipts, Last(frozen));
            AllApart(frozen, receipts)
            <==> AllApart(Init(frozen), receipts) && Apart(mine) && !Clash(Init(frozen), receipts, mine)
  {
    hide Members;
    var n: nat, mine := |frozen| - 1, Members(receipts, Last(frozen));
    forall i: nat, m: nat, e
      ensures MemberAt(Init(frozen), receipts, i, m, e) <==> i < n && MemberAt(frozen, receipts, i, m, e)
    {
      MemberBefore(frozen, receipts, i, m, e);
    }
    forall m: nat, e ensures MemberAt(frozen, receipts, n, m, e) <==> m < |mine| && mine[m] == e {}
    if AllApart(frozen, receipts) {
      ApartParts(frozen, receipts, n, mine);
    }
    if AllApart(Init(frozen), receipts) && Apart(mine) && !Clash(Init(frozen), receipts, mine) {
      ApartWhole(frozen, receipts, n, mine);
    }
  }

  lemma ApartParts(frozen: seq<Entry>, receipts: seq<Receipt>, n: nat, mine: seq<Entry>)
    requires frozen != [] && n == |frozen| - 1 && AllApart(frozen, receipts)
    requires forall i: nat, m: nat, e ::
               MemberAt(Init(frozen), receipts, i, m, e) <==> i < n && MemberAt(frozen, receipts, i, m, e)
    requires forall m: nat, e :: MemberAt(frozen, receipts, n, m, e) <==> m < |mine| && mine[m] == e
    ensures AllApart(Init(frozen), receipts) && Apart(mine) && !Clash(Init(frozen), receipts, mine)
  {
    hide MemberAt, Same;
    forall m: nat, l: nat | m < |mine| && l < |mine| && Same(mine[m], mine[l]) ensures m == l {
      assert MemberAt(frozen, receipts, n, m, mine[m]) && MemberAt(frozen, receipts, n, l, mine[l]);
      assert ApartFrom(frozen, receipts, n, m, mine[m]);
    }
    forall i, m, e, l: nat | MemberAt(Init(frozen), receipts, i, m, e) && l < |mine| ensures !Same(e, mine[l]) {
      assert MemberAt(frozen, receipts, i, m, e) && MemberAt(frozen, receipts, n, l, mine[l]);
      assert ApartFrom(frozen, receipts, i, m, e);
    }
    forall i, m, e | MemberAt(Init(frozen), receipts, i, m, e) ensures ApartFrom(Init(frozen), receipts, i, m, e) {
      assert MemberAt(frozen, receipts, i, m, e);
      assert ApartFrom(frozen, receipts, i, m, e);
    }
  }

  lemma SameSymmetric(a: Entry, b: Entry)
    ensures Same(a, b) <==> Same(b, a)
  {
  }

  lemma ApartWhole(frozen: seq<Entry>, receipts: seq<Receipt>, n: nat, mine: seq<Entry>)
    requires frozen != [] && n == |frozen| - 1
    requires AllApart(Init(frozen), receipts) && Apart(mine) && !Clash(Init(frozen), receipts, mine)
    requires forall i: nat, m: nat, e ::
               MemberAt(Init(frozen), receipts, i, m, e) <==> i < n && MemberAt(frozen, receipts, i, m, e)
    requires forall m: nat, e :: MemberAt(frozen, receipts, n, m, e) <==> m < |mine| && mine[m] == e
    ensures AllApart(frozen, receipts)
  {
    hide Same;
    forall i: nat, m: nat, e, j: nat, l: nat, e'
      | MemberAt(frozen, receipts, i, m, e) && MemberAt(frozen, receipts, j, l, e') && Same(e, e')
      ensures i == j && m == l
    {
      SameSymmetric(e, e');
      if i < n && j < n { assert ApartFrom(Init(frozen), receipts, i, m, e); }
    }
  }

  lemma {:induction false} ExpandApart(frozen: seq<Entry>, receipts: seq<Receipt>)
    ensures Distinct(Keys(Expand(frozen, receipts))) <==> AllApart(frozen, receipts)
  {
    hide Members, Distinct, AllApart, Clash, Same, Keys;
    if frozen == [] {
      NothingApart(receipts);
    } else {
      var before, mine := Expand(Init(frozen), receipts), Members(receipts, Last(frozen));
      ExpandApart(Init(frozen), receipts);
      ApartStep(frozen, receipts);
      MembersApart(mine);
      KeysAppend(before, mine);
      DistinctConcat(Keys(before), Keys(mine));
      NoClash(Init(frozen), receipts, mine);
    }
  }

  lemma NothingApart(receipts: seq<Receipt>)
    ensures Distinct(Keys([])) && AllApart([], receipts)
  {
  }

  lemma NoClash(frozen: seq<Entry>, receipts: seq<Receipt>, mine: seq<Entry>)
    ensures (forall l :: 0 <= l < |Keys(mine)| ==> Keys(mine)[l] !in Keys(Expand(frozen, receipts)))
            <==> !Clash(frozen, receipts, mine)
  {
    hide Members, Expand, Same;
    forall l | 0 <= l < |mine|
      ensures Keys(mine)[l] in Keys(Expand(frozen, receipts))
              <==> exists i, m, e :: MemberAt(frozen, receipts, i, m, e) && Same(e, mine[l])
    {
      KeyExpanded(frozen, receipts, mine[l]);
    }
  }

  lemma KeyExpanded(frozen: seq<Entry>, receipts: seq<Receipt>, e: Entry)
    ensures KeyOf(e) in Keys(Expand(frozen, receipts))
            <==> exists i, m, x :: MemberAt(frozen, receipts, i, m, x) && Same(x, e)
  {
    hide Expand, Keys, KeyOf, MemberAt, Same;
    KeyListed(Expand(frozen, receipts), e);
    forall x ensures x in Expand(frozen, receipts) <==> exists i, m :: MemberAt(frozen, receipts, i, m, x) {
      ExpandHas(frozen, receipts, x);
    }
    forall x ensures Same(x, e) <==> Same(e, x) { SameSymmetric(x, e); }
  }

  // ---- what is used -----------------------------------------------------------------------------

  ghost predicate UsedAt(frozen: seq<Entry>, receipts: seq<Receipt>, i: nat, key: Key) {
    i < |frozen| && KeyOf(frozen[i]) == key && key in CandidateKeys(receipts)
  }

  ghost predicate UsedOnce(frozen: seq<Entry>, receipts: seq<Receipt>) {
    forall i, j, key :: UsedAt(frozen, receipts, i, key) && UsedAt(frozen, receipts, j, key) ==> i == j
  }

  lemma UsedBefore(frozen: seq<Entry>, receipts: seq<Receipt>, i: nat, key: Key)
    requires frozen != []
    ensures UsedAt(frozen, receipts, i, key) <==>
              UsedAt(Init(frozen), receipts, i, key)
              || (i == |frozen| - 1 && KeyOf(Last(frozen)) == key && key in CandidateKeys(receipts))
  {
  }

  lemma {:induction false} UsedHas(frozen: seq<Entry>, receipts: seq<Receipt>, key: Key)
    ensures key in Used(frozen, receipts) <==> exists i :: UsedAt(frozen, receipts, i, key)
  {
    hide UsedAt, CandidateKeys;
    if frozen == [] {
      NothingUsed(receipts);
    } else {
      UsedHas(Init(frozen), receipts, key);
      FindIs(receipts, KeyOf(Last(frozen)));
      forall i: nat
        ensures UsedAt(frozen, receipts, i, key) <==>
                  UsedAt(Init(frozen), receipts, i, key)
                  || (i == |frozen| - 1 && KeyOf(Last(frozen)) == key && key in CandidateKeys(receipts))
      {
        UsedBefore(frozen, receipts, i, key);
      }
      var n: nat, mine := |frozen| - 1, KeyOf(Last(frozen));
      var used := Used(Init(frozen), receipts);
      assert Used(frozen, receipts) == if mine in CandidateKeys(receipts) then used + [mine] else used;
      if mine == key && key in CandidateKeys(receipts) { assert UsedAt(frozen, receipts, n, key); }
      if i: nat :| UsedAt(Init(frozen), receipts, i, key) { assert UsedAt(frozen, receipts, i, key); }
    }
  }

  lemma {:induction false} UsedIs(frozen: seq<Entry>, receipts: seq<Receipt>)
    ensures Distinct(Used(frozen, receipts)) <==> UsedOnce(frozen, receipts)
  {
    hide UsedAt, CandidateKeys, Distinct, UsedOnce;
    if frozen == [] {
      NothingUsed(receipts);
    } else {
      var n: nat, key := |frozen| - 1, KeyOf(Last(frozen));
      UsedIs(Init(frozen), receipts);
      FindIs(receipts, key);
      forall i: nat, k
        ensures UsedAt(frozen, receipts, i, k) <==>
                  UsedAt(Init(frozen), receipts, i, k) || (i == n && k == key && k in CandidateKeys(receipts))
      {
        UsedBefore(frozen, receipts, i, k);
      }
      forall i: nat, k ensures UsedAt(Init(frozen), receipts, i, k) ==> i < n { UsedInRange(Init(frozen), receipts, i, k); }
      DistinctSnoc(Used(Init(frozen), receipts), key);
      UsedHas(Init(frozen), receipts, key);
      OnceStep(frozen, receipts, n, key);
      var used := Used(Init(frozen), receipts);
      assert Used(frozen, receipts) == if key in CandidateKeys(receipts) then used + [key] else used;
    }
  }

  lemma OnceStep(frozen: seq<Entry>, receipts: seq<Receipt>, n: nat, key: Key)
    requires frozen != [] && n == |frozen| - 1
    requires forall i: nat, k :: UsedAt(frozen, receipts, i, k) <==>
               UsedAt(Init(frozen), receipts, i, k) || (i == n && k == key && k in CandidateKeys(receipts))
    requires forall i: nat, k :: UsedAt(Init(frozen), receipts, i, k) ==> i < n
    ensures UsedOnce(frozen, receipts) <==>
              UsedOnce(Init(frozen), receipts)
              && (key in CandidateKeys(receipts) ==> !exists i :: UsedAt(Init(frozen), receipts, i, key))
  {
    hide UsedAt, CandidateKeys;
    if key in CandidateKeys(receipts) { assert UsedAt(frozen, receipts, n, key); }
    if UsedOnce(frozen, receipts) {
      forall i, j, k | UsedAt(Init(frozen), receipts, i, k) && UsedAt(Init(frozen), receipts, j, k) ensures i == j {
        assert UsedAt(frozen, receipts, i, k) && UsedAt(frozen, receipts, j, k);
      }
      if key in CandidateKeys(receipts) {
        forall i: nat ensures !UsedAt(Init(frozen), receipts, i, key) {
          assert UsedAt(Init(frozen), receipts, i, key) ==> UsedAt(frozen, receipts, i, key);
        }
      }
    }
  }

  lemma UsedInRange(frozen: seq<Entry>, receipts: seq<Receipt>, i: nat, key: Key)
    ensures UsedAt(frozen, receipts, i, key) ==> i < |frozen|
  {
  }

  lemma NothingUsed(receipts: seq<Receipt>)
    ensures Distinct(Used([], receipts)) && UsedOnce([], receipts) && forall i, key :: !UsedAt([], receipts, i, key)
  {
  }

  // ---- the gate ---------------------------------------------------------------------------------

  /** This receipt's candidate is published, once. */
  ghost predicate PublishedOnce(frozen: seq<Entry>, receipt: Receipt) {
    exists i :: OnlyHere(frozen, receipt, i)
  }

  ghost predicate OnlyHere(frozen: seq<Entry>, receipt: Receipt, i: nat) {
    && i < |frozen| && Same(receipt.candidate, frozen[i])
    && forall j :: 0 <= j < |frozen| && Same(receipt.candidate, frozen[j]) ==> j == i
  }

  /** Some published command stands for this one, and no other does. */
  ghost predicate StandsOnce(frozen: seq<Entry>, receipts: seq<Receipt>, e: Entry) {
    exists i, m :: OnlyStands(frozen, receipts, i, m, e)
  }

  ghost predicate OnlyStands(frozen: seq<Entry>, receipts: seq<Receipt>, i: nat, m: nat, e: Entry) {
    && (exists x :: Stands(frozen, receipts, i, m, x) && Same(x, e))
    && forall j, l, x :: Stands(frozen, receipts, j, l, x) && Same(x, e) ==> j == i && l == m
  }

  ghost predicate IsOriginal(original: seq<Entry>, e: Entry) {
    exists o :: 0 <= o < |original| && Same(e, original[o])
  }

  /** The database covers the originals: no two are the same command, receipts agree, each receipt has originals and its
      candidate is published once, every published command stands for originals only, and each original has exactly one place. */
  ghost predicate Covers(original: seq<Entry>, frozen: seq<Entry>, receipts: seq<Receipt>) {
    && Apart(original) && Agree(original, receipts)
    && (forall k :: 0 <= k < |receipts| ==> receipts[k].originals != [] && PublishedOnce(frozen, receipts[k]))
    && (forall i, m, e :: Stands(frozen, receipts, i, m, e) ==> IsOriginal(original, e))
    && forall o :: 0 <= o < |original| ==> StandsOnce(frozen, receipts, original[o])
  }

  /** The uses are in order exactly when each receipt's candidate is published once. */
  lemma UsesMean(original: seq<Entry>, frozen: seq<Entry>, receipts: seq<Receipt>)
    ensures Distinct(Used(frozen, receipts)) && (forall key :: key in Used(frozen, receipts) <==> key in CandidateKeys(receipts))
            <==> forall k :: 0 <= k < |receipts| ==> PublishedOnce(frozen, receipts[k])
  {
    hide Used, Distinct, KeyOf, Same;
    UsedIs(frozen, receipts);
    forall key ensures key in Used(frozen, receipts) <==> exists i :: UsedAt(frozen, receipts, i, key) {
      UsedHas(frozen, receipts, key);
    }
    forall a, b ensures KeyOf(a) == KeyOf(b) <==> Same(a, b) { SameMeans(a, b); }
    if UsedOnce(frozen, receipts) && forall key :: key in CandidateKeys(receipts) ==> key in Used(frozen, receipts) {
      forall k | 0 <= k < |receipts| ensures PublishedOnce(frozen, receipts[k]) {
        var key := KeyOf(receipts[k].candidate);
        assert key in CandidateKeys(receipts);
        var i :| UsedAt(frozen, receipts, i, key);
        forall j: nat | j < |frozen| && Same(receipts[k].candidate, frozen[j]) ensures j == i {
          assert UsedAt(frozen, receipts, j, key);
        }
        assert OnlyHere(frozen, receipts[k], i);
      }
    }
    if forall k :: 0 <= k < |receipts| ==> PublishedOnce(frozen, receipts[k]) {
      forall key | key in CandidateKeys(receipts) ensures key in Used(frozen, receipts) {
        var k :| 0 <= k < |receipts| && KeyOf(receipts[k].candidate) == key;
        var i :| OnlyHere(frozen, receipts[k], i);
        assert UsedAt(frozen, receipts, i, key);
      }
      forall i, j, key | UsedAt(frozen, receipts, i, key) && UsedAt(frozen, receipts, j, key) ensures i == j {
        var k :| 0 <= k < |receipts| && KeyOf(receipts[k].candidate) == key;
        var h :| OnlyHere(frozen, receipts[k], h);
      }
    }
  }

  lemma SameTransitive(a: Entry, b: Entry, c: Entry)
    requires Same(a, b) && Same(b, c)
    ensures Same(a, c)
  {
  }

  ghost predicate AllOriginal(original: seq<Entry>, frozen: seq<Entry>, receipts: seq<Receipt>) {
    forall i, m, e :: MemberAt(frozen, receipts, i, m, e) ==> IsOriginal(original, e)
  }

  ghost predicate AllOnce(original: seq<Entry>, frozen: seq<Entry>, receipts: seq<Receipt>) {
    forall o :: 0 <= o < |original| ==> PlacedOnce(frozen, receipts, original[o])
  }

  ghost predicate PlacedOnce(frozen: seq<Entry>, receipts: seq<Receipt>, e: Entry) {
    exists i, m :: OnlyMember(frozen, receipts, i, m, e)
  }

  ghost predicate OnlyMember(frozen: seq<Entry>, receipts: seq<Receipt>, i: nat, m: nat, e: Entry) {
    && (exists x :: MemberAt(frozen, receipts, i, m, x) && Same(x, e))
    && forall j, l, x :: MemberAt(frozen, receipts, j, l, x) && Same(x, e) ==> j == i && l == m
  }

  lemma KeysWithin(original: seq<Entry>, frozen: seq<Entry>, receipts: seq<Receipt>)
    ensures KeySet(Expand(frozen, receipts)) <= KeySet(original) <==> AllOriginal(original, frozen, receipts)
  {
    hide KeyOf, Same, MemberAt, Expand;
    var all := Expand(frozen, receipts);
    forall e ensures KeyOf(e) in KeySet(original) <==> IsOriginal(original, e) { KeyIn(original, e); }
    if KeySet(all) <= KeySet(original) {
      forall i, m, e | MemberAt(frozen, receipts, i, m, e) ensures IsOriginal(original, e) {
        ExpandHas(frozen, receipts, e);
        var k :| 0 <= k < |all| && all[k] == e;
        assert Keys(all)[k] == KeyOf(e);
      }
    }
    if AllOriginal(original, frozen, receipts) {
      forall key | key in KeySet(all) ensures key in KeySet(original) {
        var k :| 0 <= k < |all| && KeyOf(all[k]) == key;
        assert all[k] in all;
        ExpandHas(frozen, receipts, all[k]);
      }
    }
  }

  lemma Shown(original: seq<Entry>, frozen: seq<Entry>, receipts: seq<Receipt>, o: nat)
    requires o < |original| && KeySet(original) <= KeySet(Expand(frozen, receipts)) && AllApart(frozen, receipts)
    ensures PlacedOnce(frozen, receipts, original[o])
  {
    hide KeyOf, MemberAt, Expand, Same;
    assert Keys(original)[o] in KeySet(original);
    KeyExpanded(frozen, receipts, original[o]);
    var i: nat, m: nat, x :| MemberAt(frozen, receipts, i, m, x) && Same(x, original[o]);
    assert ApartFrom(frozen, receipts, i, m, x);
    forall j: nat, l: nat, y | MemberAt(frozen, receipts, j, l, y) && Same(y, original[o]) ensures j == i && l == m {
      SameSymmetric(y, original[o]);
      SameTransitive(x, original[o], y);
    }
    assert OnlyMember(frozen, receipts, i, m, original[o]);
  }

  lemma PlacedApart(original: seq<Entry>, frozen: seq<Entry>, receipts: seq<Receipt>)
    requires AllOriginal(original, frozen, receipts) && AllOnce(original, frozen, receipts)
    ensures AllApart(frozen, receipts)
  {
    hide MemberAt, Same;
    forall i: nat, m: nat, e, j: nat, l: nat, e'
      | MemberAt(frozen, receipts, i, m, e) && MemberAt(frozen, receipts, j, l, e') && Same(e, e')
      ensures i == j && m == l
    {
      assert IsOriginal(original, e);
      var o :| 0 <= o < |original| && Same(e, original[o]);
      SamePlace(frozen, receipts, original[o], i, m, e, j, l, e');
    }
  }

  lemma SamePlace(frozen: seq<Entry>, receipts: seq<Receipt>, o: Entry, i: nat, m: nat, e: Entry, j: nat, l: nat, e': Entry)
    requires PlacedOnce(frozen, receipts, o) && Same(e, o) && Same(e, e')
    requires MemberAt(frozen, receipts, i, m, e) && MemberAt(frozen, receipts, j, l, e')
    ensures i == j && m == l
  {
    hide MemberAt, Same;
    var a, b :| OnlyMember(frozen, receipts, a, b, o);
    SameSymmetric(e, e');
    SameTransitive(e', e, o);
  }

  lemma PlacedKeys(original: seq<Entry>, frozen: seq<Entry>, receipts: seq<Receipt>)
    requires AllOnce(original, frozen, receipts)
    ensures KeySet(original) <= KeySet(Expand(frozen, receipts))
  {
    hide KeyOf, MemberAt, Expand, Same;
    forall key | key in KeySet(original) ensures key in KeySet(Expand(frozen, receipts)) {
      var o :| 0 <= o < |original| && KeyOf(original[o]) == key;
      var a, b :| OnlyMember(frozen, receipts, a, b, original[o]);
      KeyExpanded(frozen, receipts, original[o]);
    }
  }

  lemma ExpansionMeans(original: seq<Entry>, frozen: seq<Entry>, receipts: seq<Receipt>)
    ensures Distinct(Keys(Expand(frozen, receipts))) && KeySet(Expand(frozen, receipts)) == KeySet(original)
            <==> AllOriginal(original, frozen, receipts) && AllOnce(original, frozen, receipts)
  {
    hide KeySet, Expand, OnlyMember, AllOriginal, AllApart, Distinct, Keys;
    ExpandApart(frozen, receipts);
    KeysWithin(original, frozen, receipts);
    if AllOriginal(original, frozen, receipts) && AllOnce(original, frozen, receipts) {
      PlacedApart(original, frozen, receipts);
      PlacedKeys(original, frozen, receipts);
    }
    if AllApart(frozen, receipts) && KeySet(original) <= KeySet(Expand(frozen, receipts)) {
      forall o: nat | o < |original| ensures PlacedOnce(frozen, receipts, original[o]) {
        Shown(original, frozen, receipts, o);
      }
    }
  }

  lemma AsStands(original: seq<Entry>, frozen: seq<Entry>, receipts: seq<Receipt>)
    requires Agree(original, receipts)
    ensures AllOriginal(original, frozen, receipts)
            <==> forall i, m, e :: Stands(frozen, receipts, i, m, e) ==> IsOriginal(original, e)
    ensures AllOnce(original, frozen, receipts)
            <==> forall o :: 0 <= o < |original| ==> StandsOnce(frozen, receipts, original[o])
  {
    hide Stands, MemberAt, Same, IsOriginal, Agree;
    forall i: nat, m: nat, e ensures Stands(frozen, receipts, i, m, e) <==> MemberAt(frozen, receipts, i, m, e) {
      StandsMeans(original, frozen, receipts, i, m, e);
    }
    forall i: nat, m: nat, e ensures OnlyStands(frozen, receipts, i, m, e) <==> OnlyMember(frozen, receipts, i, m, e) {
    }
    forall e ensures StandsOnce(frozen, receipts, e) <==> PlacedOnce(frozen, receipts, e) {
    }
  }

  /** With every receipt published, no batch is empty exactly when no receipt is. */
  lemma BatchesMean(original: seq<Entry>, frozen: seq<Entry>, receipts: seq<Receipt>)
    requires Agree(original, receipts) && forall k :: 0 <= k < |receipts| ==> PublishedOnce(frozen, receipts[k])
    ensures NonEmptyBatches(frozen, receipts) <==> forall k :: 0 <= k < |receipts| ==> receipts[k].originals != []
  {
    hide KeyOf;
    forall i, k: nat | 0 <= i < |frozen| && IsBatch(receipts, k, frozen[i])
      ensures Members(receipts, frozen[i]) == receipts[k].originals
    {
      BatchMembers(original, receipts, k, frozen[i]);
    }
    if NonEmptyBatches(frozen, receipts) {
      forall k: nat | k < |receipts| ensures receipts[k].originals != [] {
        assert PublishedOnce(frozen, receipts[k]);
        var i: nat :| OnlyHere(frozen, receipts[k], i);
        assert IsBatch(receipts, k, frozen[i]);
      }
    }
    forall i | 0 <= i < |frozen| && Members(receipts, frozen[i]) == [] ensures exists k: nat :: IsBatch(receipts, k, frozen[i]) {
      FindIs(receipts, KeyOf(frozen[i]));
      CandidateIn(receipts, frozen[i]);
    }
  }

  lemma BatchMembers(original: seq<Entry>, receipts: seq<Receipt>, k: nat, e: Entry)
    requires Agree(original, receipts) && IsBatch(receipts, k, e)
    ensures Members(receipts, e) == receipts[k].originals
  {
    FindIs(receipts, KeyOf(e));
    CandidateIn(receipts, e);
    var found := Find(receipts, KeyOf(e)).value;
    var j :| 0 <= j < |receipts| && receipts[j] == found;
    assert IsBatch(receipts, j, receipts[k].candidate);
  }

  /** The gate lets a database through exactly when it covers the originals. */
  lemma PassesMeans(original: seq<Entry>, frozen: seq<Entry>, receipts: seq<Receipt>)
    ensures Passes(original, frozen, receipts) <==> Covers(original, frozen, receipts)
  {
    hide Distinct, Keys, Consistent, Agree, Apart, NonEmptyBatches, Expand, KeySet, Used, CandidateKeys, PublishedOnce;
    hide AllOriginal, AllOnce, StandsOnce, Stands, IsOriginal;
    MembersApart(original);
    AgreeMeans(original, receipts);
    UsesMean(original, frozen, receipts);
    ExpansionMeans(original, frozen, receipts);
    if Agree(original, receipts) {
      AsStands(original, frozen, receipts);
      if forall k :: 0 <= k < |receipts| ==> PublishedOnce(frozen, receipts[k]) {
        BatchesMean(original, frozen, receipts);
      }
    }
  }
}
