/** `_coverage`: the last, independent check that a published database covers every original command once. */
module CoverageGate {
  import opened Prelude
  import opened OwnerSelection

  /** `_command_key`: the fields that identify a command, output included. */
  datatype Key = Key(directory: string, file: string, arguments: seq<string>, output: Option<string>)

  /** A receipt: its candidate, the originals the candidate stands for, and everything else it says. */
  datatype Receipt = Receipt(candidate: Entry, originals: seq<Entry>, details: string)

  function KeyOf(e: Entry): Key {
    Key(e.directory, e.file, e.arguments, e.output)
  }

  function Keys(entries: seq<Entry>): (r: seq<Key>)
    ensures |r| == |entries|
  {
    seq(|entries|, k requires 0 <= k < |entries| => KeyOf(entries[k]))
  }

  function KeySet(entries: seq<Entry>): set<Key> {
    set key | key in Keys(entries)
  }

  /** The receipt filed under a command key; a later receipt replaces an earlier one. */
  function Find(receipts: seq<Receipt>, key: Key): Option<Receipt> {
    if receipts == [] then None
    else if KeyOf(Last(receipts).candidate) == key then Some(Last(receipts))
    else Find(Init(receipts), key)
  }

  function CandidateKeys(receipts: seq<Receipt>): set<Key> {
    set k | 0 <= k < |receipts| :: KeyOf(receipts[k].candidate)
  }

  /** No two receipts disagree about one candidate, and no candidate is an original command. */
  predicate Consistent(original: seq<Entry>, receipts: seq<Receipt>) {
    && (forall i, j :: 0 <= i < j < |receipts| && KeyOf(receipts[i].candidate) == KeyOf(receipts[j].candidate)
                       ==> receipts[i] == receipts[j])
    && forall k :: 0 <= k < |receipts| ==> KeyOf(receipts[k].candidate) !in KeySet(original)
  }

  function Members(receipts: seq<Receipt>, e: Entry): seq<Entry> {
    match Find(receipts, KeyOf(e)) case Some(receipt) => receipt.originals case None => [e]
  }

  /** The published commands with every batch replaced by the originals its receipt names. */
  function Expand(frozen: seq<Entry>, receipts: seq<Receipt>): seq<Entry> {
    if frozen == [] then [] else Expand(Init(frozen), receipts) + Members(receipts, Last(frozen))
  }

  /** The batches published so far, by key. */
  function Used(frozen: seq<Entry>, receipts: seq<Receipt>): seq<Key> {
    if frozen == [] then [] else
      Used(Init(frozen), receipts)
      + if Find(receipts, KeyOf(Last(frozen))).Some? then [KeyOf(Last(frozen))] else []
  }

  predicate NonEmptyBatches(frozen: seq<Entry>, receipts: seq<Receipt>) {
    forall k :: 0 <= k < |frozen| ==> Members(receipts, frozen[k]) != []
  }

  /** Each original command is listed once by the expansion, and each receipt is used once. */
  ghost predicate Passes(original: seq<Entry>, frozen: seq<Entry>, receipts: seq<Receipt>) {
    && Distinct(Keys(original)) && Consistent(original, receipts) && NonEmptyBatches(frozen, receipts)
    && Distinct(Keys(Expand(frozen, receipts))) && KeySet(Expand(frozen, receipts)) == KeySet(original)
    && Distinct(Used(frozen, receipts)) && (forall key :: key in Used(frozen, receipts) <==> key in CandidateKeys(receipts))
  }

  lemma {:induction false} FindIs(receipts: seq<Receipt>, key: Key)
    ensures Find(receipts, key).Some? <==> key in CandidateKeys(receipts)
    ensures Find(receipts, key).Some? ==>
              Find(receipts, key).value in receipts && KeyOf(Find(receipts, key).value.candidate) == key
  {
    if receipts != [] {
      FindIs(Init(receipts), key);
      if key in CandidateKeys(receipts) {
        var k :| 0 <= k < |receipts| && KeyOf(receipts[k].candidate) == key;
        if k < |receipts| - 1 {
          assert KeyOf(Init(receipts)[k].candidate) == key;
        }
      }
      if Find(Init(receipts), key).Some? {
        var k :| 0 <= k < |Init(receipts)| && Init(receipts)[k] == Find(Init(receipts), key).value;
        assert KeyOf(receipts[k].candidate) == key;
      }
    }
  }

  lemma {:induction false} ExpandPrefix(frozen: seq<Entry>, receipts: seq<Receipt>, i: nat)
    requires i <= |frozen|
    ensures Expand(frozen[..i], receipts) <= Expand(frozen, receipts)
    ensures Used(frozen[..i], receipts) <= Used(frozen, receipts)
    decreases |frozen| - i
  {
    if i == |frozen| {
      assert frozen[..i] == frozen;
    } else {
      ExpandPrefix(frozen, receipts, i + 1);
      assert Init(frozen[..i + 1]) == frozen[..i];
    }
  }

  lemma PrefixDistinct<T>(a: seq<T>, b: seq<T>)
    requires a <= b && Distinct(b)
    ensures Distinct(a)
  {
    assert forall i :: 0 <= i < |a| ==> a[i] == b[i];
  }

  lemma KeysAppend(a: seq<Entry>, b: seq<Entry>)
    ensures Keys(a + b) == Keys(a) + Keys(b) && KeySet(a + b) == KeySet(a) + KeySet(b)
  {
    assert Keys(a + b) == Keys(a) + Keys(b);
  }

  /** A database cannot pass when a part of its expansion repeats a command or leaves the originals. */
  lemma BadPrefix(original: seq<Entry>, frozen: seq<Entry>, receipts: seq<Receipt>, part: seq<Entry>)
    requires part <= Expand(frozen, receipts)
    requires !Distinct(Keys(part)) || !(KeySet(part) <= KeySet(original))
    ensures !Passes(original, frozen, receipts)
  {
    hide Consistent, NonEmptyBatches;
    var all := Expand(frozen, receipts);
    assert all == part + all[|part|..];
    KeysAppend(part, all[|part|..]);
    if Distinct(Keys(all)) { PrefixDistinct(Keys(part), Keys(all)); }
  }

  lemma BadUse(original: seq<Entry>, frozen: seq<Entry>, receipts: seq<Receipt>, i: nat)
    requires i <= |frozen| && !Distinct(Used(frozen[..i], receipts))
    ensures !Passes(original, frozen, receipts)
  {
    hide Consistent, NonEmptyBatches;
    ExpandPrefix(frozen, receipts, i);
    if Distinct(Used(frozen, receipts)) { PrefixDistinct(Used(frozen[..i], receipts), Used(frozen, receipts)); }
  }

  lemma OneMore(entries: seq<Entry>, e: Entry)
    ensures Keys(entries + [e]) == Keys(entries) + [KeyOf(e)] && KeySet(entries + [e]) == KeySet(entries) + {KeyOf(e)}
    ensures Distinct(Keys(entries + [e])) <==> Distinct(Keys(entries)) && KeyOf(e) !in KeySet(entries)
  {
    KeysAppend(entries, [e]);
    assert Keys([e]) == [KeyOf(e)];
    DistinctSnoc(Keys(entries), KeyOf(e));
  }

  /** The originals as the first loop files them: it stops at the first repeated command. */
  method FileOriginals(original: seq<Entry>) returns (r: Result<set<Key>>)
    ensures r.Ok? <==> Distinct(Keys(original))
    ensures r.Ok? ==> r.value == KeySet(original)
  {
    var keys: set<Key> := {};
    var i := 0;
    while i < |original|
      invariant 0 <= i <= |original|
      invariant keys == KeySet(original[..i]) && Distinct(Keys(original[..i]))
    {
      assert original[..i + 1] == original[..i] + [original[i]];
      OneMore(original[..i], original[i]);
      if KeyOf(original[i]) in keys {
        if Distinct(Keys(original)) {
          assert Keys(original[..i + 1]) <= Keys(original);
          PrefixDistinct(Keys(original[..i + 1]), Keys(original));
        }
        return Err("duplicate-original-command");
      }
      keys := keys + {KeyOf(original[i])};
      i := i + 1;
    }
    assert original[..i] == original;
    r := Ok(keys);
  }

  /** `replacements`: the receipts by candidate key. */
  method FileReceipts(originalKeys: set<Key>, ghost original: seq<Entry>, receipts: seq<Receipt>)
      returns (r: Result<map<Key, Receipt>>)
    requires originalKeys == KeySet(original)
    ensures r.Ok? <==> Consistent(original, receipts)
    ensures r.Ok? ==> r.value.Keys == CandidateKeys(receipts)
    ensures r.Ok? ==> forall key :: key in r.value ==> Find(receipts, key) == Some(r.value[key])
  {
    var filed: map<Key, Receipt> := map[];
    var i := 0;
    while i < |receipts|
      invariant 0 <= i <= |receipts|
      invariant Consistent(original, receipts[..i])
      invariant filed.Keys == CandidateKeys(receipts[..i])
      invariant forall key :: key in filed ==> Find(receipts[..i], key) == Some(filed[key])
    {
      var receipt, key := receipts[i], KeyOf(receipts[i].candidate);
      assert Init(receipts[..i + 1]) == receipts[..i];
      if key in filed && filed[key] != receipt {
        FindIs(receipts[..i], key);
        var k :| 0 <= k < i && receipts[k] == filed[key];
        assert KeyOf(receipts[k].candidate) == KeyOf(receipts[i].candidate);
        return Err("conflicting-batch-receipts");
      }
      if key in originalKeys {
        return Err("batch-command-aliases-original");
      }
      ReceiptNext(original, receipts, filed, i);
      filed := filed[key := receipt];
      i := i + 1;
    }
    assert receipts[..i] == receipts;
    r := Ok(filed);
  }

  lemma ReceiptNext(original: seq<Entry>, receipts: seq<Receipt>, filed: map<Key, Receipt>, i: nat)
    requires i < |receipts| && Consistent(original, receipts[..i]) && KeyOf(receipts[i].candidate) !in KeySet(original)
    requires filed.Keys == CandidateKeys(receipts[..i])
    requires forall key :: key in filed ==> Find(receipts[..i], key) == Some(filed[key])
    requires KeyOf(receipts[i].candidate) in filed ==> filed[KeyOf(receipts[i].candidate)] == receipts[i]
    ensures Consistent(original, receipts[..i + 1])
    ensures CandidateKeys(receipts[..i + 1]) == CandidateKeys(receipts[..i]) + {KeyOf(receipts[i].candidate)}
  {
    var key := KeyOf(receipts[i].candidate);
    assert forall k :: 0 <= k < i ==> receipts[..i][k] == receipts[..i + 1][k];
    assert receipts[..i + 1][i] == receipts[i];
    forall k | 0 <= k < i && KeyOf(receipts[k].candidate) == key ensures receipts[k] == receipts[i] {
      assert KeyOf(receipts[..i][k].candidate) == key;
      FindIs(receipts[..i], key);
      var l :| 0 <= l < i && receipts[..i][l] == filed[key];
      assert receipts[..i][k] == receipts[..i][l];
    }
  }

  /** What the main loop has covered after publishing the first `i` commands and `part` of the next one. */
  predicate Covering(original: seq<Entry>, expanded: seq<Entry>, covered: set<Key>) {
    covered == KeySet(expanded) && covered <= KeySet(original) && Distinct(Keys(expanded))
  }

  lemma ExpandNext(frozen: seq<Entry>, receipts: seq<Receipt>, i: nat)
    requires i < |frozen|
    ensures Expand(frozen[..i + 1], receipts) == Expand(frozen[..i], receipts) + Members(receipts, frozen[i])
    ensures Used(frozen[..i + 1], receipts) == Used(frozen[..i], receipts)
            + if Find(receipts, KeyOf(frozen[i])).Some? then [KeyOf(frozen[i])] else []
  {
    assert Init(frozen[..i + 1]) == frozen[..i];
  }

  /** The inner loop: each member must be an original command that nothing has covered yet. */
  method CoverMembers(original: seq<Entry>, originalKeys: set<Key>, ghost frozen: seq<Entry>, ghost receipts: seq<Receipt>,
                      ghost i: nat, members: seq<Entry>, before: set<Key>) returns (r: Result<set<Key>>)
    requires originalKeys == KeySet(original) && i < |frozen| && members == Members(receipts, frozen[i])
    requires Covering(original, Expand(frozen[..i], receipts), before)
    ensures r.Ok? ==> Covering(original, Expand(frozen[..i + 1], receipts), r.value)
    ensures r.Err? ==> !Passes(original, frozen, receipts)
  {
    hide Passes, KeySet, Keys;
    ghost var start := Expand(frozen[..i], receipts);
    ExpandNext(frozen, receipts, i);
    ExpandPrefix(frozen, receipts, i + 1);
    var covered, j := before, 0;
    assert start + members[..0] == start;
    while j < |members|
      invariant 0 <= j <= |members|
      invariant Covering(original, start + members[..j], covered)
    {
      var key := KeyOf(members[j]);
      assert start + members[..j + 1] == (start + members[..j]) + [members[j]];
      OneMore(start + members[..j], members[j]);
      if key !in originalKeys {
        BadPrefix(original, frozen, receipts, start + members[..j + 1]);
        return Err("batch-original-command-changed");
      }
      if key in covered {
        BadPrefix(original, frozen, receipts, start + members[..j + 1]);
        return Err("original-command-covered-more-than-once");
      }
      covered := covered + {key};
      j := j + 1;
    }
    assert members[..j] == members;
    r := Ok(covered);
  }

  lemma BadMembers(original: seq<Entry>, frozen: seq<Entry>, receipts: seq<Receipt>, i: nat)
    requires i < |frozen| && Members(receipts, frozen[i]) == []
    ensures !Passes(original, frozen, receipts)
  {
  }

  lemma Unproven(original: seq<Entry>, frozen: seq<Entry>, receipts: seq<Receipt>, i: nat)
    requires i < |frozen| && Find(receipts, KeyOf(frozen[i])) == None && KeyOf(frozen[i]) !in KeySet(original)
    ensures !Passes(original, frozen, receipts)
  {
    hide Passes, KeySet, Keys;
    ExpandNext(frozen, receipts, i);
    ExpandPrefix(frozen, receipts, i + 1);
    OneMore(Expand(frozen[..i], receipts), frozen[i]);
    BadPrefix(original, frozen, receipts, Expand(frozen[..i + 1], receipts));
  }

  predicate Tracks(frozen: seq<Entry>, receipts: seq<Receipt>, used: set<Key>) {
    used == (set key | key in Used(frozen, receipts)) && Distinct(Used(frozen, receipts))
  }

  lemma UseNext(frozen: seq<Entry>, receipts: seq<Receipt>, used: set<Key>, i: nat)
    requires i < |frozen| && Tracks(frozen[..i], receipts, used)
    ensures var key := KeyOf(frozen[i]);
            if Find(receipts, key).Some?
            then (key !in used <==> Distinct(Used(frozen[..i + 1], receipts)))
                 && (key !in used ==> Tracks(frozen[..i + 1], receipts, used + {key}))
            else Tracks(frozen[..i + 1], receipts, used)
  {
    ExpandNext(frozen, receipts, i);
    DistinctSnoc(Used(frozen[..i], receipts), KeyOf(frozen[i]));
  }

  /** `_coverage`: it succeeds exactly when the published database passes. */
  method Coverage(original: seq<Entry>, frozen: seq<Entry>, receipts: seq<Receipt>) returns (r: Result<bool>)
    ensures r.Ok? <==> Passes(original, frozen, receipts)
  {
    hide Passes, KeySet, Keys, Consistent, Covering, Tracks;
    var originalKeys := FileOriginals(original);
    if originalKeys.Err? {
      NeedsDistinct(original, frozen, receipts);
      return Err(originalKeys.reason);
    }
    var replacements := FileReceipts(originalKeys.value, original, receipts);
    if replacements.Err? {
      NeedsDistinct(original, frozen, receipts);
      return Err(replacements.reason);
    }
    var covered: set<Key>, used: set<Key> := {}, {};
    NothingCovered(original, receipts);
    assert frozen[..0] == [];
    var i := 0;
    while i < |frozen|
      invariant 0 <= i <= |frozen|
      invariant NonEmptyBatches(frozen[..i], receipts)
      invariant Covering(original, Expand(frozen[..i], receipts), covered)
      invariant Tracks(frozen[..i], receipts, used)
    {
      var key := KeyOf(frozen[i]);
      FindIs(receipts, key);
      UseNext(frozen, receipts, used, i);
      if key !in replacements.value && key !in originalKeys.value {
        Unproven(original, frozen, receipts, i);
        return Err("published-command-is-not-proven");
      }
      if key in replacements.value {
        if key in used {
          BadUse(original, frozen, receipts, i + 1);
          return Err("published-batch-covered-more-than-once");
        }
        used := used + {key};
        if replacements.value[key].originals == [] {
          BadMembers(original, frozen, receipts, i);
          return Err("batch-has-no-original-commands");
        }
      }
      var members := if key in replacements.value then replacements.value[key].originals else [frozen[i]];
      covered :- CoverMembers(original, originalKeys.value, frozen, receipts, i, members, covered);
      i := i + 1;
    }
    assert frozen[..i] == frozen;
    FinalCheck(original, frozen, receipts, covered, used);
    if covered != originalKeys.value || used != replacements.value.Keys {
      return Err("published-batch-coverage-changed");
    }
    r := Ok(true);
  }

  lemma NeedsDistinct(original: seq<Entry>, frozen: seq<Entry>, receipts: seq<Receipt>)
    ensures Passes(original, frozen, receipts) ==> Distinct(Keys(original)) && Consistent(original, receipts)
  {
  }

  lemma NothingCovered(original: seq<Entry>, receipts: seq<Receipt>)
    ensures NonEmptyBatches([], receipts) && Covering(original, Expand([], receipts), {}) && Tracks([], receipts, {})
  {
  }

  lemma FinalCheck(original: seq<Entry>, frozen: seq<Entry>, receipts: seq<Receipt>, covered: set<Key>, used: set<Key>)
    requires Distinct(Keys(original)) && Consistent(original, receipts) && NonEmptyBatches(frozen, receipts)
    requires Covering(original, Expand(frozen, receipts), covered) && Tracks(frozen, receipts, used)
    ensures Passes(original, frozen, receipts) <==> covered == KeySet(original) && used == CandidateKeys(receipts)
  {
    hide Consistent, NonEmptyBatches, Keys, KeySet, CandidateKeys;
  }
}
