/** The loops of `_render_selection` and `_replacements`, and the composition of two families of owners. */
module OwnerRender {
  import opened Prelude
  import opened OwnerSelection

  /** What one accepted record must satisfy against the originals claimed before it. */
  predicate Admissible(n: nat, indexes: seq<int>, claimed: set<int>) {
    ValidOwner(n, indexes) && claimed * Owned(indexes) == {}
  }

  lemma DisjointNext(n: nat, records: seq<Record>, r: Record)
    requires Disjoint(n, records)
    ensures Disjoint(n, records + [r]) <==> !r.accepted || Admissible(n, r.indexes, Claims(records))
    ensures Claims(records + [r]) == Claims(records) + if r.accepted then Owned(r.indexes) else {}
    ensures Anchors(records + [r]) == Anchors(records) + AnchorOf(r)
  {
    assert Init(records + [r]) == records;
    if r.accepted {
      assert forall i :: i in Claims(records) * Owned(r.indexes) <==> i in Claims(records) && i in Owned(r.indexes);
    }
  }

  lemma {:induction false} DisjointPrefix(n: nat, records: seq<Record>, k: nat)
    requires k <= |records| && Disjoint(n, records)
    ensures Disjoint(n, records[..k])
    decreases |records| - k
  {
    if k == |records| {
      assert records[..k] == records;
    } else {
      DisjointPrefix(n, records, k + 1);
      assert Init(records[..k + 1]) == records[..k];
    }
  }

  lemma ConsumedNext(n: nat, records: seq<Record>, r: Record)
    requires Disjoint(n, records + [r]) && r.accepted
    ensures r.indexes != []
    ensures Consumed(records + [r]) == Consumed(records) + (Owned(r.indexes) - {Min(r.indexes)})
  {
    assert Init(records + [r]) == records && Last(records + [r]) == r;
    ConsumedStep(n, records + [r]);
  }

  /** Originals that may be merged at all: unities, and under Tier 1 also exact sources. */
  predicate MayMerge(entries: seq<Entry>, indexes: seq<int>, tier1: bool) {
    forall i :: i in indexes ==> EntryAt(entries, i).isUbt || (tier1 && EntryAt(entries, i).isExact)
  }

  /** Every accepted record merges only such originals, when that is checked at all. */
  predicate AllMayMerge(entries: seq<Entry>, records: seq<Record>, tier1: Option<bool>) {
    tier1.Some? ==> forall k :: 0 <= k < |records| ==>
                      (records[k].accepted ==> MayMerge(entries, records[k].indexes, tier1.value))
  }

  /** The loop over the records: it claims each accepted group or stops at the first that cannot be an owner. */
  method ClaimAll(entries: seq<Entry>, records: seq<Record>, tier1: Option<bool>)
      returns (r: Result<(set<int>, set<int>, set<int>)>)
    ensures r.Ok? <==> Disjoint(|entries|, records) && AllMayMerge(entries, records, tier1)
    ensures r.Ok? ==> r.value == (Consumed(records), Claims(records), Anchors(records))
  {
    hide Disjoint, Admissible, Claims, Anchors, AnchorOf, MayMerge;
    var consumed: set<int>, claimed: set<int>, anchors: set<int> := {}, {}, {};
    NoRecords(|entries|);
    var i := 0;
    while i < |records|
      invariant 0 <= i <= |records|
      invariant Disjoint(|entries|, records[..i]) && AllMayMerge(entries, records[..i], tier1)
      invariant claimed == Claims(records[..i]) && anchors == Anchors(records[..i])
      invariant consumed == Consumed(records[..i])
    {
      var record := records[i];
      assert records[..i + 1] == records[..i] + [record];
      DisjointNext(|entries|, records[..i], record);
      OneAnchor(record);
      if record.accepted {
        if !Admissible(|entries|, record.indexes, claimed) {
          if Disjoint(|entries|, records) { DisjointPrefix(|entries|, records, i + 1); }
          return Err("background-proof-invalid-group");
        }
        if tier1.Some? && !MayMerge(entries, record.indexes, tier1.value) {
          return Err("background-proof-non-ubt-replacement");
        }
        ConsumedNext(|entries|, records[..i], record);
        anchors := anchors + {Min(record.indexes)};
        claimed := claimed + Owned(record.indexes);
        consumed := consumed + (Owned(record.indexes) - {Min(record.indexes)});
      } else {
        assert claimed == claimed + {} && anchors == anchors + {};
      }
      i := i + 1;
    }
    assert records[..i] == records;
    r := Ok((consumed, claimed, anchors));
  }

  lemma OneAnchor(r: Record)
    ensures AnchorOf(r) == if r.accepted && r.indexes != [] then {Min(r.indexes)} else {}
  {
  }

  lemma NoRecords(n: nat)
    ensures Disjoint(n, []) && Claims([]) == {} && Anchors([]) == {} && Consumed([]) == {}
  {
  }

  /** `_render_selection`: it renders exactly the valid selections. */
  method RenderSelection(entries: seq<Entry>, sel: Selection)
      returns (r: Result<(seq<Entry>, set<int>, set<int>)>)
    ensures r.Ok? <==> Valid(|entries|, sel)
    ensures r.Ok? ==> r.value == (Rendered(entries, sel), Consumed(sel.records), Claims(sel.records))
  {
    hide Disjoint, Claims, Anchors;
    var sets :- ClaimAll(entries, sel.records, None);
    var (consumed, claimed, anchors) := sets;
    if anchors != sel.replacements.Keys {
      return Err("background-proof-upgrade-selection-mismatch");
    }
    var output: seq<Entry> := [];
    var i := 0;
    while i < |entries|
      invariant 0 <= i <= |entries|
      invariant output == RenderUpTo(entries, sel.replacements, consumed, i)
    {
      if i !in consumed {
        output := output + [if i in sel.replacements then sel.replacements[i] else entries[i]];
      }
      i := i + 1;
    }
    r := Ok((output, consumed, claimed));
  }

  // ---- `_replacements`: reading a rendered database back -------------------------------------

  /** A candidate that carries its receipt, and whose receipt proves it for these originals. */
  predicate Proven(entries: seq<Entry>, proven: (seq<Entry>, Entry) -> bool, tier1: bool, originals: seq<int>, value: Entry) {
    value.receipt.Some? && value.receipt.value != "" && (tier1 ==> proven(At(entries, originals), value))
  }

  /** The accepted group with this anchor. */
  function OwnerAt(records: seq<Record>, anchor: int): seq<int> {
    if records == [] then []
    else if anchor in AnchorOf(Last(records)) then Last(records).indexes
    else OwnerAt(Init(records), anchor)
  }

  /** The output is the rendering of these groups with proven candidates at their anchors. */
  predicate ReadsBack(entries: seq<Entry>, output: seq<Entry>, records: seq<Record>, tier1: bool,
                      proven: (seq<Entry>, Entry) -> bool, replacements: map<int, Entry>)
  {
    && Valid(|entries|, Selection(replacements, records)) && AllMayMerge(entries, records, Some(tier1))
    && output == Rendered(entries, Selection(replacements, records))
    && forall a :: a in replacements ==> Proven(entries, proven, tier1, OwnerAt(records, a), replacements[a])
  }

  lemma {:induction false} RenderDetermines(entries: seq<Entry>, a: map<int, Entry>, b: map<int, Entry>, consumed: set<int>, n: nat, i: int)
    requires n <= |entries| && a.Keys == b.Keys && i in a && i !in consumed && 0 <= i < n
    requires RenderUpTo(entries, a, consumed, n) == RenderUpTo(entries, b, consumed, n)
    ensures a[i] == b[i]
  {
    var x, y := RenderUpTo(entries, a, consumed, n), RenderUpTo(entries, b, consumed, n);
    RenderLength(entries, a, consumed, n - 1);
    RenderLength(entries, b, consumed, n - 1);
    var p, q := RenderUpTo(entries, a, consumed, n - 1), RenderUpTo(entries, b, consumed, n - 1);
    assert x[..|p|] == p && y[..|q|] == q;
    if i < n - 1 {
      RenderDetermines(entries, a, b, consumed, n - 1, i);
    } else {
      assert x[|p|] == a[i] && y[|p|] == b[i];
    }
  }

  /** Reading back is unambiguous: one output determines the candidates. */
  lemma ReadsBackUnique(entries: seq<Entry>, output: seq<Entry>, records: seq<Record>, tier1: bool,
                        proven: (seq<Entry>, Entry) -> bool, a: map<int, Entry>, b: map<int, Entry>)
    requires ReadsBack(entries, output, records, tier1, proven, a)
    requires ReadsBack(entries, output, records, tier1, proven, b)
    ensures a == b
  {
    hide Disjoint, Claims, Anchors, Proven, AllMayMerge;
    AnchorsClaimed(records);
    ClaimsInRange(|entries|, records);
    forall i | i in a ensures a[i] == b[i] {
      RenderDetermines(entries, a, b, Consumed(records), |entries|, i);
    }
  }

  function ShownAt(entries: seq<Entry>, replacements: map<int, Entry>, i: nat): Entry
    requires i < |entries|
  {
    if i in replacements then replacements[i] else entries[i]
  }

  /** Where an original that is not consumed shows in the rendered database. */
  lemma {:induction false} RenderAt(entries: seq<Entry>, replacements: map<int, Entry>, consumed: set<int>, n: nat, i: nat)
    requires i < n <= |entries| && i !in consumed
    ensures var before, all := RenderUpTo(entries, replacements, consumed, i), RenderUpTo(entries, replacements, consumed, n);
            |before| < |all| && all[|before|] == ShownAt(entries, replacements, i)
  {
    if i < n - 1 { RenderAt(entries, replacements, consumed, n - 1, i); }
  }

  lemma {:induction false} RenderIgnores(entries: seq<Entry>, a: map<int, Entry>, b: map<int, Entry>, consumed: set<int>, n: nat)
    requires n <= |entries|
    requires forall i :: 0 <= i < n ==> ShownAt(entries, a, i) == ShownAt(entries, b, i)
    ensures RenderUpTo(entries, a, consumed, n) == RenderUpTo(entries, b, consumed, n)
  {
    if n > 0 {
      RenderIgnores(entries, a, b, consumed, n - 1);
      assert ShownAt(entries, a, n - 1) == ShownAt(entries, b, n - 1);
    }
  }

  lemma SameLength(entries: seq<Entry>, a: map<int, Entry>, b: map<int, Entry>, consumed: set<int>, n: nat)
    requires n <= |entries|
    ensures |RenderUpTo(entries, a, consumed, n)| == |RenderUpTo(entries, b, consumed, n)|
  {
    RenderLength(entries, a, consumed, n);
    RenderLength(entries, b, consumed, n);
  }

  /** Any reading of the output shows, at the cursor, the candidate or the original of index `i`. */
  lemma CursorShows(entries: seq<Entry>, output: seq<Entry>, records: seq<Record>, tier1: bool,
                    proven: (seq<Entry>, Entry) -> bool, soFar: map<int, Entry>, reading: map<int, Entry>, i: nat)
    requires i < |entries| && i !in Consumed(records) && ReadsBack(entries, output, records, tier1, proven, reading)
    ensures var cursor := |RenderUpTo(entries, soFar, Consumed(records), i)|;
            cursor < |output| && output[cursor] == ShownAt(entries, reading, i)
    ensures i in Anchors(records) <==> i in reading
    ensures i in reading ==> Proven(entries, proven, tier1, OwnerAt(records, i), reading[i])
  {
    hide Disjoint, Claims, Anchors, Proven, AllMayMerge;
    RenderAt(entries, reading, Consumed(records), |entries|, i);
    SameLength(entries, soFar, reading, Consumed(records), i);
  }

  lemma OutputLength(entries: seq<Entry>, output: seq<Entry>, records: seq<Record>, tier1: bool,
                     proven: (seq<Entry>, Entry) -> bool, reading: map<int, Entry>)
    requires ReadsBack(entries, output, records, tier1, proven, reading)
    ensures |output| == |entries| - |Consumed(records)|
  {
    RenderedLength(entries, Selection(reading, records));
    ConsumedSize(|entries|, records);
  }

  /** After the loop: an output as long as the rendering, agreeing with it so far, is the rendering. */
  ghost predicate ReadUpTo(entries: seq<Entry>, output: seq<Entry>, records: seq<Record>, tier1: bool,
                     proven: (seq<Entry>, Entry) -> bool, replacements: map<int, Entry>, i: nat, cursor: nat)
    requires i <= |entries|
  {
    && cursor <= |output| && output[..cursor] == RenderUpTo(entries, replacements, Consumed(records), i)
    && (forall a :: a in replacements <==> a in Anchors(records) && a < i)
    && forall a :: a in replacements ==> Proven(entries, proven, tier1, OwnerAt(records, a), replacements[a])
  }

  lemma FullLength(entries: seq<Entry>, replacements: map<int, Entry>, records: seq<Record>)
    requires Disjoint(|entries|, records)
    ensures |RenderUpTo(entries, replacements, Consumed(records), |entries|)| == |entries| - |Consumed(records)|
  {
    ClaimsInRange(|entries|, records);
    RenderLength(entries, replacements, Consumed(records), |entries|);
    assert Consumed(records) == set i | i in Consumed(records) && 0 <= i < |entries|;
  }

  lemma CursorInRange(entries: seq<Entry>, output: seq<Entry>, records: seq<Record>, tier1: bool,
                      proven: (seq<Entry>, Entry) -> bool, replacements: map<int, Entry>, i: nat, cursor: nat)
    requires Disjoint(|entries|, records) && |output| == |entries| - |Consumed(records)|
    requires i < |entries| && i !in Consumed(records)
    requires ReadUpTo(entries, output, records, tier1, proven, replacements, i, cursor)
    ensures cursor < |output|
  {
    hide Disjoint;
    RenderAt(entries, replacements, Consumed(records), |entries|, i);
    FullLength(entries, replacements, records);
  }

  lemma ReadConsumed(entries: seq<Entry>, output: seq<Entry>, records: seq<Record>, tier1: bool,
                     proven: (seq<Entry>, Entry) -> bool, replacements: map<int, Entry>, i: nat, cursor: nat)
    requires i < |entries| && i in Consumed(records)
    requires ReadUpTo(entries, output, records, tier1, proven, replacements, i, cursor)
    ensures ReadUpTo(entries, output, records, tier1, proven, replacements, i + 1, cursor)
  {
    hide Proven, Anchors, Claims;
  }

  lemma ReadOriginal(entries: seq<Entry>, output: seq<Entry>, records: seq<Record>, tier1: bool,
                     proven: (seq<Entry>, Entry) -> bool, replacements: map<int, Entry>, i: nat, cursor: nat)
    requires i < |entries| && i !in Consumed(records) && i !in Anchors(records) && cursor < |output|
    requires output[cursor] == entries[i]
    requires ReadUpTo(entries, output, records, tier1, proven, replacements, i, cursor)
    ensures ReadUpTo(entries, output, records, tier1, proven, replacements, i + 1, cursor + 1)
  {
    hide Proven, Anchors, Claims;
    assert output[..cursor + 1] == output[..cursor] + [output[cursor]];
  }

  lemma ReadCandidate(entries: seq<Entry>, output: seq<Entry>, records: seq<Record>, tier1: bool,
                      proven: (seq<Entry>, Entry) -> bool, replacements: map<int, Entry>, i: nat, cursor: nat)
    requires i < |entries| && i !in Consumed(records) && i in Anchors(records) && cursor < |output|
    requires Proven(entries, proven, tier1, OwnerAt(records, i), output[cursor])
    requires ReadUpTo(entries, output, records, tier1, proven, replacements, i, cursor)
    ensures ReadUpTo(entries, output, records, tier1, proven, replacements[i := output[cursor]], i + 1, cursor + 1)
  {
    hide Proven, Anchors, Claims;
    assert output[..cursor + 1] == output[..cursor] + [output[cursor]];
    forall k | 0 <= k < i ensures ShownAt(entries, replacements, k) == ShownAt(entries, replacements[i := output[cursor]], k) {
    }
    RenderIgnores(entries, replacements, replacements[i := output[cursor]], Consumed(records), i);
  }

  lemma ReadAll(entries: seq<Entry>, output: seq<Entry>, records: seq<Record>, tier1: bool,
                proven: (seq<Entry>, Entry) -> bool, replacements: map<int, Entry>, cursor: nat)
    requires Disjoint(|entries|, records) && AllMayMerge(entries, records, Some(tier1))
    requires |output| == |entries| - |Consumed(records)|
    requires ReadUpTo(entries, output, records, tier1, proven, replacements, |entries|, cursor)
    ensures ReadsBack(entries, output, records, tier1, proven, replacements)
  {
    hide Disjoint, Anchors, Claims, Proven, AllMayMerge;
    AnchorsClaimed(records);
    ClaimsInRange(|entries|, records);
    FullLength(entries, replacements, records);
    assert output[..cursor] == output;
    forall a ensures a in replacements <==> a in Anchors(records) {
      if a in Anchors(records) { assert a in Claims(records); }
    }
    assert replacements.Keys == Anchors(records);
  }

  /** `_replacements`: it succeeds exactly when the output reads back, and returns the one reading. */
  method Replacements(entries: seq<Entry>, output: seq<Entry>, records: seq<Record>, tier1: bool,
                      proven: (seq<Entry>, Entry) -> bool)
      returns (r: Result<(map<int, Entry>, set<int>, set<int>)>)
    ensures r.Ok? ==> ReadsBack(entries, output, records, tier1, proven, r.value.0)
                      && r.value.1 == Consumed(records) && r.value.2 == Claims(records)
    ensures r.Err? ==> forall reading :: !ReadsBack(entries, output, records, tier1, proven, reading)
  {
    hide Disjoint, Anchors, Claims, Proven, AllMayMerge, ReadUpTo;
    var claims := ClaimAll(entries, records, Some(tier1));
    if claims.Err? {
      return Err(claims.reason);
    }
    var (consumed, claimed, anchors) := claims.value;
    if |output| != |entries| - |consumed| {
      forall reading ensures !ReadsBack(entries, output, records, tier1, proven, reading) {
        if ReadsBack(entries, output, records, tier1, proven, reading) {
          OutputLength(entries, output, records, tier1, proven, reading);
        }
      }
      return Err("background-proof-coverage-mismatch");
    }
    var replacements: map<int, Entry>, cursor: nat := map[], 0;
    NothingRead(entries, output, records, tier1, proven);
    var i := 0;
    while i < |entries|
      invariant 0 <= i <= |entries|
      invariant ReadUpTo(entries, output, records, tier1, proven, replacements, i, cursor)
    {
      if i in consumed {
        ReadConsumed(entries, output, records, tier1, proven, replacements, i, cursor);
      } else {
        CursorInRange(entries, output, records, tier1, proven, replacements, i, cursor);
        var value := output[cursor];
        var good := if i in anchors then Proven(entries, proven, tier1, OwnerAt(records, i), value) else value == entries[i];
        if !good {
          NoReading(entries, output, records, tier1, proven, replacements, i, cursor);
          return Err(if i in anchors then "background-proof-missing-receipt"
                     else "background-proof-original-command-changed");
        }
        if i in anchors {
          ReadCandidate(entries, output, records, tier1, proven, replacements, i, cursor);
          replacements := replacements[i := value];
        } else {
          ReadOriginal(entries, output, records, tier1, proven, replacements, i, cursor);
        }
        cursor := cursor + 1;
      }
      i := i + 1;
    }
    ReadAll(entries, output, records, tier1, proven, replacements, cursor);
    r := Ok((replacements, consumed, claimed));
  }

  lemma NothingRead(entries: seq<Entry>, output: seq<Entry>, records: seq<Record>, tier1: bool,
                    proven: (seq<Entry>, Entry) -> bool)
    requires Disjoint(|entries|, records)
    ensures ReadUpTo(entries, output, records, tier1, proven, map[], 0, 0)
  {
    hide Disjoint, Anchors, Claims, Proven;
    AnchorsClaimed(records);
    ClaimsInRange(|entries|, records);
  }

  /** A candidate without proof, or a changed original, fits no reading. */
  lemma NoReading(entries: seq<Entry>, output: seq<Entry>, records: seq<Record>, tier1: bool,
                  proven: (seq<Entry>, Entry) -> bool, replacements: map<int, Entry>, i: nat, cursor: nat)
    requires i < |entries| && i !in Consumed(records) && cursor < |output|
    requires ReadUpTo(entries, output, records, tier1, proven, replacements, i, cursor)
    requires if i in Anchors(records) then !Proven(entries, proven, tier1, OwnerAt(records, i), output[cursor])
             else output[cursor] != entries[i]
    ensures forall reading :: !ReadsBack(entries, output, records, tier1, proven, reading)
  {
    hide Disjoint, Anchors, Claims, Proven, AllMayMerge, ReadsBack;
    forall reading ensures !ReadsBack(entries, output, records, tier1, proven, reading) {
      if ReadsBack(entries, output, records, tier1, proven, reading) {
        CursorShows(entries, output, records, tier1, proven, replacements, reading, i);
      }
    }
  }

  // ---- `_compose_selection` -----------------------------------------------------------------

  lemma {:induction false} TotalsAppend(a: seq<Record>, b: seq<Record>)
    ensures Claims(a + b) == Claims(a) + Claims(b) && Anchors(a + b) == Anchors(a) + Anchors(b)
    ensures Saved(a + b) == Saved(a) + Saved(b)
  {
    hide AnchorOf;
    if b == [] {
      assert a + b == a;
    } else {
      TotalsAppend(a, Init(b));
      assert Init(a + b) == a + Init(b) && Last(a + b) == Last(b);
    }
  }

  lemma {:induction false} DisjointAppend(n: nat, a: seq<Record>, b: seq<Record>)
    requires Disjoint(n, a) && Disjoint(n, b) && Claims(a) !! Claims(b)
    ensures Disjoint(n, a + b)
  {
    hide ValidOwner;
    if b == [] {
      assert a + b == a;
    } else {
      DisjointAppend(n, a, Init(b));
      TotalsAppend(a, Init(b));
      assert Init(a + b) == a + Init(b) && Last(a + b) == Last(b);
    }
  }

  function Compose(a: Selection, b: Selection): Selection {
    Selection(a.replacements + b.replacements, a.records + b.records)
  }

  /** Two families with disjoint owners compose, and their savings add up. */
  lemma ComposeAdds(entries: seq<Entry>, a: Selection, b: Selection)
    requires Valid(|entries|, a) && Valid(|entries|, b) && Claims(a.records) !! Claims(b.records)
    ensures Valid(|entries|, Compose(a, b))
    ensures |Rendered(entries, Compose(a, b))| == |entries| - Saved(a.records) - Saved(b.records)
  {
    hide Disjoint, Anchors, Claims, Rendered;
    DisjointAppend(|entries|, a.records, b.records);
    TotalsAppend(a.records, b.records);
    RenderedLength(entries, Compose(a, b));
  }
}
