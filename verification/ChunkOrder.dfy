/** `sorted(chunks, key=lambda chunk: chunk[0])`, for chunks that start with different entries. */
module ChunkOrder {
  import opened Prelude
  import opened Sorting

  predicate SortedByFirst(chunks: seq<seq<nat>>) {
    && (forall k :: 0 <= k < |chunks| ==> chunks[k] != [])
    && forall i, j :: 0 <= i < j < |chunks| ==> chunks[i][0] < chunks[j][0]
  }

  predicate StartsDiffer(chunks: seq<seq<nat>>) {
    && (forall k :: 0 <= k < |chunks| ==> chunks[k] != [])
    && forall k, l :: 0 <= k < l < |chunks| ==> chunks[k][0] != chunks[l][0]
  }

  function ByFirst(): (seq<nat>, seq<nat>) -> bool {
    (c, d) => c == [] || (d != [] && c[0] <= d[0])
  }

  /** Two lists sorted by first entry with the same chunks are the same list. */
  lemma {:induction false} SortedIsUnique(a: seq<seq<nat>>, b: seq<seq<nat>>)
    requires SortedByFirst(a) && SortedByFirst(b) && forall c :: c in a <==> c in b
    ensures a == b
  {
    assert a != [] ==> a[0] in a;
    assert b != [] ==> b[0] in b;
    if a != [] && b != [] {
      assert Last(a) in b && Last(b) in a;
      LastIsLargest(a, Last(b));
      LastIsLargest(b, Last(a));
      LastIsUnique(a, Last(b));
      forall c ensures c in Init(a) <==> c in Init(b) {
        InInit(a, c);
        InInit(b, c);
      }
      SortedIsUnique(Init(a), Init(b));
      assert a == Init(a) + [Last(a)] && b == Init(b) + [Last(b)];
    }
  }

  lemma LastIsLargest(a: seq<seq<nat>>, c: seq<nat>)
    requires SortedByFirst(a) && c in a
    ensures c != [] && Last(a) != [] && c[0] <= Last(a)[0]
  {
    var k :| 0 <= k < |a| && a[k] == c;
  }

  lemma LastIsUnique(a: seq<seq<nat>>, c: seq<nat>)
    requires SortedByFirst(a) && c in a && Last(a)[0] == c[0]
    ensures c == Last(a)
  {
    var k :| 0 <= k < |a| && a[k] == c;
  }

  lemma InInit(a: seq<seq<nat>>, c: seq<nat>)
    requires SortedByFirst(a) && a != []
    ensures c in Init(a) <==> c in a && c != Last(a)
  {
    if c in Init(a) {
      var k :| 0 <= k < |a| - 1 && a[k] == c;
      assert a[k][0] < a[|a| - 1][0];
    }
  }

  /** Chunks that start with different entries have one place each. */
  method SortByFirst(chunks: seq<seq<nat>>) returns (sorted: seq<seq<nat>>)
    requires StartsDiffer(chunks)
    ensures SortedByFirst(sorted)
    ensures forall c :: c in sorted <==> c in chunks
  {
    sorted := Sort(ByFirst(), chunks);
    SortPermutes(ByFirst(), chunks);
    SortSorts(ByFirst(), chunks);
    forall c ensures c in sorted <==> c in chunks { assert c in sorted <==> c in multiset(sorted); }
    SortedApart(chunks, sorted);
  }

  lemma StartsOnce(chunks: seq<seq<nat>>, c: seq<nat>, d: seq<nat>)
    requires StartsDiffer(chunks) && c in chunks && d in chunks && c[0] == d[0]
    ensures c == d
  {
    var i :| 0 <= i < |chunks| && chunks[i] == c;
    var j :| 0 <= j < |chunks| && chunks[j] == d;
  }

  lemma SortedApart(chunks: seq<seq<nat>>, sorted: seq<seq<nat>>)
    requires StartsDiffer(chunks) && multiset(sorted) == multiset(chunks) && Sorted(ByFirst(), sorted)
    ensures SortedByFirst(sorted)
  {
    forall k | 0 <= k < |sorted| ensures sorted[k] != [] && sorted[k] in chunks {
      assert sorted[k] in multiset(sorted);
    }
    forall k, l | 0 <= k < l < |chunks| ensures chunks[k] != chunks[l] { assert chunks[k][0] != chunks[l][0]; }
    DistinctPermutes(sorted, chunks);
    forall i, j | 0 <= i < j < |sorted| ensures sorted[i][0] < sorted[j][0] {
      assert ByFirst()(sorted[i], sorted[j]) && sorted[i] != sorted[j];
      if sorted[i][0] == sorted[j][0] { StartsOnce(chunks, sorted[i], sorted[j]); }
    }
  }

  // ---- `sorted(indexes)` --------------------------------------------------------------------

  predicate Ascending(s: seq<nat>) {
    forall i, j :: 0 <= i < j < |s| ==> s[i] <= s[j]
  }

  function AtMost(): (nat, nat) -> bool {
    (a, b) => a <= b
  }

  function SortIndexes(s: seq<nat>): seq<nat> {
    Sort(AtMost(), s)
  }

  lemma SortIndexesSorts(s: seq<nat>)
    ensures Ascending(SortIndexes(s)) && multiset(SortIndexes(s)) == multiset(s)
  {
    SortPermutes(AtMost(), s);
    SortSorts(AtMost(), s);
    assert forall i, j :: 0 <= i < j < |SortIndexes(s)| ==> AtMost()(SortIndexes(s)[i], SortIndexes(s)[j]);
  }
}
