/** Python's `sorted`: stable, by a total preorder; by a total order it forgets exactly the order of the list. */
module Sorting {
  import opened Prelude

  ghost predicate IsPreorder<T(!new)>(le: (T, T) -> bool) {
    && (forall x, y :: le(x, y) || le(y, x))
    && (forall x, y, z :: le(x, y) && le(y, z) ==> le(x, z))
  }

  ghost predicate IsOrder<T(!new)>(le: (T, T) -> bool) {
    IsPreorder(le) && forall x, y :: le(x, y) && le(y, x) ==> x == y
  }

  predicate Sorted<T>(le: (T, T) -> bool, s: seq<T>) {
    forall i, j :: 0 <= i < j < |s| ==> le(s[i], s[j])
  }

  function Insert<T>(le: (T, T) -> bool, s: seq<T>, x: T): (r: seq<T>) {
    if s == [] || le(Last(s), x) then s + [x] else Insert(le, Init(s), x) + [Last(s)]
  }

  function Sort<T>(le: (T, T) -> bool, s: seq<T>): (r: seq<T>) {
    if s == [] then [] else Insert(le, Sort(le, Init(s)), Last(s))
  }

  lemma {:induction false} InsertPermutes<T>(le: (T, T) -> bool, s: seq<T>, x: T)
    ensures multiset(Insert(le, s, x)) == multiset(s) + multiset{x}
  {
    if !(s == [] || le(Last(s), x)) {
      InsertPermutes(le, Init(s), x);
      MultisetSnoc(s);
    }
  }

  lemma {:induction false} InsertSorts<T(!new)>(le: (T, T) -> bool, s: seq<T>, x: T)
    requires IsPreorder(le) && Sorted(le, s)
    ensures Sorted(le, Insert(le, s, x))
  {
    if s == [] {
    } else if le(Last(s), x) {
      forall i | 0 <= i < |s| ensures le(s[i], x) {
        if i < |s| - 1 { assert le(s[i], Last(s)); }
      }
    } else {
      InsertSorts(le, Init(s), x);
      InsertPermutes(le, Init(s), x);
      var before := Insert(le, Init(s), x);
      forall i | 0 <= i < |before| ensures le(before[i], Last(s)) {
        assert before[i] in multiset(before);
        if before[i] != x {
          assert before[i] in Init(s);
          var k :| 0 <= k < |s| - 1 && s[k] == before[i];
        }
      }
    }
  }

  lemma {:induction false} SortPermutes<T>(le: (T, T) -> bool, s: seq<T>)
    ensures multiset(Sort(le, s)) == multiset(s) && |Sort(le, s)| == |s|
  {
    if s != [] {
      SortPermutes(le, Init(s));
      InsertPermutes(le, Sort(le, Init(s)), Last(s));
      MultisetSnoc(s);
    }
    assert |multiset(Sort(le, s))| == |multiset(s)|;
  }

  lemma {:induction false} SortSorts<T(!new)>(le: (T, T) -> bool, s: seq<T>)
    requires IsPreorder(le)
    ensures Sorted(le, Sort(le, s))
  {
    hide IsPreorder, Insert;
    if s != [] {
      SortSorts(le, Init(s));
      InsertSorts(le, Sort(le, Init(s)), Last(s));
    }
  }

  // ---- stability ------------------------------------------------------------------------------

  /** The chosen elements, in the order in which they occur. */
  function Select<T>(chosen: T -> bool, s: seq<T>): seq<T> {
    if s == [] then [] else Select(chosen, Init(s)) + if chosen(Last(s)) then [Last(s)] else []
  }

  /** How many of the first `k` elements are chosen. */
  ghost function ChosenBelow<T>(chosen: T -> bool, s: seq<T>, k: nat): nat
    requires k <= |s|
  {
    |set j | 0 <= j < k && chosen(s[j])|
  }

  lemma ChosenStep<T>(chosen: T -> bool, s: seq<T>, k: nat)
    requires k < |s|
    ensures ChosenBelow(chosen, s, 0) == 0
    ensures ChosenBelow(chosen, s, k + 1) == ChosenBelow(chosen, s, k) + if chosen(s[k]) then 1 else 0
  {
    var before, after := set j | 0 <= j < k && chosen(s[j]), set j | 0 <= j < k + 1 && chosen(s[j]);
    assert after == before + if chosen(s[k]) then {k} else {};
  }

  lemma ChosenInit<T>(chosen: T -> bool, s: seq<T>, k: nat)
    requires k < |s|
    ensures ChosenBelow(chosen, Init(s), k) == ChosenBelow(chosen, s, k)
  {
    assert (set j | 0 <= j < k && chosen(Init(s)[j])) == set j | 0 <= j < k && chosen(s[j]);
  }

  lemma {:induction false} SelectLength<T>(chosen: T -> bool, s: seq<T>)
    ensures |Select(chosen, s)| == ChosenBelow(chosen, s, |s|)
  {
    hide ChosenBelow;
    if s == [] {
      assert ChosenBelow(chosen, s, 0) == 0 by { NoneChosen(chosen, s); }
    } else {
      SelectLength(chosen, Init(s));
      ChosenInit(chosen, s, |s| - 1);
      ChosenStep(chosen, s, |s| - 1);
    }
  }

  lemma NoneChosen<T>(chosen: T -> bool, s: seq<T>)
    ensures ChosenBelow(chosen, s, 0) == 0
  {
  }

  /** A chosen element stands behind as many others as were chosen before it. */
  lemma {:induction false} SelectMeans<T>(chosen: T -> bool, s: seq<T>, k: nat)
    requires k < |s| && chosen(s[k])
    ensures |Select(chosen, s)| == ChosenBelow(chosen, s, |s|) && ChosenBelow(chosen, s, k) < |Select(chosen, s)|
    ensures Select(chosen, s)[ChosenBelow(chosen, s, k)] == s[k]
  {
    hide ChosenBelow;
    SelectLength(chosen, s);
    SelectLength(chosen, Init(s));
    ChosenInit(chosen, s, |s| - 1);
    if k < |s| - 1 {
      SelectMeans(chosen, Init(s), k);
      ChosenInit(chosen, s, k);
    }
  }

  lemma SelectSnoc<T>(chosen: T -> bool, s: seq<T>, x: T)
    ensures Select(chosen, s + [x]) == Select(chosen, s) + if chosen(x) then [x] else []
  {
    assert Init(s + [x]) == s;
  }

  lemma {:induction false} InsertIsStable<T(!new)>(le: (T, T) -> bool, chosen: T -> bool, s: seq<T>, x: T)
    requires forall y, z :: chosen(y) && chosen(z) ==> le(y, z)
    ensures Select(chosen, Insert(le, s, x)) == Select(chosen, s + [x])
  {
    if !(s == [] || le(Last(s), x)) {
      InsertIsStable(le, chosen, Init(s), x);
      SelectSnoc(chosen, Insert(le, Init(s), x), Last(s));
      SelectSnoc(chosen, Init(s), x);
      SelectSnoc(chosen, s, x);
    }
  }

  /** Elements that compare equal keep their order. */
  lemma {:induction false} SortIsStable<T(!new)>(le: (T, T) -> bool, chosen: T -> bool, s: seq<T>)
    requires forall y, z :: chosen(y) && chosen(z) ==> le(y, z)
    ensures Select(chosen, Sort(le, s)) == Select(chosen, s)
  {
    if s != [] {
      SortIsStable(le, chosen, Init(s));
      InsertIsStable(le, chosen, Sort(le, Init(s)), Last(s));
      SelectSnoc(chosen, Sort(le, Init(s)), Last(s));
    }
  }

  // ---- total orders ---------------------------------------------------------------------------

  lemma LastIsLargest<T(!new)>(le: (T, T) -> bool, a: seq<T>, b: seq<T>)
    requires IsOrder(le) && a != [] && Sorted(le, a) && multiset(a) == multiset(b)
    ensures b != [] && le(Last(b), Last(a))
  {
    assert Last(a) in multiset(a);
    assert Last(a) in b;
    assert Last(b) in multiset(b);
    assert Last(b) in a;
    var k :| 0 <= k < |a| && a[k] == Last(b);
    assert le(Last(a), Last(a)) || k < |a| - 1;
  }

  /** Two sorted lists of the same elements are the same list. */
  lemma {:induction false} SortedIsUnique<T(!new)>(le: (T, T) -> bool, a: seq<T>, b: seq<T>)
    requires IsOrder(le) && Sorted(le, a) && Sorted(le, b) && multiset(a) == multiset(b)
    ensures a == b
    decreases |a|
  {
    assert |a| == |multiset(a)| == |multiset(b)| == |b|;
    if a != [] {
      LastIsLargest(le, a, b);
      LastIsLargest(le, b, a);
      MultisetSnoc(a);
      MultisetSnoc(b);
      assert a == Init(a) + [Last(a)] && b == Init(b) + [Last(b)];
      MultisetCancel(multiset(Init(a)), multiset(Init(b)), multiset{Last(a)});
      SortedIsUnique(le, Init(a), Init(b));
    }
  }

  /** Sorting forgets exactly the order. */
  lemma SortForgetsOrder<T(!new)>(le: (T, T) -> bool, a: seq<T>, b: seq<T>)
    requires IsOrder(le)
    ensures Sort(le, a) == Sort(le, b) <==> multiset(a) == multiset(b)
  {
    SortPermutes(le, a);
    SortPermutes(le, b);
    if multiset(a) == multiset(b) {
      SortSorts(le, a);
      SortSorts(le, b);
      SortedIsUnique(le, Sort(le, a), Sort(le, b));
    }
  }
}
