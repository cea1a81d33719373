/** Greedy division of a list into consecutive runs: no division has fewer runs, whatever the limits on a run are. */
module GreedyDivision {
  import opened Prelude

  /** The last run takes the new element when the whole still fits; otherwise the element opens a run. */
  function Extend<T>(fits: seq<T> -> bool, runs: seq<seq<T>>, x: T): seq<seq<T>> {
    if runs != [] && fits(Last(runs) + [x]) then Init(runs) + [Last(runs) + [x]] else runs + [[x]]
  }

  function Greedy<T>(fits: seq<T> -> bool, items: seq<T>): seq<seq<T>> {
    if items == [] then [] else Extend(fits, Greedy(fits, Init(items)), Last(items))
  }

  /** A run is one element, whether it fits or not, or it fits. */
  predicate Allowed<T>(fits: seq<T> -> bool, run: seq<T>) {
    run != [] && (|run| == 1 || fits(run))
  }

  predicate Division<T(==)>(fits: seq<T> -> bool, items: seq<T>, runs: seq<seq<T>>) {
    Flatten(runs) == items && forall k :: 0 <= k < |runs| ==> Allowed(fits, runs[k])
  }

  /** What fits still fits when it loses a beginning or an end. */
  ghost predicate Closed<T(!new)>(fits: seq<T> -> bool) {
    forall s: seq<T>, k: nat :: k <= |s| && fits(s) ==> fits(s[..k]) && fits(s[k..])
  }

  lemma ExtendDivides<T>(fits: seq<T> -> bool, items: seq<T>, runs: seq<seq<T>>, x: T)
    requires Division(fits, items, runs)
    ensures Division(fits, items + [x], Extend(fits, runs, x)) && Extend(fits, runs, x) != []
  {
    hide Flatten;
    if runs != [] && fits(Last(runs) + [x]) {
      FlattenSnoc(Init(runs), Last(runs) + [x]);
      FlattenLast(runs);
      Associates(Flatten(Init(runs)), Last(runs), [x]);
    } else {
      FlattenSnoc(runs, [x]);
    }
  }

  lemma {:induction false} GreedyDivides<T>(fits: seq<T> -> bool, items: seq<T>)
    ensures Division(fits, items, Greedy(fits, items))
    ensures items != [] ==> Greedy(fits, items) != []
  {
    hide Allowed, Extend;
    if items != [] {
      GreedyDivides(fits, Init(items));
      ExtendDivides(fits, Init(items), Greedy(fits, Init(items)), Last(items));
      assert items == Init(items) + [Last(items)];
    }
  }

  /** Dropping the last element of a division leaves a division of what is left. */
  function DropLast<T>(runs: seq<seq<T>>): seq<seq<T>>
    requires runs != [] && Last(runs) != []
  {
    if |Last(runs)| == 1 then Init(runs) else Init(runs) + [Init(Last(runs))]
  }

  lemma DropLastDivides<T(!new)>(fits: seq<T> -> bool, items: seq<T>, runs: seq<seq<T>>)
    requires Closed(fits) && items != [] && Division(fits, items, runs)
    ensures runs != [] && Last(runs) != [] && Last(Last(runs)) == Last(items)
    ensures Division(fits, Init(items), DropLast(runs))
  {
    var d := Last(runs);
    assert Allowed(fits, runs[|runs| - 1]);
    assert Flatten(runs) == Flatten(Init(runs)) + d;
    assert Init(items) == Flatten(Init(runs)) + Init(d);
    if |d| > 1 {
      assert fits(d[..|d| - 1]);
      assert Init(DropLast(runs)) == Init(runs);
    }
  }

  /** When greedy has used as many runs as the rival, the rival's last run shows that the next element still fits. */
  lemma TieExtends<T(!new)>(fits: seq<T> -> bool, items: seq<T>, rival: seq<seq<T>>, before: seq<seq<T>>)
    requires Closed(fits) && items != [] && Division(fits, items, rival) && rival != []
    requires Division(fits, Init(items), before) && before != []
    requires |Last(before)| < |Last(rival)|
    ensures fits(Last(before) + [Last(items)])
  {
    var last, d := Last(before), Last(rival);
    assert Allowed(fits, before[|before| - 1]) && Allowed(fits, rival[|rival| - 1]);
    assert Init(items) == Flatten(Init(before)) + last;
    assert items == Flatten(Init(rival)) + d;
    assert last + [Last(items)] == items[|items| - |last| - 1..];
    assert last + [Last(items)] == d[|d| - |last| - 1..];
  }

  /** Greedy stays ahead: never more runs than another division, and on a tie never a longer last run. */
  lemma {:induction false} GreedyStaysAhead<T(!new)>(fits: seq<T> -> bool, items: seq<T>, rival: seq<seq<T>>)
    requires Closed(fits) && Division(fits, items, rival)
    ensures var runs := Greedy(fits, items);
            && |runs| <= |rival|
            && (runs != [] && |runs| == |rival| ==> |Last(runs)| <= |Last(rival)|)
  {
    hide Closed;
    if items != [] {
      var before := Greedy(fits, Init(items));
      DropLastDivides(fits, items, rival);
      GreedyStaysAhead(fits, Init(items), DropLast(rival));
      GreedyDivides(fits, Init(items));
      if |before| == |rival| { TieExtends(fits, items, rival, before); }
    }
  }
}
