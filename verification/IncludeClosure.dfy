/** `closure`: every file that a main includes, directly or through other includes. */
module IncludeClosure {
  import opened Prelude

  type Edges = map<string, set<string>>

  /** `edges.get(path, ())`. */
  function Includes(edges: Edges, path: string): set<string> {
    if path in edges then edges[path] else {}
  }

  predicate IsChain(edges: Edges, chain: seq<string>) {
    chain != [] && forall i :: 0 <= i < |chain| - 1 ==> chain[i] in edges && chain[i + 1] in edges[chain[i]]
  }

  ghost predicate Reaches(edges: Edges, main: string, path: string) {
    exists chain :: IsChain(edges, chain) && chain[0] == main && Last(chain) == path
  }

  lemma ReachesMore(edges: Edges, main: string, path: string, next: string)
    requires Reaches(edges, main, path) && next in Includes(edges, path)
    ensures Reaches(edges, main, next)
  {
    var chain :| IsChain(edges, chain) && chain[0] == main && Last(chain) == path;
    var longer := chain + [next];
    assert IsChain(edges, longer) && longer[0] == main && Last(longer) == next;
  }

  lemma {:induction false} ClosedHoldsChain(edges: Edges, seen: set<string>, chain: seq<string>)
    requires IsChain(edges, chain) && chain[0] in seen
    requires forall x :: x in seen ==> Includes(edges, x) <= seen
    ensures Last(chain) in seen
    decreases |chain|
  {
    if |chain| > 1 {
      assert chain[1] in Includes(edges, chain[0]);
      ClosedHoldsChain(edges, seen, chain[1..]);
    }
  }

  ghost function Universe(edges: Edges, main: string): set<string> {
    {main} + set x, y | x in edges && y in edges[x] :: y
  }

  /** Work-list search: the result is exactly what some chain of includes reaches. */
  method Closure(main: string, edges: Edges) returns (seen: set<string>)
    ensures main in seen
    ensures forall path :: path in seen <==> Reaches(edges, main, path)
  {
    seen := {main};
    var stack := [main];
    assert IsChain(edges, [main]) && Last([main]) == main;
    while stack != []
      invariant main in seen && seen <= Universe(edges, main)
      invariant forall x :: x in stack ==> x in seen
      invariant forall x :: x in seen ==> Reaches(edges, main, x)
      invariant forall x :: x in seen && x !in stack ==> Includes(edges, x) <= seen
      decreases Universe(edges, main) - seen, |stack|
    {
      var path := Last(stack);
      ghost var seen0, rest := seen, Init(stack);
      assert stack == rest + [path];
      stack := Init(stack);
      var todo := Includes(edges, path);
      while todo != {}
        invariant seen0 <= seen <= Universe(edges, main)
        invariant seen == seen0 ==> stack == rest
        invariant todo <= Includes(edges, path) && Includes(edges, path) - todo <= seen
        invariant forall x :: x in stack ==> x in seen
        invariant forall x :: x in seen ==> Reaches(edges, main, x)
        invariant forall x :: x in seen && x !in stack && x != path ==> Includes(edges, x) <= seen
        decreases todo
      {
        var included :| included in todo;
        todo := todo - {included};
        if included !in seen {
          ReachesMore(edges, main, path, included);
          assert forall x :: x in stack + [included] <==> x in stack || x == included;
          seen := seen + {included};
          stack := stack + [included];
        }
      }
    }
    forall path | Reaches(edges, main, path) ensures path in seen {
      var chain :| IsChain(edges, chain) && chain[0] == main && Last(chain) == path;
      ClosedHoldsChain(edges, seen, chain);
    }
  }
}
