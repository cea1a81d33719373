/** Result and option types shared by the models, and the few facts about sequences they all use. */
module Prelude {
  datatype Option<+T> = None | Some(value: T)

  /** A Python call either returns or raises; the error carries the message that is raised. */
  datatype Result<+T> = Ok(value: T) | Err(reason: string) {
    predicate IsFailure() {
      Err?
    }

    function PropagateFailure<U>(): Result<U>
      requires Err?
    {
      Err(reason)
    }

    function Extract(): T
      requires Ok?
    {
      value
    }
  }

  predicate Distinct<T(==)>(s: seq<T>) {
    forall i, j :: 0 <= i < j < |s| ==> s[i] != s[j]
  }

  function Last<T>(s: seq<T>): T
    requires s != []
  {
    s[|s| - 1]
  }

  function Init<T>(s: seq<T>): seq<T>
    requires s != []
  {
    s[..|s| - 1]
  }

  function Flatten<T>(parts: seq<seq<T>>): seq<T> {
    if parts == [] then [] else Flatten(Init(parts)) + Last(parts)
  }

  function Upto(n: nat): (r: seq<nat>)
    ensures |r| == n && forall i :: 0 <= i < n ==> r[i] == i
  {
    seq(n, i => i)
  }

  function SetOf<T(!new)>(s: seq<T>): (r: set<T>)
    ensures forall x :: x in r <==> x in s
  {
    set x | x in s
  }

  lemma Associates<T>(a: seq<T>, b: seq<T>, c: seq<T>)
    ensures (a + b) + c == a + (b + c)
  {
  }

  lemma FlattenLast<T>(parts: seq<seq<T>>)
    requires parts != []
    ensures Flatten(parts) == Flatten(Init(parts)) + Last(parts)
  {
  }

  lemma {:induction false} FlattenAppend<T>(a: seq<seq<T>>, b: seq<seq<T>>)
    ensures Flatten(a + b) == Flatten(a) + Flatten(b)
  {
    if b == [] {
      assert a + b == a;
    } else {
      hide Flatten;
      FlattenAppend(a, Init(b));
      assert Init(a + b) == a + Init(b) && Last(a + b) == Last(b);
      FlattenLast(a + b);
      FlattenLast(b);
      Associates(Flatten(a), Flatten(Init(b)), Last(b));
    }
  }

  lemma FlattenSnoc<T>(parts: seq<seq<T>>, part: seq<T>)
    ensures Flatten(parts + [part]) == Flatten(parts) + part
  {
    assert Init(parts + [part]) == parts;
  }

  lemma SplitAround<T>(s: seq<T>, k: nat)
    requires k < |s|
    ensures s == (s[..k] + [s[k]]) + s[k + 1..]
  {
  }

  lemma FlattenAround<T>(parts: seq<seq<T>>, k: nat)
    requires k < |parts|
    ensures Flatten(parts) == Flatten(parts[..k]) + parts[k] + Flatten(parts[k + 1..])
  {
    hide Flatten;
    SplitAround(parts, k);
    FlattenAppend(parts[..k] + [parts[k]], parts[k + 1..]);
    FlattenSnoc(parts[..k], parts[k]);
  }

  lemma {:induction false} FlattenMember<T>(parts: seq<seq<T>>, x: T)
    ensures x in Flatten(parts) <==> exists i :: 0 <= i < |parts| && x in parts[i]
  {
    if parts != [] {
      FlattenMember(Init(parts), x);
      assert forall i :: 0 <= i < |parts| - 1 ==> Init(parts)[i] == parts[i];
      assert Last(parts) == parts[|parts| - 1];
    }
  }

  lemma DistinctSnoc<T>(s: seq<T>, x: T)
    ensures Distinct(s + [x]) <==> Distinct(s) && x !in s
  {
    if Distinct(s + [x]) {
      forall i | 0 <= i < |s| ensures s[i] != x { assert (s + [x])[i] != (s + [x])[|s|]; }
      forall i, j | 0 <= i < j < |s| ensures s[i] != s[j] { assert (s + [x])[i] != (s + [x])[j]; }
    }
  }

  lemma MultisetSnoc<T>(s: seq<T>)
    requires s != []
    ensures multiset(s) == multiset(Init(s)) + multiset{Last(s)}
  {
    assert s == Init(s) + [Last(s)];
  }

  lemma MultisetCancel<T>(a: multiset<T>, b: multiset<T>, c: multiset<T>)
    requires a + c == b + c
    ensures a == b
  {
    assert a == (a + c) - c;
    assert b == (b + c) - c;
  }

  lemma MultisetExchange<T>(a: multiset<T>, b: multiset<T>, old': multiset<T>, new': multiset<T>, rest: multiset<T>)
    requires a + old' == b + new'
    ensures (a + rest) + old' == (b + rest) + new'
  {
    assert (a + rest) + old' == (a + old') + rest;
    assert (b + rest) + new' == (b + new') + rest;
  }

  /** A part of a list stays a part when both, or the list alone, grow at the end. */
  lemma PartGrows<T>(part: seq<T>, all: seq<T>, last: seq<T>)
    requires multiset(part) <= multiset(all)
    ensures multiset(part) <= multiset(all + last) && multiset(part + last) <= multiset(all + last)
  {
  }

  /** Replacing one part of a concatenation exchanges exactly its elements. */
  lemma {:induction false} FlattenReplace<T>(parts: seq<seq<T>>, i: nat, part: seq<T>)
    requires i < |parts|
    ensures multiset(Flatten(parts[i := part])) + multiset(parts[i]) == multiset(Flatten(parts)) + multiset(part)
  {
    var after := parts[i := part];
    if i < |parts| - 1 {
      FlattenReplace(Init(parts), i, part);
      assert Init(after) == Init(parts)[i := part];
      MultisetExchange(multiset(Flatten(Init(after))), multiset(Flatten(Init(parts))),
                       multiset(parts[i]), multiset(part), multiset(Last(parts)));
    } else {
      assert Init(after) == Init(parts);
      MultisetExchange(multiset{}, multiset{}, multiset(parts[i]) + multiset(part),
                       multiset(part) + multiset(parts[i]), multiset(Flatten(Init(parts))));
    }
  }

  lemma DistinctIsMultiset<T>(s: seq<T>)
    ensures Distinct(s) <==> forall x :: multiset(s)[x] <= 1
    decreases |s|
  {
    if s != [] {
      DistinctIsMultiset(Init(s));
      MultisetSnoc(s);
      if Distinct(s) {
        forall x ensures multiset(s)[x] <= 1 {
          if x == Last(s) { assert x !in Init(s); }
        }
      } else if Distinct(Init(s)) {
        var i :| 0 <= i < |s| - 1 && s[i] == Last(s);
        assert Init(s)[i] in multiset(Init(s));
        assert multiset(s)[Last(s)] >= 2;
      } else {
        var x :| multiset(Init(s))[x] > 1;
        assert multiset(s)[x] > 1;
      }
    }
  }

  /** A rearrangement of distinct elements has distinct elements. */
  lemma DistinctPermutes<T>(s: seq<T>, t: seq<T>)
    requires multiset(s) == multiset(t) && Distinct(t)
    ensures Distinct(s)
  {
    DistinctIsMultiset(s);
    DistinctIsMultiset(t);
  }

  /** In a concatenation of distinct elements, no element is in two parts. */
  lemma {:induction false} DistinctParts<T>(parts: seq<seq<T>>, i: nat, j: nat, x: T)
    requires Distinct(Flatten(parts)) && i < j < |parts| && x in parts[i]
    ensures x !in parts[j]
  {
    FlattenAround(parts, j);
    var before := Flatten(parts[..j]);
    FlattenMember(parts[..j], x);
    assert parts[..j][i] == parts[i];
    var a :| 0 <= a < |before| && before[a] == x;
    forall b | 0 <= b < |parts[j]| ensures parts[j][b] != x {
      assert Flatten(parts)[a] == x && Flatten(parts)[|before| + b] == parts[j][b];
    }
  }

  /** A concatenation is distinct exactly when both parts are and they share nothing. */
  lemma DistinctConcat<T>(a: seq<T>, b: seq<T>)
    ensures Distinct(a + b) <==> Distinct(a) && Distinct(b) && forall i :: 0 <= i < |b| ==> b[i] !in a
  {
    var s := a + b;
    if Distinct(s) {
      forall i, j | 0 <= i < j < |a| ensures a[i] != a[j] { assert s[i] != s[j]; }
      forall i, j | 0 <= i < j < |b| ensures b[i] != b[j] { assert s[|a| + i] != s[|a| + j]; }
      forall i, j | 0 <= i < |b| && 0 <= j < |a| ensures b[i] != a[j] { assert s[j] != s[|a| + i]; }
    } else if Distinct(a) && Distinct(b) {
      var i, j :| 0 <= i < j < |s| && s[i] == s[j];
      assert b[j - |a|] == a[i];
    }
  }

  function Map<S, T>(f: S -> T, s: seq<S>): (r: seq<T>)
    ensures |r| == |s|
  {
    seq(|s|, i requires 0 <= i < |s| => f(s[i]))
  }

  /** What one function does not tell apart in two lists, a function that tells no more apart does not either. */
  lemma {:induction false} SameMapped<S(!new), T, U>(f: S -> T, g: S -> U, a: seq<S>, b: seq<S>)
    requires forall x, y :: f(x) == f(y) ==> g(x) == g(y)
    requires multiset(Map(f, a)) == multiset(Map(f, b))
    ensures multiset(Map(g, a)) == multiset(Map(g, b))
    decreases |a|
  {
    assert |a| == |multiset(Map(f, a))| == |multiset(Map(f, b))| == |b|;
    if a != [] {
      var x := Last(a);
      MapSnoc(f, a);
      assert f(x) in multiset(Map(f, b));
      var j :| 0 <= j < |b| && Map(f, b)[j] == f(x);
      MapAround(f, b, j);
      MultisetCancel(multiset(Map(f, Init(a))), multiset(Map(f, b[..j] + b[j + 1..])), multiset{f(x)});
      SameMapped(f, g, Init(a), b[..j] + b[j + 1..]);
      MapSnoc(g, a);
      MapAround(g, b, j);
    }
  }

  lemma MapSnoc<S, T>(f: S -> T, a: seq<S>)
    requires a != []
    ensures multiset(Map(f, a)) == multiset(Map(f, Init(a))) + multiset{f(Last(a))}
  {
    assert Map(f, a) == Map(f, Init(a)) + [f(Last(a))];
  }

  lemma MapAround<S, T>(f: S -> T, b: seq<S>, j: nat)
    requires j < |b|
    ensures multiset(Map(f, b)) == multiset(Map(f, b[..j] + b[j + 1..])) + multiset{f(b[j])}
  {
    var before, after := Map(f, b[..j]), Map(f, b[j + 1..]);
    assert Map(f, b) == before + [f(b[j])] + after;
    assert Map(f, b[..j] + b[j + 1..]) == before + after;
  }

  lemma {:induction false} RowSize(k: nat, n: nat)
    ensures |set p: nat | p < n :: (k, p)| == n
  {
    var row := set p: nat | p < n :: (k, p);
    if n == 0 {
      assert row == {};
    } else {
      RowSize(k, n - 1);
      assert row == (set p: nat | p < n - 1 :: (k, p)) + {(k, n - 1)};
    }
  }
}
