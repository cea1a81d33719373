/** `canonical_file_graph`: shards in any order, with their records in any order, give one graph or are refused. */
module FileGraph {
  import opened Prelude
  import opened Sorting
  import opened ShardBytes
  import opened ShardFormat
  import opened ShardOwnerAgrees
  import Keys = RecordKeys

  datatype Entry = Entry(symbols: seq<Symbol>, refs: seq<Ref>, relations: seq<Relation>, source: Node)

  /** How records and paths are sorted. */
  datatype Orders = Orders(symbols: (Symbol, Symbol) -> bool, refs: (Ref, Ref) -> bool,
                           relations: (Relation, Relation) -> bool, headers: (Header, Header) -> bool,
                           uris: (Bytes, Bytes) -> bool)

  ghost predicate AreOrders(o: Orders) {
    IsOrder(o.symbols) && IsOrder(o.refs) && IsOrder(o.relations) && IsOrder(o.headers) && IsOrder(o.uris)
  }

  // ---- the orders of the keys -----------------------------------------------------------------

  function SymbolKey(r: Keys.Rendering, x: Symbol): Keys.Key {
    Keys.SymbolFits(r, x);
    Keys.RecordKey(Keys.OfSymbol(r, x))
  }

  function RefKey(r: Keys.Rendering, x: Ref): Keys.Key {
    Keys.RefFits(r, x);
    Keys.RecordKey(Keys.OfRef(r, x))
  }

  function RelationKey(r: Keys.Rendering, x: Relation): Keys.Key {
    Keys.RelationFits(r, x);
    Keys.RecordKey(Keys.OfRelation(r, x))
  }

  function HeaderKey(r: Keys.Rendering, x: Header): Keys.Key {
    Keys.HeaderFits(r, x);
    Keys.RecordKey(Keys.OfHeader(r, x))
  }

  function ByKey<T(!new)>(key: T -> Keys.Key, le: (Keys.Key, Keys.Key) -> bool): (T, T) -> bool {
    (a, b) => le(key(a), key(b))
  }

  /** Comparing records by their keys, and paths as text. */
  function KeyOrders(r: Keys.Rendering, le: (Keys.Key, Keys.Key) -> bool): Orders {
    Orders(ByKey(x => SymbolKey(r, x), le), ByKey(x => RefKey(r, x), le), ByKey(x => RelationKey(r, x), le),
           ByKey(x => HeaderKey(r, x), le), ByKey(x => Keys.TextKey(r.text(x)), le))
  }

  lemma Induced<T(!new)>(key: T -> Keys.Key, le: (Keys.Key, Keys.Key) -> bool)
    requires IsOrder(le) && forall x, y :: key(x) == key(y) ==> x == y
    ensures IsOrder(ByKey(key, le))
  {
    var order := ByKey(key, le);
    assert forall x, y :: order(x, y) <==> le(key(x), key(y));
  }

  /** Sorting by key is sorting by a total order of the records, since no two records share a key. */
  lemma KeysOrderRecords(r: Keys.Rendering, le: (Keys.Key, Keys.Key) -> bool)
    requires Keys.IsRendering(r) && IsOrder(le)
    ensures AreOrders(KeyOrders(r, le))
  {
    hide IsOrder, SymbolKey, RefKey, RelationKey, HeaderKey;
    forall a, b | SymbolKey(r, a) == SymbolKey(r, b) ensures a == b { SymbolKeyTells(r, a, b); }
    forall a, b | RefKey(r, a) == RefKey(r, b) ensures a == b { RefKeyTells(r, a, b); }
    forall a, b | RelationKey(r, a) == RelationKey(r, b) ensures a == b { RelationKeyTells(r, a, b); }
    forall a, b | HeaderKey(r, a) == HeaderKey(r, b) ensures a == b { HeaderKeyTells(r, a, b); }
    Induced(x => SymbolKey(r, x), le);
    Induced(x => RefKey(r, x), le);
    Induced(x => RelationKey(r, x), le);
    Induced(x => HeaderKey(r, x), le);
    Induced(x => Keys.TextKey(r.text(x)), le);
  }

  lemma SymbolKeyTells(r: Keys.Rendering, a: Symbol, b: Symbol)
    requires Keys.IsRendering(r) && SymbolKey(r, a) == SymbolKey(r, b)
    ensures a == b
  {
    Keys.SymbolKeys(r, a, b);
  }

  lemma RefKeyTells(r: Keys.Rendering, a: Ref, b: Ref)
    requires Keys.IsRendering(r) && RefKey(r, a) == RefKey(r, b)
    ensures a == b
  {
    Keys.RefKeys(r, a, b);
  }

  lemma RelationKeyTells(r: Keys.Rendering, a: Relation, b: Relation)
    requires Keys.IsRendering(r) && RelationKey(r, a) == RelationKey(r, b)
    ensures a == b
  {
    Keys.RelationKeys(r, a, b);
  }

  lemma HeaderKeyTells(r: Keys.Rendering, a: Header, b: Header)
    requires Keys.IsRendering(r) && HeaderKey(r, a) == HeaderKey(r, b)
    ensures a == b
  {
    Keys.OneHeaderKeys(r, a, b);
  }

  // ---- the entry of one shard -----------------------------------------------------------------

  function SortHeaders(o: Orders, s: Symbol): Symbol {
    s.(headers := Sort(o.headers, s.headers))
  }

  function EntryOf(o: Orders, shard: Shard, node: Node): Entry {
    Entry(Sort(o.symbols, Map(s => SortHeaders(o, s), shard.symbols)), Sort(o.refs, shard.refs),
          Sort(o.relations, shard.relations), node.(includes := Sort(o.uris, node.includes)))
  }

  /** A symbol without the order of its include headers. */
  function View(s: Symbol): (Symbol, multiset<Header>) {
    (s.(headers := []), multiset(s.headers))
  }

  /** Both shards say the same, up to the order in which they say it. */
  predicate SameRecords(a: Shard, m: Node, b: Shard, n: Node) {
    && multiset(Map(View, a.symbols)) == multiset(Map(View, b.symbols))
    && multiset(a.refs) == multiset(b.refs) && multiset(a.relations) == multiset(b.relations)
    && m.flags == n.flags && m.digest == n.digest && multiset(m.includes) == multiset(n.includes)
  }

  lemma SortedSymbol(o: Orders, x: Symbol, y: Symbol)
    requires IsOrder(o.headers)
    ensures SortHeaders(o, x) == SortHeaders(o, y) <==> View(x) == View(y)
  {
    hide IsOrder, Sort;
    SortForgetsOrder(o.headers, x.headers, y.headers);
    var a, b := SortHeaders(o, x), SortHeaders(o, y);
    assert a.headers == Sort(o.headers, x.headers) && b.headers == Sort(o.headers, y.headers);
    assert x.(headers := []) == a.(headers := []) && y.(headers := []) == b.(headers := []);
    if View(x) == View(y) { assert a == x.(headers := []).(headers := a.headers); }
  }

  lemma SortedSymbols(o: Orders, a: seq<Symbol>, b: seq<Symbol>)
    requires AreOrders(o)
    ensures Sort(o.symbols, Map(s => SortHeaders(o, s), a)) == Sort(o.symbols, Map(s => SortHeaders(o, s), b))
            <==> multiset(Map(View, a)) == multiset(Map(View, b))
  {
    hide IsOrder, Sort, SortHeaders, View;
    var sorted := (s: Symbol) => SortHeaders(o, s);
    forall x, y ensures sorted(x) == sorted(y) <==> View(x) == View(y) { SortedSymbol(o, x, y); }
    SortForgetsOrder(o.symbols, Map(sorted, a), Map(sorted, b));
    if multiset(Map(View, a)) == multiset(Map(View, b)) { SameMapped(View, sorted, a, b); }
    if multiset(Map(sorted, a)) == multiset(Map(sorted, b)) { SameMapped(sorted, View, a, b); }
  }

  /** The entry is canonical: two shards of a file have one entry exactly when they say the same, in whatever order. */
  lemma EntryIsCanonical(o: Orders, a: Shard, m: Node, b: Shard, n: Node)
    requires AreOrders(o)
    ensures EntryOf(o, a, m) == EntryOf(o, b, n) <==> SameRecords(a, m, b, n)
  {
    hide IsOrder, Sort, SortHeaders, View;
    SortedSymbols(o, a.symbols, b.symbols);
    SortForgetsOrder(o.refs, a.refs, b.refs);
    SortForgetsOrder(o.relations, a.relations, b.relations);
    SortForgetsOrder(o.uris, m.includes, n.includes);
    var x, y := m.(includes := Sort(o.uris, m.includes)), n.(includes := Sort(o.uris, n.includes));
    assert x == y <==> m.flags == n.flags && m.digest == n.digest && x.includes == y.includes;
  }

  // ---- the graph ------------------------------------------------------------------------------

  /** The shard describes this file: it is a node with a digest. */
  predicate Owning(shard: Shard, uri: Bytes) {
    uri in OwnUris(shard.sources)
  }

  predicate Bare(shard: Shard) {
    shard.symbols == [] && shard.refs == [] && shard.relations == []
  }

  /** One file to a shard, one entry to a file, and nothing in a file to be ignored. */
  ghost predicate Canonicalizable(o: Orders, shards: seq<Shard>, ignored: set<Bytes>) {
    && (forall i :: 0 <= i < |shards| ==> |OwnUris(shards[i].sources)| == 1)
    && (forall i, j, uri :: 0 <= i < |shards| && 0 <= j < |shards| && Owning(shards[i], uri) && Owning(shards[j], uri) ==>
          EntryAt(o, shards[i], uri) == EntryAt(o, shards[j], uri))
    && forall i, uri :: 0 <= i < |shards| && Owning(shards[i], uri) && uri in ignored ==> Bare(shards[i])
  }

  function EntryAt(o: Orders, shard: Shard, uri: Bytes): Entry
    requires Owning(shard, uri)
  {
    EntryOf(o, shard, shard.sources[uri])
  }

  /** The graph holds the canonical entry of every described file that is not ignored. */
  ghost predicate IsGraph(o: Orders, shards: seq<Shard>, ignored: set<Bytes>, g: map<Bytes, Entry>) {
    && (forall uri :: uri in g <==> uri !in ignored && exists i :: 0 <= i < |shards| && Owning(shards[i], uri))
    && forall i, uri :: 0 <= i < |shards| && Owning(shards[i], uri) && uri !in ignored ==>
         uri in g && g[uri] == EntryAt(o, shards[i], uri)
  }

  /** The same file described with the same records, in whatever order; placeholders and commands do not matter. */
  ghost predicate Equivalent(a: Shard, b: Shard) {
    && OwnUris(a.sources) == OwnUris(b.sources)
    && forall uri :: uri in OwnUris(a.sources) ==> SameRecords(a, a.sources[uri], b, b.sources[uri])
  }

  /** Each shard of one list has an equivalent one in the other. */
  ghost predicate Within(a: seq<Shard>, b: seq<Shard>) {
    forall i :: 0 <= i < |a| ==> exists j :: 0 <= j < |b| && Equivalent(a[i], b[j])
  }

  lemma EquivalentEntries(o: Orders, a: Shard, b: Shard, uri: Bytes)
    requires AreOrders(o) && Equivalent(a, b) && Owning(a, uri)
    ensures Owning(b, uri) && EntryAt(o, a, uri) == EntryAt(o, b, uri) && (Bare(a) <==> Bare(b))
  {
    hide AreOrders, EntryOf, SameRecords;
    EntryIsCanonical(o, a, a.sources[uri], b, b.sources[uri]);
    SameBare(a, a.sources[uri], b, b.sources[uri]);
  }

  lemma SameBare(a: Shard, m: Node, b: Shard, n: Node)
    requires SameRecords(a, m, b, n)
    ensures Bare(a) <==> Bare(b)
  {
    assert |a.symbols| == |multiset(Map(View, a.symbols))| == |multiset(Map(View, b.symbols))| == |b.symbols|;
    assert |a.refs| == |multiset(a.refs)| == |multiset(b.refs)| == |b.refs|;
    assert |a.relations| == |multiset(a.relations)| == |multiset(b.relations)| == |b.relations|;
  }

  lemma Counterpart(a: seq<Shard>, b: seq<Shard>, i: nat) returns (k: nat)
    requires Within(a, b) && i < |a|
    ensures k < |b| && Equivalent(a[i], b[k])
  {
    var shard := a[i];
    k :| 0 <= k < |b| && Equivalent(shard, b[k]);
  }

  lemma CanonicalizableWithin(o: Orders, a: seq<Shard>, b: seq<Shard>, ignored: set<Bytes>)
    requires AreOrders(o) && Within(a, b) && Canonicalizable(o, b, ignored)
    ensures Canonicalizable(o, a, ignored)
  {
    hide AreOrders, EntryOf, SameRecords, Bare, Within;
    forall i | 0 <= i < |a| ensures |OwnUris(a[i].sources)| == 1 {
      var k := Counterpart(a, b, i);
    }
    forall i, j, uri | 0 <= i < |a| && 0 <= j < |a| && Owning(a[i], uri) && Owning(a[j], uri)
      ensures EntryAt(o, a[i], uri) == EntryAt(o, a[j], uri)
    {
      var k := Counterpart(a, b, i);
      var l := Counterpart(a, b, j);
      EquivalentEntries(o, a[i], b[k], uri);
      EquivalentEntries(o, a[j], b[l], uri);
    }
    forall i, uri | 0 <= i < |a| && Owning(a[i], uri) && uri in ignored ensures Bare(a[i]) {
      var k := Counterpart(a, b, i);
      EquivalentEntries(o, a[i], b[k], uri);
    }
  }

  lemma GraphWithin(o: Orders, a: seq<Shard>, b: seq<Shard>, ignored: set<Bytes>, g: map<Bytes, Entry>,
                    h: map<Bytes, Entry>, uri: Bytes)
    requires AreOrders(o) && Within(a, b) && IsGraph(o, a, ignored, g) && IsGraph(o, b, ignored, h) && uri in g
    ensures uri in h && h[uri] == g[uri]
  {
    hide AreOrders, EntryOf, SameRecords, Bare;
    var i :| 0 <= i < |a| && Owning(a[i], uri);
    var k := Counterpart(a, b, i);
    EquivalentEntries(o, a[i], b[k], uri);
  }

  /** The graph is canonical: collecting the shards in another order, with records in another order or shards repeated,
      succeeds alike and gives the same graph. */
  lemma GraphIsCanonical(o: Orders, a: seq<Shard>, b: seq<Shard>, ignored: set<Bytes>, g: map<Bytes, Entry>,
                         h: map<Bytes, Entry>)
    requires AreOrders(o) && Within(a, b) && Within(b, a)
    ensures Canonicalizable(o, a, ignored) <==> Canonicalizable(o, b, ignored)
    ensures IsGraph(o, a, ignored, g) && IsGraph(o, b, ignored, h) ==> g == h
  {
    hide AreOrders, Within, IsGraph, Canonicalizable;
    if Canonicalizable(o, a, ignored) { CanonicalizableWithin(o, b, a, ignored); }
    if Canonicalizable(o, b, ignored) { CanonicalizableWithin(o, a, b, ignored); }
    if IsGraph(o, a, ignored, g) && IsGraph(o, b, ignored, h) {
      forall uri | uri in g ensures uri in h && h[uri] == g[uri] { GraphWithin(o, a, b, ignored, g, h, uri); }
      forall uri | uri in h ensures uri in g { GraphWithin(o, b, a, ignored, h, g, uri); }
    }
  }

  /** Differing records for one file are never merged: two shards of a file are accepted together only if they say the same. */
  lemma DifferingAreRejected(o: Orders, shards: seq<Shard>, ignored: set<Bytes>, i: nat, j: nat, uri: Bytes)
    requires AreOrders(o) && Canonicalizable(o, shards, ignored) && i < |shards| && j < |shards|
    requires Owning(shards[i], uri) && Owning(shards[j], uri)
    ensures SameRecords(shards[i], shards[i].sources[uri], shards[j], shards[j].sources[uri])
  {
    hide AreOrders, SameRecords;
    assert EntryAt(o, shards[i], uri) == EntryAt(o, shards[j], uri);
    EntryIsCanonical(o, shards[i], shards[i].sources[uri], shards[j], shards[j].sources[uri]);
  }

  // ---- the loops ------------------------------------------------------------------------------

  /** The loop over the shards, before anything is ignored. */
  method Merge(o: Orders, shards: seq<Shard>) returns (r: Result<map<Bytes, Entry>>)
    ensures r.Ok? <==> Canonicalizable(o, shards, {})
    ensures r.Ok? ==> IsGraph(o, shards, {}, r.value)
  {
    var graph: map<Bytes, Entry> := map[];
    var i := 0;
    while i < |shards|
      invariant 0 <= i <= |shards|
      invariant Canonicalizable(o, shards[..i], {}) && IsGraph(o, shards[..i], {}, graph)
    {
      var shard := shards[i];
      var own := OwnUris(shard.sources);
      if |own| != 1 { return Err("expected one own source node per clangd file shard"); }
      var uri :| uri in own;
      var entry := EntryOf(o, shard, shard.sources[uri]);
      if uri in graph && graph[uri] != entry {
        Conflicts(o, shards, i, graph, uri);
        return Err("conflicting clangd file shards");
      }
      MergeOne(o, shards, i, graph, uri);
      graph := graph[uri := entry];
      i := i + 1;
    }
    assert shards[..i] == shards;
    r := Ok(graph);
  }

  /** A second entry for one file: no graph holds both. */
  lemma Conflicts(o: Orders, shards: seq<Shard>, i: nat, graph: map<Bytes, Entry>, uri: Bytes)
    requires i < |shards| && IsGraph(o, shards[..i], {}, graph) && Owning(shards[i], uri)
    requires uri in graph && graph[uri] != EntryAt(o, shards[i], uri)
    ensures !Canonicalizable(o, shards, {})
  {
    hide EntryOf;
    var k :| 0 <= k < i && Owning(shards[..i][k], uri);
    assert shards[..i][k] == shards[k];
    assert graph[uri] == EntryAt(o, shards[k], uri);
  }

  lemma OnlyOwn(shard: Shard, uri: Bytes, other: Bytes)
    requires |OwnUris(shard.sources)| == 1 && Owning(shard, uri) && Owning(shard, other)
    ensures other == uri
  {
    var own := OwnUris(shard.sources);
    assert |own - {uri}| == 0;
    assert other in own && other !in own - {uri};
  }

  lemma MergeOne(o: Orders, shards: seq<Shard>, i: nat, graph: map<Bytes, Entry>, uri: Bytes)
    requires i < |shards| && Canonicalizable(o, shards[..i], {}) && IsGraph(o, shards[..i], {}, graph)
    requires |OwnUris(shards[i].sources)| == 1 && Owning(shards[i], uri)
    requires uri in graph ==> graph[uri] == EntryAt(o, shards[i], uri)
    ensures Canonicalizable(o, shards[..i + 1], {})
    ensures IsGraph(o, shards[..i + 1], {}, graph[uri := EntryAt(o, shards[i], uri)])
  {
    hide EntryOf;
    var next := graph[uri := EntryAt(o, shards[i], uri)];
    var s, t := shards[..i], shards[..i + 1];
    assert t == s + [shards[i]];
    forall k, u | 0 <= k < |t| && Owning(t[k], u) ensures u in next && next[u] == EntryAt(o, t[k], u) {
      if k == i { OnlyOwn(shards[i], uri, u); } else { assert t[k] == s[k]; }
    }
    forall u | u in next ensures exists k :: 0 <= k < |t| && Owning(t[k], u) {
      if u == uri {
        assert Owning(t[i], u);
      } else {
        var k :| 0 <= k < |s| && Owning(s[k], u);
        assert t[k] == s[k];
      }
    }
    forall k, l, u | 0 <= k < |t| && 0 <= l < |t| && Owning(t[k], u) && Owning(t[l], u)
      ensures EntryAt(o, t[k], u) == EntryAt(o, t[l], u)
    {
      assert next[u] == EntryAt(o, t[k], u) && next[u] == EntryAt(o, t[l], u);
    }
    forall k | 0 <= k < |t| ensures |OwnUris(t[k].sources)| == 1 {
      if k < i { assert t[k] == s[k]; }
    }
  }

  /** `canonical_file_graph`. */
  method CanonicalFileGraph(o: Orders, shards: seq<Shard>, ignore: seq<Bytes>) returns (r: Result<map<Bytes, Entry>>)
    requires AreOrders(o)
    ensures var ignored := SetOf(ignore);
            && (r.Ok? <==> Canonicalizable(o, shards, ignored))
            && (r.Ok? ==> IsGraph(o, shards, ignored, r.value))
  {
    var merged := Merge(o, shards);
    if merged.Err? { return merged; }
    var graph := merged.value;
    var i := 0;
    while i < |ignore|
      invariant 0 <= i <= |ignore|
      invariant Canonicalizable(o, shards, SetOf(ignore[..i]))
      invariant IsGraph(o, shards, SetOf(ignore[..i]), graph)
    {
      var uri := ignore[i];
      if uri in graph {
        if graph[uri].symbols != [] || graph[uri].refs != [] || graph[uri].relations != [] {
          NotIgnorable(o, shards, ignore, i, graph);
          return Err("cannot ignore nonempty clangd file graph");
        }
      }
      IgnoreOne(o, shards, ignore, i, graph);
      graph := graph - {uri};
      i := i + 1;
    }
    assert ignore[..i] == ignore;
    r := Ok(graph);
  }

  lemma BareEntry(o: Orders, shard: Shard, uri: Bytes)
    requires Owning(shard, uri)
    ensures var e := EntryAt(o, shard, uri); Bare(shard) <==> e.symbols == [] && e.refs == [] && e.relations == []
  {
    SortPermutes(o.symbols, Map(s => SortHeaders(o, s), shard.symbols));
    SortPermutes(o.refs, shard.refs);
    SortPermutes(o.relations, shard.relations);
    var e := EntryAt(o, shard, uri);
    assert |e.symbols| == |multiset(e.symbols)| == |shard.symbols|;
    assert |e.refs| == |multiset(e.refs)| == |shard.refs|;
    assert |e.relations| == |multiset(e.relations)| == |shard.relations|;
  }

  lemma NotIgnorable(o: Orders, shards: seq<Shard>, ignore: seq<Bytes>, i: nat, graph: map<Bytes, Entry>)
    requires i < |ignore| && IsGraph(o, shards, SetOf(ignore[..i]), graph) && ignore[i] in graph
    requires var e := graph[ignore[i]]; e.symbols != [] || e.refs != [] || e.relations != []
    ensures !Canonicalizable(o, shards, SetOf(ignore))
  {
    hide EntryOf, Bare;
    var uri := ignore[i];
    var k :| 0 <= k < |shards| && Owning(shards[k], uri);
    BareEntry(o, shards[k], uri);
    assert graph[uri] == EntryAt(o, shards[k], uri);
    assert uri in SetOf(ignore) && !Bare(shards[k]);
  }

  lemma IgnoreOne(o: Orders, shards: seq<Shard>, ignore: seq<Bytes>, i: nat, graph: map<Bytes, Entry>)
    requires i < |ignore| && Canonicalizable(o, shards, SetOf(ignore[..i]))
    requires IsGraph(o, shards, SetOf(ignore[..i]), graph)
    requires ignore[i] in graph ==> var e := graph[ignore[i]]; e.symbols == [] && e.refs == [] && e.relations == []
    ensures Canonicalizable(o, shards, SetOf(ignore[..i + 1]))
    ensures IsGraph(o, shards, SetOf(ignore[..i + 1]), graph - {ignore[i]})
  {
    hide EntryOf, Bare;
    var before, after := SetOf(ignore[..i]), SetOf(ignore[..i + 1]);
    assert ignore[..i + 1] == ignore[..i] + [ignore[i]];
    assert after == before + {ignore[i]};
    forall k, uri | 0 <= k < |shards| && Owning(shards[k], uri) && uri in after ensures Bare(shards[k]) {
      if uri !in before { BareEntry(o, shards[k], uri); }
    }
  }
}
