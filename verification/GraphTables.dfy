/** The tables an admission compares: what a list of index graphs says, independent of how it is listed. */
module GraphTables {
  import opened Prelude

  datatype Location = Location(uri: string, startLine: nat, startColumn: nat, endLine: nat, endColumn: nat)

  /** Flags, kinds and directives are sets of bit numbers. */
  type Bits = set<nat>

  datatype Header = Header(header: string, directives: Bits)

  /** A symbol record; documentation and counts, which no comparison reads, are in `rest`. */
  datatype Symbol = Symbol(id: string, name: string, scope: string, kind: nat, language: nat, arguments: string,
                           definition: Location, declaration: Location, flags: Bits, signature: string, suffix: string,
                           returnType: string, typeName: string, headers: seq<Header>, rest: string)

  datatype Ref = Ref(symbol: string, kind: Bits, location: Location, container: string)

  datatype Relation = Relation(subject: string, relation: nat, object': string)

  datatype Node = Node(digest: string, flags: Bits, includes: seq<string>)

  datatype FileEntry = FileEntry(source: Node, symbols: seq<Symbol>, refs: seq<Ref>, relations: seq<Relation>)

  type Graph = map<string, FileEntry>

  const UNCOMPILABLE := 1

  datatype SourceKey = SourceKey(digest: string, flags: Bits, includes: set<string>)

  datatype Tables = Tables(sources: map<string, SourceKey>, symbols: map<string, set<Symbol>>, refs: set<Ref>,
                           relations: set<Relation>, contexts: map<string, set<nat>>)

  /** An entry of the list: which graph, and which file in it. */
  type Place = (nat, string)

  predicate InRange(graphs: seq<Graph>, p: Place) {
    p.0 < |graphs| && p.1 in graphs[p.0]
  }

  function EntryAt(graphs: seq<Graph>, p: Place): FileEntry
    requires InRange(graphs, p)
  {
    graphs[p.0][p.1]
  }

  predicate AllInRange(graphs: seq<Graph>, done: set<Place>) {
    forall p :: p in done ==> InRange(graphs, p)
  }

  // ---- what each table holds ------------------------------------------------------------------

  ghost predicate FilePlaced(done: set<Place>, uri: string) {
    exists i :: (i, uri) in done
  }

  ghost predicate IncludePlaced(graphs: seq<Graph>, done: set<Place>, uri: string, x: string)
    requires AllInRange(graphs, done)
  {
    exists i :: (i, uri) in done && x in EntryAt(graphs, (i, uri)).source.includes
  }

  ghost predicate SourcesAre(graphs: seq<Graph>, done: set<Place>, sources: map<string, SourceKey>)
    requires AllInRange(graphs, done)
  {
    && (forall uri :: uri in sources <==> FilePlaced(done, uri))
    && (forall p :: p in done ==> p.1 in sources && sources[p.1].digest == EntryAt(graphs, p).source.digest
                                  && sources[p.1].flags == EntryAt(graphs, p).source.flags)
    && forall uri, x :: uri in sources ==> (x in sources[uri].includes <==> IncludePlaced(graphs, done, uri, x))
  }

  ghost predicate SymbolPlaced(graphs: seq<Graph>, done: set<Place>, s: Symbol)
    requires AllInRange(graphs, done)
  {
    exists p :: p in done && s in EntryAt(graphs, p).symbols
  }

  predicate HasSymbol(symbols: map<string, set<Symbol>>, s: Symbol) {
    s.id in symbols && s in symbols[s.id]
  }

  ghost predicate SymbolsAre(graphs: seq<Graph>, done: set<Place>, symbols: map<string, set<Symbol>>)
    requires AllInRange(graphs, done)
  {
    && (forall s :: HasSymbol(symbols, s) <==> SymbolPlaced(graphs, done, s))
    && forall id :: id in symbols ==> symbols[id] != {} && forall s :: s in symbols[id] ==> s.id == id
  }

  ghost predicate RefPlaced(graphs: seq<Graph>, done: set<Place>, r: Ref)
    requires AllInRange(graphs, done)
  {
    exists p :: p in done && r in EntryAt(graphs, p).refs
  }

  ghost predicate RelationPlaced(graphs: seq<Graph>, done: set<Place>, r: Relation)
    requires AllInRange(graphs, done)
  {
    exists p :: p in done && r in EntryAt(graphs, p).relations
  }

  ghost predicate ContextsAre(done: set<Place>, contexts: map<string, set<nat>>) {
    && (forall uri :: uri in contexts <==> FilePlaced(done, uri))
    && forall uri, i :: uri in contexts ==> (i in contexts[uri] <==> (i, uri) in done)
  }

  ghost predicate TablesAre(graphs: seq<Graph>, done: set<Place>, t: Tables)
    requires AllInRange(graphs, done)
  {
    && SourcesAre(graphs, done, t.sources) && SymbolsAre(graphs, done, t.symbols)
    && (forall r :: r in t.refs <==> RefPlaced(graphs, done, r))
    && (forall r :: r in t.relations <==> RelationPlaced(graphs, done, r))
    && ContextsAre(done, t.contexts)
  }

  // ---- what can be collected ------------------------------------------------------------------

  /** Every file of every graph, wrappers aside. */
  ghost function Places(graphs: seq<Graph>, ignored: set<string>): (r: set<Place>)
    ensures AllInRange(graphs, r)
    ensures forall p: Place :: p in r <==> InRange(graphs, p) && p.1 !in ignored
  {
    set i: nat, uri | i < |graphs| && uri in graphs[i] && uri !in ignored :: (i, uri)
  }

  predicate Bare(e: FileEntry) {
    e.symbols == [] && e.refs == [] && e.relations == []
  }

  /** One file entry can be taken in: it compiled, and it is an empty wrapper or keeps its references under its URI. */
  predicate EntryFits(ignored: set<string>, uri: string, e: FileEntry) {
    && UNCOMPILABLE !in e.source.flags
    && if uri in ignored then Bare(e) else forall r :: r in e.refs ==> r.location.uri == uri
  }

  predicate SameSource(a: FileEntry, b: FileEntry) {
    a.source.digest == b.source.digest && a.source.flags == b.source.flags
  }

  ghost predicate EntriesFit(graphs: seq<Graph>, ignored: set<string>) {
    forall p: Place :: InRange(graphs, p) ==> EntryFits(ignored, p.1, EntryAt(graphs, p))
  }

  ghost predicate SourcesAgree(graphs: seq<Graph>, done: set<Place>)
    requires AllInRange(graphs, done)
  {
    forall p, q :: p in done && q in done && p.1 == q.1 ==> SameSource(EntryAt(graphs, p), EntryAt(graphs, q))
  }

  ghost predicate Collectable(graphs: seq<Graph>, ignored: set<string>) {
    && (forall i :: 0 <= i < |graphs| ==> graphs[i] != map[])
    && EntriesFit(graphs, ignored) && SourcesAgree(graphs, Places(graphs, ignored))
    && Places(graphs, ignored) != {}
  }

  ghost predicate IsTables(graphs: seq<Graph>, ignored: set<string>, t: Tables) {
    TablesAre(graphs, Places(graphs, ignored), t)
  }

  // ---- the tables are determined --------------------------------------------------------------

  lemma SourcesUnique(graphs: seq<Graph>, done: set<Place>, a: map<string, SourceKey>, b: map<string, SourceKey>)
    requires AllInRange(graphs, done) && SourcesAre(graphs, done, a) && SourcesAre(graphs, done, b)
    ensures a == b
  {
    forall uri | uri in a ensures uri in b && a[uri] == b[uri] {
      var i :| (i, uri) in done;
      assert forall x :: x in a[uri].includes <==> x in b[uri].includes;
      assert a[uri].includes == b[uri].includes;
      SourceOf(graphs, done, a, (i, uri));
      SourceOf(graphs, done, b, (i, uri));
    }
    assert a.Keys == b.Keys;
  }

  lemma SourceOf(graphs: seq<Graph>, done: set<Place>, a: map<string, SourceKey>, p: Place)
    requires AllInRange(graphs, done) && SourcesAre(graphs, done, a) && p in done
    ensures p.1 in a && a[p.1].digest == EntryAt(graphs, p).source.digest && a[p.1].flags == EntryAt(graphs, p).source.flags
  {
  }

  lemma SymbolsUnique(graphs: seq<Graph>, done: set<Place>, a: map<string, set<Symbol>>, b: map<string, set<Symbol>>)
    requires AllInRange(graphs, done) && SymbolsAre(graphs, done, a) && SymbolsAre(graphs, done, b)
    ensures a == b
  {
    hide SymbolPlaced;
    forall id ensures id in a <==> id in b { SymbolKeys(graphs, done, a, b, id); SymbolKeys(graphs, done, b, a, id); }
    forall id | id in a ensures a[id] == b[id] {
      forall s ensures s in a[id] <==> s in b[id] {
        assert HasSymbol(a, s) <==> HasSymbol(b, s);
      }
    }
    assert a.Keys == b.Keys;
  }

  lemma SymbolKeys(graphs: seq<Graph>, done: set<Place>, a: map<string, set<Symbol>>, b: map<string, set<Symbol>>, id: string)
    requires AllInRange(graphs, done) && SymbolsAre(graphs, done, a) && SymbolsAre(graphs, done, b)
    ensures id in a ==> id in b
  {
    hide SymbolPlaced;
    if id in a {
      var s :| s in a[id];
      assert HasSymbol(a, s);
      assert HasSymbol(b, s);
    }
  }

  lemma ContextsUnique(done: set<Place>, a: map<string, set<nat>>, b: map<string, set<nat>>)
    requires ContextsAre(done, a) && ContextsAre(done, b)
    ensures a == b
  {
    forall uri | uri in a ensures uri in b && a[uri] == b[uri] {
      assert forall i :: i in a[uri] <==> i in b[uri];
    }
    assert a.Keys == b.Keys;
  }

  /** Two collections of the same graphs give the same tables, whatever order the files were visited in. */
  lemma TablesUnique(graphs: seq<Graph>, ignored: set<string>, a: Tables, b: Tables)
    requires IsTables(graphs, ignored, a) && IsTables(graphs, ignored, b)
    ensures a == b
  {
    hide SourcesAre, SymbolsAre, ContextsAre, RefPlaced, RelationPlaced;
    var done := Places(graphs, ignored);
    SourcesUnique(graphs, done, a.sources, b.sources);
    SymbolsUnique(graphs, done, a.symbols, b.symbols);
    ContextsUnique(done, a.contexts, b.contexts);
    assert a.refs == b.refs && a.relations == b.relations;
  }
}
