/** `_collect` as it runs: graph by graph and file by file, with early errors. */
module GraphCollector {
  import opened Prelude
  import opened GraphTables

  // ---- one more file --------------------------------------------------------------------------

  function AddSource(sources: map<string, SourceKey>, uri: string, node: Node): map<string, SourceKey> {
    var before := if uri in sources then sources[uri].includes else {};
    sources[uri := SourceKey(node.digest, node.flags, before + SetOf(node.includes))]
  }

  lemma AddSourceKeeps(graphs: seq<Graph>, done: set<Place>, sources: map<string, SourceKey>, p: Place)
    requires AllInRange(graphs, done) && InRange(graphs, p) && SourcesAre(graphs, done, sources)
    requires p.1 in sources ==> sources[p.1].digest == EntryAt(graphs, p).source.digest
                                && sources[p.1].flags == EntryAt(graphs, p).source.flags
    ensures SourcesAre(graphs, done + {p}, AddSource(sources, p.1, EntryAt(graphs, p).source))
  {
    hide SetOf;
    var after, more := AddSource(sources, p.1, EntryAt(graphs, p).source), done + {p};
    forall uri ensures uri in after <==> FilePlaced(more, uri) {
      if uri == p.1 { assert (p.0, uri) in more; }
      if FilePlaced(done, uri) {
        var i :| (i, uri) in done;
        assert (i, uri) in more;
      }
      if FilePlaced(more, uri) && uri != p.1 {
        var i :| (i, uri) in more;
        assert (i, uri) in done;
      }
    }
    forall uri, x | uri in after ensures x in after[uri].includes <==> IncludePlaced(graphs, more, uri, x) {
      IncludesKeep(graphs, done, p, uri, x);
      if uri == p.1 && uri !in sources { assert !FilePlaced(done, uri); }
    }
  }

  lemma IncludesKeep(graphs: seq<Graph>, done: set<Place>, p: Place, uri: string, x: string)
    requires AllInRange(graphs, done) && InRange(graphs, p)
    ensures IncludePlaced(graphs, done + {p}, uri, x) <==>
              IncludePlaced(graphs, done, uri, x) || (uri == p.1 && x in EntryAt(graphs, p).source.includes)
  {
    var more := done + {p};
    if IncludePlaced(graphs, done, uri, x) {
      var i :| (i, uri) in done && x in EntryAt(graphs, (i, uri)).source.includes;
      assert (i, uri) in more;
    }
    if uri == p.1 && x in EntryAt(graphs, p).source.includes { assert (p.0, uri) in more; }
    if IncludePlaced(graphs, more, uri, x) {
      var i :| (i, uri) in more && x in EntryAt(graphs, (i, uri)).source.includes;
      if (i, uri) in done { assert IncludePlaced(graphs, done, uri, x); }
    }
  }

  function AddSymbol(symbols: map<string, set<Symbol>>, s: Symbol): map<string, set<Symbol>> {
    symbols[s.id := (if s.id in symbols then symbols[s.id] else {}) + {s}]
  }

  function AddSymbols(symbols: map<string, set<Symbol>>, more: seq<Symbol>): map<string, set<Symbol>> {
    if more == [] then symbols else AddSymbol(AddSymbols(symbols, Init(more)), Last(more))
  }

  predicate FiledById(symbols: map<string, set<Symbol>>) {
    forall id :: id in symbols ==> symbols[id] != {} && forall s :: s in symbols[id] ==> s.id == id
  }

  lemma AddSymbolHas(symbols: map<string, set<Symbol>>, s: Symbol, x: Symbol)
    requires FiledById(symbols)
    ensures FiledById(AddSymbol(symbols, s))
    ensures HasSymbol(AddSymbol(symbols, s), x) <==> HasSymbol(symbols, x) || x == s
  {
    assert s in AddSymbol(symbols, s)[s.id];
  }

  lemma {:induction false} AddSymbolsHas(symbols: map<string, set<Symbol>>, more: seq<Symbol>, x: Symbol)
    requires FiledById(symbols)
    ensures FiledById(AddSymbols(symbols, more))
    ensures HasSymbol(AddSymbols(symbols, more), x) <==> HasSymbol(symbols, x) || x in more
  {
    hide FiledById, AddSymbol, HasSymbol;
    if more != [] {
      AddSymbolsHas(symbols, Init(more), x);
      AddSymbolHas(AddSymbols(symbols, Init(more)), Last(more), x);
      assert more == Init(more) + [Last(more)];
    }
  }

  lemma AddSymbolsKeeps(graphs: seq<Graph>, done: set<Place>, symbols: map<string, set<Symbol>>, p: Place)
    requires AllInRange(graphs, done) && InRange(graphs, p) && SymbolsAre(graphs, done, symbols)
    ensures SymbolsAre(graphs, done + {p}, AddSymbols(symbols, EntryAt(graphs, p).symbols))
  {
    hide HasSymbol, SymbolPlaced;
    var more := EntryAt(graphs, p).symbols;
    assert FiledById(symbols);
    forall s ensures HasSymbol(AddSymbols(symbols, more), s) <==> SymbolPlaced(graphs, done + {p}, s) {
      AddSymbolsHas(symbols, more, s);
      SymbolPlacedNext(graphs, done, p, s);
    }
    forall id | id in AddSymbols(symbols, more)
      ensures AddSymbols(symbols, more)[id] != {} && forall s :: s in AddSymbols(symbols, more)[id] ==> s.id == id
    {
      AddSymbolsFiled(symbols, more);
    }
  }

  lemma {:induction false} AddSymbolsFiled(symbols: map<string, set<Symbol>>, more: seq<Symbol>)
    requires FiledById(symbols)
    ensures FiledById(AddSymbols(symbols, more))
  {
    hide FiledById, AddSymbol;
    if more != [] {
      AddSymbolsFiled(symbols, Init(more));
      AddSymbolHas(AddSymbols(symbols, Init(more)), Last(more), Last(more));
    }
  }

  lemma SymbolPlacedNext(graphs: seq<Graph>, done: set<Place>, p: Place, s: Symbol)
    requires AllInRange(graphs, done) && InRange(graphs, p)
    ensures SymbolPlaced(graphs, done + {p}, s) <==> SymbolPlaced(graphs, done, s) || s in EntryAt(graphs, p).symbols
  {
    var more := done + {p};
    assert p in more;
    if SymbolPlaced(graphs, done, s) {
      var q :| q in done && s in EntryAt(graphs, q).symbols;
      assert q in more;
    }
    if SymbolPlaced(graphs, more, s) {
      var q :| q in more && s in EntryAt(graphs, q).symbols;
      if q in done { assert SymbolPlaced(graphs, done, s); }
    }
  }

  lemma RefPlacedNext(graphs: seq<Graph>, done: set<Place>, p: Place, r: Ref)
    requires AllInRange(graphs, done) && InRange(graphs, p)
    ensures RefPlaced(graphs, done + {p}, r) <==> RefPlaced(graphs, done, r) || r in EntryAt(graphs, p).refs
  {
    var more := done + {p};
    assert p in more;
    if RefPlaced(graphs, done, r) {
      var q :| q in done && r in EntryAt(graphs, q).refs;
      assert q in more;
    }
    if RefPlaced(graphs, more, r) {
      var q :| q in more && r in EntryAt(graphs, q).refs;
      if q in done { assert RefPlaced(graphs, done, r); }
    }
  }

  lemma RelationPlacedNext(graphs: seq<Graph>, done: set<Place>, p: Place, r: Relation)
    requires AllInRange(graphs, done) && InRange(graphs, p)
    ensures RelationPlaced(graphs, done + {p}, r) <==> RelationPlaced(graphs, done, r) || r in EntryAt(graphs, p).relations
  {
    var more := done + {p};
    assert p in more;
    if RelationPlaced(graphs, done, r) {
      var q :| q in done && r in EntryAt(graphs, q).relations;
      assert q in more;
    }
    if RelationPlaced(graphs, more, r) {
      var q :| q in more && r in EntryAt(graphs, q).relations;
      if q in done { assert RelationPlaced(graphs, done, r); }
    }
  }

  function AddContext(contexts: map<string, set<nat>>, p: Place): map<string, set<nat>> {
    contexts[p.1 := (if p.1 in contexts then contexts[p.1] else {}) + {p.0}]
  }

  lemma AddContextKeeps(done: set<Place>, contexts: map<string, set<nat>>, p: Place)
    requires ContextsAre(done, contexts)
    ensures ContextsAre(done + {p}, AddContext(contexts, p))
  {
    var after, more := AddContext(contexts, p), done + {p};
    forall uri ensures uri in after <==> FilePlaced(more, uri) {
      if uri == p.1 { assert (p.0, uri) in more; }
      if FilePlaced(done, uri) {
        var i :| (i, uri) in done;
        assert (i, uri) in more;
      }
      if FilePlaced(more, uri) && uri != p.1 {
        var i :| (i, uri) in more;
        assert (i, uri) in done;
      }
    }
    forall uri, i | uri in after ensures i in after[uri] <==> (i, uri) in more {
      if uri == p.1 && uri !in contexts && (i, uri) in done { assert FilePlaced(done, uri); }
    }
  }

  function AddEntry(t: Tables, p: Place, e: FileEntry): Tables {
    Tables(AddSource(t.sources, p.1, e.source), AddSymbols(t.symbols, e.symbols), t.refs + SetOf(e.refs),
           t.relations + SetOf(e.relations), AddContext(t.contexts, p))
  }

  lemma AddEntryKeeps(graphs: seq<Graph>, done: set<Place>, t: Tables, p: Place)
    requires AllInRange(graphs, done) && InRange(graphs, p) && TablesAre(graphs, done, t)
    requires p.1 in t.sources ==> t.sources[p.1].digest == EntryAt(graphs, p).source.digest
                                  && t.sources[p.1].flags == EntryAt(graphs, p).source.flags
    ensures TablesAre(graphs, done + {p}, AddEntry(t, p, EntryAt(graphs, p)))
  {
    hide SourcesAre, SymbolsAre, ContextsAre, RefPlaced, RelationPlaced, AddSource, AddSymbols, AddContext;
    AddSourceKeeps(graphs, done, t.sources, p);
    AddSymbolsKeeps(graphs, done, t.symbols, p);
    AddContextKeeps(done, t.contexts, p);
    forall r ensures RefPlaced(graphs, done + {p}, r) <==> r in t.refs + SetOf(EntryAt(graphs, p).refs) {
      RefPlacedNext(graphs, done, p, r);
    }
    forall r ensures RelationPlaced(graphs, done + {p}, r) <==> r in t.relations + SetOf(EntryAt(graphs, p).relations) {
      RelationPlacedNext(graphs, done, p, r);
    }
  }

  // ---- the loops ------------------------------------------------------------------------------

  /** Takes one file in, or says why the graphs cannot be collected. */
  method TakeEntry(t: Tables, ignored: set<string>, p: Place, e: FileEntry) returns (r: Result<Tables>)
    ensures r.Ok? <==> EntryFits(ignored, p.1, e)
                       && (p.1 !in ignored && p.1 in t.sources ==> t.sources[p.1].digest == e.source.digest && t.sources[p.1].flags == e.source.flags)
    ensures r.Ok? ==> r.value == if p.1 in ignored then t else AddEntry(t, p, e)
  {
    hide AddSymbol;
    if UNCOMPILABLE in e.source.flags { return Err("uncompilable source graph"); }
    if p.1 in ignored {
      return if Bare(e) then Ok(t) else Err("cannot ignore nonempty wrapper");
    }
    if p.1 in t.sources && !(t.sources[p.1].digest == e.source.digest && t.sources[p.1].flags == e.source.flags) {
      return Err("conflicting original source graph");
    }
    var sources, contexts, symbols := AddSource(t.sources, p.1, e.source), AddContext(t.contexts, p), t.symbols;
    for k := 0 to |e.symbols|
      invariant symbols == AddSymbols(t.symbols, e.symbols[..k])
    {
      assert Init(e.symbols[..k + 1]) == e.symbols[..k];
      symbols := AddSymbol(symbols, e.symbols[k]);
    }
    assert e.symbols[..|e.symbols|] == e.symbols;
    var refs := t.refs;
    for k := 0 to |e.refs|
      invariant refs == t.refs + SetOf(e.refs[..k])
      invariant forall r :: r in e.refs[..k] ==> r.location.uri == p.1
    {
      if e.refs[k].location.uri != p.1 { return Err("reference stored under wrong source URI"); }
      refs := refs + {e.refs[k]};
    }
    assert e.refs[..|e.refs|] == e.refs;
    return Ok(Tables(sources, symbols, refs, t.relations + SetOf(e.relations), contexts));
  }

  /** The first files of the list: all of the first `n` graphs, and these of the next one. */
  ghost predicate DoneSoFar(graphs: seq<Graph>, ignored: set<string>, n: nat, todo: set<string>, done: set<Place>) {
    && n < |graphs| && todo <= graphs[n].Keys
    && forall p: Place :: p in done <==> InRange(graphs, p) && p.1 !in ignored && (p.0 < n || (p.0 == n && p.1 !in todo))
  }

  ghost predicate FitSoFar(graphs: seq<Graph>, ignored: set<string>, n: nat, todo: set<string>) {
    forall p: Place :: InRange(graphs, p) && (p.0 < n || (p.0 == n && p.1 !in todo)) ==> EntryFits(ignored, p.1, EntryAt(graphs, p))
  }

  /** A file that disagrees with the table disagrees with a file already taken in. */
  lemma Conflicts(graphs: seq<Graph>, done: set<Place>, t: Tables, p: Place)
    requires AllInRange(graphs, done) && TablesAre(graphs, done, t) && InRange(graphs, p) && p.1 in t.sources
    ensures exists q :: q in done && q.1 == p.1 && EntryAt(graphs, q).source.digest == t.sources[p.1].digest
                        && EntryAt(graphs, q).source.flags == t.sources[p.1].flags
  {
    var i :| (i, p.1) in done;
    SourceOf(graphs, done, t.sources, (i, p.1));
  }

  /** The inner loop over the files of graph `n`. */
  method TakeGraph(graphs: seq<Graph>, ignored: set<string>, n: nat, t: Tables, ghost done: set<Place>)
    returns (r: Result<Tables>, ghost more: set<Place>)
    requires n < |graphs| && AllInRange(graphs, done) && TablesAre(graphs, done, t) && SourcesAgree(graphs, done)
    requires DoneSoFar(graphs, ignored, n, graphs[n].Keys, done) && FitSoFar(graphs, ignored, n, graphs[n].Keys)
    ensures AllInRange(graphs, more)
    ensures r.Ok? ==> TablesAre(graphs, more, r.value) && SourcesAgree(graphs, more)
                      && DoneSoFar(graphs, ignored, n, {}, more) && FitSoFar(graphs, ignored, n, {})
    ensures r.Err? ==> !Collectable(graphs, ignored)
  {
    hide TablesAre, Bare, EntryFits, AddEntry;
    more := done;
    var tables, todo := t, graphs[n].Keys;
    while todo != {}
      invariant AllInRange(graphs, more) && TablesAre(graphs, more, tables) && SourcesAgree(graphs, more)
      invariant DoneSoFar(graphs, ignored, n, todo, more) && FitSoFar(graphs, ignored, n, todo)
      decreases todo
    {
      var uri :| uri in todo;
      var p, e := (n, uri), graphs[n][uri];
      todo := todo - {uri};
      var taken := TakeEntry(tables, ignored, p, e);
      if taken.Err? {
        Rejected(graphs, ignored, more, tables, p);
        return taken, more;
      }
      if uri !in ignored {
        AddEntryKeeps(graphs, more, tables, p);
        StillAgree(graphs, more, tables, p);
        more := more + {p};
      }
      tables := taken.value;
    }
    return Ok(tables), more;
  }

  lemma DoesNotFit(graphs: seq<Graph>, ignored: set<string>, p: Place)
    requires InRange(graphs, p) && !EntryFits(ignored, p.1, EntryAt(graphs, p))
    ensures !Collectable(graphs, ignored)
  {
  }

  lemma Rejected(graphs: seq<Graph>, ignored: set<string>, done: set<Place>, t: Tables, p: Place)
    requires AllInRange(graphs, done) && TablesAre(graphs, done, t) && InRange(graphs, p)
    requires done <= Places(graphs, ignored)
    requires !(EntryFits(ignored, p.1, EntryAt(graphs, p))
               && (p.1 !in ignored && p.1 in t.sources ==>
                     t.sources[p.1].digest == EntryAt(graphs, p).source.digest
                     && t.sources[p.1].flags == EntryAt(graphs, p).source.flags))
    ensures !Collectable(graphs, ignored)
  {
    hide TablesAre, EntryFits;
    if EntryFits(ignored, p.1, EntryAt(graphs, p)) {
      Conflicts(graphs, done, t, p);
      var q :| q in done && q.1 == p.1 && EntryAt(graphs, q).source.digest == t.sources[p.1].digest
               && EntryAt(graphs, q).source.flags == t.sources[p.1].flags;
      assert p in Places(graphs, ignored) && q in Places(graphs, ignored);
      assert !SameSource(EntryAt(graphs, p), EntryAt(graphs, q));
    } else {
      DoesNotFit(graphs, ignored, p);
    }
  }

  lemma StillAgree(graphs: seq<Graph>, done: set<Place>, t: Tables, p: Place)
    requires AllInRange(graphs, done) && TablesAre(graphs, done, t) && InRange(graphs, p) && SourcesAgree(graphs, done)
    requires p.1 in t.sources ==> t.sources[p.1].digest == EntryAt(graphs, p).source.digest
                                  && t.sources[p.1].flags == EntryAt(graphs, p).source.flags
    ensures SourcesAgree(graphs, done + {p})
  {
    hide SymbolsAre, ContextsAre;
    forall q | q in done && q.1 == p.1 ensures SameSource(EntryAt(graphs, q), EntryAt(graphs, p)) {
      SourceOf(graphs, done, t.sources, q);
    }
  }

  /** `_collect`: the tables of the graphs, or an error exactly when they have none. */
  method Collect(graphs: seq<Graph>, ignored: set<string>) returns (r: Result<Tables>)
    ensures r.Ok? <==> Collectable(graphs, ignored)
    ensures r.Ok? ==> IsTables(graphs, ignored, r.value)
  {
    hide TablesAre, EntryFits;
    var tables := Tables(map[], map[], {}, {}, map[]);
    ghost var done: set<Place> := {};
    NothingDone(graphs, ignored);
    for n := 0 to |graphs|
      invariant AllInRange(graphs, done) && TablesAre(graphs, done, tables) && SourcesAgree(graphs, done)
      invariant forall p: Place :: p in done <==> InRange(graphs, p) && p.1 !in ignored && p.0 < n
      invariant forall p: Place :: InRange(graphs, p) && p.0 < n ==> EntryFits(ignored, p.1, EntryAt(graphs, p))
      invariant forall i :: 0 <= i < n ==> graphs[i] != map[]
    {
      if graphs[n] == map[] { return Err("empty original/candidate graph"); }
      var taken;
      taken, done := TakeGraph(graphs, ignored, n, tables, done);
      tables :- taken;
    }
    assert done == Places(graphs, ignored);
    SourcesEmpty(graphs, done, tables);
    if tables.sources == map[] { return Err("no original/candidate real files"); }
    return Ok(tables);
  }

  lemma NothingDone(graphs: seq<Graph>, ignored: set<string>)
    ensures TablesAre(graphs, {}, Tables(map[], map[], {}, {}, map[])) && SourcesAgree(graphs, {})
  {
    assert forall s :: !HasSymbol(map[], s);
  }

  lemma SourcesEmpty(graphs: seq<Graph>, done: set<Place>, t: Tables)
    requires AllInRange(graphs, done) && TablesAre(graphs, done, t)
    ensures t.sources == map[] <==> done == {}
  {
    hide SymbolsAre, ContextsAre;
    if done != {} {
      var p :| p in done;
      SourceOf(graphs, done, t.sources, p);
    }
    if t.sources != map[] {
      var uri :| uri in t.sources;
      var i :| (i, uri) in done;
    }
  }
}
