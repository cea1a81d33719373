/** `compare_graphs` as it runs, with its memoised include closures. */
module AdmissionGate {
  import opened Prelude
  import opened GraphTables
  import opened GraphCollector
  import opened IncludeClosure
  import opened Admission

  // ---- include closures -----------------------------------------------------------------------

  lemma EdgeIs(graph: Graph, path: string, x: string)
    requires path in graph
    ensures x in Includes(EdgesOf(graph), path) <==> x in graph[path].source.includes && x in graph
  {
  }

  lemma ReachesStaysInside(graph: Graph, uri: string, seen: set<string>)
    requires uri in seen && seen <= graph.Keys
    requires forall x, y :: x in seen && x in graph && y in graph[x].source.includes && y in graph ==> y in seen
    ensures forall path :: Reaches(EdgesOf(graph), uri, path) ==> path in seen
  {
    forall x | x in seen ensures Includes(EdgesOf(graph), x) <= seen {
      forall y | y in Includes(EdgesOf(graph), x) ensures y in seen { EdgeIs(graph, x, y); }
    }
    forall path | Reaches(EdgesOf(graph), uri, path) ensures path in seen {
      var chain :| IsChain(EdgesOf(graph), chain) && chain[0] == uri && Last(chain) == path;
      ClosedHoldsChain(EdgesOf(graph), seen, chain);
    }
  }

  lemma ReachesItself(graph: Graph, uri: string)
    ensures Reaches(EdgesOf(graph), uri, uri)
  {
    assert IsChain(EdgesOf(graph), [uri]) && Last([uri]) == uri;
  }

  /** The inner `closure`: a stack search that ignores files the graph does not hold. */
  method ClosureIn(graph: Graph, uri: string) returns (seen: set<string>)
    requires uri in graph
    ensures forall path :: path in seen <==> Reaches(EdgesOf(graph), uri, path)
  {
    hide Reaches, EdgesOf, Includes;
    seen := {};
    var pending := [uri];
    ReachesItself(graph, uri);
    while pending != []
      invariant seen <= graph.Keys && (uri in seen || uri in pending)
      invariant forall x :: x in seen ==> Reaches(EdgesOf(graph), uri, x)
      invariant forall x :: x in pending && x in graph ==> Reaches(EdgesOf(graph), uri, x)
      invariant forall x, y :: x in seen && x in graph && y in graph[x].source.includes && y in graph ==>
                  y in seen || y in pending
      decreases graph.Keys - seen, |pending|
    {
      var path := Last(pending);
      ghost var before := pending;
      pending := Init(pending);
      assert before == pending + [path];
      if path !in seen && path in graph {
        seen := seen + {path};
        forall x | x in graph[path].source.includes && x in graph ensures Reaches(EdgesOf(graph), uri, x) {
          EdgeIs(graph, path, x);
          ReachesMore(EdgesOf(graph), uri, path, x);
        }
        pending := pending + graph[path].source.includes;
      }
    }
    ReachesStaysInside(graph, uri, seen);
  }

  type Cache = map<(nat, string), set<string>>

  /** Every cached closure is the closure. */
  ghost predicate CacheFits(graphs: seq<Graph>, cache: Cache) {
    forall key :: key in cache ==>
      (key.0 < |graphs| && forall path :: path in cache[key] <==> Reaches(EdgesOf(graphs[key.0]), key.1, path))
  }

  /** `exposes`, for a header that graph `i` holds. */
  method ExposesIn(graphs: seq<Graph>, i: nat, id: string, header: string, body: bool, cache: Cache)
    returns (exposed: bool, after: Cache)
    requires i < |graphs| && header in graphs[i] && CacheFits(graphs, cache)
    ensures CacheFits(graphs, after) && exposed == Exposes(graphs[i], id, header, body)
  {
    hide Reaches, EdgesOf, EvidenceIn;
    after := cache;
    var locations := EvidenceIn(graphs[i], id, body);
    if locations == {} { return false, after; }
    if (i, header) !in after {
      var seen := ClosureIn(graphs[i], header);
      after := after[(i, header) := seen];
    }
    exposed := after[(i, header)] * locations != {};
    if exposed {
      var path :| path in after[(i, header)] * locations;
      assert path in locations && Reaches(EdgesOf(graphs[i]), header, path);
    } else {
      forall path | path in locations ensures !Reaches(EdgesOf(graphs[i]), header, path) {
        assert path !in after[(i, header)] * locations;
      }
    }
  }

  method ExposedByAny(graphs: seq<Graph>, id: string, header: string, body: bool, cache: Cache)
    returns (exposed: bool, after: Cache)
    requires CacheFits(graphs, cache)
    ensures CacheFits(graphs, after) && exposed == ExposedBySome(graphs, id, header, body)
  {
    hide CacheFits;
    after := cache;
    for i := 0 to |graphs|
      invariant CacheFits(graphs, after) && forall k :: 0 <= k < i ==> !Exposes(graphs[k], id, header, body)
    {
      if header in graphs[i] {
        exposed, after := ExposesIn(graphs, i, id, header, body, after);
        if exposed { return true, after; }
      }
    }
    return false, after;
  }

  method BodyNeeded(graphs: seq<Graph>, id: string, headers: map<string, Bits>, cache: Cache)
    returns (needed: bool, after: Cache)
    requires CacheFits(graphs, cache)
    ensures CacheFits(graphs, after) && needed == NeedsBody(graphs, id, headers)
  {
    hide CacheFits, ExposedBySome;
    after := cache;
    var todo := headers.Keys;
    while todo != {}
      invariant CacheFits(graphs, after) && todo <= headers.Keys
      invariant forall h :: h in headers && h !in todo ==> !ExposedBySome(graphs, id, h, true)
      decreases todo
    {
      var h :| h in todo;
      todo := todo - {h};
      var exposed;
      exposed, after := ExposedByAny(graphs, id, h, true, after);
      if exposed { return true, after; }
    }
    return false, after;
  }

  /** `_valid_providers`. */
  method ValidProviders(spelling: Spelling, graphs: seq<Graph>, id: string, old': map<string, Bits>,
                        new': map<string, Bits>, cache: Cache)
    returns (valid: bool, after: Cache)
    requires CacheFits(graphs, cache)
    ensures CacheFits(graphs, after) && valid == ProvidersFit(spelling, graphs, id, old', new')
  {
    hide CacheFits, ExposedBySome, NeedsBody;
    after := cache;
    if old' == new' { return true, after; }
    if new' == map[] || old'.Values != new'.Values || (exists h :: h in old' && !spelling.isFile(h)) {
      return false, after;
    }
    var needBody;
    needBody, after := BodyNeeded(graphs, id, old', after);
    var todo := new'.Keys;
    while todo != {}
      invariant CacheFits(graphs, after) && todo <= new'.Keys
      invariant forall h :: h in new' && h !in todo ==> NewHeaderFits(spelling, graphs, id, old', new', h)
      decreases todo
    {
      var h :| h in todo;
      todo := todo - {h};
      var fits;
      if h in old' {
        fits := old'[h] == new'[h];
      } else if !spelling.isFile(h) || !spelling.isProvider(h) {
        fits := false;
      } else {
        fits, after := ExposedByAny(graphs, id, h, needBody, after);
      }
      assert fits == NewHeaderFits(spelling, graphs, id, old', new', h);
      if !fits { return false, after; }
    }
    return true, after;
  }

  // ---- the comparison -------------------------------------------------------------------------

  /** The checks on one symbol, in the order of the code; nothing is found exactly when the symbol is kept. */
  method CheckSymbol(spelling: Spelling, graphs: seq<Graph>, refs: set<Ref>, id: string, old': set<Symbol>,
                     new': set<Symbol>, cache: Cache)
    returns (fault: Option<string>, after: Cache)
    requires CacheFits(graphs, cache)
    ensures CacheFits(graphs, after) && (fault.None? <==> SymbolKept(spelling, graphs, refs, id, old', new'))
  {
    hide CacheFits, SameIdentity, Languages, Preferred, SameCompletion, Flags, Headers, ProvidersFit, Locations, RefLocations;
    after := cache;
    if !SameIdentity(old', new') { return Some("symbol-identity-fields-changed"), after; }
    if Languages(Preferred(old')) != Languages(new') { return Some("symbol-identity-fields-changed"), after; }
    if !SameCompletion(old', new') { return Some("symbol-completion-changed"), after; }
    if Flags(old') != Flags(new') { return Some("symbol-flags-changed"), after; }
    var valid;
    valid, after := ValidProviders(spelling, graphs, id, Headers(old'), Headers(new'), after);
    if !valid { return Some("symbol-include-headers-changed"), after; }
    var oldDefs, newDefs := Locations(old', true), Locations(new', true);
    if !(oldDefs <= newDefs) || !(newDefs <= oldDefs + RefLocations(refs, id, true)) {
      return Some("symbol-definitions-changed"), after;
    }
    var oldDecls, newDecls := Locations(old', false), Locations(new', false);
    if (oldDecls != {} && newDecls == {}) || !(newDecls <= oldDecls + RefLocations(refs, id, false)) {
      return Some("symbol-declarations-changed"), after;
    }
    return None, after;
  }

  /** The loop over all symbols; it also collects the symbols whose template arguments are printed differently. */
  method CheckSymbols(spelling: Spelling, graphs: seq<Graph>, refs: set<Ref>, old': map<string, set<Symbol>>,
                      new': map<string, set<Symbol>>)
    returns (fault: Option<string>, templates: set<string>)
    requires old'.Keys == new'.Keys
    ensures fault.None? <==> forall id :: id in new' ==> SymbolKept(spelling, graphs, refs, id, old'[id], new'[id])
    ensures fault.None? ==> forall id :: id in templates <==> id in new' && !SameArguments(old'[id], new'[id])
  {
    hide CacheFits, SymbolKept, SameArguments;
    fault, templates := None, {};
    var cache: Cache := map[];
    assert CacheFits(graphs, cache) by { NothingCached(graphs); }
    var todo := new'.Keys;
    while todo != {}
      invariant CacheFits(graphs, cache) && todo <= new'.Keys && fault.None?
      invariant forall id :: id in new' && id !in todo ==> SymbolKept(spelling, graphs, refs, id, old'[id], new'[id])
      invariant forall id :: id in templates <==> id in new' && id !in todo && !SameArguments(old'[id], new'[id])
      decreases todo
    {
      var id :| id in todo;
      todo := todo - {id};
      if !SameArguments(old'[id], new'[id]) { templates := templates + {id}; }
      fault, cache := CheckSymbol(spelling, graphs, refs, id, old'[id], new'[id], cache);
      if fault.Some? { return; }
    }
  }

  lemma NothingCached(graphs: seq<Graph>)
    ensures CacheFits(graphs, map[])
  {
  }

  /** The compiler's proofs of the changed specializations. */
  method ProveTemplates(compiler: Compiler, graphs: seq<Graph>, templates: set<string>, candidates: map<string, set<Symbol>>)
    returns (fault: Option<string>)
    requires templates <= candidates.Keys
    ensures fault.None? <==> forall id :: id in templates ==>
              compiler.templates.Some? && compiler.templates.value(RequestFor(graphs, id, candidates[id])) == Proven
  {
    hide RequestFor;
    if templates == {} { return None; }
    if compiler.templates.None? {
      var id :| id in templates;
      return Some("template-arguments-require-compiler-proof");
    }
    var todo := templates;
    while todo != {}
      invariant todo <= templates
      invariant forall id :: id in templates && id !in todo ==>
                  compiler.templates.value(RequestFor(graphs, id, candidates[id])) == Proven
      decreases todo
    {
      var id :| id in todo;
      todo := todo - {id};
      match compiler.templates.value(RequestFor(graphs, id, candidates[id])) {
        case Proven =>
        case Raised => return Some("template-argument-proof-failed");
        case Unproven => return Some("template-argument-identity-unproven");
      }
    }
    return None;
  }

  /** The compiler's proofs of the added references. */
  method ProveRefs(compiler: Compiler, contexts: map<string, set<nat>>, added: set<Ref>) returns (fault: Option<string>)
    requires forall r :: r in added ==> r.location.uri in contexts
    ensures fault.None? <==> forall r :: r in added ==> RefProven(compiler, contexts, r)
  {
    if added == {} { return None; }
    if compiler.resolve.None? {
      var r :| r in added;
      return Some("added-references-require-original-proof");
    }
    var todo := added;
    while todo != {}
      invariant todo <= added
      invariant forall r :: r in added && r !in todo ==> RefProven(compiler, contexts, r)
      decreases todo
    {
      var r :| r in todo;
      todo := todo - {r};
      var l := r.location;
      match compiler.resolve.value(l.uri, l.startLine, l.startColumn, r.symbol, contexts[l.uri]) {
        case Proven =>
        case Raised => return Some("original-reference-proof-failed");
        case Unproven => return Some("original-reference-identity-unproven");
      }
    }
    return None;
  }

  datatype Verdict = Verdict(accepted: bool, reason: string, added: set<Ref>)

  /** A new reference lies in a file the originals hold, so the indices to prove it in exist. */
  lemma AddedHaveContexts(graphs: seq<Graph>, candidate: Graph, ignored: set<string>, t: Tables, u: Tables, r: Ref)
    requires IsTables(graphs, ignored, t) && IsTables([candidate], ignored, u) && t.sources == u.sources
    requires Collectable([candidate], ignored) && r in u.refs
    ensures r.location.uri in t.contexts
  {
    hide SymbolsAre;
    var p :| p in Places([candidate], ignored) && r in EntryAt([candidate], p).refs;
    assert EntryFits(ignored, p.1, EntryAt([candidate], p));
    assert p.1 in u.sources;
    assert FilePlaced(Places(graphs, ignored), p.1);
  }

  /** `compare_graphs`. */
  method CompareGraphs(spelling: Spelling, compiler: Compiler, graphs: seq<Graph>, candidate: Graph, ignored: set<string>)
    returns (v: Verdict)
    ensures v.accepted <==> Accepts(spelling, compiler, graphs, candidate, ignored)
    ensures v.accepted ==> forall r :: r in v.added <==>
              (exists uri :: uri in candidate && uri !in ignored && r in candidate[uri].refs) && !RefHeld(graphs, ignored, r)
  {
    hide *;
    if graphs == [] {
      NoGraphs(spelling, compiler, candidate, ignored);
      return Verdict(false, "missing-original-tu-graphs", {});
    }
    var before := Collect(graphs, ignored);
    if before.Err? {
      NotCollected(spelling, compiler, graphs, candidate, ignored);
      return Verdict(false, "invalid-original-or-candidate-graph", {});
    }
    var after := Collect([candidate], ignored);
    if after.Err? {
      NotCollected(spelling, compiler, graphs, candidate, ignored);
      return Verdict(false, "invalid-original-or-candidate-graph", {});
    }
    var t, u := before.value, after.value;
    AcceptsTables(spelling, compiler, graphs, candidate, ignored, t, u);
    forall r | r in u.refs && t.sources == u.sources ensures r.location.uri in t.contexts {
      AddedHaveContexts(graphs, candidate, ignored, t, u, r);
    }
    v := CompareTables(spelling, compiler, graphs, t, u);
    forall r ensures r in u.refs - t.refs <==>
        (exists uri :: uri in candidate && uri !in ignored && r in candidate[uri].refs) && !RefHeld(graphs, ignored, r) {
      AddedIs(graphs, candidate, ignored, t, u, r);
    }
  }

  lemma NoGraphs(spelling: Spelling, compiler: Compiler, candidate: Graph, ignored: set<string>)
    ensures !Accepts(spelling, compiler, [], candidate, ignored)
  {
  }

  lemma NotCollected(spelling: Spelling, compiler: Compiler, graphs: seq<Graph>, candidate: Graph, ignored: set<string>)
    requires !Collectable(graphs, ignored) || !Collectable([candidate], ignored)
    ensures !Accepts(spelling, compiler, graphs, candidate, ignored)
  {
    hide Collectable;
  }

  lemma AddedIs(graphs: seq<Graph>, candidate: Graph, ignored: set<string>, t: Tables, u: Tables, r: Ref)
    requires IsTables(graphs, ignored, t) && IsTables([candidate], ignored, u)
    ensures r in u.refs - t.refs <==>
              (exists uri :: uri in candidate && uri !in ignored && r in candidate[uri].refs) && !RefHeld(graphs, ignored, r)
  {
    hide IsTables;
    if r in u.refs { CandidateHoldsRef(candidate, ignored, u, r); }
    if uri :| uri in candidate && uri !in ignored && r in candidate[uri].refs {
      CandidateTablesHoldRef(candidate, ignored, u, uri, r);
    }
    TableRefHeld(graphs, ignored, t, r);
    if RefHeld(graphs, ignored, r) {
      var i: nat, uri :| Holds(graphs, ignored, i, uri) && r in graphs[i][uri].refs;
      TablesHoldRef(graphs, ignored, t, i, uri, r);
    }
  }

  /** The comparison of two collected tables. */
  method CompareTables(spelling: Spelling, compiler: Compiler, graphs: seq<Graph>, t: Tables, u: Tables) returns (v: Verdict)
    requires t.sources == u.sources ==> forall r :: r in u.refs ==> r.location.uri in t.contexts
    ensures v.accepted <==> Preserves(spelling, compiler, graphs, t, u)
    ensures v.accepted ==> v.added == u.refs - t.refs
  {
    hide SymbolKept, SameArguments, RequestFor, RefProven;
    if t.sources.Keys != u.sources.Keys { return Verdict(false, "file-coverage-changed", {}); }
    if t.sources != u.sources { return Verdict(false, "source-dependencies-changed", {}); }
    if t.symbols.Keys != u.symbols.Keys { return Verdict(false, "symbol-identities-changed", {}); }
    var fault, templates := CheckSymbols(spelling, graphs, t.refs, t.symbols, u.symbols);
    if fault.Some? { return Verdict(false, fault.value, {}); }
    if t.relations != u.relations { return Verdict(false, "relations-changed", {}); }
    if !(t.refs <= u.refs) { return Verdict(false, "references-removed-or-retargeted", {}); }
    var added := u.refs - t.refs;
    fault := ProveTemplates(compiler, graphs, templates, u.symbols);
    if fault.Some? { return Verdict(false, fault.value, added); }
    fault := ProveRefs(compiler, t.contexts, added);
    if fault.Some? { return Verdict(false, fault.value, added); }
    return Verdict(true, "compatible-original-tu-union", added);
  }
}
