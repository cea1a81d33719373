/** What `compare_graphs` accepts, and what acceptance guarantees. */
module Admission {
  import opened Prelude
  import opened GraphTables
  import opened IncludeClosure

  // ---- one symbol -----------------------------------------------------------------------------

  const HAS_DOC_COMMENT := 4

  function Locations(symbols: set<Symbol>, definition: bool): set<Location> {
    if definition then set s | s in symbols && s.definition.uri != "" :: s.definition
    else set s | s in symbols && s.declaration.uri != "" :: s.declaration
  }

  /** The records that saw the definition, or all of them when none did. */
  function Preferred(symbols: set<Symbol>): set<Symbol> {
    var defining := set s | s in symbols && s.definition.uri != "";
    if defining != {} then defining else symbols
  }

  function Languages(symbols: set<Symbol>): set<nat> {
    set s | s in symbols :: s.language
  }

  function Flags(symbols: set<Symbol>): Bits {
    set s, f | s in symbols && f in s.flags && f != HAS_DOC_COMMENT :: f
  }

  function HeaderNames(symbols: set<Symbol>): set<string> {
    set s, x | s in symbols && x in s.headers :: x.header
  }

  function DirectivesOf(symbols: set<Symbol>, header: string): Bits {
    set s, x, d | s in symbols && x in s.headers && x.header == header && d in x.directives :: d
  }

  /** The suggested headers with the union of their directives; definition-bearing records decide which headers. */
  function Headers(symbols: set<Symbol>): map<string, Bits> {
    map h | h in HeaderNames(Preferred(symbols)) :: DirectivesOf(symbols, h)
  }

  predicate SameIdentity(old': set<Symbol>, new': set<Symbol>) {
    && (set s | s in old' :: s.name) == (set s | s in new' :: s.name)
    && (set s | s in old' :: s.scope) == (set s | s in new' :: s.scope)
    && (set s | s in old' :: s.kind) == (set s | s in new' :: s.kind)
  }

  predicate SameArguments(old': set<Symbol>, new': set<Symbol>) {
    (set s | s in old' :: s.arguments) == (set s | s in new' :: s.arguments)
  }

  predicate SameCompletion(old': set<Symbol>, new': set<Symbol>) {
    && (set s | s in old' && s.typeName != "" :: s.typeName) == (set s | s in new' && s.typeName != "" :: s.typeName)
    && (set s | s in old' && s.signature != "" :: s.signature) == (set s | s in new' && s.signature != "" :: s.signature)
    && (set s | s in old' && s.returnType != "" :: s.returnType) == (set s | s in new' && s.returnType != "" :: s.returnType)
    && (set s | s in old' && s.suffix != "" :: s.suffix) == (set s | s in new' && s.suffix != "" :: s.suffix)
  }

  /** Locations that an original's references already prove to declare or define the symbol. */
  function RefLocations(refs: set<Ref>, id: string, definition: bool): set<Location> {
    set r | r in refs && r.symbol == id && (1 in r.kind || (!definition && 0 in r.kind)) :: r.location
  }

  predicate SamePlaces(old': set<Symbol>, new': set<Symbol>, refs: set<Ref>, id: string) {
    var (defs, decls) := (Locations(old', true), Locations(old', false));
    && defs <= Locations(new', true) <= defs + RefLocations(refs, id, true)
    && (decls != {} ==> Locations(new', false) != {})
    && Locations(new', false) <= decls + RefLocations(refs, id, false)
  }

  // ---- header providers -----------------------------------------------------------------------

  /** Questions about a header's spelling. */
  datatype Spelling = Spelling(isFile: string -> bool, isProvider: string -> bool)

  /** Include edges inside one graph; a file the graph does not hold is a dead end. */
  function EdgesOf(graph: Graph): Edges {
    map path | path in graph :: set x | x in graph[path].source.includes && x in graph
  }

  /** Where one graph declares or, for a body, defines the symbol. */
  function EvidenceIn(graph: Graph, id: string, body: bool): set<string> {
    (set p, s | p in graph && s in graph[p].symbols && s.id == id :: s.definition.uri)
    + (set p, r | p in graph && r in graph[p].refs && r.symbol == id && 1 in r.kind :: r.location.uri)
    + (if body then {} else
         (set p, s | p in graph && s in graph[p].symbols && s.id == id :: s.declaration.uri)
         + (set p, r | p in graph && r in graph[p].refs && r.symbol == id && 0 in r.kind :: r.location.uri))
  }

  /** Including this header in one of the originals leads to a declaration, or a body, of the symbol. */
  ghost predicate Exposes(graph: Graph, id: string, header: string, body: bool) {
    header in graph && exists path :: path in EvidenceIn(graph, id, body) && Reaches(EdgesOf(graph), header, path)
  }

  ghost predicate ExposedBySome(graphs: seq<Graph>, id: string, header: string, body: bool) {
    exists i :: 0 <= i < |graphs| && Exposes(graphs[i], id, header, body)
  }

  ghost predicate NeedsBody(graphs: seq<Graph>, id: string, headers: map<string, Bits>) {
    exists h :: h in headers && ExposedBySome(graphs, id, h, true)
  }

  ghost predicate NewHeaderFits(spelling: Spelling, graphs: seq<Graph>, id: string, old': map<string, Bits>,
                                new': map<string, Bits>, h: string)
    requires h in new'
  {
    if h in old' then old'[h] == new'[h]
    else spelling.isFile(h) && spelling.isProvider(h) && ExposedBySome(graphs, id, h, NeedsBody(graphs, id, old'))
  }

  ghost predicate ProvidersFit(spelling: Spelling, graphs: seq<Graph>, id: string, old': map<string, Bits>,
                               new': map<string, Bits>) {
    || old' == new'
    || (&& new' != map[] && old'.Values == new'.Values && (forall h :: h in old' ==> spelling.isFile(h))
        && forall h :: h in new' ==> NewHeaderFits(spelling, graphs, id, old', new', h))
  }

  ghost predicate SymbolKept(spelling: Spelling, graphs: seq<Graph>, refs: set<Ref>, id: string, old': set<Symbol>,
                             new': set<Symbol>) {
    && SameIdentity(old', new') && Languages(Preferred(old')) == Languages(new') && SameCompletion(old', new')
    && Flags(old') == Flags(new') && ProvidersFit(spelling, graphs, id, Headers(old'), Headers(new'))
    && SamePlaces(old', new', refs, id)
  }

  // ---- the compiler's part --------------------------------------------------------------------

  datatype Answer = Proven | Unproven | Raised

  /** One changed specialization: its records in each original that declares it, and in the candidate. */
  datatype Request = Request(id: string, originals: map<nat, set<Symbol>>, candidate: set<Symbol>)

  /** The callbacks; either may be absent. The first is asked about a place, a symbol and the originals to prove it in. */
  datatype Compiler = Compiler(resolve: Option<(string, nat, nat, string, set<nat>) -> Answer>,
                               templates: Option<Request -> Answer>)

  /** The records of one symbol in one graph. */
  function RecordsIn(graph: Graph, id: string): set<Symbol> {
    set p, s | p in graph && s in graph[p].symbols && s.id == id :: s
  }

  function RequestFor(graphs: seq<Graph>, id: string, candidate: set<Symbol>): Request {
    Request(id, map i: nat | i < |graphs| && RecordsIn(graphs[i], id) != {} :: RecordsIn(graphs[i], id), candidate)
  }

  predicate TemplatesProven(compiler: Compiler, graphs: seq<Graph>, t: Tables, u: Tables)
    requires t.symbols.Keys == u.symbols.Keys
  {
    forall id :: id in u.symbols && !SameArguments(t.symbols[id], u.symbols[id]) ==>
      compiler.templates.Some? && compiler.templates.value(RequestFor(graphs, id, u.symbols[id])) == Proven
  }

  /** The compiler was asked about this reference in these originals, and proved it. */
  predicate ProvenIn(compiler: Compiler, r: Ref, originals: set<nat>) {
    && compiler.resolve.Some?
    && compiler.resolve.value(r.location.uri, r.location.startLine, r.location.startColumn, r.symbol, originals) == Proven
  }

  predicate RefProven(compiler: Compiler, contexts: map<string, set<nat>>, r: Ref) {
    r.location.uri in contexts && ProvenIn(compiler, r, contexts[r.location.uri])
  }

  /** The verdict on two collected tables. */
  ghost predicate Preserves(spelling: Spelling, compiler: Compiler, graphs: seq<Graph>, t: Tables, u: Tables) {
    && t.sources == u.sources && t.symbols.Keys == u.symbols.Keys
    && (forall id :: id in u.symbols ==> SymbolKept(spelling, graphs, t.refs, id, t.symbols[id], u.symbols[id]))
    && t.relations == u.relations && t.refs <= u.refs
    && TemplatesProven(compiler, graphs, t, u)
    && forall r :: r in u.refs - t.refs ==> RefProven(compiler, t.contexts, r)
  }

  /** `compare_graphs` accepts. */
  ghost predicate Accepts(spelling: Spelling, compiler: Compiler, graphs: seq<Graph>, candidate: Graph, ignored: set<string>) {
    && graphs != [] && Collectable(graphs, ignored) && Collectable([candidate], ignored)
    && exists t, u :: IsTables(graphs, ignored, t) && IsTables([candidate], ignored, u)
                      && Preserves(spelling, compiler, graphs, t, u)
  }

  // ---- what acceptance means ------------------------------------------------------------------

  /** The file of a place, when the place is in the list. */
  ghost predicate Holds(graphs: seq<Graph>, ignored: set<string>, i: nat, uri: string) {
    i < |graphs| && uri in graphs[i] && uri !in ignored
  }

  /** Some original has this reference. */
  ghost predicate RefHeld(graphs: seq<Graph>, ignored: set<string>, r: Ref) {
    exists i: nat, uri :: Holds(graphs, ignored, i, uri) && r in graphs[i][uri].refs
  }

  lemma TablesHoldRef(graphs: seq<Graph>, ignored: set<string>, t: Tables, i: nat, uri: string, r: Ref)
    requires IsTables(graphs, ignored, t) && Holds(graphs, ignored, i, uri) && r in graphs[i][uri].refs
    ensures r in t.refs
  {
    hide SourcesAre, SymbolsAre, ContextsAre;
    assert (i, uri) in Places(graphs, ignored) && r in EntryAt(graphs, (i, uri)).refs;
    assert RefPlaced(graphs, Places(graphs, ignored), r);
  }

  lemma TablesHoldRelation(graphs: seq<Graph>, ignored: set<string>, t: Tables, i: nat, uri: string, r: Relation)
    requires IsTables(graphs, ignored, t) && Holds(graphs, ignored, i, uri) && r in graphs[i][uri].relations
    ensures r in t.relations
  {
    hide SourcesAre, SymbolsAre, ContextsAre;
    assert (i, uri) in Places(graphs, ignored) && r in EntryAt(graphs, (i, uri)).relations;
    assert RelationPlaced(graphs, Places(graphs, ignored), r);
  }

  lemma TablesHoldSymbol(graphs: seq<Graph>, ignored: set<string>, t: Tables, i: nat, uri: string, s: Symbol)
    requires IsTables(graphs, ignored, t) && Holds(graphs, ignored, i, uri) && s in graphs[i][uri].symbols
    ensures HasSymbol(t.symbols, s)
  {
    hide SourcesAre, ContextsAre;
    assert (i, uri) in Places(graphs, ignored) && s in EntryAt(graphs, (i, uri)).symbols;
    assert SymbolPlaced(graphs, Places(graphs, ignored), s);
  }

  lemma CandidateHoldsRef(candidate: Graph, ignored: set<string>, u: Tables, r: Ref)
    requires IsTables([candidate], ignored, u) && r in u.refs
    ensures exists uri :: uri in candidate && uri !in ignored && r in candidate[uri].refs
  {
    hide SourcesAre, SymbolsAre, ContextsAre;
    var p :| p in Places([candidate], ignored) && r in EntryAt([candidate], p).refs;
    assert p.1 in candidate;
  }

  lemma CandidateHoldsRelation(candidate: Graph, ignored: set<string>, u: Tables, r: Relation)
    requires IsTables([candidate], ignored, u) && r in u.relations
    ensures exists uri :: uri in candidate && uri !in ignored && r in candidate[uri].relations
  {
    hide SourcesAre, SymbolsAre, ContextsAre;
    var p :| p in Places([candidate], ignored) && r in EntryAt([candidate], p).relations;
    assert p.1 in candidate;
  }

  lemma CandidateHoldsSymbol(candidate: Graph, ignored: set<string>, u: Tables, s: Symbol)
    requires IsTables([candidate], ignored, u) && HasSymbol(u.symbols, s)
    ensures exists uri :: uri in candidate && uri !in ignored && s in candidate[uri].symbols
  {
    hide SourcesAre, ContextsAre;
    var p :| p in Places([candidate], ignored) && s in EntryAt([candidate], p).symbols;
    assert p.1 in candidate;
  }

  /** Nothing an original says about references and relations is lost in an accepted candidate. */
  lemma NothingIsLost(spelling: Spelling, compiler: Compiler, graphs: seq<Graph>, candidate: Graph, ignored: set<string>,
                      i: nat, uri: string)
    requires Accepts(spelling, compiler, graphs, candidate, ignored) && Holds(graphs, ignored, i, uri)
    ensures forall r :: r in graphs[i][uri].refs ==> exists v :: v in candidate && v !in ignored && r in candidate[v].refs
    ensures forall r :: r in graphs[i][uri].relations ==>
              exists v :: v in candidate && v !in ignored && r in candidate[v].relations
  {
    hide IsTables, Collectable, SymbolKept, TemplatesProven, RefProven;
    var t, u :| IsTables(graphs, ignored, t) && IsTables([candidate], ignored, u)
                && Preserves(spelling, compiler, graphs, t, u);
    forall r | r in graphs[i][uri].refs ensures exists v :: v in candidate && v !in ignored && r in candidate[v].refs {
      TablesHoldRef(graphs, ignored, t, i, uri, r);
      CandidateHoldsRef(candidate, ignored, u, r);
    }
    forall r | r in graphs[i][uri].relations
      ensures exists v :: v in candidate && v !in ignored && r in candidate[v].relations
    {
      TablesHoldRelation(graphs, ignored, t, i, uri, r);
      CandidateHoldsRelation(candidate, ignored, u, r);
    }
  }

  lemma KeptDefinition(spelling: Spelling, graphs: seq<Graph>, refs: set<Ref>, old': set<Symbol>, new': set<Symbol>, s: Symbol)
    requires SymbolKept(spelling, graphs, refs, s.id, old', new') && s in old' && s.definition.uri != ""
    ensures exists c :: c in new' && c.definition == s.definition
  {
    hide SameIdentity, Languages, SameCompletion, Flags, ProvidersFit, Headers;
    assert s.definition in Locations(old', true);
    assert s.definition in Locations(new', true);
  }

  /** Every symbol of an original is still there, and with it the place of its definition. */
  lemma SymbolsAreKept(spelling: Spelling, compiler: Compiler, graphs: seq<Graph>, candidate: Graph, ignored: set<string>,
                       i: nat, uri: string, s: Symbol)
    requires Accepts(spelling, compiler, graphs, candidate, ignored) && Holds(graphs, ignored, i, uri)
    requires s in graphs[i][uri].symbols
    ensures exists v, c :: v in candidate && v !in ignored && c in candidate[v].symbols && c.id == s.id
                           && (s.definition.uri != "" ==> c.definition == s.definition)
  {
    hide Collectable, SymbolKept, TemplatesProven, RefProven, SourcesAre, ContextsAre, SymbolPlaced;
    var t, u :| IsTables(graphs, ignored, t) && IsTables([candidate], ignored, u)
                && Preserves(spelling, compiler, graphs, t, u);
    TablesHoldSymbol(graphs, ignored, t, i, uri, s);
    var c :| c in u.symbols[s.id];
    if s.definition.uri != "" {
      KeptDefinition(spelling, graphs, t.refs, t.symbols[s.id], u.symbols[s.id], s);
      c :| c in u.symbols[s.id] && c.definition == s.definition;
    }
    CandidateHoldsSymbol(candidate, ignored, u, c);
  }

  /** The originals that hold a file. */
  ghost function HoldersOf(graphs: seq<Graph>, ignored: set<string>, uri: string): set<nat> {
    set i: nat | i < |graphs| && Holds(graphs, ignored, i, uri)
  }

  lemma ContextsAreHolders(graphs: seq<Graph>, ignored: set<string>, t: Tables, uri: string)
    requires IsTables(graphs, ignored, t) && uri in t.contexts
    ensures t.contexts[uri] == HoldersOf(graphs, ignored, uri)
  {
    hide SourcesAre, SymbolsAre;
    assert forall i: nat :: (i, uri) in Places(graphs, ignored) <==> Holds(graphs, ignored, i, uri);
    forall i ensures i in t.contexts[uri] <==> i in HoldersOf(graphs, ignored, uri) {
      if i in t.contexts[uri] { assert (i, uri) in Places(graphs, ignored); }
      if i in HoldersOf(graphs, ignored, uri) { assert (i, uri) in Places(graphs, ignored); }
    }
  }

  /** Every reference the candidate has and no original has was proven, at its place and for its symbol, in every
      original that holds the file. */
  lemma AddedRefsAreProven(spelling: Spelling, compiler: Compiler, graphs: seq<Graph>, candidate: Graph,
                           ignored: set<string>, uri: string, r: Ref)
    requires Accepts(spelling, compiler, graphs, candidate, ignored)
    requires uri in candidate && uri !in ignored && r in candidate[uri].refs
    requires !RefHeld(graphs, ignored, r)
    ensures ProvenIn(compiler, r, HoldersOf(graphs, ignored, r.location.uri))
  {
    hide Collectable, SymbolKept, TemplatesProven, IsTables, HoldersOf, Holds, ProvenIn, RefHeld;
    var t, u :| IsTables(graphs, ignored, t) && IsTables([candidate], ignored, u)
                && Preserves(spelling, compiler, graphs, t, u);
    CandidateTablesHoldRef(candidate, ignored, u, uri, r);
    TableRefHeld(graphs, ignored, t, r);
    assert RefProven(compiler, t.contexts, r);
    ContextsAreHolders(graphs, ignored, t, r.location.uri);
  }

  lemma CandidateTablesHoldRef(candidate: Graph, ignored: set<string>, u: Tables, uri: string, r: Ref)
    requires IsTables([candidate], ignored, u) && uri in candidate && uri !in ignored && r in candidate[uri].refs
    ensures r in u.refs
  {
    TablesHoldRef([candidate], ignored, u, 0, uri, r);
  }

  lemma TableRefHeld(graphs: seq<Graph>, ignored: set<string>, t: Tables, r: Ref)
    requires IsTables(graphs, ignored, t)
    ensures r in t.refs ==> RefHeld(graphs, ignored, r)
  {
    hide SourcesAre, SymbolsAre, ContextsAre;
    if r in t.refs {
      var p :| p in Places(graphs, ignored) && r in EntryAt(graphs, p).refs;
      assert Holds(graphs, ignored, p.0, p.1);
    }
  }

  // ---- unchanged tables -----------------------------------------------------------------------

  const NO_COMPILER := Compiler(None, None)

  lemma UnchangedSymbol(spelling: Spelling, graphs: seq<Graph>, refs: set<Ref>, id: string, symbols: set<Symbol>)
    ensures SymbolKept(spelling, graphs, refs, id, symbols, symbols) <==> Languages(Preferred(symbols)) == Languages(symbols)
  {
    hide Languages, Preferred, Flags, Headers, SameIdentity, SameCompletion;
    assert SameIdentity(symbols, symbols) && SameCompletion(symbols, symbols) by { SameAsItself(symbols); }
  }

  lemma SameAsItself(symbols: set<Symbol>)
    ensures SameIdentity(symbols, symbols) && SameCompletion(symbols, symbols)
  {
  }

  /** A candidate with the originals' own tables is accepted without any callback exactly when, for every symbol, the
      definition-bearing records show every language that any record shows. */
  lemma UnchangedIsAccepted(spelling: Spelling, graphs: seq<Graph>, candidate: Graph, ignored: set<string>, t: Tables, u: Tables)
    requires graphs != [] && Collectable(graphs, ignored) && Collectable([candidate], ignored)
    requires IsTables(graphs, ignored, t) && IsTables([candidate], ignored, u)
    requires t.sources == u.sources && t.symbols == u.symbols && t.refs == u.refs && t.relations == u.relations
    ensures Accepts(spelling, NO_COMPILER, graphs, candidate, ignored) <==>
              forall id :: id in t.symbols ==> Languages(Preferred(t.symbols[id])) == Languages(t.symbols[id])
  {
    hide IsTables, Collectable, SymbolKept, Languages, Preferred, SameArguments, RefProven;
    forall id | id in t.symbols
      ensures SymbolKept(spelling, graphs, t.refs, id, t.symbols[id], u.symbols[id])
              <==> Languages(Preferred(t.symbols[id])) == Languages(t.symbols[id])
      ensures SameArguments(t.symbols[id], u.symbols[id])
    {
      UnchangedSymbol(spelling, graphs, t.refs, id, t.symbols[id]);
      ArgumentsAsThemselves(t.symbols[id]);
    }
    if Accepts(spelling, NO_COMPILER, graphs, candidate, ignored) {
      var t', u' :| IsTables(graphs, ignored, t') && IsTables([candidate], ignored, u')
                    && Preserves(spelling, NO_COMPILER, graphs, t', u');
      TablesUnique(graphs, ignored, t, t');
      TablesUnique([candidate], ignored, u, u');
    }
    if forall id :: id in t.symbols ==> Languages(Preferred(t.symbols[id])) == Languages(t.symbols[id]) {
      assert Preserves(spelling, NO_COMPILER, graphs, t, u);
    }
  }

  lemma ArgumentsAsThemselves(symbols: set<Symbol>)
    ensures SameArguments(symbols, symbols)
  {
  }

  /** For given tables, the verdict is the comparison of these tables. */
  lemma AcceptsTables(spelling: Spelling, compiler: Compiler, graphs: seq<Graph>, candidate: Graph, ignored: set<string>,
                      t: Tables, u: Tables)
    requires graphs != [] && Collectable(graphs, ignored) && Collectable([candidate], ignored)
    requires IsTables(graphs, ignored, t) && IsTables([candidate], ignored, u)
    ensures Accepts(spelling, compiler, graphs, candidate, ignored) <==> Preserves(spelling, compiler, graphs, t, u)
  {
    hide IsTables, Collectable, Preserves;
    if Accepts(spelling, compiler, graphs, candidate, ignored) {
      var t', u' :| IsTables(graphs, ignored, t') && IsTables([candidate], ignored, u')
                    && Preserves(spelling, compiler, graphs, t', u');
      TablesUnique(graphs, ignored, t, t');
      TablesUnique([candidate], ignored, u, u');
    }
  }

  // ---- a graph that is refused against itself -------------------------------------------------

  /** One record of the symbol `s`; it saw the definition when `defines` holds. */
  function RecordOf(defines: bool, language: nat): Symbol {
    var (here, nowhere) := (Location("file:///a.h", 1, 0, 1, 1), Location("", 0, 0, 0, 0));
    Symbol("s", "s", "", 0, language, "", if defines then here else nowhere, here, {}, "", "", "", "", [], "")
  }

  /** A forward declaration labelled with language 0 beside the definition labelled with language 1. */
  function TwoLanguages(): Graph {
    map["file:///a.h" := FileEntry(Node("d", {}, []), [RecordOf(true, 1), RecordOf(false, 0)], [], [])]
  }

  lemma TwoLanguagesCollect()
    ensures Collectable([TwoLanguages()], {})
  {
    var graphs := [TwoLanguages()];
    assert InRange(graphs, (0, "file:///a.h"));
    assert (0, "file:///a.h") in Places(graphs, {});
  }

  lemma OneLanguagePreferred(symbols: set<Symbol>)
    requires symbols == {RecordOf(true, 1), RecordOf(false, 0)}
    ensures Languages(Preferred(symbols)) != Languages(symbols)
  {
    var defining := set s | s in symbols && s.definition.uri != "";
    assert RecordOf(true, 1) in defining;
    assert forall s :: s in Preferred(symbols) ==> s.language == 1;
    assert 0 !in Languages(Preferred(symbols));
    assert RecordOf(false, 0) in symbols && RecordOf(false, 0).language == 0;
    assert 0 in Languages(symbols);
  }

  lemma SymbolsOfTwoLanguages(t: Tables)
    requires IsTables([TwoLanguages()], {}, t)
    ensures "s" in t.symbols && t.symbols["s"] == {RecordOf(true, 1), RecordOf(false, 0)}
  {
    hide SourcesAre, ContextsAre, RecordOf, Places;
    var g := TwoLanguages();
    SymbolIds();
    assert Holds([g], {}, 0, "file:///a.h");
    TablesHoldSymbol([g], {}, t, 0, "file:///a.h", RecordOf(true, 1));
    TablesHoldSymbol([g], {}, t, 0, "file:///a.h", RecordOf(false, 0));
    forall s | s in t.symbols["s"] ensures s in {RecordOf(true, 1), RecordOf(false, 0)} {
      assert s.id == "s" && HasSymbol(t.symbols, s);
      CandidateHoldsSymbol(g, {}, t, s);
    }
  }

  lemma SymbolIds()
    ensures RecordOf(true, 1).id == "s" && RecordOf(false, 0).id == "s"
  {
  }

  /** This graph can be collected, and no callbacks make `compare_graphs` accept it as a candidate for itself. */
  lemma TwoLanguagesAreRefused(spelling: Spelling, compiler: Compiler)
    ensures Collectable([TwoLanguages()], {})
    ensures !Accepts(spelling, compiler, [TwoLanguages()], TwoLanguages(), {})
  {
    hide IsTables, Collectable, Languages, Preferred, TwoLanguages, RecordOf, SameIdentity, SameCompletion, Flags, Headers;
    hide ProvidersFit, SamePlaces, TemplatesProven, RefProven;
    var g := TwoLanguages();
    TwoLanguagesCollect();
    if Accepts(spelling, compiler, [g], g, {}) {
      var t, u :| IsTables([g], {}, t) && IsTables([g], {}, u) && Preserves(spelling, compiler, [g], t, u);
      TablesUnique([g], {}, t, u);
      SymbolsOfTwoLanguages(t);
      OneLanguagePreferred(t.symbols["s"]);
    }
  }
}
