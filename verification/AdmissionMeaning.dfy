/** What `compare_graphs` accepts, said of the graphs themselves: no tables, and no fold over records. */
module AdmissionMeaning {
  import opened Prelude
  import opened GraphTables
  import opened IncludeClosure
  import opened Admission

  // ---- what the graphs say ----------------------------------------------------------------------

  ghost predicate SymbolSeen(graphs: seq<Graph>, ignored: set<string>, id: string, s: Symbol) {
    s.id == id && exists i: nat, uri :: i < |graphs| && uri in graphs[i] && uri !in ignored && s in graphs[i][uri].symbols
  }

  ghost predicate RefSeen(graphs: seq<Graph>, ignored: set<string>, r: Ref) {
    exists i: nat, uri :: i < |graphs| && uri in graphs[i] && uri !in ignored && r in graphs[i][uri].refs
  }

  ghost predicate RelationSeen(graphs: seq<Graph>, ignored: set<string>, r: Relation) {
    exists i: nat, uri :: i < |graphs| && uri in graphs[i] && uri !in ignored && r in graphs[i][uri].relations
  }

  function Name(s: Symbol): string { s.name }
  function Scope(s: Symbol): string { s.scope }
  function Kind(s: Symbol): nat { s.kind }
  function Language(s: Symbol): nat { s.language }
  function Arguments(s: Symbol): string { s.arguments }
  function TypeOf(s: Symbol): string { s.typeName }
  function Signature(s: Symbol): string { s.signature }
  function ReturnType(s: Symbol): string { s.returnType }
  function Suffix(s: Symbol): string { s.suffix }

  /** Some record of the symbol has this value in this field. */
  ghost predicate Says<T>(graphs: seq<Graph>, ignored: set<string>, id: string, field: Symbol -> T, value: T) {
    exists s :: SymbolSeen(graphs, ignored, id, s) && field(s) == value
  }

  ghost predicate Agree<T(!new)>(graphs: seq<Graph>, candidate: Graph, ignored: set<string>, id: string, field: Symbol -> T) {
    forall v :: Says(graphs, ignored, id, field, v) <==> Says([candidate], ignored, id, field, v)
  }

  ghost predicate AgreeUnlessEmpty(graphs: seq<Graph>, candidate: Graph, ignored: set<string>, id: string,
                                   field: Symbol -> string) {
    forall v :: v != "" ==> (Says(graphs, ignored, id, field, v) <==> Says([candidate], ignored, id, field, v))
  }

  /** The set holds exactly the records of the symbol. */
  ghost predicate Records(graphs: seq<Graph>, ignored: set<string>, id: string, symbols: set<Symbol>) {
    forall s :: s in symbols <==> SymbolSeen(graphs, ignored, id, s)
  }

  lemma SymbolsSeen(graphs: seq<Graph>, ignored: set<string>, t: Tables, id: string)
    requires IsTables(graphs, ignored, t)
    ensures id in t.symbols ==> Records(graphs, ignored, id, t.symbols[id]) && t.symbols[id] != {}
    ensures id !in t.symbols ==> forall s :: !SymbolSeen(graphs, ignored, id, s)
  {
    hide SourcesAre, ContextsAre, Places;
    forall s ensures SymbolSeen(graphs, ignored, id, s) <==> s.id == id && HasSymbol(t.symbols, s) {
      if SymbolSeen(graphs, ignored, id, s) {
        var i: nat, uri :| i < |graphs| && uri in graphs[i] && uri !in ignored && s in graphs[i][uri].symbols;
        assert (i, uri) in Places(graphs, ignored) && s in EntryAt(graphs, (i, uri)).symbols;
      }
      if s.id == id && HasSymbol(t.symbols, s) {
        assert SymbolPlaced(graphs, Places(graphs, ignored), s);
        var p :| p in Places(graphs, ignored) && s in EntryAt(graphs, p).symbols;
        assert p.1 in graphs[p.0];
      }
    }
  }

  lemma RefsSeen(graphs: seq<Graph>, ignored: set<string>, t: Tables, r: Ref)
    requires IsTables(graphs, ignored, t)
    ensures r in t.refs <==> RefSeen(graphs, ignored, r)
  {
    hide SourcesAre, SymbolsAre, ContextsAre, Places;
    if RefSeen(graphs, ignored, r) {
      var i: nat, uri :| i < |graphs| && uri in graphs[i] && uri !in ignored && r in graphs[i][uri].refs;
      assert (i, uri) in Places(graphs, ignored) && r in EntryAt(graphs, (i, uri)).refs;
    }
    if r in t.refs {
      var p :| p in Places(graphs, ignored) && r in EntryAt(graphs, p).refs;
      assert p.1 in graphs[p.0];
    }
  }

  lemma RelationsSeen(graphs: seq<Graph>, ignored: set<string>, t: Tables, r: Relation)
    requires IsTables(graphs, ignored, t)
    ensures r in t.relations <==> RelationSeen(graphs, ignored, r)
  {
    hide SourcesAre, SymbolsAre, ContextsAre, Places;
    if RelationSeen(graphs, ignored, r) {
      var i: nat, uri :| i < |graphs| && uri in graphs[i] && uri !in ignored && r in graphs[i][uri].relations;
      assert (i, uri) in Places(graphs, ignored) && r in EntryAt(graphs, (i, uri)).relations;
    }
    if r in t.relations {
      var p :| p in Places(graphs, ignored) && r in EntryAt(graphs, p).relations;
      assert p.1 in graphs[p.0];
    }
  }

  // ---- one symbol -------------------------------------------------------------------------------

  /** The same names, scopes, kinds, and nonempty types, signatures, return types and snippet suffixes. */
  ghost predicate SameFields(graphs: seq<Graph>, candidate: Graph, ignored: set<string>, id: string) {
    && Agree(graphs, candidate, ignored, id, Name)
    && Agree(graphs, candidate, ignored, id, Scope)
    && Agree(graphs, candidate, ignored, id, Kind)
    && AgreeUnlessEmpty(graphs, candidate, ignored, id, TypeOf)
    && AgreeUnlessEmpty(graphs, candidate, ignored, id, Signature)
    && AgreeUnlessEmpty(graphs, candidate, ignored, id, ReturnType)
    && AgreeUnlessEmpty(graphs, candidate, ignored, id, Suffix)
  }

  lemma SaysMeans<T>(graphs: seq<Graph>, ignored: set<string>, id: string, symbols: set<Symbol>, field: Symbol -> T, v: T)
    requires Records(graphs, ignored, id, symbols)
    ensures Says(graphs, ignored, id, field, v) <==> exists s :: s in symbols && field(s) == v
  {
    hide SymbolSeen;
  }

  ghost function Values<T>(symbols: set<Symbol>, field: Symbol -> T): set<T> {
    set s | s in symbols :: field(s)
  }

  lemma AgreeMeans<T(!new)>(graphs: seq<Graph>, candidate: Graph, ignored: set<string>, id: string, old': set<Symbol>,
                            new': set<Symbol>, field: Symbol -> T)
    requires Records(graphs, ignored, id, old') && Records([candidate], ignored, id, new')
    ensures Agree(graphs, candidate, ignored, id, field) <==>
              Values(old', field) == Values(new', field)
  {
    hide SymbolSeen, Records, Says;
    var a, b := Values(old', field), Values(new', field);
    forall v ensures (Says(graphs, ignored, id, field, v) <==> v in a) && (Says([candidate], ignored, id, field, v) <==> v in b) {
      SaysMeans(graphs, ignored, id, old', field, v);
      SaysMeans([candidate], ignored, id, new', field, v);
    }
    if Agree(graphs, candidate, ignored, id, field) { assert a == b; }
  }

  lemma AgreeUnlessMeans(graphs: seq<Graph>, candidate: Graph, ignored: set<string>, id: string, old': set<Symbol>,
                         new': set<Symbol>, field: Symbol -> string)
    requires Records(graphs, ignored, id, old') && Records([candidate], ignored, id, new')
    ensures AgreeUnlessEmpty(graphs, candidate, ignored, id, field) <==>
              Values(old', field) - {""} == Values(new', field) - {""}
  {
    hide SymbolSeen, Records, Says;
    var a, b := Values(old', field) - {""}, Values(new', field) - {""};
    forall v | v != ""
      ensures (Says(graphs, ignored, id, field, v) <==> v in a) && (Says([candidate], ignored, id, field, v) <==> v in b)
    {
      SaysMeans(graphs, ignored, id, old', field, v);
      SaysMeans([candidate], ignored, id, new', field, v);
    }
    if AgreeUnlessEmpty(graphs, candidate, ignored, id, field) { assert a == b; }
  }

  lemma IdentityMeans(graphs: seq<Graph>, candidate: Graph, ignored: set<string>, id: string, old': set<Symbol>,
                      new': set<Symbol>)
    requires Records(graphs, ignored, id, old') && Records([candidate], ignored, id, new')
    ensures SameIdentity(old', new') && SameCompletion(old', new') <==> SameFields(graphs, candidate, ignored, id)
    ensures SameArguments(old', new') <==> Agree(graphs, candidate, ignored, id, Arguments)
  {
    hide Agree, AgreeUnlessEmpty, Records, Values, SameIdentity, SameCompletion, SameArguments;
    AgreeMeans(graphs, candidate, ignored, id, old', new', Name);
    AgreeMeans(graphs, candidate, ignored, id, old', new', Scope);
    AgreeMeans(graphs, candidate, ignored, id, old', new', Kind);
    AgreeMeans(graphs, candidate, ignored, id, old', new', Arguments);
    AgreeUnlessMeans(graphs, candidate, ignored, id, old', new', TypeOf);
    AgreeUnlessMeans(graphs, candidate, ignored, id, old', new', Signature);
    AgreeUnlessMeans(graphs, candidate, ignored, id, old', new', ReturnType);
    AgreeUnlessMeans(graphs, candidate, ignored, id, old', new', Suffix);
    IdentityValues(old', new');
    CompletionValues(old', new');
    ArgumentValues(old', new');
  }

  lemma IdentityValues(a: set<Symbol>, b: set<Symbol>)
    ensures SameIdentity(a, b) <==> Values(a, Name) == Values(b, Name) && Values(a, Scope) == Values(b, Scope)
                                    && Values(a, Kind) == Values(b, Kind)
  {
    assert Values(a, Name) == (set s | s in a :: s.name) && Values(b, Name) == (set s | s in b :: s.name);
    assert Values(a, Scope) == (set s | s in a :: s.scope) && Values(b, Scope) == (set s | s in b :: s.scope);
    assert Values(a, Kind) == (set s | s in a :: s.kind) && Values(b, Kind) == (set s | s in b :: s.kind);
  }

  lemma ArgumentValues(a: set<Symbol>, b: set<Symbol>)
    ensures SameArguments(a, b) <==> Values(a, Arguments) == Values(b, Arguments)
  {
    assert Values(a, Arguments) == (set s | s in a :: s.arguments) && Values(b, Arguments) == (set s | s in b :: s.arguments);
  }

  lemma CompletionValues(a: set<Symbol>, b: set<Symbol>)
    ensures SameCompletion(a, b) <==>
              && Values(a, TypeOf) - {""} == Values(b, TypeOf) - {""} && Values(a, Signature) - {""} == Values(b, Signature) - {""}
              && Values(a, ReturnType) - {""} == Values(b, ReturnType) - {""} && Values(a, Suffix) - {""} == Values(b, Suffix) - {""}
  {
    NonemptyValues(a);
    NonemptyValues(b);
  }

  lemma NonemptyValues(a: set<Symbol>)
    ensures Values(a, TypeOf) - {""} == set s | s in a && s.typeName != "" :: s.typeName
    ensures Values(a, Signature) - {""} == set s | s in a && s.signature != "" :: s.signature
    ensures Values(a, ReturnType) - {""} == set s | s in a && s.returnType != "" :: s.returnType
    ensures Values(a, Suffix) - {""} == set s | s in a && s.suffix != "" :: s.suffix
  {
  }

  // ---- languages and flags ----------------------------------------------------------------------

  /** Some record of the symbol saw its definition. */
  ghost predicate Defined(graphs: seq<Graph>, ignored: set<string>, id: string) {
    exists s :: SymbolSeen(graphs, ignored, id, s) && s.definition.uri != ""
  }

  /** A record that counts: one that saw the definition, or any when none did. */
  ghost predicate Counts(graphs: seq<Graph>, ignored: set<string>, id: string, s: Symbol) {
    SymbolSeen(graphs, ignored, id, s) && (s.definition.uri != "" || !Defined(graphs, ignored, id))
  }

  ghost predicate Speaks(graphs: seq<Graph>, ignored: set<string>, id: string, l: nat) {
    exists s :: Counts(graphs, ignored, id, s) && s.language == l
  }

  /** The candidate's records show exactly the languages of the records that count. */
  ghost predicate SameLanguages(graphs: seq<Graph>, candidate: Graph, ignored: set<string>, id: string) {
    forall l :: Speaks(graphs, ignored, id, l) <==> Says([candidate], ignored, id, Language, l)
  }

  ghost predicate Flagged(graphs: seq<Graph>, ignored: set<string>, id: string, f: nat) {
    exists s :: SymbolSeen(graphs, ignored, id, s) && f in s.flags
  }

  /** The same flags, the one about a documentation comment aside. */
  ghost predicate SameFlags(graphs: seq<Graph>, candidate: Graph, ignored: set<string>, id: string) {
    forall f :: f != 4 ==> (Flagged(graphs, ignored, id, f) <==> Flagged([candidate], ignored, id, f))
  }

  lemma PreferredMeans(graphs: seq<Graph>, ignored: set<string>, id: string, symbols: set<Symbol>)
    requires Records(graphs, ignored, id, symbols)
    ensures forall s :: s in Preferred(symbols) <==> Counts(graphs, ignored, id, s)
  {
    hide SymbolSeen;
    var defining := set s | s in symbols && s.definition.uri != "";
    if Defined(graphs, ignored, id) {
      var s :| SymbolSeen(graphs, ignored, id, s) && s.definition.uri != "";
      assert s in defining;
    }
  }

  lemma LanguagesMean(graphs: seq<Graph>, candidate: Graph, ignored: set<string>, id: string, old': set<Symbol>,
                      new': set<Symbol>)
    requires Records(graphs, ignored, id, old') && Records([candidate], ignored, id, new')
    ensures Languages(Preferred(old')) == Languages(new') <==> SameLanguages(graphs, candidate, ignored, id)
  {
    hide SymbolSeen, Counts, Preferred, Records, Says;
    PreferredMeans(graphs, ignored, id, old');
    forall l ensures (l in Languages(Preferred(old')) <==> Speaks(graphs, ignored, id, l))
                     && (l in Languages(new') <==> Says([candidate], ignored, id, Language, l)) {
      SaysMeans([candidate], ignored, id, new', Language, l);
    }
    if SameLanguages(graphs, candidate, ignored, id) { assert Languages(Preferred(old')) == Languages(new'); }
  }

  lemma FlagsMean(graphs: seq<Graph>, ignored: set<string>, id: string, symbols: set<Symbol>, f: nat)
    requires Records(graphs, ignored, id, symbols)
    ensures f in Flags(symbols) <==> f != 4 && Flagged(graphs, ignored, id, f)
  {
    hide SymbolSeen;
  }

  lemma SameFlagsMean(graphs: seq<Graph>, candidate: Graph, ignored: set<string>, id: string, old': set<Symbol>,
                      new': set<Symbol>)
    requires Records(graphs, ignored, id, old') && Records([candidate], ignored, id, new')
    ensures Flags(old') == Flags(new') <==> SameFlags(graphs, candidate, ignored, id)
  {
    hide SymbolSeen, Records, Flags, Flagged;
    forall f ensures (f in Flags(old') <==> f != 4 && Flagged(graphs, ignored, id, f))
                     && (f in Flags(new') <==> f != 4 && Flagged([candidate], ignored, id, f)) {
      FlagsMean(graphs, ignored, id, old', f);
      FlagsMean([candidate], ignored, id, new', f);
    }
    if SameFlags(graphs, candidate, ignored, id) { assert Flags(old') == Flags(new'); }
  }

  // ---- places -----------------------------------------------------------------------------------

  ghost predicate DefinedAt(graphs: seq<Graph>, ignored: set<string>, id: string, l: Location) {
    l.uri != "" && exists s :: SymbolSeen(graphs, ignored, id, s) && s.definition == l
  }

  ghost predicate DeclaredAt(graphs: seq<Graph>, ignored: set<string>, id: string, l: Location) {
    l.uri != "" && exists s :: SymbolSeen(graphs, ignored, id, s) && s.declaration == l
  }

  /** A reference of the symbol that is a definition stands here, or, if allowed, a declaration. */
  ghost predicate RefersAt(graphs: seq<Graph>, ignored: set<string>, id: string, l: Location, declarations: bool) {
    exists r :: RefSeen(graphs, ignored, r) && r.symbol == id && r.location == l
                && (1 in r.kind || (declarations && 0 in r.kind))
  }

  /** Definitions are kept, a declared symbol stays declared, and every place of the candidate was one of the originals'. */
  ghost predicate PlacesKept(graphs: seq<Graph>, candidate: Graph, ignored: set<string>, id: string) {
    && (forall l :: DefinedAt(graphs, ignored, id, l) ==> DefinedAt([candidate], ignored, id, l))
    && (forall l :: DefinedAt([candidate], ignored, id, l) ==>
          DefinedAt(graphs, ignored, id, l) || RefersAt(graphs, ignored, id, l, false))
    && ((exists l :: DeclaredAt(graphs, ignored, id, l)) ==> exists l :: DeclaredAt([candidate], ignored, id, l))
    && (forall l :: DeclaredAt([candidate], ignored, id, l) ==>
          DeclaredAt(graphs, ignored, id, l) || RefersAt(graphs, ignored, id, l, true))
  }

  lemma LocationsMean(graphs: seq<Graph>, ignored: set<string>, id: string, symbols: set<Symbol>, l: Location)
    requires Records(graphs, ignored, id, symbols)
    ensures l in Locations(symbols, true) <==> DefinedAt(graphs, ignored, id, l)
    ensures l in Locations(symbols, false) <==> DeclaredAt(graphs, ignored, id, l)
  {
    hide SymbolSeen;
  }

  lemma RefLocationsMean(graphs: seq<Graph>, ignored: set<string>, t: Tables, id: string, l: Location, definition: bool)
    requires IsTables(graphs, ignored, t)
    ensures l in RefLocations(t.refs, id, definition) <==> RefersAt(graphs, ignored, id, l, !definition)
  {
    hide IsTables, RefSeen;
    forall r ensures r in t.refs <==> RefSeen(graphs, ignored, r) { RefsSeen(graphs, ignored, t, r); }
  }

  lemma PlacesMean(graphs: seq<Graph>, candidate: Graph, ignored: set<string>, t: Tables, id: string, old': set<Symbol>,
                   new': set<Symbol>)
    requires IsTables(graphs, ignored, t)
    requires Records(graphs, ignored, id, old') && Records([candidate], ignored, id, new')
    ensures SamePlaces(old', new', t.refs, id) <==> PlacesKept(graphs, candidate, ignored, id)
  {
    hide IsTables, Records, Locations, RefLocations, DefinedAt, DeclaredAt, RefersAt;
    forall l
      ensures l in Locations(old', true) <==> DefinedAt(graphs, ignored, id, l)
      ensures l in Locations(old', false) <==> DeclaredAt(graphs, ignored, id, l)
      ensures l in Locations(new', true) <==> DefinedAt([candidate], ignored, id, l)
      ensures l in Locations(new', false) <==> DeclaredAt([candidate], ignored, id, l)
      ensures l in RefLocations(t.refs, id, true) <==> RefersAt(graphs, ignored, id, l, false)
      ensures l in RefLocations(t.refs, id, false) <==> RefersAt(graphs, ignored, id, l, true)
    {
      LocationsMean(graphs, ignored, id, old', l);
      LocationsMean([candidate], ignored, id, new', l);
      RefLocationsMean(graphs, ignored, t, id, l, true);
      RefLocationsMean(graphs, ignored, t, id, l, false);
    }
    SomeMember(Locations(old', false));
    SomeMember(Locations(new', false));
  }

  lemma SomeMember(s: set<Location>)
    ensures s != {} <==> exists l :: l in s
  {
  }

  // ---- header providers -------------------------------------------------------------------------

  /** The symbol suggests this header: a record that counts names it. */
  ghost predicate Suggests(graphs: seq<Graph>, ignored: set<string>, id: string, h: string) {
    exists s, x :: Counts(graphs, ignored, id, s) && x in s.headers && x.header == h
  }

  ghost predicate Directs(graphs: seq<Graph>, ignored: set<string>, id: string, h: string, d: nat) {
    exists s, x :: SymbolSeen(graphs, ignored, id, s) && x in s.headers && x.header == h && d in x.directives
  }

  /** Header `h` here and header `g` there support the same directives. */
  ghost predicate SameDirectives(a: seq<Graph>, h: string, b: seq<Graph>, g: string, ignored: set<string>, id: string) {
    forall d :: Directs(a, ignored, id, h, d) <==> Directs(b, ignored, id, g, d)
  }

  /** A chain of files of this graph, each including the next. */
  ghost predicate IncludeChain(graph: Graph, chain: seq<string>) {
    && chain != [] && (forall i :: 0 <= i < |chain| ==> chain[i] in graph)
    && forall i, j :: 0 <= i && j == i + 1 && j < |chain| ==> chain[j] in graph[chain[i]].source.includes
  }

  /** Here the graph defines the symbol, or, unless a body is asked for, declares it. */
  ghost predicate Shows(graph: Graph, id: string, body: bool, path: string) {
    || (exists p, s :: p in graph && s in graph[p].symbols && s.id == id
                       && (s.definition.uri == path || (!body && s.declaration.uri == path)))
    || (exists p, r :: p in graph && r in graph[p].refs && r.symbol == id && r.location.uri == path
                       && (1 in r.kind || (!body && 0 in r.kind)))
  }

  /** In some original, including this header leads to the symbol. */
  ghost predicate LeadsTo(graphs: seq<Graph>, id: string, h: string, body: bool) {
    exists i, chain :: 0 <= i < |graphs| && IncludeChain(graphs[i], chain) && chain[0] == h
                       && Shows(graphs[i], id, body, chain[|chain| - 1])
  }

  lemma ChainsMean(graph: Graph, chain: seq<string>)
    requires chain != [] && chain[0] in graph
    ensures IsChain(EdgesOf(graph), chain) <==> IncludeChain(graph, chain)
  {
    var edges := EdgesOf(graph);
    if IsChain(edges, chain) { InGraph(graph, chain, |chain| - 1); }
  }

  lemma {:induction false} InGraph(graph: Graph, chain: seq<string>, n: nat)
    requires chain != [] && chain[0] in graph && IsChain(EdgesOf(graph), chain) && n < |chain|
    ensures forall i :: 0 <= i <= n ==> chain[i] in graph
  {
    if n > 0 {
      InGraph(graph, chain, n - 1);
      assert chain[n - 1 + 1] in Includes(EdgesOf(graph), chain[n - 1]);
    }
  }

  lemma ShowsMeans(graph: Graph, id: string, body: bool, path: string)
    ensures path in EvidenceIn(graph, id, body) <==> Shows(graph, id, body, path)
  {
  }

  lemma LeadsMeans(graphs: seq<Graph>, id: string, h: string, body: bool)
    ensures ExposedBySome(graphs, id, h, body) <==> LeadsTo(graphs, id, h, body)
  {
    hide EvidenceIn, Shows, EdgesOf;
    if i: nat :| i < |graphs| && Exposes(graphs[i], id, h, body) {
      var path :| path in EvidenceIn(graphs[i], id, body) && Reaches(EdgesOf(graphs[i]), h, path);
      var chain :| IsChain(EdgesOf(graphs[i]), chain) && chain[0] == h && Last(chain) == path;
      ChainsMean(graphs[i], chain);
      ShowsMeans(graphs[i], id, body, path);
      assert LeadsTo(graphs, id, h, body);
    }
    if i, chain :| 0 <= i < |graphs| && IncludeChain(graphs[i], chain) && chain[0] == h
                    && Shows(graphs[i], id, body, chain[|chain| - 1]) {
      assert chain[0] in graphs[i] by { ChainStarts(graphs[i], chain); }
      ChainsMean(graphs[i], chain);
      ShowsMeans(graphs[i], id, body, Last(chain));
      assert Reaches(EdgesOf(graphs[i]), h, Last(chain));
      assert Exposes(graphs[i], id, h, body);
    }
  }

  lemma ChainStarts(graph: Graph, chain: seq<string>)
    requires IncludeChain(graph, chain)
    ensures chain != [] && chain[0] in graph
  {
  }

  /** Nothing changed about the headers, or every changed one is a file that provably provides the symbol. */
  ghost predicate ProvidersKept(spelling: Spelling, graphs: seq<Graph>, candidate: Graph, ignored: set<string>, id: string) {
    SameHeaders(graphs, candidate, ignored, id) || HeadersProvide(spelling, graphs, candidate, ignored, id)
  }

  ghost predicate SameHeaders(graphs: seq<Graph>, candidate: Graph, ignored: set<string>, id: string) {
    forall h :: (Suggests(graphs, ignored, id, h) <==> Suggests([candidate], ignored, id, h))
                && (Suggests(graphs, ignored, id, h) ==> SameDirectives(graphs, h, [candidate], h, ignored, id))
  }

  ghost predicate HeadersProvide(spelling: Spelling, graphs: seq<Graph>, candidate: Graph, ignored: set<string>, id: string) {
    && (exists g :: Suggests([candidate], ignored, id, g)) && DirectivesMatch(graphs, candidate, ignored, id)
    && (forall h :: Suggests(graphs, ignored, id, h) ==> spelling.isFile(h))
    && forall g :: Suggests([candidate], ignored, id, g) ==> HeaderProvides(spelling, graphs, candidate, ignored, id, g)
  }

  /** Some header there supports what this one does here. */
  ghost predicate Matched(a: seq<Graph>, h: string, b: seq<Graph>, ignored: set<string>, id: string) {
    exists g :: Suggests(b, ignored, id, g) && SameDirectives(a, h, b, g, ignored, id)
  }

  ghost predicate DirectivesMatch(graphs: seq<Graph>, candidate: Graph, ignored: set<string>, id: string) {
    && (forall h :: Suggests(graphs, ignored, id, h) ==> Matched(graphs, h, [candidate], ignored, id))
    && forall g :: Suggests([candidate], ignored, id, g) ==> Matched([candidate], g, graphs, ignored, id)
  }

  /** A header suggested before supports what it did; a new one leads to the symbol, to its body if an old one did. */
  ghost predicate HeaderProvides(spelling: Spelling, graphs: seq<Graph>, candidate: Graph, ignored: set<string>, id: string,
                                 g: string) {
    if Suggests(graphs, ignored, id, g) then SameDirectives(graphs, g, [candidate], g, ignored, id)
    else spelling.isFile(g) && spelling.isProvider(g)
         && LeadsTo(graphs, id, g, exists h :: Suggests(graphs, ignored, id, h) && LeadsTo(graphs, id, h, true))
  }

  /** The map holds exactly the suggested headers with the directives they support. */
  ghost predicate HeaderMap(graphs: seq<Graph>, ignored: set<string>, id: string, m: map<string, Bits>) {
    && (forall h :: h in m <==> Suggests(graphs, ignored, id, h))
    && forall h, d :: h in m ==> (d in m[h] <==> Directs(graphs, ignored, id, h, d))
  }

  lemma HeadersMean(graphs: seq<Graph>, ignored: set<string>, id: string, symbols: set<Symbol>)
    requires Records(graphs, ignored, id, symbols)
    ensures HeaderMap(graphs, ignored, id, Headers(symbols))
  {
    hide SymbolSeen, Counts, Preferred;
    PreferredMeans(graphs, ignored, id, symbols);
  }

  lemma DirectivesMean(a: seq<Graph>, b: seq<Graph>, ignored: set<string>, id: string, m: map<string, Bits>,
                       n: map<string, Bits>, h: string, g: string)
    requires HeaderMap(a, ignored, id, m) && HeaderMap(b, ignored, id, n) && h in m && g in n
    ensures m[h] == n[g] <==> SameDirectives(a, h, b, g, ignored, id)
  {
    hide Directs, Suggests;
    if SameDirectives(a, h, b, g, ignored, id) { assert forall d :: d in m[h] <==> d in n[g]; }
  }

  lemma NeedsMean(graphs: seq<Graph>, ignored: set<string>, id: string, m: map<string, Bits>)
    requires HeaderMap(graphs, ignored, id, m)
    ensures NeedsBody(graphs, id, m) <==> exists h :: Suggests(graphs, ignored, id, h) && LeadsTo(graphs, id, h, true)
  {
    hide Directs, Suggests, LeadsTo, ExposedBySome;
    forall h ensures ExposedBySome(graphs, id, h, true) <==> LeadsTo(graphs, id, h, true) { LeadsMeans(graphs, id, h, true); }
  }

  lemma HeaderMeans(spelling: Spelling, graphs: seq<Graph>, candidate: Graph, ignored: set<string>, id: string,
                    m: map<string, Bits>, n: map<string, Bits>, g: string)
    requires HeaderMap(graphs, ignored, id, m) && HeaderMap([candidate], ignored, id, n) && g in n
    ensures NewHeaderFits(spelling, graphs, id, m, n, g) <==> HeaderProvides(spelling, graphs, candidate, ignored, id, g)
  {
    hide Directs, Suggests, LeadsTo, ExposedBySome, NeedsBody, SameDirectives;
    NeedsMean(graphs, ignored, id, m);
    LeadsMeans(graphs, id, g, NeedsBody(graphs, id, m));
    if g in m { DirectivesMean(graphs, [candidate], ignored, id, m, n, g, g); }
  }

  lemma SameHeadersMean(graphs: seq<Graph>, candidate: Graph, ignored: set<string>, id: string, m: map<string, Bits>,
                        n: map<string, Bits>)
    requires HeaderMap(graphs, ignored, id, m) && HeaderMap([candidate], ignored, id, n)
    ensures m == n <==> SameHeaders(graphs, candidate, ignored, id)
  {
    hide Directs, Suggests, SameDirectives;
    forall h | h in m && h in n ensures m[h] == n[h] <==> SameDirectives(graphs, h, [candidate], h, ignored, id) {
      DirectivesMean(graphs, [candidate], ignored, id, m, n, h, h);
    }
    if SameHeaders(graphs, candidate, ignored, id) {
      forall h ensures h in m <==> h in n { assert Suggests(graphs, ignored, id, h) <==> Suggests([candidate], ignored, id, h); }
      assert m.Keys == n.Keys;
    }
  }

  lemma HeadersProvideMean(spelling: Spelling, graphs: seq<Graph>, candidate: Graph, ignored: set<string>, id: string,
                           m: map<string, Bits>, n: map<string, Bits>)
    requires HeaderMap(graphs, ignored, id, m) && HeaderMap([candidate], ignored, id, n)
    ensures (&& n != map[] && m.Values == n.Values && (forall h :: h in m ==> spelling.isFile(h))
             && forall h :: h in n ==> NewHeaderFits(spelling, graphs, id, m, n, h))
            <==> HeadersProvide(spelling, graphs, candidate, ignored, id)
  {
    hide Directs, Suggests, SameDirectives, NewHeaderFits, HeaderProvides, DirectivesMatch;
    forall g | g in n
      ensures NewHeaderFits(spelling, graphs, id, m, n, g) <==> HeaderProvides(spelling, graphs, candidate, ignored, id, g)
    {
      HeaderMeans(spelling, graphs, candidate, ignored, id, m, n, g);
    }
    SomeKey(n);
    MatchMeans(graphs, candidate, ignored, id, m, n);
  }

  lemma MatchMeans(graphs: seq<Graph>, candidate: Graph, ignored: set<string>, id: string, m: map<string, Bits>,
                   n: map<string, Bits>)
    requires HeaderMap(graphs, ignored, id, m) && HeaderMap([candidate], ignored, id, n)
    ensures m.Values == n.Values <==> DirectivesMatch(graphs, candidate, ignored, id)
  {
    hide HeaderMap, Matched;
    HeaderKeys(graphs, ignored, id, m);
    HeaderKeys([candidate], ignored, id, n);
    forall h | h in m ensures m[h] in n.Values <==> Matched(graphs, h, [candidate], ignored, id) {
      MatchedMeans(graphs, [candidate], ignored, id, m, n, h);
    }
    forall g | g in n ensures n[g] in m.Values <==> Matched([candidate], g, graphs, ignored, id) {
      MatchedMeans([candidate], graphs, ignored, id, n, m, g);
    }
    ValuesMean(m, n);
  }

  lemma HeaderKeys(graphs: seq<Graph>, ignored: set<string>, id: string, m: map<string, Bits>)
    requires HeaderMap(graphs, ignored, id, m)
    ensures forall h :: h in m <==> Suggests(graphs, ignored, id, h)
  {
  }

  lemma MatchedMeans(a: seq<Graph>, b: seq<Graph>, ignored: set<string>, id: string, m: map<string, Bits>,
                     n: map<string, Bits>, h: string)
    requires HeaderMap(a, ignored, id, m) && HeaderMap(b, ignored, id, n) && h in m
    ensures m[h] in n.Values <==> Matched(a, h, b, ignored, id)
  {
    hide HeaderMap, SameDirectives;
    HeaderKeys(b, ignored, id, n);
    forall g | g in n ensures m[h] == n[g] <==> SameDirectives(a, h, b, g, ignored, id) {
      DirectivesMean(a, b, ignored, id, m, n, h, g);
    }
  }

  lemma SomeKey(n: map<string, Bits>)
    ensures n != map[] <==> exists g :: g in n
  {
    if n != map[] { assert n.Keys != {}; }
  }

  lemma ValuesMean(m: map<string, Bits>, n: map<string, Bits>)
    ensures m.Values == n.Values <==> (forall h :: h in m ==> m[h] in n.Values) && forall g :: g in n ==> n[g] in m.Values
  {
  }

  lemma ProvidersMean(spelling: Spelling, graphs: seq<Graph>, candidate: Graph, ignored: set<string>, id: string,
                      old': set<Symbol>, new': set<Symbol>)
    requires Records(graphs, ignored, id, old') && Records([candidate], ignored, id, new')
    ensures ProvidersFit(spelling, graphs, id, Headers(old'), Headers(new'))
            <==> ProvidersKept(spelling, graphs, candidate, ignored, id)
  {
    hide Records, Headers, NewHeaderFits, SameHeaders, HeadersProvide, HeaderMap;
    HeadersMean(graphs, ignored, id, old');
    HeadersMean([candidate], ignored, id, new');
    SameHeadersMean(graphs, candidate, ignored, id, Headers(old'), Headers(new'));
    HeadersProvideMean(spelling, graphs, candidate, ignored, id, Headers(old'), Headers(new'));
  }

  // ---- one symbol as a whole --------------------------------------------------------------------

  /** What no callback can excuse about one symbol. */
  ghost predicate SymbolStays(spelling: Spelling, graphs: seq<Graph>, candidate: Graph, ignored: set<string>, id: string) {
    && SameFields(graphs, candidate, ignored, id) && SameLanguages(graphs, candidate, ignored, id)
    && SameFlags(graphs, candidate, ignored, id) && ProvidersKept(spelling, graphs, candidate, ignored, id)
    && PlacesKept(graphs, candidate, ignored, id)
  }

  lemma SymbolMeans(spelling: Spelling, graphs: seq<Graph>, candidate: Graph, ignored: set<string>, t: Tables, id: string,
                    old': set<Symbol>, new': set<Symbol>)
    requires IsTables(graphs, ignored, t)
    requires Records(graphs, ignored, id, old') && Records([candidate], ignored, id, new')
    ensures SymbolKept(spelling, graphs, t.refs, id, old', new') <==> SymbolStays(spelling, graphs, candidate, ignored, id)
  {
    hide IsTables, Records, SameIdentity, SameCompletion, SameFields, SameLanguages, SameFlags, ProvidersKept, PlacesKept;
    hide ProvidersFit, SamePlaces, Headers, Languages, Preferred, Flags;
    IdentityMeans(graphs, candidate, ignored, id, old', new');
    LanguagesMean(graphs, candidate, ignored, id, old', new');
    SameFlagsMean(graphs, candidate, ignored, id, old', new');
    ProvidersMean(spelling, graphs, candidate, ignored, id, old', new');
    PlacesMean(graphs, candidate, ignored, t, id, old', new');
  }

  // ---- files ------------------------------------------------------------------------------------

  ghost predicate FileSeen(graphs: seq<Graph>, ignored: set<string>, i: nat, uri: string) {
    i < |graphs| && uri in graphs[i] && uri !in ignored
  }

  /** Some graph has this file including this one. */
  ghost predicate IncludeSeen(graphs: seq<Graph>, ignored: set<string>, uri: string, x: string) {
    exists i: nat :: FileSeen(graphs, ignored, i, uri) && x in graphs[i][uri].source.includes
  }

  /** The same files, each with the originals' digest and flags and the union of their includes. */
  ghost predicate SameFiles(graphs: seq<Graph>, candidate: Graph, ignored: set<string>) {
    && (forall uri :: (exists i: nat :: FileSeen(graphs, ignored, i, uri)) <==> FileSeen([candidate], ignored, 0, uri))
    && (forall uri, i: nat :: FileSeen(graphs, ignored, i, uri) && uri in candidate ==>
          candidate[uri].source.digest == graphs[i][uri].source.digest
          && candidate[uri].source.flags == graphs[i][uri].source.flags)
    && forall uri, x :: FileSeen([candidate], ignored, 0, uri) ==>
         (IncludeSeen(graphs, ignored, uri, x) <==> x in candidate[uri].source.includes)
  }

  lemma FilesMean(graphs: seq<Graph>, ignored: set<string>, t: Tables, uri: string)
    requires IsTables(graphs, ignored, t)
    ensures uri in t.sources <==> exists i: nat :: FileSeen(graphs, ignored, i, uri)
    ensures forall x :: uri in t.sources ==> (x in t.sources[uri].includes <==> IncludeSeen(graphs, ignored, uri, x))
    ensures forall i: nat :: FileSeen(graphs, ignored, i, uri) ==>
              uri in t.sources && t.sources[uri].digest == graphs[i][uri].source.digest
              && t.sources[uri].flags == graphs[i][uri].source.flags
  {
    hide SymbolsAre, ContextsAre, Places;
    var done := Places(graphs, ignored);
    assert forall i: nat :: (i, uri) in done <==> FileSeen(graphs, ignored, i, uri);
    if i: nat :| FileSeen(graphs, ignored, i, uri) { assert FilePlaced(done, uri); }
    forall i: nat | FileSeen(graphs, ignored, i, uri)
      ensures uri in t.sources && t.sources[uri].digest == graphs[i][uri].source.digest
              && t.sources[uri].flags == graphs[i][uri].source.flags
    {
      SourceOf(graphs, done, t.sources, (i, uri));
    }
    forall x | uri in t.sources ensures x in t.sources[uri].includes <==> IncludeSeen(graphs, ignored, uri, x) {
      if i: nat :| FileSeen(graphs, ignored, i, uri) && x in graphs[i][uri].source.includes {
        assert (i, uri) in done && x in EntryAt(graphs, (i, uri)).source.includes;
        assert IncludePlaced(graphs, done, uri, x);
      }
    }
  }

  lemma CandidateFile(candidate: Graph, ignored: set<string>, u: Tables, uri: string)
    requires IsTables([candidate], ignored, u)
    ensures uri in u.sources <==> FileSeen([candidate], ignored, 0, uri)
    ensures uri in u.sources ==> u.sources[uri].digest == candidate[uri].source.digest
                                 && u.sources[uri].flags == candidate[uri].source.flags
    ensures forall x :: uri in u.sources ==> (x in u.sources[uri].includes <==> x in candidate[uri].source.includes)
  {
    hide IsTables;
    FilesMean([candidate], ignored, u, uri);
    assert forall i: nat :: FileSeen([candidate], ignored, i, uri) ==> i == 0;
    forall x | uri in u.sources ensures IncludeSeen([candidate], ignored, uri, x) <==> x in candidate[uri].source.includes {
      if x in candidate[uri].source.includes { assert FileSeen([candidate], ignored, 0, uri); }
    }
  }

  lemma SourcesMean(graphs: seq<Graph>, candidate: Graph, ignored: set<string>, t: Tables, u: Tables)
    requires IsTables(graphs, ignored, t) && IsTables([candidate], ignored, u)
    ensures t.sources == u.sources <==> SameFiles(graphs, candidate, ignored)
  {
    hide IsTables, FileSeen, IncludeSeen;
    forall uri
      ensures (uri in t.sources <==> exists i: nat :: FileSeen(graphs, ignored, i, uri))
      ensures uri in u.sources <==> FileSeen([candidate], ignored, 0, uri)
    {
      FilesMean(graphs, ignored, t, uri);
      CandidateFile(candidate, ignored, u, uri);
    }
    if t.sources == u.sources { FilesSame(graphs, candidate, ignored, t, u); }
    if SameFiles(graphs, candidate, ignored) {
      forall uri | uri in t.sources ensures uri in u.sources && t.sources[uri] == u.sources[uri] {
        SameSourceOf(graphs, candidate, ignored, t, u, uri);
      }
      assert t.sources.Keys == u.sources.Keys;
    }
  }

  lemma SameSourceOf(graphs: seq<Graph>, candidate: Graph, ignored: set<string>, t: Tables, u: Tables, uri: string)
    requires IsTables(graphs, ignored, t) && IsTables([candidate], ignored, u) && SameFiles(graphs, candidate, ignored)
    requires uri in t.sources
    ensures uri in u.sources && t.sources[uri] == u.sources[uri]
  {
    hide IsTables, IncludeSeen;
    FilesMean(graphs, ignored, t, uri);
    CandidateFile(candidate, ignored, u, uri);
    assert FileSeen([candidate], ignored, 0, uri);
    forall x ensures x in t.sources[uri].includes <==> x in u.sources[uri].includes {
      assert IncludeSeen(graphs, ignored, uri, x) <==> x in candidate[uri].source.includes;
    }
    assert t.sources[uri].includes == u.sources[uri].includes;
    var i: nat :| FileSeen(graphs, ignored, i, uri);
  }

  lemma FilesSame(graphs: seq<Graph>, candidate: Graph, ignored: set<string>, t: Tables, u: Tables)
    requires IsTables(graphs, ignored, t) && IsTables([candidate], ignored, u) && t.sources == u.sources
    ensures SameFiles(graphs, candidate, ignored)
  {
    hide IsTables, IncludeSeen;
    forall uri
      ensures (exists i: nat :: FileSeen(graphs, ignored, i, uri)) <==> FileSeen([candidate], ignored, 0, uri)
      ensures forall x :: FileSeen([candidate], ignored, 0, uri) ==>
                (IncludeSeen(graphs, ignored, uri, x) <==> x in candidate[uri].source.includes)
      ensures forall i: nat :: FileSeen(graphs, ignored, i, uri) && uri in candidate ==>
                candidate[uri].source.digest == graphs[i][uri].source.digest
                && candidate[uri].source.flags == graphs[i][uri].source.flags
    {
      FilesMean(graphs, ignored, t, uri);
      CandidateFile(candidate, ignored, u, uri);
    }
  }

  // ---- what can be compared ---------------------------------------------------------------------

  ghost predicate HasFile(graph: Graph) {
    exists uri :: uri in graph
  }

  /** Every graph has files, and some file is not ignored; the files can be used and agree. */
  ghost predicate Usable(graphs: seq<Graph>, ignored: set<string>) {
    && (forall i :: 0 <= i < |graphs| ==> HasFile(graphs[i]))
    && (exists i: nat, uri :: FileSeen(graphs, ignored, i, uri))
    && FilesUsable(graphs, ignored) && FilesAgree(graphs, ignored)
  }

  /** All files compiled; ignored ones are bare, and the others keep their references under their own URI. */
  ghost predicate FilesUsable(graphs: seq<Graph>, ignored: set<string>) {
    && (forall i, uri :: 0 <= i < |graphs| && uri in graphs[i] ==> 1 !in graphs[i][uri].source.flags)
    && (forall i, uri :: 0 <= i < |graphs| && uri in graphs[i] && uri in ignored ==>
          |graphs[i][uri].symbols| == 0 && |graphs[i][uri].refs| == 0 && |graphs[i][uri].relations| == 0)
    && forall i: nat, uri, r :: FileSeen(graphs, ignored, i, uri) && r in graphs[i][uri].refs ==> r.location.uri == uri
  }

  /** Two graphs with one file have it with one digest and the same flags. */
  ghost predicate FilesAgree(graphs: seq<Graph>, ignored: set<string>) {
    forall i: nat, j: nat, uri :: FileSeen(graphs, ignored, i, uri) && FileSeen(graphs, ignored, j, uri) ==>
      graphs[i][uri].source.digest == graphs[j][uri].source.digest && graphs[i][uri].source.flags == graphs[j][uri].source.flags
  }

  lemma CollectableMeans(graphs: seq<Graph>, ignored: set<string>)
    ensures Collectable(graphs, ignored) <==> Usable(graphs, ignored)
  {
    hide EntriesFit, SourcesAgree, FilesUsable, FilesAgree, HasFile;
    EntriesMean(graphs, ignored);
    AgreementMeans(graphs, ignored);
    NotEmpty(graphs);
    SomeFile(graphs, ignored);
  }

  lemma NotEmpty(graphs: seq<Graph>)
    ensures (forall i :: 0 <= i < |graphs| ==> graphs[i] != map[]) <==>
              forall i :: 0 <= i < |graphs| ==> HasFile(graphs[i])
  {
    forall i | 0 <= i < |graphs| ensures graphs[i] != map[] <==> HasFile(graphs[i]) {
      if graphs[i] != map[] { assert graphs[i].Keys != {}; }
    }
  }

  lemma SomeFile(graphs: seq<Graph>, ignored: set<string>)
    ensures Places(graphs, ignored) != {} <==> exists i: nat, uri :: FileSeen(graphs, ignored, i, uri)
  {
    var done := Places(graphs, ignored);
    if p :| p in done { assert FileSeen(graphs, ignored, p.0, p.1); }
    if i: nat, uri :| FileSeen(graphs, ignored, i, uri) { assert (i, uri) in done; }
  }

  lemma EntriesMean(graphs: seq<Graph>, ignored: set<string>)
    ensures EntriesFit(graphs, ignored) <==> FilesUsable(graphs, ignored)
  {
    forall i: nat, uri | i < |graphs| && uri in graphs[i]
      ensures EntriesFit(graphs, ignored) ==> EntryFits(ignored, uri, graphs[i][uri])
    {
      assert InRange(graphs, (i, uri)) && EntryAt(graphs, (i, uri)) == graphs[i][uri];
    }
  }

  lemma AgreementMeans(graphs: seq<Graph>, ignored: set<string>)
    ensures SourcesAgree(graphs, Places(graphs, ignored)) <==> FilesAgree(graphs, ignored)
  {
    hide Places;
    var done := Places(graphs, ignored);
    assert forall i: nat, uri :: (i, uri) in done <==> FileSeen(graphs, ignored, i, uri);
    if SourcesAgree(graphs, done) {
      forall i: nat, j: nat, uri | FileSeen(graphs, ignored, i, uri) && FileSeen(graphs, ignored, j, uri)
        ensures SameSource(graphs[i][uri], graphs[j][uri])
      {
        assert SameSource(EntryAt(graphs, (i, uri)), EntryAt(graphs, (j, uri)));
      }
    }
  }

  // ---- tables exist -----------------------------------------------------------------------------

  ghost function SourceIn(graphs: seq<Graph>, done: set<Place>, uri: string): SourceKey
    requires AllInRange(graphs, done) && FilePlaced(done, uri)
  {
    var i :| (i, uri) in done;
    SourceKey(EntryAt(graphs, (i, uri)).source.digest, EntryAt(graphs, (i, uri)).source.flags,
              set p, x | p in done && p.1 == uri && x in EntryAt(graphs, p).source.includes :: x)
  }

  ghost function SymbolsIn(graphs: seq<Graph>, done: set<Place>): set<Symbol>
    requires AllInRange(graphs, done)
  {
    set p, s | p in done && s in EntryAt(graphs, p).symbols :: s
  }

  ghost function OfId(symbols: set<Symbol>, id: string): set<Symbol> {
    set s | s in symbols && s.id == id
  }

  ghost function TablesOf(graphs: seq<Graph>, done: set<Place>): Tables
    requires AllInRange(graphs, done)
  {
    var files := set p | p in done :: p.1;
    var symbols := SymbolsIn(graphs, done);
    Tables(map uri | uri in files :: assert FilePlaced(done, uri) by { FileOf(done, uri); } SourceIn(graphs, done, uri),
           map id | id in (set s | s in symbols :: s.id) :: OfId(symbols, id),
           set p, r | p in done && r in EntryAt(graphs, p).refs :: r,
           set p, r | p in done && r in EntryAt(graphs, p).relations :: r,
           map uri | uri in files :: set p | p in done && p.1 == uri :: p.0)
  }

  lemma FileOf(done: set<Place>, uri: string)
    ensures (exists p :: p in done && p.1 == uri) <==> FilePlaced(done, uri)
  {
    if p :| p in done && p.1 == uri { assert (p.0, uri) in done; }
    if i :| (i, uri) in done { assert (i, uri).1 == uri; }
  }

  lemma TablesExist(graphs: seq<Graph>, ignored: set<string>)
    requires Collectable(graphs, ignored)
    ensures IsTables(graphs, ignored, TablesOf(graphs, Places(graphs, ignored)))
  {
    hide Places, EntriesFit, TablesOf, SourcesAre, SymbolsAre, ContextsAre, SourcesAgree;
    var done := Places(graphs, ignored);
    var t := TablesOf(graphs, done);
    SourcesExist(graphs, done, t);
    SymbolsExist(graphs, done, t);
    RefsExist(graphs, done, t);
    ContextsExist(graphs, done, t);
  }

  lemma RefsExist(graphs: seq<Graph>, done: set<Place>, t: Tables)
    requires AllInRange(graphs, done) && t == TablesOf(graphs, done)
    ensures forall r :: r in t.refs <==> RefPlaced(graphs, done, r)
    ensures forall r :: r in t.relations <==> RelationPlaced(graphs, done, r)
  {
  }

  lemma SourcesExist(graphs: seq<Graph>, done: set<Place>, t: Tables)
    requires AllInRange(graphs, done) && t == TablesOf(graphs, done) && SourcesAgree(graphs, done)
    ensures SourcesAre(graphs, done, t.sources)
  {
    forall uri ensures uri in t.sources <==> FilePlaced(done, uri) { FileOf(done, uri); }
    forall p | p in done
      ensures p.1 in t.sources && t.sources[p.1].digest == EntryAt(graphs, p).source.digest
              && t.sources[p.1].flags == EntryAt(graphs, p).source.flags
    {
      FileOf(done, p.1);
      assert t.sources[p.1] == SourceIn(graphs, done, p.1);
    }
    forall uri, x | uri in t.sources ensures x in t.sources[uri].includes <==> IncludePlaced(graphs, done, uri, x) {
      assert t.sources[uri] == SourceIn(graphs, done, uri);
      if p :| p in done && p.1 == uri && x in EntryAt(graphs, p).source.includes { assert (p.0, uri) in done; }
    }
  }

  lemma SymbolsExist(graphs: seq<Graph>, done: set<Place>, t: Tables)
    requires AllInRange(graphs, done) && t == TablesOf(graphs, done)
    ensures SymbolsAre(graphs, done, t.symbols)
  {
    forall s ensures HasSymbol(t.symbols, s) <==> SymbolPlaced(graphs, done, s) {
      assert s in SymbolsIn(graphs, done) <==> SymbolPlaced(graphs, done, s);
      assert s in SymbolsIn(graphs, done) ==> s.id in t.symbols;
    }
    forall id | id in t.symbols ensures t.symbols[id] != {} && forall s :: s in t.symbols[id] ==> s.id == id {
      var s :| s in SymbolsIn(graphs, done) && s.id == id;
      assert s in t.symbols[id];
    }
  }

  lemma ContextsExist(graphs: seq<Graph>, done: set<Place>, t: Tables)
    requires AllInRange(graphs, done) && t == TablesOf(graphs, done)
    ensures ContextsAre(done, t.contexts)
  {
    forall uri ensures uri in t.contexts <==> FilePlaced(done, uri) { FileOf(done, uri); }
    forall uri, i | uri in t.contexts ensures i in t.contexts[uri] <==> (i, uri) in done {
      if (i, uri) in done { assert (i, uri).1 == uri; }
    }
  }

  // ---- the compiler's part ----------------------------------------------------------------------

  ghost predicate RecordIn(graphs: seq<Graph>, i: nat, id: string, s: Symbol) {
    i < |graphs| && s.id == id && exists p :: p in graphs[i] && s in graphs[i][p].symbols
  }

  /** The records of the symbol in each original that has any, and in the candidate. */
  ghost predicate IsRequest(graphs: seq<Graph>, candidate: Graph, ignored: set<string>, id: string, q: Request) {
    && q.id == id && (forall i: nat :: i in q.originals <==> exists s :: RecordIn(graphs, i, id, s))
    && (forall i: nat, s :: i in q.originals ==> (s in q.originals[i] <==> RecordIn(graphs, i, id, s)))
    && forall s :: s in q.candidate <==> SymbolSeen([candidate], ignored, id, s)
  }

  /** A changed specialization was proven from the records of all its declaring originals and of the candidate. */
  ghost predicate ArgumentsProven(compiler: Compiler, graphs: seq<Graph>, candidate: Graph, ignored: set<string>, id: string) {
    Agree(graphs, candidate, ignored, id, Arguments)
    || (compiler.templates.Some?
        && forall q :: IsRequest(graphs, candidate, ignored, id, q) ==> compiler.templates.value(q) == Proven)
  }

  lemma RequestIs(graphs: seq<Graph>, candidate: Graph, ignored: set<string>, id: string, symbols: set<Symbol>, q: Request)
    requires Records([candidate], ignored, id, symbols)
    ensures IsRequest(graphs, candidate, ignored, id, q) <==> q == RequestFor(graphs, id, symbols)
  {
    hide SymbolSeen;
    var r := RequestFor(graphs, id, symbols);
    forall i: nat, s ensures i < |graphs| ==> (s in RecordsIn(graphs[i], id) <==> RecordIn(graphs, i, id, s)) {
    }
    forall i: nat ensures i in r.originals <==> exists s :: RecordIn(graphs, i, id, s) {
      if i < |graphs| && RecordsIn(graphs[i], id) != {} {
        var s :| s in RecordsIn(graphs[i], id);
        assert RecordIn(graphs, i, id, s);
      }
    }
    if IsRequest(graphs, candidate, ignored, id, q) {
      assert q.candidate == symbols;
      assert q.originals.Keys == r.originals.Keys;
      forall i | i in q.originals ensures q.originals[i] == r.originals[i] {
        assert forall s :: s in q.originals[i] <==> s in r.originals[i];
      }
      assert q.originals == r.originals;
    }
  }

  lemma ArgumentsMean(compiler: Compiler, graphs: seq<Graph>, candidate: Graph, ignored: set<string>, id: string,
                      old': set<Symbol>, new': set<Symbol>)
    requires Records(graphs, ignored, id, old') && Records([candidate], ignored, id, new')
    ensures ArgumentsProven(compiler, graphs, candidate, ignored, id) <==>
              (SameArguments(old', new')
               || (compiler.templates.Some? && compiler.templates.value(RequestFor(graphs, id, new')) == Proven))
  {
    hide Records, Agree, SameArguments, SameIdentity, SameCompletion, SameFields, IsRequest, RequestFor;
    IdentityMeans(graphs, candidate, ignored, id, old', new');
    forall q ensures IsRequest(graphs, candidate, ignored, id, q) <==> q == RequestFor(graphs, id, new') {
      RequestIs(graphs, candidate, ignored, id, new', q);
    }
  }

  ghost predicate AreHolders(graphs: seq<Graph>, ignored: set<string>, uri: string, holders: set<nat>) {
    forall i :: i in holders <==> FileSeen(graphs, ignored, i, uri)
  }

  /** The reference was proven, at its place and for its symbol, in all originals that have its file. */
  ghost predicate RefVerified(compiler: Compiler, graphs: seq<Graph>, ignored: set<string>, r: Ref) {
    compiler.resolve.Some?
    && forall holders :: AreHolders(graphs, ignored, r.location.uri, holders) ==>
         compiler.resolve.value(r.location.uri, r.location.startLine, r.location.startColumn, r.symbol, holders) == Proven
  }

  lemma VerifiedMeans(compiler: Compiler, graphs: seq<Graph>, candidate: Graph, ignored: set<string>, t: Tables, r: Ref)
    requires IsTables(graphs, ignored, t) && r.location.uri in t.contexts
    ensures RefProven(compiler, t.contexts, r) <==> RefVerified(compiler, graphs, ignored, r)
  {
    hide IsTables;
    var holders := t.contexts[r.location.uri];
    forall i ensures i in holders <==> FileSeen(graphs, ignored, i, r.location.uri) {
      ContextsAreHolders(graphs, ignored, t, r.location.uri);
    }
    forall h | AreHolders(graphs, ignored, r.location.uri, h) ensures h == holders {
      assert forall i :: i in h <==> i in holders;
    }
  }

  // ---- acceptance -------------------------------------------------------------------------------

  ghost predicate SymbolKnown(graphs: seq<Graph>, ignored: set<string>, id: string) {
    exists s :: SymbolSeen(graphs, ignored, id, s)
  }

  /** The candidate says of every file, symbol, relation and reference what the originals say, up to what is excused. */
  ghost predicate Compatible(spelling: Spelling, compiler: Compiler, graphs: seq<Graph>, candidate: Graph, ignored: set<string>) {
    && Usable(graphs, ignored) && Usable([candidate], ignored) && SameFiles(graphs, candidate, ignored)
    && (forall id :: SymbolKnown(graphs, ignored, id) <==> SymbolKnown([candidate], ignored, id))
    && (forall id :: SymbolKnown([candidate], ignored, id) ==>
          SymbolStays(spelling, graphs, candidate, ignored, id) && ArgumentsProven(compiler, graphs, candidate, ignored, id))
    && (forall r :: RelationSeen(graphs, ignored, r) <==> RelationSeen([candidate], ignored, r))
    && (forall r :: RefSeen(graphs, ignored, r) ==> RefSeen([candidate], ignored, r))
    && forall r :: RefSeen([candidate], ignored, r) && !RefSeen(graphs, ignored, r) ==> RefVerified(compiler, graphs, ignored, r)
  }

  lemma KnownMeans(graphs: seq<Graph>, ignored: set<string>, t: Tables, id: string)
    requires IsTables(graphs, ignored, t)
    ensures id in t.symbols <==> SymbolKnown(graphs, ignored, id)
    ensures id in t.symbols ==> Records(graphs, ignored, id, t.symbols[id])
  {
    hide IsTables, SymbolSeen;
    SymbolsSeen(graphs, ignored, t, id);
    if id in t.symbols {
      var s :| s in t.symbols[id];
      assert SymbolSeen(graphs, ignored, id, s);
    }
  }

  /** The comparison of the symbol tables, said of the graphs. */
  lemma SymbolTablesMean(spelling: Spelling, compiler: Compiler, graphs: seq<Graph>, candidate: Graph, ignored: set<string>,
                         t: Tables, u: Tables)
    requires IsTables(graphs, ignored, t) && IsTables([candidate], ignored, u)
    ensures (&& t.symbols.Keys == u.symbols.Keys
             && (forall id :: id in u.symbols ==> SymbolKept(spelling, graphs, t.refs, id, t.symbols[id], u.symbols[id]))
             && TemplatesProven(compiler, graphs, t, u))
            <==>
            (&& (forall id :: SymbolKnown(graphs, ignored, id) <==> SymbolKnown([candidate], ignored, id))
             && forall id :: SymbolKnown([candidate], ignored, id) ==>
                  SymbolStays(spelling, graphs, candidate, ignored, id)
                  && ArgumentsProven(compiler, graphs, candidate, ignored, id))
  {
    hide IsTables, SymbolKnown, SymbolKept, SymbolStays, ArgumentsProven, SameArguments, RequestFor, Records;
    forall id
      ensures id in t.symbols <==> SymbolKnown(graphs, ignored, id)
      ensures id in u.symbols <==> SymbolKnown([candidate], ignored, id)
    {
      KnownMeans(graphs, ignored, t, id);
      KnownMeans([candidate], ignored, u, id);
    }
    forall id | id in t.symbols && id in u.symbols
      ensures SymbolKept(spelling, graphs, t.refs, id, t.symbols[id], u.symbols[id])
              <==> SymbolStays(spelling, graphs, candidate, ignored, id)
      ensures ArgumentsProven(compiler, graphs, candidate, ignored, id) <==>
                (SameArguments(t.symbols[id], u.symbols[id])
                 || (compiler.templates.Some?
                     && compiler.templates.value(RequestFor(graphs, id, u.symbols[id])) == Proven))
    {
      KnownMeans(graphs, ignored, t, id);
      KnownMeans([candidate], ignored, u, id);
      SymbolMeans(spelling, graphs, candidate, ignored, t, id, t.symbols[id], u.symbols[id]);
      ArgumentsMean(compiler, graphs, candidate, ignored, id, t.symbols[id], u.symbols[id]);
    }
    if forall id :: SymbolKnown(graphs, ignored, id) <==> SymbolKnown([candidate], ignored, id) {
      forall id ensures id in t.symbols <==> id in u.symbols {
        assert SymbolKnown(graphs, ignored, id) <==> SymbolKnown([candidate], ignored, id);
      }
      assert t.symbols.Keys == u.symbols.Keys;
    }
  }

  /** The comparison of references and relations, said of the graphs. */
  lemma RefTablesMean(compiler: Compiler, graphs: seq<Graph>, candidate: Graph, ignored: set<string>, t: Tables, u: Tables)
    requires IsTables(graphs, ignored, t) && IsTables([candidate], ignored, u)
    requires Usable([candidate], ignored) && SameFiles(graphs, candidate, ignored)
    ensures t.relations == u.relations <==>
              forall r :: RelationSeen(graphs, ignored, r) <==> RelationSeen([candidate], ignored, r)
    ensures t.refs <= u.refs <==> forall r :: RefSeen(graphs, ignored, r) ==> RefSeen([candidate], ignored, r)
    ensures (forall r :: r in u.refs - t.refs ==> RefProven(compiler, t.contexts, r)) <==>
              forall r :: RefSeen([candidate], ignored, r) && !RefSeen(graphs, ignored, r) ==>
                RefVerified(compiler, graphs, ignored, r)
  {
    hide IsTables, Usable, SameFiles, RefSeen, RelationSeen, RefProven, RefVerified;
    forall r
      ensures r in t.relations <==> RelationSeen(graphs, ignored, r)
      ensures r in u.relations <==> RelationSeen([candidate], ignored, r)
    {
      RelationsSeen(graphs, ignored, t, r);
      RelationsSeen([candidate], ignored, u, r);
    }
    forall r
      ensures r in t.refs <==> RefSeen(graphs, ignored, r)
      ensures r in u.refs <==> RefSeen([candidate], ignored, r)
    {
      RefsSeen(graphs, ignored, t, r);
      RefsSeen([candidate], ignored, u, r);
    }
    forall r | r in u.refs - t.refs ensures RefProven(compiler, t.contexts, r) <==> RefVerified(compiler, graphs, ignored, r) {
      AddedHasContext(graphs, candidate, ignored, t, r);
      VerifiedMeans(compiler, graphs, candidate, ignored, t, r);
    }
    SameRelations(t.relations, u.relations);
  }

  lemma SameRelations(a: set<Relation>, b: set<Relation>)
    ensures a == b <==> forall r :: r in a <==> r in b
  {
    if forall r :: r in a <==> r in b { assert a == b; }
  }

  lemma AddedHasContext(graphs: seq<Graph>, candidate: Graph, ignored: set<string>, t: Tables, r: Ref)
    requires IsTables(graphs, ignored, t) && Usable([candidate], ignored) && SameFiles(graphs, candidate, ignored)
    requires RefSeen([candidate], ignored, r)
    ensures r.location.uri in t.contexts
  {
    hide IsTables, IncludeSeen, FilesAgree, HasFile;
    var i: nat, uri :| i < 1 && uri in candidate && uri !in ignored && r in candidate[uri].refs;
    assert FileSeen([candidate], ignored, 0, uri);
    assert r.location.uri == uri;
    FileHasContext(graphs, ignored, t, uri);
  }

  lemma FileHasContext(graphs: seq<Graph>, ignored: set<string>, t: Tables, uri: string)
    requires IsTables(graphs, ignored, t) && exists i: nat :: FileSeen(graphs, ignored, i, uri)
    ensures uri in t.contexts
  {
    hide SourcesAre, SymbolsAre;
    var i: nat :| FileSeen(graphs, ignored, i, uri);
    assert (i, uri) in Places(graphs, ignored);
  }

  /** A candidate is accepted exactly when it says what the originals say, up to what is excused: any other difference in a
      file, a symbol's fields, languages, flags, headers or places, a relation or a reference is refused. */
  lemma AcceptsMeans(spelling: Spelling, compiler: Compiler, graphs: seq<Graph>, candidate: Graph, ignored: set<string>)
    ensures Accepts(spelling, compiler, graphs, candidate, ignored)
            <==> Compatible(spelling, compiler, graphs, candidate, ignored)
  {
    hide IsTables, Collectable, Preserves, Usable, SymbolKnown, SymbolStays, ArgumentsProven, RelationSeen, RefSeen, RefVerified;
    hide SameFiles;
    CollectableMeans(graphs, ignored);
    CollectableMeans([candidate], ignored);
    if Usable(graphs, ignored) && Usable([candidate], ignored) {
      TablesExist(graphs, ignored);
      TablesExist([candidate], ignored);
      var t, u := TablesOf(graphs, Places(graphs, ignored)), TablesOf([candidate], Places([candidate], ignored));
      UsableIsSome(graphs, ignored);
      AcceptsTables(spelling, compiler, graphs, candidate, ignored, t, u);
      PreservesMeans(spelling, compiler, graphs, candidate, ignored, t, u);
    }
  }

  lemma UsableIsSome(graphs: seq<Graph>, ignored: set<string>)
    requires Usable(graphs, ignored)
    ensures graphs != []
  {
  }

  lemma PreservesMeans(spelling: Spelling, compiler: Compiler, graphs: seq<Graph>, candidate: Graph, ignored: set<string>,
                       t: Tables, u: Tables)
    requires IsTables(graphs, ignored, t) && IsTables([candidate], ignored, u)
    requires Usable(graphs, ignored) && Usable([candidate], ignored)
    ensures Preserves(spelling, compiler, graphs, t, u) <==> Compatible(spelling, compiler, graphs, candidate, ignored)
  {
    hide IsTables, Usable, SymbolKnown, SymbolStays, ArgumentsProven, RelationSeen, RefSeen, RefVerified, SameFiles;
    hide SymbolKept, TemplatesProven, RefProven;
    SourcesMean(graphs, candidate, ignored, t, u);
    if SameFiles(graphs, candidate, ignored) {
      SymbolTablesMean(spelling, compiler, graphs, candidate, ignored, t, u);
      RefTablesMean(compiler, graphs, candidate, ignored, t, u);
    }
  }
}
